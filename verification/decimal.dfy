/** Python's rendering of integers as text, as used for version strings
    (`f"{major}.{minor}.{patch}"`) and for `time.isoformat()`. */
module Decimal {

  predicate IsDigit(c: char) {
    '0' <= c <= '9'
  }

  predicate AllDigits(s: string) {
    forall i :: 0 <= i < |s| ==> IsDigit(s[i])
  }

  function DigitChar(d: nat): (c: char)
    requires d < 10
    ensures IsDigit(c)
  {
    (d + '0' as int) as char
  }

  function DigitValue(c: char): (d: nat)
    requires IsDigit(c)
    ensures d < 10 && DigitChar(d) == c
  {
    c as int - '0' as int
  }

  /** `str(n)`: decimal digits, most significant first, no leading zero. */
  function Show(n: nat): (s: string)
    ensures 1 <= |s| && AllDigits(s)
    ensures s[0] == '0' ==> n == 0
  {
    if n < 10 then [DigitChar(n)] else Show(n / 10) + [DigitChar(n % 10)]
  }

  /** `int(s)` for a string of digits. */
  function Parse(s: string): nat
    requires AllDigits(s)
  {
    if |s| == 0 then 0 else Parse(s[..|s| - 1]) * 10 + DigitValue(s[|s| - 1])
  }

  /** Reading back what `Show` renders gives the number again. */
  lemma {:induction false} ParseShow(n: nat)
    ensures Parse(Show(n)) == n
  {
    if n >= 10 {
      var s := Show(n);
      assert s[..|s| - 1] == Show(n / 10);
      ParseShow(n / 10);
    }
  }

  /** Different numbers render differently. */
  lemma ShowInjective(a: nat, b: nat)
    requires Show(a) == Show(b)
    ensures a == b
  {
    ParseShow(a);
    ParseShow(b);
  }

  /** `f"{a}.{b}.{c}"`. */
  function Dotted(a: nat, b: nat, c: nat): string {
    Show(a) + "." + Show(b) + "." + Show(c)
  }

  /** In `Show(a) + "." + rest` the first dot sits right after the digits. */
  lemma FirstDot(a: nat, rest: string)
    ensures (Show(a) + "." + rest)[|Show(a)|] == '.'
    ensures forall i :: 0 <= i < |Show(a)| ==> (Show(a) + "." + rest)[i] != '.'
  {
    var s := Show(a);
    forall i | 0 <= i < |s|
      ensures (s + "." + rest)[i] != '.'
    {
      assert (s + "." + rest)[i] == s[i];
    }
  }

  /** Splitting `Show(a) + "." + rest` at its first dot recovers `a` and `rest`,
      because rendered numbers hold no dot. */
  lemma SplitAtDot(a: nat, rest: string, a': nat, rest': string)
    requires Show(a) + "." + rest == Show(a') + "." + rest'
    ensures a == a' && rest == rest'
  {
    var s, s' := Show(a), Show(a');
    var whole := s + "." + rest;
    if |s| < |s'| {
      FirstDot(a, rest);
      FirstDot(a', rest');
      assert false;
    } else if |s'| < |s| {
      FirstDot(a, rest);
      FirstDot(a', rest');
      assert false;
    }
    assert s == whole[..|s|] == s';
    ShowInjective(a, a');
    assert rest == whole[|s| + 1..] == rest';
  }

  /** A dotted triple determines its three numbers. */
  lemma DottedInjective(a: nat, b: nat, c: nat, a': nat, b': nat, c': nat)
    requires Dotted(a, b, c) == Dotted(a', b', c')
    ensures a == a' && b == b' && c == c'
  {
    assert Dotted(a, b, c) == Show(a) + "." + (Show(b) + "." + Show(c));
    assert Dotted(a', b', c') == Show(a') + "." + (Show(b') + "." + Show(c'));
    SplitAtDot(a, Show(b) + "." + Show(c), a', Show(b') + "." + Show(c'));
    SplitAtDot(b, Show(c), b', Show(c'));
    ShowInjective(c, c');
  }

  /** `"%02d"`: two digits with a leading zero below ten. */
  function TwoDigits(n: nat): (s: string)
    requires n < 100
    ensures |s| == 2 && AllDigits(s)
    ensures Parse(s) == n
  {
    var s := [DigitChar(n / 10), DigitChar(n % 10)];
    assert s[..1] == [DigitChar(n / 10)] && s[..1][..0] == [];
    assert Parse(s[..1]) == n / 10;
    s
  }
}
