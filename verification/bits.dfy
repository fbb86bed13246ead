/** The pure helper `bitfield(value, size)`: the binary digits of `value`,
    most significant first, left-padded with zeros to `size` when a size is
    given. */
module Bits {

  import opened Wrappers

  type Bit = b: int | 0 <= b < 2

  /** `bin(n)[2:]` for `n >= 0`: no leading zero, and `"0"` for zero. */
  function Bin(n: nat): (s: seq<Bit>)
    ensures 1 <= |s|
    ensures s[0] == 0 <==> n == 0
  {
    if n < 2 then [n] else Bin(n / 2) + [n % 2]
  }

  /** The number a digit string denotes, most significant digit first. */
  function ValueOf(s: seq<Bit>): nat {
    if |s| == 0 then 0 else ValueOf(s[..|s| - 1]) * 2 + s[|s| - 1]
  }

  function Zeros(k: nat): (z: seq<Bit>)
    ensures |z| == k && forall i :: 0 <= i < k ==> z[i] == 0
  {
    if k == 0 then [] else [0] + Zeros(k - 1)
  }

  /** `str.zfill(size)` on a string without a sign: zeros on the left up to
      `size` characters; never shortens. */
  function ZFill(s: seq<Bit>, size: int): (r: seq<Bit>)
    ensures |r| == if size <= |s| then |s| else size
    ensures r[|r| - |s|..] == s
    ensures forall i :: 0 <= i < |r| - |s| ==> r[i] == 0
  {
    if size <= |s| then s else Zeros(size - |s|) + s
  }

  /** `bitfield(value, size)`. A negative value has `bin(value)[2:]`
      starting with `b`, and `int('b')` raises: that is `None` here. */
  function Bitfield(value: int, size: Option<int>): (r: Option<seq<Bit>>)
    ensures r.Some? <==> value >= 0
  {
    if value < 0 then None
    else match size
      case None => Some(Bin(value))
      case Some(k) => Some(ZFill(Bin(value), k))
  }

  /** The digits of `bin` denote the number again. */
  lemma {:induction false} ValueOfBin(n: nat)
    ensures ValueOf(Bin(n)) == n
  {
    if n >= 2 {
      var s := Bin(n);
      assert s[..|s| - 1] == Bin(n / 2);
      ValueOfBin(n / 2);
    }
  }

  /** Leading zeros do not change the value. */
  lemma {:induction false} ValueOfLeadingZeros(z: seq<Bit>, s: seq<Bit>)
    requires forall i :: 0 <= i < |z| ==> z[i] == 0
    ensures ValueOf(z + s) == ValueOf(s)
  {
    if |s| == 0 {
      assert z + s == z;
      ZerosValue(z);
    } else {
      assert (z + s)[..|z + s| - 1] == z + s[..|s| - 1];
      ValueOfLeadingZeros(z, s[..|s| - 1]);
    }
  }

  lemma {:induction false} ZerosValue(z: seq<Bit>)
    requires forall i :: 0 <= i < |z| ==> z[i] == 0
    ensures ValueOf(z) == 0
  {
    if |z| > 0 {
      ZerosValue(z[..|z| - 1]);
    }
  }

  /** Whatever the size, the bit list of a non-negative value denotes that
      value, and it is exactly as long as the larger of `size` and the
      length of `bin(value)[2:]`. */
  lemma BitfieldRoundTrip(value: nat, size: Option<int>)
    ensures Bitfield(value, size).Some?
    ensures ValueOf(Bitfield(value, size).value) == value
    ensures |Bitfield(value, size).value|
      == if size.Some? && size.value > |Bin(value)| then size.value else |Bin(value)|
  {
    ValueOfBin(value);
    var b := Bin(value);
    var r := Bitfield(value, size).value;
    if size.Some? && size.value > |b| {
      assert r == Zeros(size.value - |b|) + b;
      ValueOfLeadingZeros(Zeros(size.value - |b|), b);
    }
  }

  /** Without a size the list is canonical: different values give different
      lists, and no list has a leading zero except that of zero. */
  lemma BinInjective(m: nat, n: nat)
    requires Bin(m) == Bin(n)
    ensures m == n
  {
    ValueOfBin(m);
    ValueOfBin(n);
  }
}
