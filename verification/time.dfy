/** The time entity `HHC_Time` of `time.py`: a register packs a time of day
    as hour in the high byte and minute in the low byte. Setting a value is
    not implemented: the setter returns at once. */
module TimeEntity {

  import opened Wrappers
  import opened Modbus
  import opened Host
  import Decimal

  /** A `datetime.time` with zero seconds. */
  datatype TimeOfDay = TimeOfDay(hour: nat, minute: nat)

  predicate ValidTime(t: TimeOfDay) {
    t.hour < 24 && t.minute < 60
  }

  const Midnight := TimeOfDay(0, 0)

  /** `data` is `_data`, a raw register value or `None`. */
  datatype Time = Time(slave: nat, address: nat, data: Option<int>)

  /** `(data >> 8) & 0xFF`. For a positive divisor Dafny's division rounds
      down like Python's shift, and `& 0xFF` is the remainder modulo 256, so
      negative data is covered as well. */
  function HourByte(data: int): (h: nat)
    ensures h < 256
  {
    data / 256 % 256
  }

  /** `data & 0xFF`. */
  function MinuteByte(data: int): (m: nat)
    ensures m < 256
  {
    data % 256
  }

  /** `native_value`: `None` without data; the packed time when its hour and
      minute are valid; midnight instead of the error `time()` raises
      otherwise. */
  function NativeValue(data: Option<int>): (t: Option<TimeOfDay>)
    ensures t.Some? <==> data.Some?
    ensures t.Some? ==> ValidTime(t.value)
    ensures data.Some? && HourByte(data.value) < 24 && MinuteByte(data.value) < 60 ==>
      t == Some(TimeOfDay(HourByte(data.value), MinuteByte(data.value)))
    ensures data.Some? && !(HourByte(data.value) < 24 && MinuteByte(data.value) < 60) ==>
      t == Some(Midnight)
  {
    match data
    case None => None
    case Some(d) =>
      var h, m := HourByte(d), MinuteByte(d);
      if h < 24 && m < 60 then Some(TimeOfDay(h, m)) else Some(Midnight)
  }

  /** The register value of a time of day: hour in the high byte. */
  function Pack(t: TimeOfDay): (w: Word)
    requires ValidTime(t)
  {
    t.hour * 256 + t.minute
  }

  /** Euclidean remainder: `s` is what is left of `d` after whole multiples of 2^16. */
  lemma RemainderOfWord(d: int, k: int, s: int)
    requires 0 <= s < 0x1_0000 && d == 0x1_0000 * k + s
    ensures d % 0x1_0000 == s
  {
  }

  /** The low 16 bits of any value are its high byte and its low byte. */
  lemma HighAndLowBytes(d: int)
    ensures d % 0x1_0000 == HourByte(d) * 256 + MinuteByte(d)
  {
    var q, r := d / 256, d % 256;
    var k, b := q / 256, q % 256;
    assert d == 256 * q + r;
    assert q == 256 * k + b;
    assert d == 0x1_0000 * k + (256 * b + r);
    RemainderOfWord(d, k, 256 * b + r);
  }

  /** Unpacking what `Pack` stores gives the time back. */
  lemma UnpackPack(t: TimeOfDay)
    requires ValidTime(t)
    ensures NativeValue(Some(Pack(t))) == Some(t)
  {
    var w := Pack(t);
    assert w / 256 == t.hour && w % 256 == t.minute;
  }

  /** Whatever the register holds, the time shown is either midnight or the
      time whose packing is the register's low 16 bits. */
  lemma PackUnpack(d: int)
    ensures NativeValue(Some(d)) == Some(Midnight) || Pack(NativeValue(Some(d)).value) == d % 0x1_0000
  {
    HighAndLowBytes(d);
  }

  /** `time.isoformat()` for a time without seconds: `HH:MM:00`. */
  function IsoFormat(t: TimeOfDay): (s: string)
    requires ValidTime(t)
    ensures |s| == 8 && s[2] == ':' && s[5] == ':' && s[6..] == "00"
    ensures Decimal.AllDigits(s[..2]) && Decimal.Parse(s[..2]) == t.hour
    ensures Decimal.AllDigits(s[3..5]) && Decimal.Parse(s[3..5]) == t.minute
  {
    var s := Decimal.TwoDigits(t.hour) + ":" + Decimal.TwoDigits(t.minute) + ":00";
    assert s[..2] == Decimal.TwoDigits(t.hour);
    assert s[3..5] == Decimal.TwoDigits(t.minute);
    s
  }

  /** Different times of day show different strings. */
  lemma IsoFormatInjective(t: TimeOfDay, u: TimeOfDay)
    requires ValidTime(t) && ValidTime(u) && IsoFormat(t) == IsoFormat(u)
    ensures t == u
  {
  }

  /** `state`: the ISO form of the native value, unavailable without data. */
  function State(e: Time): (h: HostState)
    ensures h == Unavailable <==> e.data.None?
    ensures e.data.Some? ==> h == Shown(IsoFormat(NativeValue(e.data).value))
  {
    match NativeValue(e.data)
    case None => Unavailable
    case Some(t) => Shown(IsoFormat(t))
  }

  /** `async_set_value(value)`: returns before doing anything, so it sends no
      write and the entity is as before. */
  function SetValue(e: Time, value: TimeOfDay): (r: (Time, Option<WriteRequest>))
  {
    (e, None)
  }

  /** Setting a time changes neither the entity nor what it shows, and writes
      nothing. */
  lemma SetValueIsInert(e: Time, value: TimeOfDay)
    ensures SetValue(e, value).1.None?
    ensures State(SetValue(e, value).0) == State(e)
    ensures NativeValue(SetValue(e, value).0.data) == NativeValue(e.data)
  {
  }
}
