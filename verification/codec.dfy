/** The register codec of `homeheatcontrol.py`: the rules by which the hub's
    `read_modbus_data_*` methods turn raw holding registers into the values
    they store in `hub.data`. Every rule is total: each register content gives
    some value, and bad contents give a label or `None`, never an error. */
module Codec {

  import opened Wrappers
  import opened Modbus
  import Decimal
  import Lists

  /** A value the hub stores under a key of `hub.data`. */
  datatype Value =
    | Text(text: string)   // a status or sentinel label, or a version string
    | Tenths(tenths: int)  // the Python float `tenths / 10`
    | Whole(n: int)        // a Python int stored without scaling
    | Bool(b: bool)        // a Python bool
    | Absent               // Python `None`

  // ---------------------------------------------------------------------
  // Signed temperature: INT16 in tenths of a degree, three sentinels.

  const NotFitted := "Nicht verbaut"
  const Initialising := "Init"
  const Fault := "Fehler"

  const NotFittedCode := 0x7FFD
  const InitialisingCode := 0x7FFE
  const FaultCode := 0x7FFF

  predicate IsTemperatureSentinel(raw: int) {
    raw == NotFittedCode || raw == InitialisingCode || raw == FaultCode
  }

  /** The signed-temperature rule: the three top INT16 values are labels,
      every other value is a reading in tenths. */
  function SignedTemperature(w: Word): (v: Value)
    ensures v.Tenths? <==> !IsTemperatureSentinel(Int16(w))
    ensures v.Tenths? ==> v.tenths == Int16(w) && -0x8000 <= v.tenths < NotFittedCode
    ensures !v.Tenths? ==> v.Text?
  {
    var raw := Int16(w);
    if raw == NotFittedCode then Text(NotFitted)
    else if raw == InitialisingCode then Text(Initialising)
    else if raw == FaultCode then Text(Fault)
    else Tenths(raw)
  }

  /** The register content a device reports for a temperature value: the
      inverse of `SignedTemperature` on its range, `None` off it. */
  function TemperatureWord(v: Value): (w: Option<Word>)
  {
    match v
    case Tenths(t) => if -0x8000 <= t < NotFittedCode then Some(WordOfInt16(t)) else None
    case Text(s) =>
      if s == NotFitted then Some(NotFittedCode)
      else if s == Initialising then Some(InitialisingCode)
      else if s == Fault then Some(FaultCode)
      else None
    case _ => None
  }

  /** The temperature rule loses nothing: each register content is recovered
      from its decoded value, and each value in the rule's range decodes from
      the content that encodes it. */
  lemma TemperatureRoundTrip(w: Word, v: Value)
    ensures TemperatureWord(SignedTemperature(w)) == Some(w)
    ensures TemperatureWord(v).Some? ==> SignedTemperature(TemperatureWord(v).value) == v
  {
    Int16RoundTrip(0, w);
    match v
    case Tenths(t) =>
      if -0x8000 <= t < NotFittedCode {
        Int16RoundTrip(t, w);
      }
    case _ =>
  }

  // ---------------------------------------------------------------------
  // Bounded percent, flag, fill level.

  /** The bounded-percent rule (mixer positions, target forerun temperatures):
      UINT16 stored unscaled up to 100, `None` above. */
  function BoundedPercent(w: Word): (v: Value)
    ensures v.Whole? <==> w <= 100
    ensures v.Whole? ==> 0 <= v.n <= 100 && v.n == w
    ensures !v.Whole? ==> v == Absent
  {
    if w > 100 then Absent else Whole(w)
  }

  /** The flag rule: any non-zero register is `True`. */
  function Flag(w: Word): (v: Value)
    ensures v.Bool? && (v.b <==> w != 0)
  {
    Bool(w != 0)
  }

  /** The register a device holds for a flag, as the switches write it. */
  function FlagWord(b: bool): Word {
    if b then 1 else 0
  }

  /** Decoding the word written for a flag gives the flag back. */
  lemma FlagRoundTrip(b: bool)
    ensures Flag(FlagWord(b)) == Bool(b)
  {
  }

  const Invalid := "Ungültig"
  const FillNotFittedCode := 0xFFFE
  const FillInvalidCode := 0xFFFF

  /** The fill-level rule: UINT16 in tenths of a percent. `0xFFFF` is
      "Ungültig"; `0xFFFE` is "Nicht verbaut" only where the point checks for
      it (buffer 2), elsewhere it is the reading 6553.4. */
  function FillLevel(w: Word, checksNotFitted: bool): (v: Value)
    ensures v == Text(Invalid) <==> w == FillInvalidCode
    ensures v == Text(NotFitted) <==> checksNotFitted && w == FillNotFittedCode
    ensures v.Tenths? <==> w != FillInvalidCode && !(checksNotFitted && w == FillNotFittedCode)
    ensures v.Tenths? ==> v.tenths == w
  {
    if checksNotFitted && w == FillNotFittedCode then Text(NotFitted)
    else if w == FillInvalidCode then Text(Invalid)
    else Tenths(w)
  }

  /** The two kinds of fill-level point disagree on exactly one content. */
  lemma FillLevelVariants(w: Word)
    ensures FillLevel(w, true) != FillLevel(w, false) <==> w == FillNotFittedCode
    ensures FillLevel(FillNotFittedCode, false) == Tenths(65534)
  {
  }

  // ---------------------------------------------------------------------
  // Enumerated status tables.

  /** The status families. `Pump` is also the doorbell's table. */
  datatype Family =
    | Pump
    | HeatCircuit
    | Mixer
    | Buffer
    | BufferActive
    | Valve
    | Charge
    | Boiler
    | CirculationCircuit
    | Burner

  /** The labels of a family, indexed by code (spelling as in the source,
      including "Öffen"). */
  function Labels(f: Family): (labels: seq<string>)
    ensures 4 <= |labels| <= 10
  {
    match f
    case Pump => ["Nicht verbaut", "Aus", "An", "Fehler"]
    case HeatCircuit =>
      ["Nicht verbaut", "Aus - Manuell", "Aus - Timer", "Nachtbetrieb - Manuell",
       "Nachtbetrieb - Timer", "Tagbetrieb - Manuell", "Tagbetrieb - Timer", "Fehler"]
    case Mixer =>
      ["Nicht verbaut", "Aus", "Normierung", "Öffen - Langsam", "Öffnen - Schnell",
       "Schließen - Langsam", "Schließen - Schnell", "Fehler"]
    case Buffer =>
      ["Nicht verbaut", "OK", "Kodierfehler", "Temperatursensorfehler", "Externer Fehler"]
    case BufferActive =>
      ["Nicht verfügbar", "Pufferspeicher 1", "Pufferspeicher 2", "Beide parallel"]
    case Valve =>
      ["Nicht verbaut", "Entnormiert", "Offen", "Öffnen", "Geschlossen", "Schließen", "Fehler"]
    case Charge =>
      ["Nicht verfügbar", "Nicht aktiv", "Aktiv", "Überladen aktiv", "Vollständig überladen",
       "Angefordert", "Nachlauf", "Fehler Temperatursensor", "Fehler Extern", "Fehler Kodierung"]
    case Boiler =>
      ["Nicht verfügbar", "Aus", "manuelles laden", "automatisches laden", "laden wird beendet",
       "Fehler: Ladevorgang Zeitüberschreitung", "Fehler"]
    case CirculationCircuit =>
      ["Nicht verbaut", "Aus", "An", "Fehler Kodierung", "Fehler Temperatursensor",
       "Fehler Pumpe oder Ventil", "Fehler Extern", "Fehler Pufferspeicher unter Mindesttemperatur"]
    case Burner =>
      ["Nicht verfügbar", "Aus", "Pumpe aktiv", "Brand Startphase", "Brand Startphase fehlgeschlagen",
       "Brennt", "Brennvorgang beendet", "Fehler - Stromversorgung unterbrochen", "Fehler"]
  }

  /** The enum rule: codes `0 .. n-1` of the family's table give its labels,
      every other code gives `None`. */
  function Status(f: Family, code: Word): (v: Value)
    ensures v.Text? <==> code < |Labels(f)|
    ensures v.Text? ==> v.text in Labels(f)
    ensures !v.Text? ==> v == Absent
  {
    if code < |Labels(f)| then Text(Labels(f)[code]) else Absent
  }

  /** The code a label stands for in a family: its first position. */
  function CodeOf(f: Family, name: string): (c: Option<nat>)
    ensures c.Some? ==> c.value < |Labels(f)| && Labels(f)[c.value] == name
    ensures c.None? ==> name !in Labels(f)
  {
    Lists.FirstIndex(Labels(f), name)
  }

  lemma CircuitLabelsDistinct(f: Family)
    requires f.Pump? || f.HeatCircuit? || f.Mixer? || f.Buffer? || f.BufferActive?
    ensures Lists.Distinct(Labels(f))
  {
    var labels := Labels(f);
    assert forall i, j :: 0 <= i < j < |labels| ==> labels[i] != labels[j];
  }

  lemma StorageLabelsDistinct(f: Family)
    requires f.Valve? || f.Charge? || f.Boiler? || f.CirculationCircuit? || f.Burner?
    ensures Lists.Distinct(Labels(f))
  {
    var labels := Labels(f);
    assert forall i, j :: 0 <= i < j < |labels| ==> labels[i] != labels[j];
  }

  /** No label appears twice in a family's table. */
  lemma LabelsDistinct(f: Family)
    ensures Lists.Distinct(Labels(f))
  {
    if f.Pump? || f.HeatCircuit? || f.Mixer? || f.Buffer? || f.BufferActive? {
      CircuitLabelsDistinct(f);
    } else {
      StorageLabelsDistinct(f);
    }
  }

  /** Each family's table is a bijection between its codes and its labels:
      the label decoded from a valid code names that code, and a label of the
      table decodes from the code it names. */
  lemma StatusRoundTrip(f: Family, code: Word, name: string)
    ensures code < |Labels(f)| ==> Status(f, code).Text? && CodeOf(f, Status(f, code).text) == Some(code)
    ensures CodeOf(f, name).Some? ==> Status(f, CodeOf(f, name).value) == Text(name)
  {
    LabelsDistinct(f);
  }

  /** The heat circuit 2 mixer table as written: its `elif` chain tests code 6
      where hc1 tests 4, and tests 6 a second time. */
  function Hc2MixerStatus(code: Word): Value {
    if code == 0 then Text("Nicht verbaut")
    else if code == 1 then Text("Aus")
    else if code == 2 then Text("Normierung")
    else if code == 3 then Text("Öffen - Langsam")
    else if code == 6 then Text("Öffnen - Schnell")
    else if code == 5 then Text("Schließen - Langsam")
    else if code == 6 then Text("Schließen - Schnell")
    else if code == 7 then Text("Fehler")
    else Absent
  }

  /** How the hc2 mixer decodes against the mixer table the other circuits
      use: it agrees except on codes 4 (`None`) and 6 ("Öffnen - Schnell"),
      and it never yields "Schließen - Schnell". */
  lemma Hc2MixerDeviation(code: Word)
    ensures code != 4 && code != 6 ==> Hc2MixerStatus(code) == Status(Mixer, code)
    ensures Hc2MixerStatus(4) == Absent && Status(Mixer, 4) == Text("Öffnen - Schnell")
    ensures Hc2MixerStatus(6) == Status(Mixer, 4)
    ensures Hc2MixerStatus(code) != Text("Schließen - Schnell")
  {
  }

  // ---------------------------------------------------------------------
  // Packed software versions: four registers read as a big-endian UINT64.

  const Two16: nat := 0x1_0000
  const Two32: nat := 0x1_0000_0000
  const Two48: nat := 0x1_0000_0000_0000

  /** `convert_from_registers(registers, UINT64)` with big-endian word order. */
  function Uint64(ws: seq<Word>): (v: nat)
    requires |ws| == 4
    ensures v < 0x1_0000_0000_0000_0000
  {
    ws[0] * Two48 + ws[1] * Two32 + ws[2] * Two16 + ws[3]
  }

  /** The six version fields: `value >> 56` and `(value >> k) & 0xFF` for
      k = 48, 40, 32, 24, 16. On a non-negative number `>> k` is division by
      2^k and `& 0xFF` is the remainder modulo 256. */
  datatype Versions = Versions(
    fblMajor: nat, fblMinor: nat, fblPatch: nat,
    applMajor: nat, applMinor: nat, applPatch: nat)

  function VersionFields(v: nat): Versions {
    Versions(
      v / 0x100_0000_0000_0000,
      v / 0x1_0000_0000_0000 % 256, v / 0x100_0000_0000 % 256,
      v / 0x1_0000_0000 % 256, v / 0x100_0000 % 256, v / 0x1_0000 % 256)
  }

  /** Dropping the low register of `hi * 2^16 + w` leaves `hi`. */
  lemma DropWord(hi: nat, w: Word)
    ensures (hi * Two16 + w) / Two16 == hi
  {
  }

  /** The two bytes of the low register of `hi * 2^16 + w`. */
  lemma LowWordBytes(hi: nat, w: Word)
    ensures (hi * Two16 + w) % 256 == w % 256
    ensures (hi * Two16 + w) / 256 % 256 == w / 256
  {
  }

  /** The shifts the hub applies, as successive divisions. */
  lemma ShiftSteps(v: nat)
    ensures v / 0x100_0000 == v / Two16 / 256
    ensures v / Two32 == v / Two16 / Two16
    ensures v / 0x100_0000_0000 == v / Two32 / 256
    ensures v / Two48 == v / Two32 / Two16
    ensures v / 0x100_0000_0000_0000 == v / Two48 / 256
  {
  }

  /** Each version field is one byte of the first three registers: the high
      and low byte of register 0, 1 and 2 in turn. */
  lemma VersionBytes(ws: seq<Word>)
    requires |ws| == 4
    ensures var f := VersionFields(Uint64(ws));
      && f.fblMajor == ws[0] / 256 && f.fblMinor == ws[0] % 256
      && f.fblPatch == ws[1] / 256 && f.applMajor == ws[1] % 256
      && f.applMinor == ws[2] / 256 && f.applPatch == ws[2] % 256
    ensures var f := VersionFields(Uint64(ws));
      && f.fblMajor < 256 && f.fblMinor < 256 && f.fblPatch < 256
      && f.applMajor < 256 && f.applMinor < 256 && f.applPatch < 256
  {
    var v := Uint64(ws);
    var a, b, c, d := ws[0], ws[1], ws[2], ws[3];
    var ab := a * Two16 + b;
    var abc := ab * Two16 + c;
    assert v == abc * Two16 + d;
    ShiftSteps(v);
    DropWord(abc, d);
    LowWordBytes(ab, c);
    DropWord(ab, c);
    LowWordBytes(a, b);
    DropWord(a, b);
  }

  /** The two strings stored under `fbl_sw_version` and `appl_sw_version`:
      `f"{major}.{minor}.{patch}"` of each half of the version fields. */
  function VersionStrings(ws: seq<Word>): (p: (string, string))
    requires |ws| == 4
  {
    var f := VersionFields(Uint64(ws));
    (Decimal.Dotted(f.fblMajor, f.fblMinor, f.fblPatch),
     Decimal.Dotted(f.applMajor, f.applMinor, f.applPatch))
  }

  /** In register terms: the boot-loader version is the high byte, low byte
      and high byte of registers 0 and 1; the application version the low
      byte of register 1 and both bytes of register 2. */
  lemma VersionStringsFromBytes(ws: seq<Word>)
    requires |ws| == 4
    ensures VersionStrings(ws).0
      == Decimal.Dotted(ws[0] / 256, ws[0] % 256, ws[1] / 256)
    ensures VersionStrings(ws).1
      == Decimal.Dotted(ws[1] % 256, ws[2] / 256, ws[2] % 256)
  {
    VersionBytes(ws);
  }

  /** The fourth register read at address 3 does not influence either string. */
  lemma FourthRegisterIgnored(ws: seq<Word>, ws': seq<Word>)
    requires |ws| == 4 && |ws'| == 4 && ws[..3] == ws'[..3]
    ensures VersionStrings(ws) == VersionStrings(ws')
  {
    assert ws[0] == ws'[0] && ws[1] == ws'[1] && ws[2] == ws'[2] by {
      assert ws[0] == ws[..3][0] && ws[1] == ws[..3][1] && ws[2] == ws[..3][2];
      assert ws'[0] == ws'[..3][0] && ws'[1] == ws'[..3][1] && ws'[2] == ws'[..3][2];
    }
    VersionStringsFromBytes(ws);
    VersionStringsFromBytes(ws');
  }

  /** A word is determined by its high and low byte. */
  lemma BytesDetermineWord(w: Word, w': Word)
    requires w / 256 == w' / 256 && w % 256 == w' % 256
    ensures w == w'
  {
    assert w == w / 256 * 256 + w % 256;
    assert w' == w' / 256 * 256 + w' % 256;
  }

  /** Conversely, the two strings determine the first three registers: no
      information in them is lost. */
  lemma VersionStringsInjective(ws: seq<Word>, ws': seq<Word>)
    requires |ws| == 4 && |ws'| == 4
    requires VersionStrings(ws) == VersionStrings(ws')
    ensures ws[..3] == ws'[..3]
  {
    VersionStringsFromBytes(ws);
    VersionStringsFromBytes(ws');
    Decimal.DottedInjective(ws[0] / 256, ws[0] % 256, ws[1] / 256,
                            ws'[0] / 256, ws'[0] % 256, ws'[1] / 256);
    Decimal.DottedInjective(ws[1] % 256, ws[2] / 256, ws[2] % 256,
                            ws'[1] % 256, ws'[2] / 256, ws'[2] % 256);
    BytesDetermineWord(ws[0], ws'[0]);
    BytesDetermineWord(ws[1], ws'[1]);
    BytesDetermineWord(ws[2], ws'[2]);
  }
}
