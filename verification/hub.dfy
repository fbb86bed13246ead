/** The hub `HomeHeatControl` of `homeheatcontrol.py`: its read plan (the
    `read_modbus_data_*` methods in the order `read_modbus_data` calls them),
    the read pass that fills `hub.data`, the subscriber list with its poll
    timer, and the refresh that ties them together. The Modbus client is
    abstract: a read is answered by a `ReadOutcome`, a connection attempt by
    a boolean. */
module Hub {

  import opened Wrappers
  import opened Modbus
  import opened Codec
  import Registry
  import Lists

  // ---------------------------------------------------------------------
  // The read plan.

  /** The decoding rule of one reader, with the key(s) it stores under. */
  datatype Rule =
    | VersionRule(fblKey: string, applKey: string)
    | FlagRule(key: string)
    | TemperatureRule(key: string)
    | PercentRule(key: string)
    | FillRule(key: string, checksNotFitted: bool)
    | StatusRule(key: string, family: Family)
    | Hc2MixerRule(key: string)

  function RuleKeys(r: Rule): (ks: seq<string>)
    ensures 1 <= |ks| <= 2
  {
    match r
    case VersionRule(f, a) => [f, a]
    case FlagRule(k) => [k]
    case TemperatureRule(k) => [k]
    case PercentRule(k) => [k]
    case FillRule(k, _) => [k]
    case StatusRule(k, _) => [k]
    case Hc2MixerRule(k) => [k]
  }

  /** Registers one reader asks for: four for the packed version, one otherwise. */
  function Count(r: Rule): nat {
    if r.VersionRule? then 4 else 1
  }

  /** One `read_modbus_data_*` method: its `start_address` and its rule. */
  datatype Reader = Reader(address: nat, rule: Rule)

  /** The version, general, doorbell, heat control management and heat circuit 1 readers, `homeheatcontrol.py` lines 211-509. */
  const GeneralAndHeatCircuit1Readers: seq<Reader> := [
    Reader(0, VersionRule("fbl_sw_version", "appl_sw_version")),
    Reader(3, FlagRule("dtcactive")),
    Reader(20, TemperatureRule("outsidetemperature")),
    Reader(21, TemperatureRule("room1temperature")),
    Reader(22, TemperatureRule("room2temperature")),
    Reader(25, StatusRule("doorbell_status", Pump)),
    Reader(30, FlagRule("heatcontrolmanagement_enabled")),
    Reader(31, FlagRule("heatcontrolmanagement_lowTemperatureWarning")),
    Reader(40, StatusRule("heatcircuit_1_status", HeatCircuit)),
    Reader(41, StatusRule("heatcircuit_1_pumpstatus", Pump)),
    Reader(42, StatusRule("heatcircuit_1_mixerstatus", Mixer)),
    Reader(43, FlagRule("heatcircuit_1_mixernormed")),
    Reader(44, PercentRule("heatcircuit_1_mixerposition")),
    Reader(45, PercentRule("heatcircuit_1_targetForerunTemperature")),
    Reader(46, TemperatureRule("heatcircuit_1_forerunTemperature")),
    Reader(47, TemperatureRule("heatcircuit_1_returnflowTemperature"))
  ]

  /** The heat circuit 2 and 3 readers, `homeheatcontrol.py` lines 511-839. */
  const HeatCircuit2And3Readers: seq<Reader> := [
    Reader(60, StatusRule("heatcircuit_2_status", HeatCircuit)),
    Reader(61, StatusRule("heatcircuit_2_pumpstatus", Pump)),
    Reader(62, Hc2MixerRule("heatcircuit_2_mixerstatus")),
    Reader(63, FlagRule("heatcircuit_2_mixernormed")),
    Reader(64, PercentRule("heatcircuit_2_mixerposition")),
    Reader(65, PercentRule("heatcircuit_2_targetForerunTemperature")),
    Reader(66, TemperatureRule("heatcircuit_2_forerunTemperature")),
    Reader(67, TemperatureRule("heatcircuit_2_returnflowTemperature")),
    Reader(80, StatusRule("heatcircuit_3_status", HeatCircuit)),
    Reader(81, StatusRule("heatcircuit_3_pumpstatus", Pump)),
    Reader(82, StatusRule("heatcircuit_3_mixerstatus", Mixer)),
    Reader(83, FlagRule("heatcircuit_3_mixernormed")),
    Reader(84, PercentRule("heatcircuit_3_mixerposition")),
    Reader(85, PercentRule("heatcircuit_3_targetForerunTemperature")),
    Reader(86, TemperatureRule("heatcircuit_3_forerunTemperature")),
    Reader(87, TemperatureRule("heatcircuit_3_returnflowTemperature"))
  ]

  /** The buffer storage readers, `homeheatcontrol.py` lines 841-1267. */
  const BufferStorageReaders: seq<Reader> := [
    Reader(100, StatusRule("bufferstorage_status", Buffer)),
    Reader(101, TemperatureRule("bufferstorage_1_temperature_top")),
    Reader(102, TemperatureRule("bufferstorage_1_temperature_middletop")),
    Reader(103, TemperatureRule("bufferstorage_1_temperature_middlebottom")),
    Reader(104, TemperatureRule("bufferstorage_1_temperature_bottom")),
    Reader(105, TemperatureRule("bufferstorage_2_temperature_top")),
    Reader(106, TemperatureRule("bufferstorage_2_temperature_middletop")),
    Reader(107, TemperatureRule("bufferstorage_2_temperature_middlebottom")),
    Reader(108, TemperatureRule("bufferstorage_2_temperature_bottom")),
    Reader(109, StatusRule("bufferstorage_charge_or_switch_mixerstatus", Mixer)),
    Reader(110, FlagRule("bufferstorage_charge_or_switch_mixernormed")),
    Reader(111, PercentRule("bufferstorage_charge_or_switch_mixerposition")),
    Reader(112, StatusRule("bufferstorage_chargepumpstatus", Pump)),
    Reader(113, TemperatureRule("bufferstorage_chargewatertemperature")),
    Reader(114, FillRule("bufferstorage_1_filllevel", false)),
    Reader(115, FillRule("bufferstorage_2_filllevel", true)),
    Reader(116, FillRule("bufferstorage_combined_filllevel", false)),
    Reader(117, StatusRule("bufferstorage_active_status", BufferActive)),
    Reader(118, StatusRule("bufferstorage_chargevalvestatus", Valve)),
    Reader(119, StatusRule("bufferstorage_chargestatus", Charge)),
    Reader(120, FlagRule("bufferstorage_chargeElectricOnly"))
  ]

  /** The warm water, wood burner and gas burner readers, `homeheatcontrol.py` lines 1269-1729. */
  const WarmWaterAndBurnerReaders: seq<Reader> := [
    Reader(140, StatusRule("warmwater_boiler_status", Boiler)),
    Reader(141, TemperatureRule("warmwater_boiler_temerature")),
    Reader(142, StatusRule("warmwater_boiler_chargepumpstatus", Pump)),
    Reader(143, StatusRule("warmwater_boiler_valvestatus", Valve)),
    Reader(144, FlagRule("warmwater_boiler_manualChargeActive")),
    Reader(147, FlagRule("warmwater_bath_heatingactive")),
    Reader(150, TemperatureRule("warmwater_circulation_outputtemerature")),
    Reader(151, StatusRule("warmwater_circulation_pumpstatus", Pump)),
    Reader(152, StatusRule("warmwater_circulation_circuit1_status", CirculationCircuit)),
    Reader(153, TemperatureRule("warmwater_circulation_circuit1_temperature")),
    Reader(154, StatusRule("warmwater_circulation_circuit1_valvestatus", Valve)),
    Reader(156, StatusRule("warmwater_circulation_circuit2_status", CirculationCircuit)),
    Reader(157, TemperatureRule("warmwater_circulation_circuit2_temperature")),
    Reader(158, StatusRule("warmwater_circulation_circuit2_valvestatus", Valve)),
    Reader(170, StatusRule("woodburner_status", Burner)),
    Reader(171, TemperatureRule("woodburner_exhaust_temerature")),
    Reader(172, TemperatureRule("woodburner_water_temerature")),
    Reader(180, StatusRule("gasburner_status", Burner)),
    Reader(181, TemperatureRule("gasburner_exhaust_temerature")),
    Reader(182, TemperatureRule("gasburner_water_temerature"))
  ]

  /** All 73 readers in the order of the tuple `read_modbus_data` builds. */
  const Plan: seq<Reader> :=
    GeneralAndHeatCircuit1Readers + HeatCircuit2And3Readers
    + BufferStorageReaders + WarmWaterAndBurnerReaders

  // ---------------------------------------------------------------------
  // One reader, and a pass over a plan.

  type Data = map<string, Value>

  /** The entries a reader stores after a good response. */
  function Decode(rule: Rule, words: seq<Word>): (u: Data)
    requires |words| == Count(rule)
    ensures forall k :: k in u <==> k in RuleKeys(rule)
  {
    match rule
    case VersionRule(f, a) =>
      var s := VersionStrings(words);
      map[f := Text(s.0), a := Text(s.1)]
    case FlagRule(k) => map[k := Flag(words[0])]
    case TemperatureRule(k) => map[k := SignedTemperature(words[0])]
    case PercentRule(k) => map[k := BoundedPercent(words[0])]
    case FillRule(k, c) => map[k := FillLevel(words[0], c)]
    case StatusRule(k, f) => map[k := Status(f, words[0])]
    case Hc2MixerRule(k) => map[k := Hc2MixerStatus(words[0])]
  }

  /** An answer on which a reader raises: the client raised, or the register
      list does not have the length the conversion expects. */
  predicate Raises(r: Reader, answer: ReadOutcome) {
    answer.Raised? || (answer.Registers? && |answer.words| != Count(r.rule))
  }

  /** What one reader call does: return `True` after storing, return `False`
      on an error response, or raise. */
  datatype Step = Returned(data: Data, stored: bool) | Threw

  function Read(data: Data, r: Reader, answer: ReadOutcome): (s: Step)
    ensures s.Threw? <==> Raises(r, answer)
    ensures s.Returned? ==> (s.stored <==> answer.Registers?)
    ensures s.Returned? && !s.stored ==> s.data == data
    ensures s.Returned? ==> forall k :: k !in RuleKeys(r.rule) ==> Unchanged(data, s.data, k)
  {
    match answer
    case Raised => Threw
    case ErrorResponse => Returned(data, false)
    case Registers(ws) =>
      if |ws| == Count(r.rule) then Returned(data + Decode(r.rule, ws), true) else Threw
  }

  /** `data` and `data'` agree on key `k`: both lack it, or both hold the
      same value. */
  predicate Unchanged(data: Data, data': Data, k: string) {
    (k in data <==> k in data') && (k in data ==> data[k] == data'[k])
  }

  /** Some reader of `plan` stores under `k`. */
  predicate Mentions(plan: seq<Reader>, k: string) {
    exists i :: 0 <= i < |plan| && k in RuleKeys(plan[i].rule)
  }

  function Request(unit: nat, r: Reader): ReadRequest {
    ReadRequest(unit, r.address, Count(r.rule))
  }

  function Requests(unit: nat, plan: seq<Reader>): (rs: seq<ReadRequest>)
    ensures |rs| == |plan|
  {
    seq(|plan|, i requires 0 <= i < |plan| => Request(unit, plan[i]))
  }

  /** The result of evaluating the reader tuple: the data afterwards, the
      booleans of the readers that returned, the requests sent, and whether
      a reader raised (which abandons the rest of the tuple). */
  datatype Pass = Pass(data: Data, results: seq<bool>, issued: seq<ReadRequest>, raised: bool)

  /** Evaluates the readers of `plan` in order against the device's answers,
      `answers[i]` answering the `i`-th request. Updates made before a raise
      stay in the data, since the hub mutates its dictionary in place. */
  function ReadPass(unit: nat, data: Data, plan: seq<Reader>, answers: seq<ReadOutcome>): (p: Pass)
    requires |answers| == |plan|
    ensures |p.results| <= |plan|
    ensures p.raised <==> exists i :: 0 <= i < |plan| && Raises(plan[i], answers[i])
    ensures p.raised ==> |p.results| < |plan| && Raises(plan[|p.results|], answers[|p.results|])
    ensures !p.raised ==> |p.results| == |plan|
    ensures forall i :: 0 <= i < |p.results| ==> !Raises(plan[i], answers[i])
    ensures forall i :: 0 <= i < |p.results| ==> (p.results[i] <==> answers[i].Registers?)
    ensures p.issued == Requests(unit, plan[..|p.results| + if p.raised then 1 else 0])
    ensures forall k :: !Mentions(plan, k) ==> Unchanged(data, p.data, k)
    ensures forall k :: NotStoredBefore(plan, |p.results|, k) ==> Unchanged(data, p.data, k)
    decreases |plan|
  {
    if |plan| == 0 then Pass(data, [], [], false)
    else match Read(data, plan[0], answers[0])
      case Threw => Pass(data, [], [Request(unit, plan[0])], true)
      case Returned(d, ok) =>
        var rest := ReadPass(unit, d, plan[1..], answers[1..]);
        UnchangedCons(plan, data, d, rest.data);
        NotStoredCons(plan, data, d, rest.data, |rest.results|);
        RequestsCons(unit, plan, |rest.results| + if rest.raised then 1 else 0);
        RaisesTail(plan, answers);
        ResultsCons(plan, answers, ok, rest.results);
        Pass(rest.data, [ok] + rest.results, [Request(unit, plan[0])] + rest.issued, rest.raised)
  }

  lemma ResultsCons(plan: seq<Reader>, answers: seq<ReadOutcome>, ok: bool, rest: seq<bool>)
    requires 0 < |plan| == |answers| && |rest| < |plan|
    requires !Raises(plan[0], answers[0]) && (ok <==> answers[0].Registers?)
    requires forall i :: 0 <= i < |rest| ==> !Raises(plan[1..][i], answers[1..][i])
    requires forall i :: 0 <= i < |rest| ==> (rest[i] <==> answers[1..][i].Registers?)
    ensures forall i :: 0 <= i < |[ok] + rest| ==> !Raises(plan[i], answers[i])
    ensures forall i :: 0 <= i < |[ok] + rest| ==> (([ok] + rest)[i] <==> answers[i].Registers?)
  {
    forall i | 0 < i < |[ok] + rest|
      ensures !Raises(plan[i], answers[i]) && (([ok] + rest)[i] <==> answers[i].Registers?)
    {
      assert plan[i] == plan[1..][i - 1] && answers[i] == answers[1..][i - 1];
    }
  }

  lemma UnchangedCons(plan: seq<Reader>, data: Data, data': Data, data'': Data)
    requires |plan| > 0
    requires forall k :: k !in RuleKeys(plan[0].rule) ==> Unchanged(data, data', k)
    requires forall k :: !Mentions(plan[1..], k) ==> Unchanged(data', data'', k)
    ensures forall k :: !Mentions(plan, k) ==> Unchanged(data, data'', k)
  {
    MentionsTail(plan);
  }

  /** No reader among the first `n` of `plan` stores under `k`: after a raise
      at reader `n`, neither that reader nor any later one got to store. */
  predicate NotStoredBefore(plan: seq<Reader>, n: nat, k: string)
    requires n <= |plan|
  {
    forall i :: 0 <= i < n ==> k !in RuleKeys(plan[i].rule)
  }

  lemma NotStoredCons(plan: seq<Reader>, data: Data, data': Data, data'': Data, n: nat)
    requires n < |plan|
    requires forall k :: k !in RuleKeys(plan[0].rule) ==> Unchanged(data, data', k)
    requires forall k :: NotStoredBefore(plan[1..], n, k) ==> Unchanged(data', data'', k)
    ensures forall k :: NotStoredBefore(plan, n + 1, k) ==> Unchanged(data, data'', k)
  {
    forall k | NotStoredBefore(plan, n + 1, k)
      ensures Unchanged(data, data'', k)
    {
      assert k !in RuleKeys(plan[0].rule);
      forall i | 0 <= i < n
        ensures k !in RuleKeys(plan[1..][i].rule)
      {
        assert plan[1..][i] == plan[i + 1];
      }
      assert NotStoredBefore(plan[1..], n, k);
      assert Unchanged(data, data', k) && Unchanged(data', data'', k);
    }
  }

  lemma MentionsTail(plan: seq<Reader>)
    requires |plan| > 0
    ensures forall k :: !Mentions(plan, k) ==> !Mentions(plan[1..], k) && k !in RuleKeys(plan[0].rule)
  {
  }

  lemma RequestsCons(unit: nat, plan: seq<Reader>, n: nat)
    requires 0 < |plan| && n < |plan|
    ensures Requests(unit, plan[..n + 1]) == [Request(unit, plan[0])] + Requests(unit, plan[1..][..n])
  {
    assert plan[1..][..n] == plan[1..n + 1];
  }

  lemma RaisesTail(plan: seq<Reader>, answers: seq<ReadOutcome>)
    requires 0 < |plan| == |answers|
    ensures (exists i :: 0 <= i < |plan| && Raises(plan[i], answers[i]))
      <==> (|| Raises(plan[0], answers[0])
            || exists i :: 0 <= i < |plan| - 1 && Raises(plan[1..][i], answers[1..][i]))
  {
    if i :| 0 <= i < |plan| && Raises(plan[i], answers[i]) {
      if i > 0 {
        assert Raises(plan[1..][i - 1], answers[1..][i - 1]);
      }
    }
  }

  // ---------------------------------------------------------------------
  // Failure isolation.

  /** No two readers of a plan store under a common key. */
  predicate KeysUnique(plan: seq<Reader>) {
    forall i, j :: 0 <= i < j < |plan| ==>
      Lists.Disjoint(RuleKeys(plan[i].rule), RuleKeys(plan[j].rule))
  }

  /** No reader of `a` shares a key with a reader of `b`. */
  predicate KeysApart(a: seq<Reader>, b: seq<Reader>) {
    forall i, j :: 0 <= i < |a| && 0 <= j < |b| ==>
      Lists.Disjoint(RuleKeys(a[i].rule), RuleKeys(b[j].rule))
  }

  lemma KeysUniqueConcat(a: seq<Reader>, b: seq<Reader>)
    requires KeysUnique(a) && KeysUnique(b) && KeysApart(a, b)
    ensures KeysUnique(a + b)
  {
    var s := a + b;
    forall i, j | 0 <= i < j < |s|
      ensures Lists.Disjoint(RuleKeys(s[i].rule), RuleKeys(s[j].rule))
    {
      if j < |a| {
        assert s[i] == a[i] && s[j] == a[j];
      } else if i < |a| {
        assert s[i] == a[i] && s[j] == b[j - |a|];
      } else {
        assert s[i] == b[i - |a|] && s[j] == b[j - |a|];
      }
    }
  }

  lemma KeysApartConcat(a: seq<Reader>, b: seq<Reader>, c: seq<Reader>)
    requires KeysApart(a, c) && KeysApart(b, c)
    ensures KeysApart(a + b, c)
  {
    var s := a + b;
    forall i, j | 0 <= i < |s| && 0 <= j < |c|
      ensures Lists.Disjoint(RuleKeys(s[i].rule), RuleKeys(c[j].rule))
    {
      if i < |a| {
        assert s[i] == a[i];
      } else {
        assert s[i] == b[i - |a|];
      }
    }
  }

  /** No two readers of `plan` in positions `lo..hi` store under a common key. */
  predicate KeysUniqueIn(plan: seq<Reader>, lo: nat, hi: nat)
    requires lo <= hi <= |plan|
  {
    forall i, j :: lo <= i < j < hi ==>
      Lists.Disjoint(RuleKeys(plan[i].rule), RuleKeys(plan[j].rule))
  }

  /** No reader of `plan` in positions `lo..mid` shares a key with one in `mid..hi`. */
  predicate KeysApartIn(plan: seq<Reader>, lo: nat, mid: nat, hi: nat)
    requires lo <= mid <= hi <= |plan|
  {
    forall i, j :: lo <= i < mid <= j < hi ==>
      Lists.Disjoint(RuleKeys(plan[i].rule), RuleKeys(plan[j].rule))
  }

  /** A plan cut in three stretches, each with unique keys and pairwise
      apart, has unique keys. */
  lemma KeysUniqueInThirds(plan: seq<Reader>, m: nat, n: nat)
    requires m <= n <= |plan|
    requires KeysUniqueIn(plan, 0, m) && KeysUniqueIn(plan, m, n) && KeysUniqueIn(plan, n, |plan|)
    requires KeysApartIn(plan, 0, m, n) && KeysApartIn(plan, 0, n, |plan|)
    ensures KeysUnique(plan)
  {
    forall i, j | 0 <= i < j < |plan|
      ensures Lists.Disjoint(RuleKeys(plan[i].rule), RuleKeys(plan[j].rule))
    {
      if j < m || (m <= i && j < n) || n <= i {
      } else if j < n {
        assert i < m <= j < n;
      } else {
        assert i < n <= j;
      }
    }
  }

  lemma GeneralFrontKeysUnique()
    ensures forall i, j :: 0 <= i < j < 6 ==>
      Lists.Disjoint(RuleKeys(GeneralAndHeatCircuit1Readers[i].rule), RuleKeys(GeneralAndHeatCircuit1Readers[j].rule))
  {
  }

  lemma GeneralMiddleKeysUnique()
    ensures forall i, j :: 6 <= i < j < 11 ==>
      Lists.Disjoint(RuleKeys(GeneralAndHeatCircuit1Readers[i].rule), RuleKeys(GeneralAndHeatCircuit1Readers[j].rule))
  {
  }

  lemma GeneralBackKeysUnique()
    ensures forall i, j :: 11 <= i < j < 16 ==>
      Lists.Disjoint(RuleKeys(GeneralAndHeatCircuit1Readers[i].rule), RuleKeys(GeneralAndHeatCircuit1Readers[j].rule))
  {
  }

  lemma GeneralFrontKeysApart()
    ensures forall i, j :: 0 <= i < 6 <= j < 11 ==>
      Lists.Disjoint(RuleKeys(GeneralAndHeatCircuit1Readers[i].rule), RuleKeys(GeneralAndHeatCircuit1Readers[j].rule))
  {
  }

  lemma GeneralRestKeysApart()
    ensures forall i, j :: 0 <= i < 11 <= j < 16 ==>
      Lists.Disjoint(RuleKeys(GeneralAndHeatCircuit1Readers[i].rule), RuleKeys(GeneralAndHeatCircuit1Readers[j].rule))
  {
  }

  lemma GeneralReaderKeysUnique()
    ensures KeysUnique(GeneralAndHeatCircuit1Readers)
  {
    GeneralFrontKeysUnique();
    GeneralMiddleKeysUnique();
    GeneralBackKeysUnique();
    GeneralFrontKeysApart();
    GeneralRestKeysApart();
    KeysUniqueInThirds(GeneralAndHeatCircuit1Readers, 6, 11);
  }

  lemma HeatCircuitFrontKeysUnique()
    ensures forall i, j :: 0 <= i < j < 6 ==>
      Lists.Disjoint(RuleKeys(HeatCircuit2And3Readers[i].rule), RuleKeys(HeatCircuit2And3Readers[j].rule))
  {
  }

  lemma HeatCircuitMiddleKeysUnique()
    ensures forall i, j :: 6 <= i < j < 11 ==>
      Lists.Disjoint(RuleKeys(HeatCircuit2And3Readers[i].rule), RuleKeys(HeatCircuit2And3Readers[j].rule))
  {
  }

  lemma HeatCircuitBackKeysUnique()
    ensures forall i, j :: 11 <= i < j < 16 ==>
      Lists.Disjoint(RuleKeys(HeatCircuit2And3Readers[i].rule), RuleKeys(HeatCircuit2And3Readers[j].rule))
  {
  }

  lemma HeatCircuitFrontKeysApart()
    ensures forall i, j :: 0 <= i < 6 <= j < 11 ==>
      Lists.Disjoint(RuleKeys(HeatCircuit2And3Readers[i].rule), RuleKeys(HeatCircuit2And3Readers[j].rule))
  {
  }

  lemma HeatCircuitRestKeysApart()
    ensures forall i, j :: 0 <= i < 11 <= j < 16 ==>
      Lists.Disjoint(RuleKeys(HeatCircuit2And3Readers[i].rule), RuleKeys(HeatCircuit2And3Readers[j].rule))
  {
  }

  lemma HeatCircuitReaderKeysUnique()
    ensures KeysUnique(HeatCircuit2And3Readers)
  {
    HeatCircuitFrontKeysUnique();
    HeatCircuitMiddleKeysUnique();
    HeatCircuitBackKeysUnique();
    HeatCircuitFrontKeysApart();
    HeatCircuitRestKeysApart();
    KeysUniqueInThirds(HeatCircuit2And3Readers, 6, 11);
  }

  lemma BufferFrontKeysUnique()
    ensures forall i, j :: 0 <= i < j < 7 ==>
      Lists.Disjoint(RuleKeys(BufferStorageReaders[i].rule), RuleKeys(BufferStorageReaders[j].rule))
  {
  }

  lemma BufferMiddleKeysUnique()
    ensures forall i, j :: 7 <= i < j < 14 ==>
      Lists.Disjoint(RuleKeys(BufferStorageReaders[i].rule), RuleKeys(BufferStorageReaders[j].rule))
  {
  }

  lemma BufferBackKeysUnique()
    ensures forall i, j :: 14 <= i < j < 21 ==>
      Lists.Disjoint(RuleKeys(BufferStorageReaders[i].rule), RuleKeys(BufferStorageReaders[j].rule))
  {
  }

  lemma BufferFrontKeysApart()
    ensures forall i, j :: 0 <= i < 7 <= j < 14 ==>
      Lists.Disjoint(RuleKeys(BufferStorageReaders[i].rule), RuleKeys(BufferStorageReaders[j].rule))
  {
  }

  lemma BufferRestKeysApart()
    ensures forall i, j :: 0 <= i < 14 <= j < 21 ==>
      Lists.Disjoint(RuleKeys(BufferStorageReaders[i].rule), RuleKeys(BufferStorageReaders[j].rule))
  {
  }

  lemma BufferReaderKeysUnique()
    ensures KeysUnique(BufferStorageReaders)
  {
    BufferFrontKeysUnique();
    BufferMiddleKeysUnique();
    BufferBackKeysUnique();
    BufferFrontKeysApart();
    BufferRestKeysApart();
    KeysUniqueInThirds(BufferStorageReaders, 7, 14);
  }

  lemma WarmWaterFrontKeysUnique()
    ensures forall i, j :: 0 <= i < j < 7 ==>
      Lists.Disjoint(RuleKeys(WarmWaterAndBurnerReaders[i].rule), RuleKeys(WarmWaterAndBurnerReaders[j].rule))
  {
  }

  lemma WarmWaterMiddleKeysUnique()
    ensures forall i, j :: 7 <= i < j < 14 ==>
      Lists.Disjoint(RuleKeys(WarmWaterAndBurnerReaders[i].rule), RuleKeys(WarmWaterAndBurnerReaders[j].rule))
  {
  }

  lemma WarmWaterBackKeysUnique()
    ensures forall i, j :: 14 <= i < j < 20 ==>
      Lists.Disjoint(RuleKeys(WarmWaterAndBurnerReaders[i].rule), RuleKeys(WarmWaterAndBurnerReaders[j].rule))
  {
  }

  lemma WarmWaterFrontKeysApart()
    ensures forall i, j :: 0 <= i < 7 <= j < 14 ==>
      Lists.Disjoint(RuleKeys(WarmWaterAndBurnerReaders[i].rule), RuleKeys(WarmWaterAndBurnerReaders[j].rule))
  {
  }

  lemma WarmWaterRestKeysApart()
    ensures forall i, j :: 0 <= i < 14 <= j < 20 ==>
      Lists.Disjoint(RuleKeys(WarmWaterAndBurnerReaders[i].rule), RuleKeys(WarmWaterAndBurnerReaders[j].rule))
  {
  }

  lemma WarmWaterReaderKeysUnique()
    ensures KeysUnique(WarmWaterAndBurnerReaders)
  {
    WarmWaterFrontKeysUnique();
    WarmWaterMiddleKeysUnique();
    WarmWaterBackKeysUnique();
    WarmWaterFrontKeysApart();
    WarmWaterRestKeysApart();
    KeysUniqueInThirds(WarmWaterAndBurnerReaders, 7, 14);
  }

  /** Every key some reader of `plan` stores under has, at position `n`, a
      character from `cs`. */
  predicate KeyCharsIn(plan: seq<Reader>, n: nat, cs: set<char>) {
    forall i, k :: 0 <= i < |plan| && k in RuleKeys(plan[i].rule) ==> Registry.CharAt(k, n) in cs
  }

  /** Plans whose keys carry, at position `n`, characters from two disjoint
      sets share no key. */
  lemma KeysApartByChar(a: seq<Reader>, b: seq<Reader>, n: nat, ca: set<char>, cb: set<char>)
    requires KeyCharsIn(a, n, ca) && KeyCharsIn(b, n, cb) && ca !! cb
    ensures KeysApart(a, b)
  {
    forall i, j | 0 <= i < |a| && 0 <= j < |b|
      ensures Lists.Disjoint(RuleKeys(a[i].rule), RuleKeys(b[j].rule))
    {
      var ka, kb := RuleKeys(a[i].rule), RuleKeys(b[j].rule);
      forall x, y | 0 <= x < |ka| && 0 <= y < |kb|
        ensures ka[x] != kb[y]
      {
        assert Registry.CharAt(ka[x], n) in ca && Registry.CharAt(kb[y], n) in cb;
      }
    }
  }

  lemma GeneralReaderInitials()
    ensures forall i, k :: 0 <= i < |GeneralAndHeatCircuit1Readers| && k in RuleKeys(GeneralAndHeatCircuit1Readers[i].rule) ==>
      Registry.CharAt(k, 0) in {'a', 'd', 'f', 'h', 'o', 'r'}
  {
  }

  lemma GeneralReaderDigits()
    ensures forall i, k :: 0 <= i < |GeneralAndHeatCircuit1Readers| && k in RuleKeys(GeneralAndHeatCircuit1Readers[i].rule) ==>
      Registry.CharAt(k, 12) in {' ', '1', 'a', 'i', 'o', 'r', 't'}
  {
  }

  lemma HeatCircuitReaderInitials()
    ensures forall i, k :: 0 <= i < |HeatCircuit2And3Readers| && k in RuleKeys(HeatCircuit2And3Readers[i].rule) ==>
      Registry.CharAt(k, 0) in {'h'}
  {
  }

  lemma HeatCircuit2ReaderDigits()
    ensures forall i, k :: 0 <= i < 8 && k in RuleKeys(HeatCircuit2And3Readers[i].rule) ==>
      Registry.CharAt(k, 12) == '2'
  {
  }

  lemma HeatCircuit3ReaderDigits()
    ensures forall i, k :: 8 <= i < 16 && k in RuleKeys(HeatCircuit2And3Readers[i].rule) ==>
      Registry.CharAt(k, 12) == '3'
  {
  }

  lemma HeatCircuitReaderDigits()
    ensures forall i, k :: 0 <= i < |HeatCircuit2And3Readers| && k in RuleKeys(HeatCircuit2And3Readers[i].rule) ==>
      Registry.CharAt(k, 12) in {'2', '3'}
  {
    HeatCircuit2ReaderDigits();
    HeatCircuit3ReaderDigits();
  }

  lemma BufferReaderInitials()
    ensures forall i, k :: 0 <= i < |BufferStorageReaders| && k in RuleKeys(BufferStorageReaders[i].rule) ==>
      Registry.CharAt(k, 0) in {'b'}
  {
  }

  lemma WarmWaterReaderInitials()
    ensures forall i, k :: 0 <= i < |WarmWaterAndBurnerReaders| && k in RuleKeys(WarmWaterAndBurnerReaders[i].rule) ==>
      Registry.CharAt(k, 0) in {'g', 'w'}
  {
  }

  /** The four reader blocks store under pairwise disjoint keys. */
  lemma ReaderBlocksApart()
    ensures KeysApart(GeneralAndHeatCircuit1Readers, HeatCircuit2And3Readers)
    ensures KeysApart(GeneralAndHeatCircuit1Readers, BufferStorageReaders)
    ensures KeysApart(GeneralAndHeatCircuit1Readers, WarmWaterAndBurnerReaders)
    ensures KeysApart(HeatCircuit2And3Readers, BufferStorageReaders)
    ensures KeysApart(HeatCircuit2And3Readers, WarmWaterAndBurnerReaders)
    ensures KeysApart(BufferStorageReaders, WarmWaterAndBurnerReaders)
  {
    var a, b := GeneralAndHeatCircuit1Readers, HeatCircuit2And3Readers;
    var c, d := BufferStorageReaders, WarmWaterAndBurnerReaders;
    GeneralReaderInitials();
    GeneralReaderDigits();
    HeatCircuitReaderInitials();
    HeatCircuitReaderDigits();
    BufferReaderInitials();
    WarmWaterReaderInitials();
    var first := {'a', 'd', 'f', 'h', 'o', 'r'};
    KeysApartByChar(a, b, 12, {' ', '1', 'a', 'i', 'o', 'r', 't'}, {'2', '3'});
    KeysApartByChar(a, c, 0, first, {'b'});
    KeysApartByChar(a, d, 0, first, {'g', 'w'});
    KeysApartByChar(b, c, 0, {'h'}, {'b'});
    KeysApartByChar(b, d, 0, {'h'}, {'g', 'w'});
    KeysApartByChar(c, d, 0, {'b'}, {'g', 'w'});
  }

  /** Each key of `hub.data` is written by exactly one reader. */
  lemma PlanKeysUnique()
    ensures KeysUnique(Plan)
  {
    var a, b := GeneralAndHeatCircuit1Readers, HeatCircuit2And3Readers;
    var c, d := BufferStorageReaders, WarmWaterAndBurnerReaders;
    GeneralReaderKeysUnique();
    HeatCircuitReaderKeysUnique();
    BufferReaderKeysUnique();
    WarmWaterReaderKeysUnique();
    ReaderBlocksApart();
    KeysUniqueConcat(a, b);
    KeysApartConcat(a, b, c);
    KeysUniqueConcat(a + b, c);
    KeysApartConcat(a, b, d);
    KeysApartConcat(a + b, c, d);
    KeysUniqueConcat(a + b + c, d);
  }

  lemma KeysUniqueTail(plan: seq<Reader>)
    requires |plan| > 0 && KeysUnique(plan)
    ensures KeysUnique(plan[1..])
    ensures forall k :: k in RuleKeys(plan[0].rule) ==> !Mentions(plan[1..], k)
  {
    forall k | k in RuleKeys(plan[0].rule)
      ensures !Mentions(plan[1..], k)
    {
    }
    forall i, j | 0 <= i < j < |plan[1..]|
      ensures Lists.Disjoint(RuleKeys(plan[1..][i].rule), RuleKeys(plan[1..][j].rule))
    {
      assert plan[1..][i] == plan[i + 1] && plan[1..][j] == plan[j + 1];
    }
  }

  /** In a plan whose readers store under different keys, a reader that
      returned leaves its keys as it set them: untouched after an error
      response, the decoded register values after a good one, whatever the
      readers after it did. */
  lemma {:induction false} ReadIsolated(unit: nat, data: Data, plan: seq<Reader>,
                                        answers: seq<ReadOutcome>, i: nat)
    requires |answers| == |plan| && KeysUnique(plan)
    requires i < |ReadPass(unit, data, plan, answers).results|
    ensures var p := ReadPass(unit, data, plan, answers);
      answers[i].ErrorResponse? ==>
        forall k :: k in RuleKeys(plan[i].rule) ==> Unchanged(data, p.data, k)
    ensures var p := ReadPass(unit, data, plan, answers);
      answers[i].Registers? ==>
        forall k :: k in RuleKeys(plan[i].rule) ==>
          k in p.data && p.data[k] == Decode(plan[i].rule, answers[i].words)[k]
    decreases |plan|
  {
    var s := Read(data, plan[0], answers[0]);
    var rest := ReadPass(unit, s.data, plan[1..], answers[1..]);
    KeysUniqueTail(plan);
    if i == 0 {
      assert s.Returned?;
    } else {
      ReadIsolated(unit, s.data, plan[1..], answers[1..], i - 1);
      assert plan[1..][i - 1] == plan[i];
      forall k | k in RuleKeys(plan[i].rule)
        ensures Unchanged(data, s.data, k)
      {
        assert Lists.Disjoint(RuleKeys(plan[0].rule), RuleKeys(plan[i].rule));
      }
    }
  }

  /** Failure isolation in the hub's own plan: a reader that got an error
      response returned `False` and left its key(s) as they were, and a reader
      that got its registers stored their decoded value, whatever happened to
      every other reader of the pass. */
  lemma FailureIsolation(unit: nat, data: Data, answers: seq<ReadOutcome>, i: nat)
    requires |answers| == |Plan|
    requires i < |ReadPass(unit, data, Plan, answers).results|
    ensures var p := ReadPass(unit, data, Plan, answers);
      answers[i].ErrorResponse? ==>
        !p.results[i] && forall k :: k in RuleKeys(Plan[i].rule) ==> Unchanged(data, p.data, k)
    ensures var p := ReadPass(unit, data, Plan, answers);
      answers[i].Registers? ==>
        p.results[i] && forall k :: k in RuleKeys(Plan[i].rule) ==>
          k in p.data && p.data[k] == Decode(Plan[i].rule, answers[i].words)[k]
  {
    PlanKeysUnique();
    ReadIsolated(unit, data, Plan, answers, i);
  }

  /** Unless a reader raises, every reader runs, in plan order, each sending
      its own request; error responses do not stop the pass. */
  lemma AllReadsAttempted(unit: nat, data: Data, answers: seq<ReadOutcome>)
    requires |answers| == |Plan|
    requires forall i :: 0 <= i < |Plan| ==> !Raises(Plan[i], answers[i])
    ensures var p := ReadPass(unit, data, Plan, answers);
      && !p.raised
      && |p.results| == |Plan| == 73
      && p.issued == Requests(unit, Plan)
  {
    var p := ReadPass(unit, data, Plan, answers);
    assert Plan[..|p.results|] == Plan;
  }

  /** A pass in which every read gets an error response changes nothing. */
  lemma {:induction false} ErrorsLeaveDataUnchanged(unit: nat, data: Data, plan: seq<Reader>,
                                                    answers: seq<ReadOutcome>)
    requires |answers| == |plan|
    requires forall i :: 0 <= i < |answers| ==> answers[i].ErrorResponse?
    ensures ReadPass(unit, data, plan, answers).data == data
    decreases |plan|
  {
    if |plan| > 0 {
      assert forall i :: 0 <= i < |answers[1..]| ==> answers[1..][i] == answers[i + 1];
      ErrorsLeaveDataUnchanged(unit, data, plan[1..], answers[1..]);
    }
  }

  // ---------------------------------------------------------------------
  // The hub's state: subscribers, poll timer, connection, data.

  /** An update callback, identified by a number. */
  type Subscriber = nat

  /** `unit` is the Modbus unit the hub reads from (`self._address`); the
      timer is the handle `_unsub_interval_method`, armed or `None`. */
  datatype Hub = Hub(
    unit: nat, subscribers: seq<Subscriber>, timerArmed: bool, connected: bool, data: Data)

  /** The poll timer runs exactly while someone listens. */
  predicate Valid(h: Hub) {
    h.timerArmed <==> |h.subscribers| > 0
  }

  /** A freshly constructed hub: no subscribers, no timer, a client that has
      not connected, empty data. */
  function Init(unit: nat): (h: Hub)
    ensures Valid(h) && h.data == map[] && !h.connected
  {
    Hub(unit, [], false, false, map[])
  }

  /** The pymodbus client's timeout for a scan interval: one second below the
      interval, but at least three seconds. */
  function ClientTimeout(scanInterval: int): (t: int)
    ensures t >= 3 && t >= scanInterval - 1
    ensures t == 3 || t == scanInterval - 1
  {
    if scanInterval - 1 > 3 then scanInterval - 1 else 3
  }

  /** `async_add_homeheatcontrol_sensor`: the first subscriber arms the timer;
      the callback is appended in any case. */
  function AddSubscriber(h: Hub, s: Subscriber): (h': Hub)
    ensures h'.subscribers == h.subscribers + [s]
    ensures |h.subscribers| == 0 ==> h'.timerArmed
    ensures |h.subscribers| > 0 ==> h'.timerArmed == h.timerArmed
    ensures h'.unit == h.unit && h'.connected == h.connected && h'.data == h.data
  {
    if |h.subscribers| == 0 then h.(subscribers := [s], timerArmed := true)
    else h.(subscribers := h.subscribers + [s])
  }

  /** Where `list.remove` finds its element: the first occurrence. */
  function FirstPosition(s: seq<Subscriber>, x: Subscriber): (i: nat)
    requires x in s
    ensures i < |s| && s[i] == x && x !in s[..i]
  {
    if s[0] == x then 0 else 1 + FirstPosition(s[1..], x)
  }

  /** `list.remove(x)` on a list holding `x`. */
  function RemoveFirst(s: seq<Subscriber>, x: Subscriber): (r: seq<Subscriber>)
    requires x in s
    ensures |r| == |s| - 1
    ensures multiset(r) == multiset(s) - multiset{x}
  {
    var i := FirstPosition(s, x);
    assert s == s[..i] + [x] + s[i + 1..];
    s[..i] + s[i + 1..]
  }

  /** The three ways `async_remove_homeheatcontrol_sensor` can end: normally,
      with `ValueError` because the callback was never added (nothing
      changes), or with a `TypeError` from calling an unset timer handle after
      the last callback was removed. */
  datatype Removal = Removed(hub: Hub) | NotSubscribed | HandleMissing(hub: Hub)

  function RemoveSubscriber(h: Hub, s: Subscriber): (r: Removal)
    ensures r.NotSubscribed? <==> s !in h.subscribers
    ensures !r.NotSubscribed? ==> r.hub.subscribers == RemoveFirst(h.subscribers, s)
    ensures r.Removed? && |r.hub.subscribers| > 0 ==> r.hub == h.(subscribers := r.hub.subscribers)
    ensures r.Removed? && |r.hub.subscribers| == 0 ==>
      !r.hub.timerArmed && !r.hub.connected && r.hub.data == h.data
    ensures r.HandleMissing? <==> s in h.subscribers && |h.subscribers| == 1 && !h.timerArmed
  {
    if s !in h.subscribers then NotSubscribed
    else
      var rest := RemoveFirst(h.subscribers, s);
      if |rest| > 0 then Removed(h.(subscribers := rest))
      else if !h.timerArmed then HandleMissing(h.(subscribers := rest))
      else Removed(h.(subscribers := rest, timerArmed := false, connected := false))
  }

  /** Adding and removing subscribers keeps the timer armed exactly while the
      list is non-empty, and from such a state a removal never hits an unset
      handle. */
  lemma LifecycleKeepsValid(h: Hub, s: Subscriber)
    requires Valid(h)
    ensures Valid(AddSubscriber(h, s))
    ensures !RemoveSubscriber(h, s).HandleMissing?
    ensures RemoveSubscriber(h, s).Removed? ==> Valid(RemoveSubscriber(h, s).hub)
  {
  }

  /** Removing a callback that was just added to a list that did not hold it
      restores the list; when it was the only one, the timer is off again and
      the client closed. */
  lemma AddThenRemove(h: Hub, s: Subscriber)
    requires Valid(h) && s !in h.subscribers
    ensures RemoveSubscriber(AddSubscriber(h, s), s).Removed?
    ensures RemoveSubscriber(AddSubscriber(h, s), s).hub.subscribers == h.subscribers
    ensures |h.subscribers| > 0 ==> RemoveSubscriber(AddSubscriber(h, s), s).hub == h
    ensures |h.subscribers| == 0 ==>
      RemoveSubscriber(AddSubscriber(h, s), s).hub == h.(connected := false)
  {
    var l := h.subscribers + [s];
    assert FirstPosition(l, s) == |h.subscribers| by {
      var i := FirstPosition(l, s);
      if i < |h.subscribers| {
        assert false;
      }
    }
    assert l[..|h.subscribers|] == h.subscribers;
  }

  // ---------------------------------------------------------------------
  // Refresh.

  /** What one timer tick does: the hub afterwards, the value
      `_refresh_modbus_data` returned, the callbacks notified, and the read
      requests sent. */
  datatype Refreshed = Refreshed(
    hub: Hub, result: bool, notified: seq<Subscriber>, issued: seq<ReadRequest>)

  /** `async_refresh_modbus_data`. `connectSucceeds` is what `connect()`
      would answer if the client is found disconnected; `answers` are the
      device's answers to the pass's requests in order; `connectedAfterRaise`
      is what the client's `connected` reports after a reader raised (a raise
      may or may not have dropped the connection). A pass that completes
      returns the reader tuple, which is never empty and therefore true, so
      every callback is notified even if every reader returned `False`; only a
      raise, caught and logged, turns the result false. */
  function Refresh(h: Hub, connectSucceeds: bool, connectedAfterRaise: bool,
                   answers: seq<ReadOutcome>): (r: Refreshed)
    requires |answers| == |Plan|
    ensures r.hub.unit == h.unit && r.hub.subscribers == h.subscribers
    ensures r.hub.timerArmed == h.timerArmed
    ensures r.result <==>
      && |h.subscribers| > 0
      && (h.connected || connectSucceeds)
      && forall i :: 0 <= i < |Plan| ==> !Raises(Plan[i], answers[i])
    ensures r.notified == if r.result then h.subscribers else []
    ensures |h.subscribers| == 0 ==> r.hub == h && r.issued == []
    ensures !h.connected && !connectSucceeds ==> r.hub == h && r.issued == []
    ensures r.result ==> r.hub.connected && r.issued == Requests(h.unit, Plan)
    ensures |h.subscribers| > 0 && (h.connected || connectSucceeds) ==>
      && r.hub.data == ReadPass(h.unit, h.data, Plan, answers).data
      && (!r.result ==> r.hub.connected == connectedAfterRaise)
  {
    if |h.subscribers| == 0 then Refreshed(h, false, [], [])
    else if !h.connected && !connectSucceeds then Refreshed(h, false, [], [])
    else
      var p := ReadPass(h.unit, h.data, Plan, answers);
      assert !p.raised ==> Plan[..|p.results|] == Plan;
      if p.raised then Refreshed(h.(connected := connectedAfterRaise, data := p.data), false, [], p.issued)
      else Refreshed(h.(connected := true, data := p.data), true, h.subscribers, p.issued)
  }

  /** Refresh keeps the timer invariant. */
  lemma RefreshKeepsValid(h: Hub, connectSucceeds: bool, connectedAfterRaise: bool,
                          answers: seq<ReadOutcome>)
    requires |answers| == |Plan| && Valid(h)
    ensures Valid(Refresh(h, connectSucceeds, connectedAfterRaise, answers).hub)
  {
  }

  /** When every read gets an error response, a connected hub with
      subscribers still reports success and notifies all of them, and its
      data stays as it was. */
  lemma NotifiesDespiteErrors(h: Hub, connectSucceeds: bool, connectedAfterRaise: bool,
                              answers: seq<ReadOutcome>)
    requires |answers| == |Plan|
    requires forall i :: 0 <= i < |answers| ==> answers[i].ErrorResponse?
    requires |h.subscribers| > 0 && (h.connected || connectSucceeds)
    ensures Refresh(h, connectSucceeds, connectedAfterRaise, answers).result
    ensures Refresh(h, connectSucceeds, connectedAfterRaise, answers).notified == h.subscribers
    ensures Refresh(h, connectSucceeds, connectedAfterRaise, answers).hub.data == h.data
  {
    ErrorsLeaveDataUnchanged(h.unit, h.data, Plan, answers);
  }

  /** Failure isolation seen from a refresh: once the pass reaches reader
      `i` (no reader up to it raised), an error response leaves its key(s)
      as they were before the tick and registers store their decoded value,
      whatever the other readers got. */
  lemma RefreshIsolatesFailures(h: Hub, connectSucceeds: bool, connectedAfterRaise: bool,
                                answers: seq<ReadOutcome>, i: nat)
    requires |answers| == |Plan| && i < |Plan|
    requires |h.subscribers| > 0 && (h.connected || connectSucceeds)
    requires forall j :: 0 <= j <= i ==> !Raises(Plan[j], answers[j])
    ensures var d := Refresh(h, connectSucceeds, connectedAfterRaise, answers).hub.data;
      answers[i].ErrorResponse? ==>
        forall k :: k in RuleKeys(Plan[i].rule) ==> Unchanged(h.data, d, k)
    ensures var d := Refresh(h, connectSucceeds, connectedAfterRaise, answers).hub.data;
      answers[i].Registers? ==>
        forall k :: k in RuleKeys(Plan[i].rule) ==>
          k in d && d[k] == Decode(Plan[i].rule, answers[i].words)[k]
  {
    var p := ReadPass(h.unit, h.data, Plan, answers);
    if p.raised {
      assert Raises(Plan[|p.results|], answers[|p.results|]);
    }
    FailureIsolation(h.unit, h.data, answers, i);
  }

  /** A reader that raises ends the tick: the requests of the readers up to
      it have been sent, nobody is notified, and every key that no earlier
      reader stores under, including those of the reader that raised and of
      all later ones, keeps the value it had before the tick. */
  lemma RaiseAbandonsRest(h: Hub, connectSucceeds: bool, connectedAfterRaise: bool,
                          answers: seq<ReadOutcome>, i: nat)
    requires |answers| == |Plan| && i < |Plan|
    requires |h.subscribers| > 0 && (h.connected || connectSucceeds)
    requires Raises(Plan[i], answers[i])
    requires forall j :: 0 <= j < i ==> !Raises(Plan[j], answers[j])
    ensures var r := Refresh(h, connectSucceeds, connectedAfterRaise, answers);
      && !r.result && r.notified == [] && r.hub.connected == connectedAfterRaise
      && r.issued == Requests(h.unit, Plan[..i + 1])
    ensures var r := Refresh(h, connectSucceeds, connectedAfterRaise, answers);
      forall k :: NotStoredBefore(Plan, i, k) ==> Unchanged(h.data, r.hub.data, k)
  {
    var p := ReadPass(h.unit, h.data, Plan, answers);
    assert p.raised;
    assert |p.results| == i;
  }

  // ---------------------------------------------------------------------
  // The registry against the plan.

  /** Both switch entries of the registry sit on a register that the plan
      reads with the flag rule under the switch's own key. */
  lemma SwitchesReadAsFlags()
    ensures forall i | 0 <= i < |Registry.Points| && Registry.Points[i].platform.Switch? ::
      exists j | 0 <= j < |Plan| ::
        Plan[j] == Reader(Registry.Points[i].address, FlagRule(Registry.Points[i].key))
  {
    Registry.SwitchEntries();
    assert Registry.Points[7] == Registry.GeneralAndHeatCircuit1Points[7];
    assert Registry.Points[65] == Registry.BufferStoragePoints[20];
    assert Plan[6] == GeneralAndHeatCircuit1Readers[6];
    assert Plan[52] == BufferStorageReaders[20];
  }

  /** Registry keys spelled "temperature" paired with the key the reader of
      the same register stores under, spelled "temerature". */
  const MisspelledKeys: seq<(string, string)> := [
    ("warmwater_boiler_temperature", "warmwater_boiler_temerature"),
    ("warmwater_circulation_outputtemperature", "warmwater_circulation_outputtemerature"),
    ("woodburner_exhaust_temperature", "woodburner_exhaust_temerature"),
    ("woodburner_water_temperature", "woodburner_water_temerature"),
    ("gasburner_exhaust_temperature", "gasburner_exhaust_temerature"),
    ("gasburner_water_temperature", "gasburner_water_temerature")
  ]

  /** The registry entry and the plan reader of each pair of `MisspelledKeys`. */
  const MisspelledAt: seq<(nat, nat)> := [(67, 54), (73, 59), (86, 68), (87, 69), (89, 71), (90, 72)]

  /** No reader stores under any of the registry's spellings. */
  lemma GeneralSpellingsNotStored()
    ensures forall n, j | 0 <= n < |MisspelledKeys| && 0 <= j < |GeneralAndHeatCircuit1Readers| ::
      MisspelledKeys[n].0 !in RuleKeys(GeneralAndHeatCircuit1Readers[j].rule)
  {
  }

  lemma HeatCircuitSpellingsNotStored()
    ensures forall n, j | 0 <= n < |MisspelledKeys| && 0 <= j < |HeatCircuit2And3Readers| ::
      MisspelledKeys[n].0 !in RuleKeys(HeatCircuit2And3Readers[j].rule)
  {
  }

  lemma BufferSpellingsNotStored()
    ensures forall n, j | 0 <= n < |MisspelledKeys| && 0 <= j < |BufferStorageReaders| ::
      MisspelledKeys[n].0 !in RuleKeys(BufferStorageReaders[j].rule)
  {
  }

  lemma WarmWaterSpellingsNotStored()
    ensures forall n, j | 0 <= n < |MisspelledKeys| && 0 <= j < |WarmWaterAndBurnerReaders| ::
      MisspelledKeys[n].0 !in RuleKeys(WarmWaterAndBurnerReaders[j].rule)
  {
  }

  /** The registry entry and plan reader of each misspelled pair, in terms of
      the warm water block, which holds all six. */
  lemma MisspelledEntry(n: nat)
    requires n < |MisspelledKeys|
    ensures var (registryIndex, planIndex) := MisspelledAt[n];
      && registryIndex < |Registry.Points| && planIndex < |Plan|
      && Registry.Points[registryIndex].key == MisspelledKeys[n].0
      && Registry.Points[registryIndex].platform == Registry.Sensor
      && Plan[planIndex] == Reader(Registry.Points[registryIndex].address,
                                   TemperatureRule(MisspelledKeys[n].1))
  {
    var (registryIndex, planIndex) := MisspelledAt[n];
    assert Registry.Points[registryIndex] == Registry.WarmWaterAndBurnerPoints[registryIndex - 66];
    assert Plan[planIndex] == WarmWaterAndBurnerReaders[planIndex - 53];
  }

  /** No reader of the plan stores under a registry spelling. */
  lemma SpellingNotMentioned(n: nat)
    requires n < |MisspelledKeys|
    ensures !Mentions(Plan, MisspelledKeys[n].0)
  {
    var a, b := GeneralAndHeatCircuit1Readers, HeatCircuit2And3Readers;
    var c, d := BufferStorageReaders, WarmWaterAndBurnerReaders;
    GeneralSpellingsNotStored();
    HeatCircuitSpellingsNotStored();
    BufferSpellingsNotStored();
    WarmWaterSpellingsNotStored();
    var k := MisspelledKeys[n].0;
    forall j | 0 <= j < |Plan|
      ensures k !in RuleKeys(Plan[j].rule)
    {
      if j < |a| {
        assert Plan[j] == a[j];
      } else if j < |a| + |b| {
        assert Plan[j] == b[j - |a|];
      } else if j < |a| + |b| + |c| {
        assert Plan[j] == c[j - |a| - |b|];
      } else {
        assert Plan[j] == d[j - |a| - |b| - |c|];
      }
    }
  }

  /** Six sensors of the registry look up a key no reader stores, because the
      reader of their register spells it "temerature". */
  lemma MisspelledKeysNeverStored(n: nat)
    requires n < |MisspelledKeys|
    ensures var (registryIndex, planIndex) := MisspelledAt[n];
      && registryIndex < |Registry.Points| && planIndex < |Plan|
      && Registry.Points[registryIndex].key == MisspelledKeys[n].0
      && Registry.Points[registryIndex].platform == Registry.Sensor
      && Plan[planIndex] == Reader(Registry.Points[registryIndex].address,
                                   TemperatureRule(MisspelledKeys[n].1))
    ensures !Mentions(Plan, MisspelledKeys[n].0)
  {
    MisspelledEntry(n);
    SpellingNotMentioned(n);
  }
}
