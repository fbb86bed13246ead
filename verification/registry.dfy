/** The point registry `HHCSENSOR_TYPES` of `const.py`: one entry per
    entity the integration creates, giving the Modbus unit, the register
    address, the key of the entity description and, for buttons and numbers,
    the extra element after the description. */
module Registry {

  import Lists

  const DefaultScanInterval: nat := 5
  const DefaultPort: nat := 502
  const DefaultModbusAddress: nat := 0

  /** The kind of entity description, with the data each kind carries that
      the model needs: a button's pressed value, and a number's bounds, step
      and scale factor. Names, icons and device classes are not modelled. */
  datatype Platform =
    | Sensor
    | BinarySensor
    | Switch
    | Button(pressedValue: int)
    | Number(minValue: real, maxValue: real, step: real, scale: real)

  datatype Point = Point(slave: nat, address: nat, key: string, platform: Platform)

  /** General, general temperatures, doorbell, heat control management and heat circuit 1 (`const.py` lines 23-48). */
  const GeneralAndHeatCircuit1Points: seq<Point> := [
    Point(DefaultModbusAddress, 0, "fbl_sw_version", Sensor),
    Point(DefaultModbusAddress, 1, "appl_sw_version", Sensor),
    Point(DefaultModbusAddress, 3, "dtcactive", BinarySensor),
    Point(DefaultModbusAddress, 20, "outsidetemperature", Sensor),
    Point(DefaultModbusAddress, 21, "room1temperature", Sensor),
    Point(DefaultModbusAddress, 22, "room2temperature", Sensor),
    Point(DefaultModbusAddress, 25, "doorbell_status", Sensor),
    Point(DefaultModbusAddress, 30, "heatcontrolmanagement_enabled", Switch),
    Point(DefaultModbusAddress, 31, "heatcontrolmanagement_lowTemperatureWarning", BinarySensor),
    Point(DefaultModbusAddress, 40, "heatcircuit_1_status", Sensor),
    Point(DefaultModbusAddress, 41, "heatcircuit_1_pumpstatus", Sensor),
    Point(DefaultModbusAddress, 42, "heatcircuit_1_mixerstatus", Sensor),
    Point(DefaultModbusAddress, 43, "heatcircuit_1_mixernormed", BinarySensor),
    Point(DefaultModbusAddress, 44, "heatcircuit_1_mixerposition", Sensor),
    Point(DefaultModbusAddress, 45, "heatcircuit_1_targetForerunTemperature", Sensor),
    Point(DefaultModbusAddress, 46, "heatcircuit_1_forerunTemperature", Sensor),
    Point(DefaultModbusAddress, 47, "heatcircuit_1_returnflowTemperature", Sensor),
    Point(DefaultModbusAddress, 56, "heatcircuit_1_curve_inclination", Number(0.2, 3.5, 0.1, 0.1)),
    Point(DefaultModbusAddress, 57, "heatcircuit_1_curve_niveau", Number(-30.0, 30.0, 1.0, 1.0)),
    Point(DefaultModbusAddress, 58, "heatcircuit_1_curve_targettemperature_day", Number(0.0, 40.0, 1.0, 1.0)),
    Point(DefaultModbusAddress, 59, "heatcircuit_1_curve_targettemperature_night", Number(0.0, 40.0, 1.0, 1.0))
  ]

  /** Heat circuits 2 and 3 (`const.py` lines 50-76). */
  const HeatCircuit2And3Points: seq<Point> := [
    Point(DefaultModbusAddress, 60, "heatcircuit_2_status", Sensor),
    Point(DefaultModbusAddress, 61, "heatcircuit_2_pumpstatus", Sensor),
    Point(DefaultModbusAddress, 62, "heatcircuit_2_mixerstatus", Sensor),
    Point(DefaultModbusAddress, 63, "heatcircuit_2_mixernormed", BinarySensor),
    Point(DefaultModbusAddress, 64, "heatcircuit_2_mixerposition", Sensor),
    Point(DefaultModbusAddress, 65, "heatcircuit_2_targetForerunTemperature", Sensor),
    Point(DefaultModbusAddress, 66, "heatcircuit_2_forerunTemperature", Sensor),
    Point(DefaultModbusAddress, 67, "heatcircuit_2_returnflowTemperature", Sensor),
    Point(DefaultModbusAddress, 76, "heatcircuit_2_curve_inclination", Number(0.2, 3.5, 0.1, 0.1)),
    Point(DefaultModbusAddress, 77, "heatcircuit_2_curve_niveau", Number(-30.0, 30.0, 1.0, 1.0)),
    Point(DefaultModbusAddress, 78, "heatcircuit_2_curve_targettemperature_day", Number(0.0, 40.0, 1.0, 1.0)),
    Point(DefaultModbusAddress, 79, "heatcircuit_2_curve_targettemperature_night", Number(0.0, 40.0, 1.0, 1.0)),
    Point(DefaultModbusAddress, 80, "heatcircuit_3_status", Sensor),
    Point(DefaultModbusAddress, 81, "heatcircuit_3_pumpstatus", Sensor),
    Point(DefaultModbusAddress, 82, "heatcircuit_3_mixerstatus", Sensor),
    Point(DefaultModbusAddress, 83, "heatcircuit_3_mixernormed", BinarySensor),
    Point(DefaultModbusAddress, 84, "heatcircuit_3_mixerposition", Sensor),
    Point(DefaultModbusAddress, 85, "heatcircuit_3_targetForerunTemperature", Sensor),
    Point(DefaultModbusAddress, 86, "heatcircuit_3_forerunTemperature", Sensor),
    Point(DefaultModbusAddress, 87, "heatcircuit_3_returnflowTemperature", Sensor),
    Point(DefaultModbusAddress, 96, "heatcircuit_3_curve_inclination", Number(0.2, 3.5, 0.1, 0.1)),
    Point(DefaultModbusAddress, 97, "heatcircuit_3_curve_niveau", Number(-30.0, 30.0, 1.0, 1.0)),
    Point(DefaultModbusAddress, 98, "heatcircuit_3_curve_targettemperature_day", Number(0.0, 40.0, 1.0, 1.0)),
    Point(DefaultModbusAddress, 99, "heatcircuit_3_curve_targettemperature_night", Number(0.0, 40.0, 1.0, 1.0))
  ]

  /** Buffer storage (`const.py` lines 78-98). */
  const BufferStoragePoints: seq<Point> := [
    Point(DefaultModbusAddress, 100, "bufferstorage_status", Sensor),
    Point(DefaultModbusAddress, 101, "bufferstorage_1_temperature_top", Sensor),
    Point(DefaultModbusAddress, 102, "bufferstorage_1_temperature_middletop", Sensor),
    Point(DefaultModbusAddress, 103, "bufferstorage_1_temperature_middlebottom", Sensor),
    Point(DefaultModbusAddress, 104, "bufferstorage_1_temperature_bottom", Sensor),
    Point(DefaultModbusAddress, 105, "bufferstorage_2_temperature_top", Sensor),
    Point(DefaultModbusAddress, 106, "bufferstorage_2_temperature_middletop", Sensor),
    Point(DefaultModbusAddress, 107, "bufferstorage_2_temperature_middlebottom", Sensor),
    Point(DefaultModbusAddress, 108, "bufferstorage_2_temperature_bottom", Sensor),
    Point(DefaultModbusAddress, 109, "bufferstorage_charge_or_switch_mixerstatus", Sensor),
    Point(DefaultModbusAddress, 110, "bufferstorage_charge_or_switch_mixernormed", BinarySensor),
    Point(DefaultModbusAddress, 111, "bufferstorage_charge_or_switch_mixerposition", Sensor),
    Point(DefaultModbusAddress, 112, "bufferstorage_chargepumpstatus", Sensor),
    Point(DefaultModbusAddress, 113, "bufferstorage_chargewatertemperature", Sensor),
    Point(DefaultModbusAddress, 114, "bufferstorage_1_filllevel", Sensor),
    Point(DefaultModbusAddress, 115, "bufferstorage_2_filllevel", Sensor),
    Point(DefaultModbusAddress, 116, "bufferstorage_combined_filllevel", Sensor),
    Point(DefaultModbusAddress, 117, "bufferstorage_active_status", Sensor),
    Point(DefaultModbusAddress, 118, "bufferstorage_chargevalvestatus", Sensor),
    Point(DefaultModbusAddress, 119, "bufferstorage_chargestatus", Sensor),
    Point(DefaultModbusAddress, 120, "bufferstorage_chargeElectricOnly", Switch)
  ]

  /** Warm water, wood burner and gas burner (`const.py` lines 100-126). */
  const WarmWaterAndBurnerPoints: seq<Point> := [
    Point(DefaultModbusAddress, 140, "warmwater_boiler_status", Sensor),
    Point(DefaultModbusAddress, 141, "warmwater_boiler_temperature", Sensor),
    Point(DefaultModbusAddress, 142, "warmwater_boiler_chargepumpstatus", Sensor),
    Point(DefaultModbusAddress, 143, "warmwater_boiler_valvestatus", Sensor),
    Point(DefaultModbusAddress, 144, "warmwater_boiler_manualChargeRequest", Button(1)),
    Point(DefaultModbusAddress, 144, "warmwater_boiler_manualChargeRequestEnd", Button(2)),
    Point(DefaultModbusAddress, 147, "warmwater_bath_heatingactive", BinarySensor),
    Point(DefaultModbusAddress, 150, "warmwater_circulation_outputtemperature", Sensor),
    Point(DefaultModbusAddress, 151, "warmwater_circulation_pumpstatus", Sensor),
    Point(DefaultModbusAddress, 152, "warmwater_circulation_circuit1_status", Sensor),
    Point(DefaultModbusAddress, 153, "warmwater_circulation_circuit1_temperature", Sensor),
    Point(DefaultModbusAddress, 154, "warmwater_circulation_circuit1_valvestatus", Sensor),
    Point(DefaultModbusAddress, 155, "warmwater_circulation_circuit1_request_start", Button(1)),
    Point(DefaultModbusAddress, 155, "warmwater_circulation_circuit1_request_stop", Button(2)),
    Point(DefaultModbusAddress, 156, "warmwater_circulation_circuit2_status", Sensor),
    Point(DefaultModbusAddress, 157, "warmwater_circulation_circuit2_temperature", Sensor),
    Point(DefaultModbusAddress, 158, "warmwater_circulation_circuit2_valvestatus", Sensor),
    Point(DefaultModbusAddress, 159, "warmwater_circulation_circuit2_request_start", Button(1)),
    Point(DefaultModbusAddress, 159, "warmwater_circulation_circuit2_request_stop", Button(2)),
    Point(DefaultModbusAddress, 170, "woodburner_status", Sensor),
    Point(DefaultModbusAddress, 171, "woodburner_exhaust_temperature", Sensor),
    Point(DefaultModbusAddress, 172, "woodburner_water_temperature", Sensor),
    Point(DefaultModbusAddress, 180, "gasburner_status", Sensor),
    Point(DefaultModbusAddress, 181, "gasburner_exhaust_temperature", Sensor),
    Point(DefaultModbusAddress, 182, "gasburner_water_temperature", Sensor)
  ]

  /** The whole table, in source order. */
  const Points: seq<Point> :=
    GeneralAndHeatCircuit1Points + HeatCircuit2And3Points
    + BufferStoragePoints + WarmWaterAndBurnerPoints

  /** No two entries of `ps` in positions `lo..hi` share a key. */
  predicate KeysDistinctIn(ps: seq<Point>, lo: nat, hi: nat)
    requires lo <= hi <= |ps|
  {
    forall i, j :: lo <= i < j < hi ==> ps[i].key != ps[j].key
  }

  /** No entry of `ps` in positions `lo..mid` shares a key with one in `mid..hi`. */
  predicate KeysApartIn(ps: seq<Point>, lo: nat, mid: nat, hi: nat)
    requires lo <= mid <= hi <= |ps|
  {
    forall i, j :: lo <= i < mid <= j < hi ==> ps[i].key != ps[j].key
  }

  /** No two entries of `ps` share a key. */
  predicate KeysDistinct(ps: seq<Point>) {
    KeysDistinctIn(ps, 0, |ps|)
  }

  /** No entry of `a` shares a key with an entry of `b`. */
  predicate KeysApart(a: seq<Point>, b: seq<Point>) {
    forall i, j :: 0 <= i < |a| && 0 <= j < |b| ==> a[i].key != b[j].key
  }

  /** A list cut in three stretches, each free of repeated keys and pairwise
      apart, is free of repeated keys. */
  lemma KeysDistinctInThirds(ps: seq<Point>, m: nat, n: nat)
    requires m <= n <= |ps|
    requires KeysDistinctIn(ps, 0, m) && KeysDistinctIn(ps, m, n) && KeysDistinctIn(ps, n, |ps|)
    requires KeysApartIn(ps, 0, m, n) && KeysApartIn(ps, 0, n, |ps|)
    ensures KeysDistinct(ps)
  {
    forall i, j | 0 <= i < j < |ps|
      ensures ps[i].key != ps[j].key
    {
      if j < m || (m <= i && j < n) || n <= i {
      } else if j < n {
        assert i < m <= j < n;
      } else {
        assert i < n <= j;
      }
    }
  }

  /** Concatenating two lists free of repeated keys and apart from each other
      gives a list free of repeated keys. */
  lemma KeysDistinctConcat(a: seq<Point>, b: seq<Point>)
    requires KeysDistinct(a) && KeysDistinct(b) && KeysApart(a, b)
    ensures KeysDistinct(a + b)
  {
    var s := a + b;
    forall i, j | 0 <= i < j < |s|
      ensures s[i].key != s[j].key
    {
      if j < |a| {
        assert s[i] == a[i] && s[j] == a[j];
      } else if i < |a| {
        assert s[i] == a[i] && s[j] == b[j - |a|];
      } else {
        assert s[i] == b[i - |a|] && s[j] == b[j - |a|];
      }
    }
  }

  /** Two lists apart from a third are together apart from it. */
  lemma KeysApartConcat(a: seq<Point>, b: seq<Point>, c: seq<Point>)
    requires KeysApart(a, c) && KeysApart(b, c)
    ensures KeysApart(a + b, c)
  {
    var s := a + b;
    forall i, j | 0 <= i < |s| && 0 <= j < |c|
      ensures s[i].key != c[j].key
    {
      if i < |a| {
        assert s[i] == a[i];
      } else {
        assert s[i] == b[i - |a|];
      }
    }
  }

  lemma GeneralFrontKeysDistinct()
    ensures forall i, j :: 0 <= i < j < 7 ==> GeneralAndHeatCircuit1Points[i].key != GeneralAndHeatCircuit1Points[j].key
  {
  }

  lemma GeneralMiddleKeysDistinct()
    ensures forall i, j :: 7 <= i < j < 14 ==> GeneralAndHeatCircuit1Points[i].key != GeneralAndHeatCircuit1Points[j].key
  {
  }

  lemma GeneralBackKeysDistinct()
    ensures forall i, j :: 14 <= i < j < 21 ==> GeneralAndHeatCircuit1Points[i].key != GeneralAndHeatCircuit1Points[j].key
  {
  }

  lemma GeneralFrontKeysApart()
    ensures forall i, j :: 0 <= i < 7 <= j < 14 ==> GeneralAndHeatCircuit1Points[i].key != GeneralAndHeatCircuit1Points[j].key
  {
  }

  lemma GeneralRestKeysApart()
    ensures forall i, j :: 0 <= i < 14 <= j < 21 ==> GeneralAndHeatCircuit1Points[i].key != GeneralAndHeatCircuit1Points[j].key
  {
  }

  lemma GeneralKeysDistinct()
    ensures KeysDistinct(GeneralAndHeatCircuit1Points)
  {
    GeneralFrontKeysDistinct();
    GeneralMiddleKeysDistinct();
    GeneralBackKeysDistinct();
    GeneralFrontKeysApart();
    GeneralRestKeysApart();
    KeysDistinctInThirds(GeneralAndHeatCircuit1Points, 7, 14);
  }

  lemma HeatCircuitFrontKeysDistinct()
    ensures forall i, j :: 0 <= i < j < 8 ==> HeatCircuit2And3Points[i].key != HeatCircuit2And3Points[j].key
  {
  }

  lemma HeatCircuitMiddleKeysDistinct()
    ensures forall i, j :: 8 <= i < j < 16 ==> HeatCircuit2And3Points[i].key != HeatCircuit2And3Points[j].key
  {
  }

  lemma HeatCircuitBackKeysDistinct()
    ensures forall i, j :: 16 <= i < j < 24 ==> HeatCircuit2And3Points[i].key != HeatCircuit2And3Points[j].key
  {
  }

  lemma HeatCircuitFrontKeysApart()
    ensures forall i, j :: 0 <= i < 8 <= j < 16 ==> HeatCircuit2And3Points[i].key != HeatCircuit2And3Points[j].key
  {
  }

  lemma HeatCircuitRestKeysApart()
    ensures forall i, j :: 0 <= i < 16 <= j < 24 ==> HeatCircuit2And3Points[i].key != HeatCircuit2And3Points[j].key
  {
  }

  lemma HeatCircuitKeysDistinct()
    ensures KeysDistinct(HeatCircuit2And3Points)
  {
    HeatCircuitFrontKeysDistinct();
    HeatCircuitMiddleKeysDistinct();
    HeatCircuitBackKeysDistinct();
    HeatCircuitFrontKeysApart();
    HeatCircuitRestKeysApart();
    KeysDistinctInThirds(HeatCircuit2And3Points, 8, 16);
  }

  lemma BufferFrontKeysDistinct()
    ensures forall i, j :: 0 <= i < j < 7 ==> BufferStoragePoints[i].key != BufferStoragePoints[j].key
  {
  }

  lemma BufferMiddleKeysDistinct()
    ensures forall i, j :: 7 <= i < j < 14 ==> BufferStoragePoints[i].key != BufferStoragePoints[j].key
  {
  }

  lemma BufferBackKeysDistinct()
    ensures forall i, j :: 14 <= i < j < 21 ==> BufferStoragePoints[i].key != BufferStoragePoints[j].key
  {
  }

  lemma BufferFrontKeysApart()
    ensures forall i, j :: 0 <= i < 7 <= j < 14 ==> BufferStoragePoints[i].key != BufferStoragePoints[j].key
  {
  }

  lemma BufferRestKeysApart()
    ensures forall i, j :: 0 <= i < 14 <= j < 21 ==> BufferStoragePoints[i].key != BufferStoragePoints[j].key
  {
  }

  lemma BufferKeysDistinct()
    ensures KeysDistinct(BufferStoragePoints)
  {
    BufferFrontKeysDistinct();
    BufferMiddleKeysDistinct();
    BufferBackKeysDistinct();
    BufferFrontKeysApart();
    BufferRestKeysApart();
    KeysDistinctInThirds(BufferStoragePoints, 7, 14);
  }

  lemma WarmWaterFrontKeysDistinct()
    ensures forall i, j :: 0 <= i < j < 8 ==> WarmWaterAndBurnerPoints[i].key != WarmWaterAndBurnerPoints[j].key
  {
  }

  lemma WarmWaterMiddleKeysDistinct()
    ensures forall i, j :: 8 <= i < j < 16 ==> WarmWaterAndBurnerPoints[i].key != WarmWaterAndBurnerPoints[j].key
  {
  }

  lemma WarmWaterBackKeysDistinct()
    ensures forall i, j :: 16 <= i < j < 25 ==> WarmWaterAndBurnerPoints[i].key != WarmWaterAndBurnerPoints[j].key
  {
  }

  lemma WarmWaterFrontKeysApart()
    ensures forall i, j :: 0 <= i < 8 <= j < 16 ==> WarmWaterAndBurnerPoints[i].key != WarmWaterAndBurnerPoints[j].key
  {
  }

  lemma WarmWaterRestKeysApart()
    ensures forall i, j :: 0 <= i < 16 <= j < 25 ==> WarmWaterAndBurnerPoints[i].key != WarmWaterAndBurnerPoints[j].key
  {
  }

  lemma WarmWaterKeysDistinct()
    ensures KeysDistinct(WarmWaterAndBurnerPoints)
  {
    WarmWaterFrontKeysDistinct();
    WarmWaterMiddleKeysDistinct();
    WarmWaterBackKeysDistinct();
    WarmWaterFrontKeysApart();
    WarmWaterRestKeysApart();
    KeysDistinctInThirds(WarmWaterAndBurnerPoints, 8, 16);
  }

  /** The character at position `n` of a key, or a blank past its end: the
      blocks of the table use different initial letters (and heat circuit 1
      differs from heat circuits 2 and 3 in the circuit digit at position 12),
      which keeps their keys apart. */
  function CharAt(k: string, n: nat): char {
    if n < |k| then k[n] else ' '
  }

  /** Lists whose keys carry, at position `n`, characters from two disjoint
      sets share no key. */
  lemma KeysApartByChar(a: seq<Point>, b: seq<Point>, n: nat, ca: set<char>, cb: set<char>)
    requires forall i :: 0 <= i < |a| ==> CharAt(a[i].key, n) in ca
    requires forall j :: 0 <= j < |b| ==> CharAt(b[j].key, n) in cb
    requires ca !! cb
    ensures KeysApart(a, b)
  {
    forall i, j | 0 <= i < |a| && 0 <= j < |b|
      ensures a[i].key != b[j].key
    {
      assert CharAt(a[i].key, n) in ca && CharAt(b[j].key, n) in cb;
    }
  }

  lemma GeneralInitialsCover()
    ensures forall i :: 0 <= i < |GeneralAndHeatCircuit1Points| ==>
      CharAt(GeneralAndHeatCircuit1Points[i].key, 0) in {'a', 'd', 'f', 'h', 'o', 'r'}
  {
  }

  lemma GeneralDigitsCover()
    ensures forall i :: 0 <= i < |GeneralAndHeatCircuit1Points| ==>
      CharAt(GeneralAndHeatCircuit1Points[i].key, 12) in {' ', '1', 'a', 'i', 'o', 'r', 't'}
  {
  }

  lemma HeatCircuitInitialsCover()
    ensures forall i :: 0 <= i < |HeatCircuit2And3Points| ==>
      CharAt(HeatCircuit2And3Points[i].key, 0) in {'h'}
  {
  }

  lemma HeatCircuit2DigitsCover()
    ensures forall i :: 0 <= i < 12 ==> CharAt(HeatCircuit2And3Points[i].key, 12) == '2'
  {
  }

  lemma HeatCircuit3DigitsCover()
    ensures forall i :: 12 <= i < 24 ==> CharAt(HeatCircuit2And3Points[i].key, 12) == '3'
  {
  }

  lemma HeatCircuitDigitsCover()
    ensures forall i :: 0 <= i < |HeatCircuit2And3Points| ==>
      CharAt(HeatCircuit2And3Points[i].key, 12) in {'2', '3'}
  {
    HeatCircuit2DigitsCover();
    HeatCircuit3DigitsCover();
  }

  lemma BufferInitialsCover()
    ensures forall i :: 0 <= i < |BufferStoragePoints| ==>
      CharAt(BufferStoragePoints[i].key, 0) in {'b'}
  {
  }

  lemma WarmWaterInitialsCover()
    ensures forall i :: 0 <= i < |WarmWaterAndBurnerPoints| ==>
      CharAt(WarmWaterAndBurnerPoints[i].key, 0) in {'g', 'w'}
  {
  }

  /** No two entries of the table share a key, so the unique ids
      `f"{platform_name}_{key}"` that the switch and button entities (and the
      other platforms) build from it never collide. */
  lemma KeysDistinctInTable()
    ensures KeysDistinct(Points)
  {
    var a, b := GeneralAndHeatCircuit1Points, HeatCircuit2And3Points;
    var c, d := BufferStoragePoints, WarmWaterAndBurnerPoints;
    GeneralKeysDistinct();
    HeatCircuitKeysDistinct();
    BufferKeysDistinct();
    WarmWaterKeysDistinct();
    GeneralInitialsCover();
    GeneralDigitsCover();
    HeatCircuitInitialsCover();
    HeatCircuitDigitsCover();
    BufferInitialsCover();
    WarmWaterInitialsCover();
    var first := {'a', 'd', 'f', 'h', 'o', 'r'};
    KeysApartByChar(a, b, 12, {' ', '1', 'a', 'i', 'o', 'r', 't'}, {'2', '3'});
    KeysApartByChar(a, c, 0, first, {'b'});
    KeysApartByChar(a, d, 0, first, {'g', 'w'});
    KeysApartByChar(b, c, 0, {'h'}, {'b'});
    KeysApartByChar(b, d, 0, {'h'}, {'g', 'w'});
    KeysApartByChar(c, d, 0, {'b'}, {'g', 'w'});
    KeysDistinctConcat(a, b);
    KeysApartConcat(a, b, c);
    KeysDistinctConcat(a + b, c);
    KeysApartConcat(a, b, d);
    KeysApartConcat(a + b, c, d);
    KeysDistinctConcat(a + b + c, d);
  }

  /** The id an entity reports, `f"{platform_name}_{key}"`. */
  function UniqueId(platformName: string, key: string): (id: string)
    ensures |id| == |platformName| + 1 + |key|
    ensures id[..|platformName|] == platformName && id[|platformName| + 1..] == key
  {
    platformName + "_" + key
  }

  /** Within one platform name, the unique ids of the registry entries are
      pairwise different. */
  lemma UniqueIdsDistinct(platformName: string)
    ensures Lists.Distinct(seq(|Points|, i requires 0 <= i < |Points| =>
      UniqueId(platformName, Points[i].key)))
  {
    var ids := seq(|Points|, i requires 0 <= i < |Points| => UniqueId(platformName, Points[i].key));
    KeysDistinctInTable();
    forall i, j | 0 <= i < j < |ids|
      ensures ids[i] != ids[j]
    {
      assert Points[i].key != Points[j].key;
    }
  }

  /** What every entry satisfies on its own: the default Modbus unit, an
      address in 0..182, and for a number entry a lower bound below the
      upper bound, a positive step and a scale factor of 0.1 or 1. */
  predicate WellFormedPoint(p: Point) {
    && p.slave == DefaultModbusAddress
    && 0 <= p.address <= 182
    && (p.platform.Number? ==>
          && p.platform.minValue < p.platform.maxValue
          && 0.0 < p.platform.step
          && (p.platform.scale == 0.1 || p.platform.scale == 1.0))
  }

  predicate AllWellFormed(ps: seq<Point>) {
    forall i :: 0 <= i < |ps| ==> WellFormedPoint(ps[i])
  }

  lemma AllWellFormedConcat(a: seq<Point>, b: seq<Point>)
    requires AllWellFormed(a) && AllWellFormed(b)
    ensures AllWellFormed(a + b)
  {
    forall i | 0 <= i < |a + b|
      ensures WellFormedPoint((a + b)[i])
    {
      if i < |a| {
        assert (a + b)[i] == a[i];
      } else {
        assert (a + b)[i] == b[i - |a|];
      }
    }
  }

  lemma GeneralWellFormed()
    ensures AllWellFormed(GeneralAndHeatCircuit1Points)
  {
  }

  lemma HeatCircuitWellFormed()
    ensures AllWellFormed(HeatCircuit2And3Points)
  {
  }

  lemma BufferWellFormed()
    ensures AllWellFormed(BufferStoragePoints)
  {
  }

  lemma WarmWaterWellFormed()
    ensures AllWellFormed(WarmWaterAndBurnerPoints)
  {
  }

  /** Every entry addresses the default Modbus unit with an address in
      0..182, and every number entry has a lower bound below its upper
      bound, a positive step and a scale factor of 0.1 or 1. */
  lemma PointsWellFormed()
    ensures forall i | 0 <= i < |Points| :: Points[i].slave == DefaultModbusAddress
    ensures forall i | 0 <= i < |Points| :: 0 <= Points[i].address <= 182
    ensures forall i | 0 <= i < |Points| && Points[i].platform.Number? ::
      && Points[i].platform.minValue < Points[i].platform.maxValue
      && 0.0 < Points[i].platform.step
      && (Points[i].platform.scale == 0.1 || Points[i].platform.scale == 1.0)
  {
    var a, b := GeneralAndHeatCircuit1Points, HeatCircuit2And3Points;
    var c, d := BufferStoragePoints, WarmWaterAndBurnerPoints;
    GeneralWellFormed();
    HeatCircuitWellFormed();
    BufferWellFormed();
    WarmWaterWellFormed();
    AllWellFormedConcat(a, b);
    AllWellFormedConcat(a + b, c);
    AllWellFormedConcat(a + b + c, d);
    assert AllWellFormed(Points);
  }

  predicate AdjacentAscending(ps: seq<Point>) {
    forall i :: 0 < i < |ps| ==> ps[i - 1].address <= ps[i].address
  }

  predicate Ascending(ps: seq<Point>) {
    forall i, j :: 0 <= i < j < |ps| ==> ps[i].address <= ps[j].address
  }

  /** Ordering of neighbours extends to ordering of any two entries. */
  lemma {:induction false} AdjacentToAscending(ps: seq<Point>)
    requires AdjacentAscending(ps)
    ensures Ascending(ps)
  {
    if |ps| > 1 {
      var init := ps[..|ps| - 1];
      assert AdjacentAscending(init) by {
        forall i | 0 < i < |init|
          ensures init[i - 1].address <= init[i].address
        {
          assert init[i - 1] == ps[i - 1] && init[i] == ps[i];
        }
      }
      AdjacentToAscending(init);
      forall i, j | 0 <= i < j < |ps|
        ensures ps[i].address <= ps[j].address
      {
        if j < |ps| - 1 {
          assert ps[i] == init[i] && ps[j] == init[j];
        } else {
          assert ps[i] == init[i] && ps[j - 1] == init[j - 1];
          if i < j - 1 {
            assert init[i].address <= init[j - 1].address;
          }
        }
      }
    }
  }

  lemma AdjacentConcat(a: seq<Point>, b: seq<Point>)
    requires AdjacentAscending(a) && AdjacentAscending(b)
    requires |a| > 0 && |b| > 0 && a[|a| - 1].address <= b[0].address
    ensures AdjacentAscending(a + b)
  {
    var s := a + b;
    forall i | 0 < i < |s|
      ensures s[i - 1].address <= s[i].address
    {
      if i < |a| {
        assert s[i - 1] == a[i - 1] && s[i] == a[i];
      } else if i == |a| {
        assert s[i - 1] == a[|a| - 1] && s[i] == b[0];
      } else {
        assert s[i - 1] == b[i - 1 - |a|] && s[i] == b[i - |a|];
      }
    }
  }

  lemma GeneralAscending()
    ensures AdjacentAscending(GeneralAndHeatCircuit1Points)
  {
  }

  lemma HeatCircuitAscending()
    ensures AdjacentAscending(HeatCircuit2And3Points)
  {
  }

  lemma BufferAscending()
    ensures AdjacentAscending(BufferStoragePoints)
  {
  }

  lemma WarmWaterAscending()
    ensures AdjacentAscending(WarmWaterAndBurnerPoints)
  {
  }

  /** Register addresses never decrease along the table. */
  lemma AddressesAscending()
    ensures Ascending(Points)
  {
    var a, b := GeneralAndHeatCircuit1Points, HeatCircuit2And3Points;
    var c, d := BufferStoragePoints, WarmWaterAndBurnerPoints;
    GeneralAscending();
    HeatCircuitAscending();
    BufferAscending();
    WarmWaterAscending();
    AdjacentConcat(a, b);
    assert (a + b)[|a + b| - 1] == b[|b| - 1];
    AdjacentConcat(a + b, c);
    assert (a + b + c)[|a + b + c| - 1] == c[|c| - 1];
    AdjacentConcat(a + b + c, d);
    AdjacentToAscending(Points);
  }

  /** The button at index `i`, if it is one, is half of a pair on one
      register: pressing 1 and followed by the entry pressing 2, or pressing 2
      and preceded by the entry pressing 1. */
  predicate PairedAt(ps: seq<Point>, i: nat)
    requires i < |ps|
  {
    ps[i].platform.Button? ==>
      || (ps[i].platform.pressedValue == 1 && i + 1 < |ps|
          && ps[i + 1].platform == Button(2) && ps[i + 1].address == ps[i].address)
      || (ps[i].platform.pressedValue == 2 && 0 < i
          && ps[i - 1].platform == Button(1) && ps[i - 1].address == ps[i].address)
  }

  predicate ButtonsPairedIn(ps: seq<Point>) {
    forall i :: 0 <= i < |ps| ==> PairedAt(ps, i)
  }

  lemma PairedConcat(a: seq<Point>, b: seq<Point>)
    requires ButtonsPairedIn(a) && ButtonsPairedIn(b)
    ensures ButtonsPairedIn(a + b)
  {
    var s := a + b;
    forall i | 0 <= i < |s|
      ensures PairedAt(s, i)
    {
      if i < |a| {
        assert PairedAt(a, i);
        assert s[i] == a[i];
        if i + 1 < |a| {
          assert s[i + 1] == a[i + 1];
        }
        if 0 < i {
          assert s[i - 1] == a[i - 1];
        }
      } else {
        var k := i - |a|;
        assert PairedAt(b, k);
        assert s[i] == b[k];
        if k + 1 < |b| {
          assert s[i + 1] == b[k + 1];
        }
        if 0 < k {
          assert s[i - 1] == b[k - 1];
        }
      }
    }
  }

  lemma GeneralHasNoButtons()
    ensures forall i | 0 <= i < |GeneralAndHeatCircuit1Points| :: !GeneralAndHeatCircuit1Points[i].platform.Button?
  {
  }

  lemma GeneralButtonsPaired()
    ensures ButtonsPairedIn(GeneralAndHeatCircuit1Points)
  {
    GeneralHasNoButtons();
  }

  lemma HeatCircuitHasNoButtons()
    ensures forall i | 0 <= i < |HeatCircuit2And3Points| :: !HeatCircuit2And3Points[i].platform.Button?
  {
  }

  lemma HeatCircuitButtonsPaired()
    ensures ButtonsPairedIn(HeatCircuit2And3Points)
  {
    HeatCircuitHasNoButtons();
  }

  lemma BufferHasNoButtons()
    ensures forall i | 0 <= i < |BufferStoragePoints| :: !BufferStoragePoints[i].platform.Button?
  {
  }

  lemma BufferButtonsPaired()
    ensures ButtonsPairedIn(BufferStoragePoints)
  {
    BufferHasNoButtons();
  }

  lemma WarmWaterButtonsPaired()
    ensures ButtonsPairedIn(WarmWaterAndBurnerPoints)
  {
  }

  /** Every button of the table is one half of a pair sharing a register,
      the first pressing 1 and the second pressing 2. */
  lemma ButtonsPaired()
    ensures ButtonsPairedIn(Points)
  {
    var a, b := GeneralAndHeatCircuit1Points, HeatCircuit2And3Points;
    var c, d := BufferStoragePoints, WarmWaterAndBurnerPoints;
    GeneralButtonsPaired();
    HeatCircuitButtonsPaired();
    BufferButtonsPaired();
    WarmWaterButtonsPaired();
    PairedConcat(a, b);
    PairedConcat(a + b, c);
    PairedConcat(a + b + c, d);
  }

  /** Every button of `ps` sits on register 144, 155 or 159. */
  predicate ButtonsOnKnownRegisters(ps: seq<Point>) {
    forall i | 0 <= i < |ps| && ps[i].platform.Button? :: ps[i].address in {144, 155, 159}
  }

  lemma ButtonsOnKnownRegistersConcat(a: seq<Point>, b: seq<Point>)
    requires ButtonsOnKnownRegisters(a) && ButtonsOnKnownRegisters(b)
    ensures ButtonsOnKnownRegisters(a + b)
  {
    forall i | 0 <= i < |a + b| && (a + b)[i].platform.Button?
      ensures (a + b)[i].address in {144, 155, 159}
    {
      if i < |a| {
        assert (a + b)[i] == a[i];
      } else {
        assert (a + b)[i] == b[i - |a|];
      }
    }
  }

  lemma WarmWaterButtonRegisters()
    ensures ButtonsOnKnownRegisters(WarmWaterAndBurnerPoints)
  {
    var d := WarmWaterAndBurnerPoints;
    assert forall i | 0 <= i < |d| && d[i].platform.Button? :: d[i].address in {144, 155, 159};
  }

  /** Buttons sit only on registers 144, 155 and 159. */
  lemma ButtonAddresses()
    ensures forall i | 0 <= i < |Points| && Points[i].platform.Button? ::
      Points[i].address in {144, 155, 159}
  {
    var a, b := GeneralAndHeatCircuit1Points, HeatCircuit2And3Points;
    var c, d := BufferStoragePoints, WarmWaterAndBurnerPoints;
    GeneralHasNoButtons();
    HeatCircuitHasNoButtons();
    BufferHasNoButtons();
    WarmWaterButtonRegisters();
    ButtonsOnKnownRegistersConcat(a, b);
    ButtonsOnKnownRegistersConcat(a + b, c);
    ButtonsOnKnownRegistersConcat(a + b + c, d);
    assert ButtonsOnKnownRegisters(Points);
  }

  lemma GeneralSwitches()
    ensures forall i | 0 <= i < |GeneralAndHeatCircuit1Points| ::
      GeneralAndHeatCircuit1Points[i].platform.Switch? <==> i == 7
  {
  }

  lemma HeatCircuitSwitches()
    ensures forall i | 0 <= i < |HeatCircuit2And3Points| :: !HeatCircuit2And3Points[i].platform.Switch?
  {
  }

  lemma BufferSwitches()
    ensures forall i | 0 <= i < |BufferStoragePoints| ::
      BufferStoragePoints[i].platform.Switch? <==> i == 20
  {
  }

  lemma WarmWaterSwitches()
    ensures forall i | 0 <= i < |WarmWaterAndBurnerPoints| :: !WarmWaterAndBurnerPoints[i].platform.Switch?
  {
  }

  /** The table holds exactly two switches: the main switch on register 30
      and "electric charging only" on register 120. */
  lemma SwitchEntries()
    ensures forall i | 0 <= i < |Points| :: Points[i].platform.Switch? <==> i == 7 || i == 65
    ensures Points[7].address == 30 && Points[65].address == 120
  {
    var a, b := GeneralAndHeatCircuit1Points, HeatCircuit2And3Points;
    var c, d := BufferStoragePoints, WarmWaterAndBurnerPoints;
    GeneralSwitches();
    HeatCircuitSwitches();
    BufferSwitches();
    WarmWaterSwitches();
    forall i | 0 <= i < |Points|
      ensures Points[i].platform.Switch? <==> i == 7 || i == 65
    {
      if i < |a| {
        assert Points[i] == a[i];
      } else if i < |a| + |b| {
        assert Points[i] == b[i - |a|];
      } else if i < |a| + |b| + |c| {
        assert Points[i] == c[i - |a| - |b|];
      } else {
        assert Points[i] == d[i - |a| - |b| - |c|];
      }
    }
    assert Points[7] == a[7];
    assert Points[65] == c[20];
  }
}
