# home_heat_control in Dafny

This project models the core of the Home Assistant integration
`home_heat_control`. The integration polls a heating controller over Modbus TCP
and exposes its registers as entities. The model covers five parts:

- **The register codec** (`Codec`, `Bits`, `Decimal`). Each of the hub's
  `read_modbus_data_*` methods reads one register or four and stores a value in
  `hub.data`. These methods reduce to a small set of rules:
  - a signed temperature with three sentinel codes;
  - a bounded percent;
  - a flag;
  - a fill level whose sentinels vary by point;
  - ten enumerated status tables, plus the heat circuit 2 mixer table as written;
  - a packed software version;
  - the `bitfield` helper.
- **The hub** (`Hub`). This covers the read plan, meaning the 73 readers in the
  order `read_modbus_data` calls them. It also covers the read pass that fills
  `hub.data`, the subscriber list with its poll timer, and the refresh that
  reconnects, reads and notifies.
- **The point registry** (`Registry`). `HHCSENSOR_TYPES` is modelled as a
  constant table of 91 entries, with well-formedness lemmas about it.
- **The write path** (`SwitchEntity`, `SelectEntity`, `ButtonEntity`). Each of
  these entities builds a one-word payload, writes it, and (for switch and
  select) remembers the written value in its own `_data`.
- **The time entity** (`TimeEntity`). It unpacks a register into hour (high
  byte) and minute (low byte), falls back to midnight, and has a setter that
  does nothing.

Register words are `0..65535`. A value divided by ten in the source is kept as
an integer number of tenths (`Tenths(t)` stands for `t / 10`). The Modbus
client is abstract:

- a read is answered by `Registers(words)`, `ErrorResponse` (`isError()` true)
  or `Raised` (the client threw);
- a write is answered by `Acknowledged` or `WriteError`;
- a reconnect attempt is answered by a boolean parameter.

The model follows the code as written in these places:

- There is no guard against overlapping polls, and values never go stale.
- Writes from switches, selects and buttons never touch `hub.data`.
- The time entity starts with `_data = None`, and only the unreachable code
  after the setter's early `return` assigns it. So the entity stays
  unavailable: see `TimeEntity.State` and `TimeEntity.SetValueIsInert`.
- Whether `0xFFFE` means "Nicht verbaut" depends on the fill-level point. Only
  buffer 2 checks for it; elsewhere it decodes to 6553.4.
- The heat circuit 2 mixer reader decodes with its own defective `elif` chain.
  `Codec.Hc2MixerDeviation` states how it differs from the mixer table.
- Six registry keys are spelled "temperature", but the readers store under
  "temerature". `Hub.MisspelledKeysNeverStored` states that no reader ever
  stores under the registry spelling.

## Model

| member | source | states |
|---|---|---|
| Modbus.Int16RoundTrip | custom_components/home_heat_control/homeheatcontrol.py:249 | the INT16 reading of a register and the two's-complement encoding of a signed value are inverse bijections between words and -32768..32767 |
| Modbus.Uint16Payload | custom_components/home_heat_control/switch.py:109-110 | `add_16bit_uint` yields a one-word payload holding exactly the value when it fits 0..65535, and fails (raises) otherwise |
| Bits.Bitfield | custom_components/home_heat_control/homeheatcontrol.py:14-19 | `bitfield` returns a digit list exactly for non-negative values; a negative value makes `int('b')` raise |
| Bits.BitfieldRoundTrip | custom_components/home_heat_control/homeheatcontrol.py:14-19 | for every size, the bit list of a non-negative value denotes that value and is as long as the larger of the size and the unpadded binary length |
| Bits.BinInjective | custom_components/home_heat_control/homeheatcontrol.py:19 | without a size, different values give different bit lists |
| Decimal.ParseShow | custom_components/home_heat_control/homeheatcontrol.py:226-227 | reading back the decimal text of a version field gives the number again |
| Decimal.DottedInjective | custom_components/home_heat_control/homeheatcontrol.py:226-227 | a string `major.minor.patch` determines its three numbers |
| Decimal.TwoDigits | custom_components/home_heat_control/time.py:98 | the two-digit field of `isoformat` has two digits that read back as the number |
| Codec.SignedTemperature | custom_components/home_heat_control/homeheatcontrol.py:242-260 | the result is a reading exactly when the INT16 value is not 0x7FFD, 0x7FFE or 0x7FFF; a reading is the INT16 value in tenths, below 0x7FFD; a sentinel gives a label and never a number |
| Codec.TemperatureRoundTrip | custom_components/home_heat_control/homeheatcontrol.py:471-489 | no information is lost: the register is recovered from its decoded value, and every value in the rule's range decodes from the register that encodes it |
| Codec.BoundedPercent | custom_components/home_heat_control/homeheatcontrol.py:439-453 | a register up to 100 is stored unscaled, so the result lies in 0..100; above 100 the result is `None` |
| Codec.Flag | custom_components/home_heat_control/homeheatcontrol.py:324-333 | a flag point stores a boolean that is true exactly when the register is non-zero |
| Codec.FlagRoundTrip | custom_components/home_heat_control/homeheatcontrol.py:1258-1267 | decoding the word written for a flag gives back the written boolean |
| Codec.FillLevel | custom_components/home_heat_control/homeheatcontrol.py:1124-1172 | 0xFFFF gives "Ungültig" for every fill-level point; 0xFFFE gives "Nicht verbaut" only where the point checks for it; every other register is a reading in tenths |
| Codec.FillLevelVariants | custom_components/home_heat_control/homeheatcontrol.py:1140-1156 | the two kinds of fill-level point disagree on exactly one register value, 0xFFFE, which the unchecked kind reads as 6553.4 |
| Codec.Status | custom_components/home_heat_control/homeheatcontrol.py:346-374 | a code gives a label of its family exactly when it is below the table's length (a contiguous range from 0), and `None` otherwise |
| Codec.CodeOf | custom_components/home_heat_control/homeheatcontrol.py:302-322 | the code found for a label is one that the table maps to that label; no code is found for a name outside the table |
| Codec.LabelsDistinct | custom_components/home_heat_control/homeheatcontrol.py:1587-1617 | no label appears twice in any family's table |
| Codec.StatusRoundTrip | custom_components/home_heat_control/homeheatcontrol.py:346-374 | each family's table is a bijection between its codes and labels, in both directions |
| Codec.Hc2MixerDeviation | custom_components/home_heat_control/homeheatcontrol.py:563-591 | the heat circuit 2 mixer reader agrees with the heat circuit 1 mixer table except at code 4 (`None`) and code 6 ("Öffnen - Schnell"), and it never yields "Schließen - Schnell" |
| Codec.Uint64 | custom_components/home_heat_control/homeheatcontrol.py:217 | four registers read big-endian give a value below 2^64 |
| Codec.VersionBytes | custom_components/home_heat_control/homeheatcontrol.py:219-224 | the six shifted and masked fields are, in turn, the high and low bytes of registers 0, 1 and 2, so each is at most 255 |
| Codec.VersionStringsFromBytes | custom_components/home_heat_control/homeheatcontrol.py:211-229 | `fbl_sw_version` is bytes 7.6.5 and `appl_sw_version` is bytes 4.3.2 of the UINT64 |
| Codec.FourthRegisterIgnored | custom_components/home_heat_control/homeheatcontrol.py:211-229 | the fourth register never affects either version string |
| Codec.VersionStringsInjective | custom_components/home_heat_control/homeheatcontrol.py:211-229 | the two version strings determine the first three registers |
| Registry.KeysDistinctInTable | custom_components/home_heat_control/const.py:21-127 | no two entries of the table share a key |
| Registry.UniqueId | custom_components/home_heat_control/switch.py:91 | the unique id is as long as the platform name, the `_` and the key together; the platform name is its prefix and the key follows the `_` |
| Registry.UniqueIdsDistinct | custom_components/home_heat_control/button.py:83 | within one platform name, the unique ids built from the table's keys are pairwise different |
| Registry.PointsWellFormed | custom_components/home_heat_control/const.py:16-126 | every entry uses Modbus unit 0 and an address in 0..182; every number entry has min < max, a positive step and a scale of 0.1 or 1 |
| Registry.AddressesAscending | custom_components/home_heat_control/const.py:23-126 | register addresses never decrease along the table |
| Registry.ButtonsPaired | custom_components/home_heat_control/const.py:104-118 | every button is half of a pair on one register: the first presses 1 and the next entry presses 2 |
| Registry.ButtonAddresses | custom_components/home_heat_control/const.py:104-118 | buttons sit only on registers 144, 155 and 159 |
| Registry.SwitchEntries | custom_components/home_heat_control/const.py:33-98 | the table holds exactly two switches, the main switch on register 30 and "nur E-Laden" on register 120 |
| Hub.Decode | custom_components/home_heat_control/homeheatcontrol.py:211-229 | a good response makes a reader store exactly the key or keys of its rule |
| Hub.Read | custom_components/home_heat_control/homeheatcontrol.py:242-260 | a reader raises exactly when the client raises or the register list cannot be converted; on an error response it returns `False` with the data unchanged; it never touches keys outside its rule |
| Hub.ReadPass | custom_components/home_heat_control/homeheatcontrol.py:134-209 | readers run in plan order until one raises; each reader that returned reports `True` exactly on a good response; the requests sent are those of the readers reached; a key that no reader which returned stores under keeps its value, so after a raise the keys of the raising reader and of every later one are as they were |
| Hub.PlanKeysUnique | custom_components/home_heat_control/homeheatcontrol.py:134-209 | no two readers of the plan store under the same key |
| Hub.ReadIsolated | custom_components/home_heat_control/homeheatcontrol.py:213-216 | in a plan with unique keys, a reader that got an error response leaves its keys untouched, and a reader that got registers leaves its decoded values, whatever later readers do |
| Hub.FailureIsolation | custom_components/home_heat_control/homeheatcontrol.py:134-209 | in the hub's plan, a failed read returns `False` and leaves its key as it was, while the other readers' results stand |
| Hub.AllReadsAttempted | custom_components/home_heat_control/homeheatcontrol.py:134-209 | unless a reader raises, all 73 readers run in fixed order, error responses included |
| Hub.ErrorsLeaveDataUnchanged | custom_components/home_heat_control/homeheatcontrol.py:213-216 | a pass in which every read gets an error response leaves the data as it was |
| Hub.Init | custom_components/home_heat_control/homeheatcontrol.py:24-34 | a new hub has no subscribers, no timer, no connection and empty data, and satisfies the timer invariant |
| Hub.ClientTimeout | custom_components/home_heat_control/homeheatcontrol.py:27 | the client timeout is at least 3 seconds and at least one second below the scan interval, and it is one of the two |
| Hub.AddSubscriber | custom_components/home_heat_control/homeheatcontrol.py:36-45 | the callback is appended; adding to an empty list arms the timer; otherwise the timer stays as it was |
| Hub.FirstPosition | custom_components/home_heat_control/homeheatcontrol.py:50 | `list.remove` removes the first occurrence |
| Hub.RemoveFirst | custom_components/home_heat_control/homeheatcontrol.py:50 | removing a callback shortens the list by one and removes exactly one copy of it |
| Hub.RemoveSubscriber | custom_components/home_heat_control/homeheatcontrol.py:47-56 | removing an absent callback raises and changes nothing; removing the last one cancels the timer and closes the client; the unset-handle error happens exactly when the last callback goes while no timer is armed |
| Hub.LifecycleKeepsValid | custom_components/home_heat_control/homeheatcontrol.py:36-56 | adding and removing keep the timer armed exactly while the list is non-empty, and from such a state a removal never meets an unset handle |
| Hub.AddThenRemove | custom_components/home_heat_control/homeheatcontrol.py:36-56 | removing a callback just added restores the list; if it was the only one, the timer is off and the client is closed again |
| Hub.Refresh | custom_components/home_heat_control/homeheatcontrol.py:58-96 | refresh succeeds exactly when there are subscribers, the client is connected or reconnects, and no reader raises; every subscriber is notified exactly on success; without subscribers or after a failed reconnect nothing is read and the hub is unchanged; otherwise the data afterwards is what the read pass left, and after a raise the connection flag is whatever the client reports |
| Hub.RefreshKeepsValid | custom_components/home_heat_control/homeheatcontrol.py:58-80 | a refresh keeps the timer invariant |
| Hub.NotifiesDespiteErrors | custom_components/home_heat_control/homeheatcontrol.py:66-80 | even when every read gets an error response, a refresh with subscribers and a connection notifies all of them and leaves the data as it was |
| Hub.RefreshIsolatesFailures | custom_components/home_heat_control/homeheatcontrol.py:66-80 | once the pass reaches a reader, an error response leaves its key as it was before the tick and registers store the decoded value, whatever the other readers got |
| Hub.RaiseAbandonsRest | custom_components/home_heat_control/homeheatcontrol.py:74-79 | a reader that raises ends the tick: only the requests up to it were sent, nobody is notified, and every key no earlier reader stores under keeps its value |
| Hub.SwitchesReadAsFlags | custom_components/home_heat_control/homeheatcontrol.py:324-333 | each switch of the registry sits on a register that a reader decodes with the flag rule under the switch's key |
| Hub.MisspelledKeysNeverStored | custom_components/home_heat_control/const.py:121-126 | six registry sensors are keyed "temperature"; the reader of their register stores under "temerature"; and no reader of the plan ever stores under the registry key |
| SwitchEntity.FromPoint | custom_components/home_heat_control/switch.py:67 | a new switch has no data, and keeps its entry's unit and address |
| SwitchEntity.State | custom_components/home_heat_control/switch.py:93-103 | a switch is unavailable exactly without data, and shows ON or OFF exactly when its data is true or false |
| SwitchEntity.Turn | custom_components/home_heat_control/switch.py:105-137 | turning on or off writes the one-word payload `[1]` or `[0]` to the switch's unit and address; a write error leaves the switch unchanged and pushes nothing; an acknowledgement sets the data and pushes the state |
| SwitchEntity.TurnRoundTrip | custom_components/home_heat_control/switch.py:108-125 | the hub's flag rule reads the written word back as the requested boolean, and after an acknowledged write the switch shows ON or OFF accordingly |
| SwitchEntity.StateFollowsLastAcknowledged | custom_components/home_heat_control/switch.py:93-103 | after any sequence of turns, the switch holds what its last acknowledged write set, or what it held before; nothing else, such as hub data, moves it |
| SelectEntity.ShownIndex | custom_components/home_heat_control/select.py:102-109 | `current_option` looks at position 1 or 2 exactly when the data is 1 or 2, and at position 0 for any other data, `None` included |
| SelectEntity.CurrentOption | custom_components/home_heat_control/select.py:102-109 | the current option is the option at the shown position, and indexing fails when the list is too short |
| SelectEntity.State | custom_components/home_heat_control/select.py:95-100 | a select is unavailable exactly without data, and otherwise shows the current option |
| SelectEntity.SelectOption | custom_components/home_heat_control/select.py:111-130 | an unknown option writes nothing and changes nothing; a known option writes its first index as one word; a write error leaves the data unchanged; an acknowledgement stores the index |
| SelectEntity.SelectRoundTrip | custom_components/home_heat_control/select.py:102-129 | after an acknowledged selection of an option whose first index is 0, 1 or 2, the select shows that option again |
| SelectEntity.SelectBeyondThirdShowsFirst | custom_components/home_heat_control/select.py:102-109 | an acknowledged selection at index 3 or later stores that index, yet the select shows the first option |
| TimeEntity.NativeValue | custom_components/home_heat_control/time.py:102-119 | without data there is no time; otherwise the hour is the high byte and the minute the low byte when they form a valid time, and midnight when they do not; the result is always a valid time |
| TimeEntity.UnpackPack | custom_components/home_heat_control/time.py:106-109 | unpacking `hour * 256 + minute` gives that hour and minute back, for every valid time |
| TimeEntity.PackUnpack | custom_components/home_heat_control/time.py:104-117 | for any register value, the time shown is midnight or the time whose packed form is the register's low 16 bits |
| TimeEntity.IsoFormat | custom_components/home_heat_control/time.py:98 | `isoformat` is `HH:MM:00`, and its two fields read back as the hour and the minute |
| TimeEntity.IsoFormatInjective | custom_components/home_heat_control/time.py:98 | different times of day show different strings |
| TimeEntity.State | custom_components/home_heat_control/time.py:95-100 | the time entity is unavailable exactly without data, and otherwise shows the ISO form of its native value |
| TimeEntity.SetValueIsInert | custom_components/home_heat_control/time.py:121-122 | setting a time writes nothing and changes neither the entity nor what it shows |
| ButtonEntity.FromPoint | custom_components/home_heat_control/button.py:35-47 | a registry button keeps its entry's unit and address, and its pressed value is the entry's extra element |
| ButtonEntity.WithDefault | custom_components/home_heat_control/button.py:55 | a button built without a pressed value presses 1 |
| ButtonEntity.Pressed | custom_components/home_heat_control/button.py:85-92 | a press writes the one-word payload `[pressed_value]` to the button's unit and address when the value fits a word, and otherwise raises before writing; the button never changes |
| ButtonEntity.PressIgnoresOutcome | custom_components/home_heat_control/button.py:93-95 | a press does the same whatever the device answers: it sends one write, does not retry and changes no state |
| ButtonEntity.RegistryButtonsWrite | custom_components/home_heat_control/const.py:104-118 | every button of the registry writes a one-word payload of 1 or 2 to Modbus unit 0 |

## Left out

- The pymodbus client is not modelled: TCP framing, `connect()`, `close()`,
  the lock and `write_register`. A read or write is an abstract outcome, and a
  reconnect is a boolean parameter. `convert_from_registers` is modelled only
  as the INT16, UINT16 and UINT64 views of the words.
- A register list of the wrong length is treated as a raise. The model assumes
  that conversion fails in that case; the client library decides this, and it
  is not part of this model.
- Concurrency is not modelled: the executor job, the interval timer and the
  state pushes to the host. Each operation is treated as atomic, and the timer
  is a flag.
- Callbacks are numbers. Calling `update_callback()` on the registered entity
  is modelled as that number being notified.
- `sensor.py`, `binary_sensor.py` and `__init__.py` are not part of this
  model. They project `hub.data` into host state and set entities up.
- The setup loops of each platform are not modelled, nor are `device_info`,
  icons, names, device classes or logging. Registry entries keep only their
  unit, address, key and the data the write path needs.
- `number.py` is not part of this model. Number entries appear in the registry
  only with their bounds, step and scale, and no reader serves them.
- The code after the early `return` in `time.py` (lines 123-135) is never
  reached and is not modelled.
- Hub.RemoveSubscriber: the `HandleMissing` outcome is reachable only from a
  state that breaks the timer invariant. `Hub.LifecycleKeepsValid` shows that it
  never happens from a valid state.
- Hub.Refresh: after a pass in which no reader raised, the client is taken to
  be connected. Whether an error response can drop the TCP connection is up
  to the client library, which is not part of this model.
- Codec.SignedTemperature and Codec.FillLevel: a reading is kept as integer
  tenths rather than the float `raw / 10`, so rounding of the float division
  is not modelled.
