/** The button entity `HHCButton` of `button.py`: pressing it writes its
    pressed value to its register. It keeps no state of its own. */
module ButtonEntity {

  import opened Wrappers
  import opened Modbus
  import Registry

  /** The `pressed_value` a button gets when none is passed. */
  const DefaultPressedValue := 1

  datatype Button = Button(slave: nat, address: nat, pressedValue: int)

  /** A button as set up for a registry entry: the entry's extra element is
      its pressed value. */
  function FromPoint(p: Registry.Point): (b: Button)
    requires p.platform.Button?
    ensures b.slave == p.slave && b.address == p.address
    ensures b.pressedValue == p.platform.pressedValue
  {
    Button(p.slave, p.address, p.platform.pressedValue)
  }

  /** A button constructed without a pressed value presses 1. */
  function WithDefault(slave: nat, address: nat): (b: Button)
    ensures b.pressedValue == 1
  {
    Button(slave, address, DefaultPressedValue)
  }

  /** How `async_press` ends: the button afterwards, the write sent (if any),
      and whether it raised. It raises, before anything is written, when the
      pressed value does not fit an unsigned 16-bit word. */
  datatype Press = Press(button: Button, request: Option<WriteRequest>, raised: bool)

  /** `async_press` with the device answering the write with `outcome`. An
      error answer is logged and the press ends; nothing is retried. */
  function Pressed(b: Button, outcome: WriteOutcome): (p: Press)
    ensures p.button == b
    ensures p.request.Some? <==> 0 <= b.pressedValue < 0x1_0000
    ensures p.raised <==> p.request.None?
    ensures p.request.Some? ==>
      p.request.value == WriteRequest(b.slave, b.address, [b.pressedValue])
  {
    match Uint16Payload(b.pressedValue)
    case None => Press(b, None, true)
    case Some(payload) => Press(b, Some(WriteRequest(b.slave, b.address, payload)), false)
  }

  /** A press sends the same single write whatever the device answers, and
      leaves the button as it was. */
  lemma PressIgnoresOutcome(b: Button)
    ensures Pressed(b, Acknowledged) == Pressed(b, WriteError)
    ensures Pressed(b, Acknowledged).button == b
  {
  }

  /** Every button of the registry writes a one-word payload: the first of a
      pair writes 1 and the second writes 2, both to the register they share. */
  lemma RegistryButtonsWrite(i: nat)
    requires i < |Registry.Points| && Registry.Points[i].platform.Button?
    ensures var r := Pressed(FromPoint(Registry.Points[i]), Acknowledged).request;
      && r.Some? && |r.value.payload| == 1
      && (r.value.payload == [1] || r.value.payload == [2])
      && r.value.slave == Registry.DefaultModbusAddress
  {
    Registry.ButtonsPaired();
    Registry.PointsWellFormed();
    assert Registry.PairedAt(Registry.Points, i);
  }
}
