/** The switch entity `HHCSwitch` of `switch.py`: it writes 1 or 0 to its
    register and remembers, in `_data`, what the last acknowledged write set.
    It never looks at `hub.data`. */
module SwitchEntity {

  import opened Wrappers
  import opened Modbus
  import opened Host
  import Codec
  import Registry

  /** `data` is `_data`: `None` until a write has been acknowledged. */
  datatype Switch = Switch(slave: nat, address: nat, data: Option<bool>)

  /** A switch as set up for a registry entry. */
  function FromPoint(p: Registry.Point): (s: Switch)
    ensures s.data == None && s.slave == p.slave && s.address == p.address
  {
    Switch(p.slave, p.address, None)
  }

  /** `state`. */
  function State(s: Switch): (h: HostState)
    ensures h == Unavailable <==> s.data.None?
    ensures h == On <==> s.data == Some(true)
    ensures h == Off <==> s.data == Some(false)
  {
    match s.data
    case None => Unavailable
    case Some(b) => if b then On else Off
  }

  /** The result of a turn-on or turn-off: the entity afterwards, the write it
      sent, and whether it pushed its state to the host. */
  datatype Actuation = Actuation(switch: Switch, request: WriteRequest, pushed: bool)

  /** `async_turn_on` (`on`) or `async_turn_off` (`!on`), with the device
      answering the write with `outcome`. */
  function Turn(s: Switch, on: bool, outcome: WriteOutcome): (a: Actuation)
    ensures a.request.slave == s.slave && a.request.address == s.address
    ensures a.request.payload == [Codec.FlagWord(on)]
    ensures a.pushed <==> outcome.Acknowledged?
    ensures outcome.WriteError? ==> a.switch == s
    ensures outcome.Acknowledged? ==> a.switch == s.(data := Some(on))
  {
    var request := WriteRequest(s.slave, s.address, [if on then 1 else 0]);
    if outcome.WriteError? then Actuation(s, request, false)
    else Actuation(s.(data := Some(on)), request, true)
  }

  /** Turning on writes `[1]`, turning off `[0]`, and the hub's flag rule
      reads either word back as the boolean that was written; an acknowledged
      write shows ON or OFF accordingly. */
  lemma TurnRoundTrip(s: Switch, on: bool, outcome: WriteOutcome)
    ensures Turn(s, on, outcome).request.payload == [if on then 1 else 0]
    ensures Codec.Flag(Turn(s, on, outcome).request.payload[0]) == Codec.Bool(on)
    ensures outcome.Acknowledged? ==> State(Turn(s, on, outcome).switch) == (if on then On else Off)
    ensures outcome.WriteError? ==> State(Turn(s, on, outcome).switch) == State(s)
  {
    Codec.FlagRoundTrip(on);
  }

  /** The state after a sequence of turn requests, each with the device's
      answer. */
  function AfterTurns(s: Switch, turns: seq<(bool, WriteOutcome)>): Switch
    decreases |turns|
  {
    if |turns| == 0 then s
    else AfterTurns(Turn(s, turns[0].0, turns[0].1).switch, turns[1..])
  }

  /** The last request of `turns` the device acknowledged, if any. */
  function LastAcknowledged(turns: seq<(bool, WriteOutcome)>): (r: Option<bool>)
    ensures r.Some? <==> exists i :: 0 <= i < |turns| && turns[i].1.Acknowledged?
  {
    if |turns| == 0 then None
    else if turns[|turns| - 1].1.Acknowledged? then Some(turns[|turns| - 1].0)
    else
      var r := LastAcknowledged(turns[..|turns| - 1]);
      assert forall i :: 0 <= i < |turns| - 1 ==> turns[..|turns| - 1][i] == turns[i];
      r
  }

  /** A switch shows what its last acknowledged write set, and what it showed
      before if no write was acknowledged: nothing else (in particular no hub
      refresh) moves its state. */
  lemma {:induction false} StateFollowsLastAcknowledged(s: Switch, turns: seq<(bool, WriteOutcome)>)
    ensures AfterTurns(s, turns).data
      == if LastAcknowledged(turns).Some? then LastAcknowledged(turns) else s.data
    decreases |turns|
  {
    if |turns| > 0 {
      var s' := Turn(s, turns[0].0, turns[0].1).switch;
      StateFollowsLastAcknowledged(s', turns[1..]);
      LastAcknowledgedCons(turns);
    }
  }

  lemma {:induction false} LastAcknowledgedCons(turns: seq<(bool, WriteOutcome)>)
    requires |turns| > 0
    ensures LastAcknowledged(turns)
      == if LastAcknowledged(turns[1..]).Some? then LastAcknowledged(turns[1..])
         else if turns[0].1.Acknowledged? then Some(turns[0].0) else None
    decreases |turns|
  {
    if |turns| > 1 && !turns[|turns| - 1].1.Acknowledged? {
      var init := turns[..|turns| - 1];
      LastAcknowledgedCons(init);
      assert init[1..] == turns[1..][..|turns[1..]| - 1];
    }
  }
}
