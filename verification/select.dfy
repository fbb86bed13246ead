/** The select entity `HHCSelect` of `select.py`: it writes the index of the
    chosen option to its register and remembers the index in `_data`. Reading
    the index back only distinguishes 1, 2 and everything else. */
module SelectEntity {

  import opened Wrappers
  import opened Modbus
  import opened Host
  import Lists

  /** `data` is `_data`: `None` until a write has been acknowledged. */
  datatype Select = Select(slave: nat, address: nat, options: seq<string>, data: Option<int>)

  /** The position `current_option` looks at: 1 or 2 when `_data` is, 0 for
      anything else, including `None`. */
  function ShownIndex(data: Option<int>): (i: nat)
    ensures i <= 2
    ensures i != 0 <==> data == Some(1) || data == Some(2)
    ensures i != 0 ==> data == Some(i)
  {
    if data == Some(1) then 1 else if data == Some(2) then 2 else 0
  }

  /** `current_option`; `None` where indexing `options` raises `IndexError`. */
  function CurrentOption(s: Select): (o: Option<string>)
    ensures o.Some? <==> ShownIndex(s.data) < |s.options|
    ensures o.Some? ==> o.value == s.options[ShownIndex(s.data)]
  {
    var i := ShownIndex(s.data);
    if i < |s.options| then Some(s.options[i]) else None
  }

  /** `state`: unavailable while `_data` is `None`, the current option
      otherwise; `None` where the option lookup raises. */
  function State(s: Select): (h: Option<HostState>)
    ensures s.data.None? ==> h == Some(Unavailable)
    ensures s.data.Some? ==> (h.Some? <==> CurrentOption(s).Some?)
    ensures s.data.Some? && h.Some? ==> h.value == Shown(CurrentOption(s).value)
  {
    if s.data.None? then Some(Unavailable)
    else match CurrentOption(s)
      case Some(o) => Some(Shown(o))
      case None => None
  }

  /** How `async_select_option` ends: the entity afterwards, the write sent
      (if any), whether the state was pushed, and whether it raised. */
  datatype Selection = Selection(
    select: Select, request: Option<WriteRequest>, pushed: bool, raised: bool)

  /** `async_select_option(option)` with the device answering a write with
      `outcome`. An option not in the list is logged and nothing is written;
      an index that does not fit an unsigned 16-bit word makes the payload
      builder raise before anything is written. */
  function SelectOption(s: Select, option: string, outcome: WriteOutcome): (r: Selection)
    ensures Lists.FirstIndex(s.options, option).None? ==>
      r == Selection(s, None, false, false)
    ensures r.request.Some? <==>
      Lists.FirstIndex(s.options, option).Some? && Lists.FirstIndex(s.options, option).value < 0x1_0000
    ensures r.request.Some? ==>
      r.request.value == WriteRequest(s.slave, s.address, [Lists.FirstIndex(s.options, option).value])
    ensures r.pushed <==> r.request.Some? && outcome.Acknowledged?
    ensures r.pushed ==> r.select == s.(data := Some(Lists.FirstIndex(s.options, option).value))
    ensures !r.pushed ==> r.select == s
    ensures r.raised <==> r.request.None? && option in s.options
  {
    match Lists.FirstIndex(s.options, option)
    case None => Selection(s, None, false, false)
    case Some(i) =>
      match Uint16Payload(i)
      case None => Selection(s, None, false, true)
      case Some(payload) =>
        var request := WriteRequest(s.slave, s.address, payload);
        if outcome.WriteError? then Selection(s, Some(request), false, false)
        else Selection(s.(data := Some(i)), Some(request), true, false)
  }

  /** After an acknowledged selection of an option whose first index is 0, 1
      or 2, the entity shows that option again. */
  lemma SelectRoundTrip(s: Select, option: string)
    requires Lists.FirstIndex(s.options, option).Some?
    requires Lists.FirstIndex(s.options, option).value <= 2
    ensures CurrentOption(SelectOption(s, option, Acknowledged).select) == Some(option)
    ensures State(SelectOption(s, option, Acknowledged).select) == Some(Shown(option))
  {
  }

  /** An acknowledged selection of an option at index 3 or later stores that
      index, yet the entity shows the first option. */
  lemma SelectBeyondThirdShowsFirst(s: Select, option: string)
    requires Lists.FirstIndex(s.options, option).Some?
    requires 3 <= Lists.FirstIndex(s.options, option).value < 0x1_0000
    ensures SelectOption(s, option, Acknowledged).select.data
      == Some(Lists.FirstIndex(s.options, option).value)
    ensures CurrentOption(SelectOption(s, option, Acknowledged).select) == Some(s.options[0])
  {
  }
}
