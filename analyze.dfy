/** `analyze.py`: collects the set of footprints named by the symbols of a library. */
module Analyze {
  import opened Outcomes
  import opened Symbols
  import opened Accumulators

  /** `get_footprints(accumulator, symbol)`: a fresh set when the accumulator is `None`, then the
      symbol's footprint (`None` when it has no `Footprint` property) is added; a duplicated
      `Footprint` property raises before anything is added. */
  method GetFootprints(acc: MutableSet?<Option<string>>, sym: Symbol)
    returns (r: Result<MutableSet<Option<string>>>)
    modifies acc
    ensures r.Err? <==> PropValue(sym, "Footprint").Err?
    ensures r.Err? ==> r.error == PropValue(sym, "Footprint").error
    ensures r.Err? && acc != null ==> acc.elems == old(acc.elems)
    ensures r.Ok? && acc == null ==> fresh(r.value) && r.value.elems == {PropValue(sym, "Footprint").value}
    ensures r.Ok? && acc != null ==>
            r.value == acc && acc.elems == old(acc.elems) + {PropValue(sym, "Footprint").value}
    // Repeating the call for a footprint already collected changes nothing.
    ensures acc != null && PropValue(sym, "Footprint").Ok? && PropValue(sym, "Footprint").value in old(acc.elems) ==>
            acc.elems == old(acc.elems)
  {
    var footprint := PropValue(sym, "Footprint");
    var s := acc;
    if s == null {
      s := new MutableSet();
    }
    if footprint.Err? {
      return Err(footprint.error);
    }
    s.Add(footprint.value);
    return Ok(s);
  }
}
