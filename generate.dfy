/** `generate.py`: pick a part by name, collect the pins of its one pin-bearing unit, sort
    them by number, look its footprint up in the registry and group the pins. */
module Generate {
  import opened Outcomes
  import opened Filtering
  import opened Symbols
  import opened Packages

  /** `next(s for s in sym_lib.symbols if s.entryName == part_name)`: the first symbol with
      that entry name; `next` raises `StopIteration` when there is none. */
  function SelectPart(lib: seq<Symbol>, name: string): (r: Result<Symbol>)
    ensures r.Err? <==> forall i :: 0 <= i < |lib| ==> lib[i].entryName != name
    ensures r.Err? ==> r.error == NoSuchSymbol(name)
    ensures r.Ok? ==>
            exists i :: 0 <= i < |lib| && lib[i] == r.value && r.value.entryName == name &&
                        forall j :: 0 <= j < i ==> lib[j].entryName != name
  {
    match FindSymbol(lib, name)
    case None => Err(NoSuchSymbol(name))
    case Some(s) => Ok(s)
  }

  /** The comprehension `[Pin(name=p.name, number=int(p.number)) for p in ...]`. */
  function ToPins(pins: seq<SymbolPin>): (r: seq<Pin>)
    ensures |r| == |pins|
    ensures forall i :: 0 <= i < |pins| ==> r[i].number == pins[i].number && r[i].name == pins[i].name
  {
    seq(|pins|, i requires 0 <= i < |pins| => Pin(pins[i].number, pins[i].name))
  }

  /** Pin numbers never decrease along the sequence. */
  ghost predicate SortedByNumber(pins: seq<Pin>)
  {
    forall i, j :: 0 <= i < j < |pins| ==> pins[i].number <= pins[j].number
  }

  /** Put `p` before the first pin whose number is not smaller. */
  function InsertByNumber(p: Pin, sorted: seq<Pin>): seq<Pin>
  {
    if sorted == [] || p.number <= sorted[0].number then [p] + sorted
    else [sorted[0]] + InsertByNumber(p, sorted[1..])
  }

  /** `pins.sort(key=lambda p: p.number)`, a stable sort by number, as an insertion sort. */
  function SortByNumber(pins: seq<Pin>): seq<Pin>
  {
    if pins == [] then [] else InsertByNumber(pins[0], SortByNumber(pins[1..]))
  }

  /** Inserting adds exactly the one pin. */
  lemma {:induction false} InsertByNumberKeeps(p: Pin, sorted: seq<Pin>)
    ensures multiset(InsertByNumber(p, sorted)) == multiset(sorted) + multiset{p}
  {
    if sorted != [] && p.number > sorted[0].number {
      InsertByNumberKeeps(p, sorted[1..]);
      assert sorted == [sorted[0]] + sorted[1..];
    }
  }

  /** A pin no greater than every pin of a sorted run can go in front of it. */
  lemma PrependSorted(head: Pin, rest: seq<Pin>)
    requires SortedByNumber(rest)
    requires forall q :: q in rest ==> head.number <= q.number
    ensures SortedByNumber([head] + rest)
  {
    var r := [head] + rest;
    forall i, j | 0 <= i < j < |r| ensures r[i].number <= r[j].number {
      if i == 0 {
        assert r[j] in rest;
      } else {
        assert r[i] == rest[i - 1] && r[j] == rest[j - 1];
      }
    }
  }

  /** The first pin of a sorted run has the smallest number. */
  lemma SortedHeadLeast(sorted: seq<Pin>)
    requires SortedByNumber(sorted) && sorted != []
    ensures forall q :: q in sorted ==> sorted[0].number <= q.number
  {
    forall q | q in sorted ensures sorted[0].number <= q.number {
      var k :| 0 <= k < |sorted| && sorted[k] == q;
    }
  }

  /** Inserting into a run sorted by number keeps it sorted. */
  lemma {:induction false} InsertByNumberSorted(p: Pin, sorted: seq<Pin>)
    requires SortedByNumber(sorted)
    ensures SortedByNumber(InsertByNumber(p, sorted))
  {
    if sorted == [] {
    } else if p.number <= sorted[0].number {
      SortedHeadLeast(sorted);
      PrependSorted(p, sorted);
    } else {
      var head, tail := sorted[0], sorted[1..];
      assert SortedByNumber(tail);
      InsertByNumberSorted(p, tail);
      InsertByNumberKeeps(p, tail);
      SortedHeadLeast(sorted);
      var rest := InsertByNumber(p, tail);
      forall q | q in rest ensures head.number <= q.number {
        assert q in multiset(rest);
        if q != p {
          assert q in multiset(tail);
          assert q in sorted;
        }
      }
      PrependSorted(head, rest);
    }
  }

  /** Sorting by number orders the pins ascending by number and keeps exactly the same pins. */
  lemma {:induction false} SortByNumberCorrect(pins: seq<Pin>)
    ensures SortedByNumber(SortByNumber(pins))
    ensures multiset(SortByNumber(pins)) == multiset(pins)
  {
    if pins != [] {
      SortByNumberCorrect(pins[1..]);
      InsertByNumberSorted(pins[0], SortByNumber(pins[1..]));
      InsertByNumberKeeps(pins[0], SortByNumber(pins[1..]));
      assert pins == [pins[0]] + pins[1..];
    }
  }

  /** Pins with the same multiset have the same set of numbers. */
  lemma SameNumbers(a: seq<Pin>, b: seq<Pin>)
    requires multiset(a) == multiset(b)
    ensures NumberSet(a) == NumberSet(b)
  {
    forall n ensures n in NumberSet(a) <==> n in NumberSet(b) {
      NumberSetHas(a, n);
      NumberSetHas(b, n);
      if exists i :: 0 <= i < |a| && a[i].number == n {
        var i :| 0 <= i < |a| && a[i].number == n;
        assert a[i] in multiset(b);
      }
      if exists i :: 0 <= i < |b| && b[i].number == n {
        var i :| 0 <= i < |b| && b[i].number == n;
        assert b[i] in multiset(a);
      }
    }
  }

  /** What `get_groups(part_sym)` returns or raises, given the registry it reads. */
  function Groups(registry: map<string, Package>, sym: Symbol): Result<seq<PinGroup>>
  {
    var units := PinUnits(sym.units);
    if |units| != 1 then Err(PinUnitCount(|units|))
    else
      match PropValue(sym, "Footprint")
      case Err(e) => Err(e)
      case Ok(footprint) =>
        match Lookup(registry, footprint)
        case Err(e) => Err(e)
        case Ok(package) => package.Grouping(SortByNumber(ToPins(units[0].pins)))
  }

  /** `get_groups(part_sym)`: the single pin-unit check, the footprint property, the pin list
      built and sorted in place, the registry lookup, then `group_pins`. The module-global
      `PACKAGE_REGISTRY` is passed in as `registry`. */
  method GetGroups(registry: map<string, Package>, sym: Symbol) returns (r: Result<seq<PinGroup>>)
    ensures r == Groups(registry, sym)
  {
    var pinUnits := PinUnits(sym.units);
    if |pinUnits| != 1 {
      return Err(PinUnitCount(|pinUnits|));
    }
    var footprint := PropValue(sym, "Footprint");
    if footprint.Err? {
      return Err(footprint.error);
    }
    var pins := ToPins(pinUnits[0].pins);
    pins := SortByNumber(pins);
    var package := Lookup(registry, footprint.value);
    if package.Err? {
      return Err(package.error);
    }
    r := package.value.GroupPins(pins);
  }

  /** `get_groups` raises unless exactly one unit has pins; a duplicated `Footprint`
      property raises before the registry is consulted; a missing (`None`) or unregistered
      footprint raises `KeyError` rather than being skipped. */
  lemma GroupsFailures(registry: map<string, Package>, sym: Symbol)
    ensures (Groups(registry, sym).Err? && Groups(registry, sym).error.PinUnitCount?) <==>
            !exists u :: OnlyPinUnit(sym.units, u)
    ensures (exists u :: OnlyPinUnit(sym.units, u)) && PropValue(sym, "Footprint").Err? ==>
            Groups(registry, sym) == Err(DuplicateProperty("Footprint"))
    ensures (exists u :: OnlyPinUnit(sym.units, u)) &&
            (forall i :: 0 <= i < |sym.properties| ==> sym.properties[i].key != "Footprint") ==>
            Groups(registry, sym) == Err(UnknownFootprint(None))
    ensures forall f :: (exists u :: OnlyPinUnit(sym.units, u)) &&
                        PropValue(sym, "Footprint") == Ok(Some(f)) && f !in registry ==>
                        Groups(registry, sym) == Err(UnknownFootprint(Some(f)))
  {
    PinUnitsSingle(sym.units);
  }

  /** A successful `get_groups` came from the one pin-bearing unit and a registered
      footprint, and its groups, concatenated, are that unit's pins sorted ascending by
      number: the same pins, none dropped or repeated, with distinct numbers. */
  lemma GroupsSuccess(registry: map<string, Package>, sym: Symbol, groups: seq<PinGroup>)
    requires Groups(registry, sym) == Ok(groups)
    ensures exists u :: OnlyPinUnit(sym.units, u) &&
                        SortedByNumber(Flatten(groups)) &&
                        multiset(Flatten(groups)) == multiset(ToPins(sym.units[u].pins))
    ensures DistinctNumbers(Flatten(groups))
    ensures exists f :: PropValue(sym, "Footprint") == Ok(Some(f)) && f in registry
  {
    PinUnitsSingle(sym.units);
    var u :| OnlyPinUnit(sym.units, u);
    var pins := SortByNumber(ToPins(sym.units[u].pins));
    var package := Lookup(registry, PropValue(sym, "Footprint").value).value;
    SortByNumberCorrect(ToPins(sym.units[u].pins));
    GroupingPartition(package, pins, groups);
    GroupingErrors(package, pins);
  }

  /** In a strictly increasing run, numbers grow at least as fast as positions. */
  lemma {:induction false} NumbersSpreadOut(pins: seq<Pin>, i: nat, j: nat)
    requires forall a, b :: 0 <= a < b < |pins| ==> pins[a].number < pins[b].number
    requires i <= j < |pins|
    ensures pins[j].number >= pins[i].number + (j - i)
    decreases j - i
  {
    if i < j {
      NumbersSpreadOut(pins, i, j - 1);
    }
  }

  /** `n` pins with distinct numbers between 1 and `n`, sorted, are numbered 1, 2, ..., n. */
  lemma SortedOneToN(pins: seq<Pin>)
    requires SortedByNumber(pins) && DistinctNumbers(pins)
    requires forall i :: 0 <= i < |pins| ==> 1 <= pins[i].number <= |pins|
    ensures forall k :: 0 <= k < |pins| ==> pins[k].number == k + 1
  {
    forall k | 0 <= k < |pins| ensures pins[k].number == k + 1 {
      NumbersSpreadOut(pins, 0, k);
      NumbersSpreadOut(pins, k, |pins| - 1);
    }
  }

  /** A part whose footprint is registered to a package with the two DIP sides and no pin
      limit (as every DIP key is, see `RegistryDip`), with 16 pins numbered 1 to 16 declared
      in any order, comes out as two groups of 8: pins 1 to 8 on the left side, then pins
      9 to 16 on the right side. */
  lemma DipSixteenPins(registry: map<string, Package>, sym: Symbol, u: nat, footprint: string)
    requires OnlyPinUnit(sym.units, u)
    requires |sym.units[u].pins| == 16
    requires forall i :: 0 <= i < 16 ==> 1 <= sym.units[u].pins[i].number <= 16
    requires forall i, j :: 0 <= i < j < 16 ==> sym.units[u].pins[i].number != sym.units[u].pins[j].number
    requires PropValue(sym, "Footprint") == Ok(Some(footprint))
    requires footprint in registry
    requires registry[footprint].groupNames == DipSides && registry[footprint].maxPins == None
    ensures Groups(registry, sym).Ok?
    ensures |Groups(registry, sym).value| == 2
    ensures Groups(registry, sym).value[0].name == Some(DipLeftSide) && Groups(registry, sym).value[1].name == Some(DipRightSide)
    ensures |Groups(registry, sym).value[0].pins| == 8 && |Groups(registry, sym).value[1].pins| == 8
    ensures forall k :: 0 <= k < 8 ==>
              Groups(registry, sym).value[0].pins[k].number == k + 1 && Groups(registry, sym).value[1].pins[k].number == k + 9
  {
    PinUnitsSingle(sym.units);
    var declared := ToPins(sym.units[u].pins);
    var pins := SortByNumber(declared);
    SortByNumberCorrect(declared);
    SameNumbers(pins, declared);
    assert |pins| == 16 by {
      assert |multiset(pins)| == |multiset(declared)|;
    }
    DistinctIffFullSet(declared);
    DistinctIffFullSet(pins);
    forall i | 0 <= i < |pins| ensures 1 <= pins[i].number <= 16 {
      assert pins[i] in multiset(declared);
    }
    SortedOneToN(pins);
    var package := registry[footprint];
    assert Groups(registry, sym) == package.Grouping(pins);
    GroupingErrors(package, pins);
    var groups := Groups(registry, sym).value;
    GroupingPartition(package, pins, groups);
    forall k | 0 <= k < 8
      ensures groups[0].pins[k].number == k + 1 && groups[1].pins[k].number == k + 9
    {
      assert groups[0].pins[k] == pins[k];
      assert groups[1].pins[k] == pins[8 + k];
    }
  }
}
