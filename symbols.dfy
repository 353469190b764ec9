/** The parsed KiCad symbol record that every script works on, and the lookups that
    several of the scripts repeat (`prop_value`, `prop`, the pin-unit comprehension, the
    first-match search by entry name; the search of `find_symbol` returns `None` when nothing
    matches, where the one in `generate.py` raises). */
module Symbols {
  import opened Outcomes
  import opened Filtering

  /** One `(key, value)` property, e.g. `("Footprint", "Package_DIP:DIP-8_W7.62mm")`. */
  datatype Property = Property(key: string, value: string)

  /** A pin as the symbol library declares it; its number is taken as already parsed. */
  datatype SymbolPin = SymbolPin(number: int, name: string)

  /** A unit of a symbol; units that carry only graphics have no pins. */
  datatype Unit = Unit(pins: seq<SymbolPin>)

  /** A symbol of a KiCad library: its entry name, the name of the parent it extends (if any),
      its properties in declaration order, and its units in declaration order. */
  datatype Symbol = Symbol(
    entryName: string,
    parentName: Option<string>,   // the `extends` field
    properties: seq<Property>,
    units: seq<Unit>)

  /** The test of the comprehension `[p for p in symbol.properties if p.key == key]`. */
  function KeyIs(key: string): Property -> bool
  {
    (p: Property) => p.key == key
  }

  /** The test of the comprehension `[u for u in symbol.units if u.pins]`. */
  predicate HasPins(u: Unit)
  {
    u.pins != []
  }

  /** The units that carry at least one pin, in declaration order. */
  function PinUnits(units: seq<Unit>): seq<Unit>
  {
    Filter(units, HasPins)
  }

  /** The unit at index `u` is the only one that carries pins. */
  ghost predicate OnlyPinUnit(units: seq<Unit>, u: int)
  {
    0 <= u < |units| && units[u].pins != [] &&
    forall j :: 0 <= j < |units| && j != u ==> units[j].pins == []
  }

  /** The pin-unit comprehension has one element exactly when one unit carries pins, and
      then it is that unit. */
  lemma PinUnitsSingle(units: seq<Unit>)
    ensures |PinUnits(units)| == 1 <==> exists u :: OnlyPinUnit(units, u)
    ensures forall u :: OnlyPinUnit(units, u) ==> PinUnits(units) == [units[u]]
  {
    var f := HasPins;
    assert PinUnits(units) == Filter(units, f);
    assert forall x :: f(x) <==> x.pins != [];
    FilterSingle(units, f);
    if |PinUnits(units)| == 1 {
      var i :| 0 <= i < |units| && f(units[i]) && forall j :: 0 <= j < |units| && j != i ==> !f(units[j]);
      assert OnlyPinUnit(units, i);
    }
  }

  /** `prop_value(symbol, key)`: `None` when no property has the key, a raised error when
      several do, and otherwise the value of the one property that has it. */
  function PropValue(sym: Symbol, key: string): (r: Result<Option<string>>)
    ensures r == Ok(None) <==> forall i :: 0 <= i < |sym.properties| ==> sym.properties[i].key != key
    ensures r.Err? <==>
            exists i, j :: 0 <= i < j < |sym.properties| &&
                           sym.properties[i].key == key && sym.properties[j].key == key
    ensures r.Err? ==> r.error == DuplicateProperty(key)
    ensures r.Ok? && r.value.Some? ==>
            exists i :: 0 <= i < |sym.properties| && sym.properties[i].key == key &&
                        r.value.value == sym.properties[i].value &&
                        forall j :: 0 <= j < |sym.properties| && j != i ==> sym.properties[j].key != key
  {
    var matches := Filter(sym.properties, KeyIs(key));
    MatchesByKey(sym.properties, key);
    if |matches| == 0 then Ok(None)
    else if |matches| > 1 then Err(DuplicateProperty(key))
    else Ok(Some(matches[0].value))
  }

  /** What the number of properties with a given key says, stated on the keys themselves. */
  lemma MatchesByKey(props: seq<Property>, key: string)
    ensures |Filter(props, KeyIs(key))| == 0 <==> forall i :: 0 <= i < |props| ==> props[i].key != key
    ensures |Filter(props, KeyIs(key))| >= 2 <==>
            exists i, j :: 0 <= i < j < |props| && props[i].key == key && props[j].key == key
    ensures |Filter(props, KeyIs(key))| == 1 ==>
            exists i :: 0 <= i < |props| && props[i].key == key &&
                        Filter(props, KeyIs(key)) == [props[i]] &&
                        forall j :: 0 <= j < |props| && j != i ==> props[j].key != key
  {
    assert forall p :: KeyIs(key)(p) <==> p.key == key;
    FilterEmpty(props, KeyIs(key));
    FilterSeveral(props, KeyIs(key));
    FilterSingle(props, KeyIs(key));
  }

  /** `find_symbol(sym_lib, part)`: the first symbol in library order whose entry name is
      `part`, or `None` when there is none. */
  function FindSymbol(lib: seq<Symbol>, part: string): (r: Option<Symbol>)
    ensures r.None? <==> forall i :: 0 <= i < |lib| ==> lib[i].entryName != part
    ensures r.Some? ==>
            exists i :: 0 <= i < |lib| && lib[i] == r.value && r.value.entryName == part &&
                        forall j :: 0 <= j < i ==> lib[j].entryName != part
  {
    if lib == [] then None
    else if lib[0].entryName == part then Some(lib[0])
    else
      var r := FindSymbol(lib[1..], part);
      assert forall i :: 1 <= i < |lib| ==> lib[i] == lib[1..][i - 1];
      r
  }
}
