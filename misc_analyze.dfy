/** `misc/analyze.py`: accumulator functions run over every symbol of a library to look for
    patterns in how parts are described. */
module MiscAnalyze {
  import opened Outcomes
  import opened Filtering
  import opened Symbols
  import opened Accumulators

  /** The records the list accumulators collect, one constructor per dictionary shape. */
  datatype Record =
    | Derived(part: string, parent: string, props: map<string, string>)  // keys `part`, `extends`, `props`
    | FootprintFilters(footprint: Option<string>, fpFilters: Option<string>)  // keys `Footprint`, `ki_fp_filters`

  /** `{p.key: p.value for p in symbol.properties}`: later properties overwrite earlier ones. */
  function PropDict(props: seq<Property>): map<string, string>
  {
    if props == [] then map[] else PropDict(props[..|props| - 1])[props[|props| - 1].key := props[|props| - 1].value]
  }

  /** The dictionary has exactly the property keys, and each maps to the value of the last
      property with that key. */
  lemma {:induction false} PropDictLastWins(props: seq<Property>)
    ensures forall k :: k in PropDict(props) <==> exists i :: 0 <= i < |props| && props[i].key == k
    ensures forall k :: k in PropDict(props) ==>
              exists i :: 0 <= i < |props| && props[i].key == k && PropDict(props)[k] == props[i].value &&
                          forall j :: i < j < |props| ==> props[j].key != k
  {
    if props != [] {
      var init := props[..|props| - 1];
      var n := |props| - 1;
      PropDictLastWins(init);
      var d := PropDict(props);
      assert d == PropDict(init)[props[n].key := props[n].value];
      forall k ensures k in d <==> exists i :: 0 <= i < |props| && props[i].key == k {
        if k != props[n].key && exists i :: 0 <= i < |props| && props[i].key == k {
          var i :| 0 <= i < |props| && props[i].key == k;
          assert init[i] == props[i];
        }
      }
      forall k | k in d
        ensures exists i :: 0 <= i < |props| && props[i].key == k && d[k] == props[i].value &&
                            forall j :: i < j < |props| ==> props[j].key != k
      {
        if k == props[n].key {
          assert props[n].key == k && d[k] == props[n].value;
        } else {
          var i :| 0 <= i < |init| && init[i].key == k && PropDict(init)[k] == init[i].value &&
                   forall j :: i < j < |init| ==> init[j].key != k;
          assert props[i] == init[i];
          forall j | i < j < |props| ensures props[j].key != k {
            if j < n { assert props[j] == init[j]; }
          }
        }
      }
    }
  }

  /** The dictionary agrees with `prop_value` wherever the latter does not raise. */
  lemma PropDictAgreesWithPropValue(sym: Symbol, key: string)
    ensures PropValue(sym, key) == Ok(None) ==> key !in PropDict(sym.properties)
    ensures PropValue(sym, key).Ok? && PropValue(sym, key).value.Some? ==>
            key in PropDict(sym.properties) && PropDict(sym.properties)[key] == PropValue(sym, key).value.value
  {
    var props := sym.properties;
    var d := PropDict(props);
    PropDictLastWins(props);
    if PropValue(sym, key).Ok? && PropValue(sym, key).value.Some? {
      var i :| 0 <= i < |props| && props[i].key == key && PropValue(sym, key).value.value == props[i].value;
      var last :| 0 <= last < |props| && props[last].key == key && d[key] == props[last].value &&
                  forall j :: last < j < |props| ==> props[j].key != key;
      var a, b := if i < last then i else last, if i < last then last else i;
      assert props[a].key == key && props[b].key == key;
      assert i == last;
    }
  }

  /** The character of a decimal digit. */
  function DigitChar(d: nat): (c: char)
    requires d < 10
    ensures '0' <= c <= '9' && c as int - '0' as int == d
  {
    ('0' as int + d) as char
  }

  /** `str(n)` for a natural number: its decimal digits, without leading zeros. */
  function DecimalString(n: nat): (r: string)
    ensures |r| >= 1
    ensures forall i :: 0 <= i < |r| ==> '0' <= r[i] <= '9'
    ensures r[0] == '0' ==> n == 0
  {
    if n < 10 then [DigitChar(n)] else DecimalString(n / 10) + [DigitChar(n % 10)]
  }

  /** The number a string of decimal digits denotes. */
  function DecimalValue(s: string): nat
    requires forall i :: 0 <= i < |s| ==> '0' <= s[i] <= '9'
  {
    if s == [] then 0 else 10 * DecimalValue(s[..|s| - 1]) + (s[|s| - 1] as int - '0' as int)
  }

  /** Reading back the digits `str` writes gives the number again. */
  lemma {:induction false} DecimalRoundTrip(n: nat)
    ensures DecimalValue(DecimalString(n)) == n
  {
    if n >= 10 {
      DecimalRoundTrip(n / 10);
      var s := DecimalString(n);
      assert s[..|s| - 1] == DecimalString(n / 10);
    }
  }

  /** `str(footprint)` for a footprint that may be `None`. */
  function Str(s: Option<string>): string
  {
    if s.None? then "None" else s.value
  }

  /** The entry `get_parts_with_named_pins` records. */
  function NamedPinsEntry(entryName: string, footprint: Option<string>): string
  {
    entryName + "::" + Str(footprint)
  }

  /** The entry `get_parts_with_multiple_pin_units` records. */
  function MultipleUnitsEntry(entryName: string, count: nat): string
  {
    entryName + " has " + DecimalString(count) + " pin units"
  }

  /** Some unit of the symbol carries pins. */
  ghost predicate HasPinUnit(sym: Symbol)
  {
    exists u :: 0 <= u < |sym.units| && sym.units[u].pins != []
  }

  /** Two different units of the symbol carry pins. */
  ghost predicate HasSeveralPinUnits(sym: Symbol)
  {
    exists u, v :: 0 <= u < v < |sym.units| && sym.units[u].pins != [] && sym.units[v].pins != []
  }

  /** The comprehension of pin units is empty, or has two elements, exactly as the predicates say. */
  lemma PinUnitsCount(sym: Symbol)
    ensures PinUnits(sym.units) != [] <==> HasPinUnit(sym)
    ensures |PinUnits(sym.units)| > 1 <==> HasSeveralPinUnits(sym)
  {
    var f := HasPins;
    assert PinUnits(sym.units) == Filter(sym.units, f);
    assert forall x :: f(x) <==> x.pins != [];
    FilterEmpty(sym.units, f);
    FilterSeveral(sym.units, f);
  }

  /** `get_footprints(accumulator, symbol)`: a fresh `Counter` when the accumulator is `None`,
      then the count of the symbol's footprint (`None` when absent) goes up by exactly one and no
      other count changes; a duplicated `Footprint` property raises before anything is counted. */
  method GetFootprints(acc: Counter?<Option<string>>, sym: Symbol)
    returns (r: Result<Counter<Option<string>>>)
    modifies acc
    ensures r.Err? <==> PropValue(sym, "Footprint").Err?
    ensures r.Err? ==> r.error == PropValue(sym, "Footprint").error
    ensures r.Err? && acc != null ==> acc.counts == old(acc.counts)
    ensures r.Ok? && acc == null ==> fresh(r.value) && r.value.counts == map[PropValue(sym, "Footprint").value := 1]
    ensures r.Ok? && acc != null ==>
            r.value == acc &&
            acc.counts == old(acc.counts)[PropValue(sym, "Footprint").value := CountOf(old(acc.counts), PropValue(sym, "Footprint").value) + 1]
    ensures r.Ok? && acc != null ==>
            forall k :: k != PropValue(sym, "Footprint").value ==> acc.Count(k) == CountOf(old(acc.counts), k)
  {
    var footprint := PropValue(sym, "Footprint");
    var c := acc;
    if c == null {
      c := new Counter();
    }
    if footprint.Err? {
      return Err(footprint.error);
    }
    c.Increment(footprint.value);
    return Ok(c);
  }

  /** `get_parts_with_named_pins(accumulator, symbol)`: when some unit has pins, the entry
      `entryName::str(footprint)` is added (and a duplicated `Footprint` property raises);
      otherwise the accumulator, or a fresh empty set, is returned as it was. */
  method GetPartsWithNamedPins(acc: MutableSet?<string>, sym: Symbol) returns (r: Result<MutableSet<string>>)
    modifies acc
    ensures r.Err? <==> HasPinUnit(sym) && PropValue(sym, "Footprint").Err?
    ensures r.Err? ==> r.error == PropValue(sym, "Footprint").error
    ensures r.Err? && acc != null ==> acc.elems == old(acc.elems)
    ensures r.Ok? && acc == null ==> fresh(r.value)
    ensures r.Ok? && acc != null ==> r.value == acc
    ensures r.Ok? && HasPinUnit(sym) ==>
            r.value.elems == (if acc == null then {} else old(acc.elems)) +
                             {NamedPinsEntry(sym.entryName, PropValue(sym, "Footprint").value)}
    ensures r.Ok? && !HasPinUnit(sym) ==> r.value.elems == (if acc == null then {} else old(acc.elems))
  {
    var s := acc;
    if s == null {
      s := new MutableSet();
    }
    PinUnitsCount(sym);
    var pinUnit := PinUnits(sym.units) != [];
    if pinUnit {
      var footprint := PropValue(sym, "Footprint");
      if footprint.Err? {
        return Err(footprint.error);
      }
      s.Add(NamedPinsEntry(sym.entryName, footprint.value));
    }
    return Ok(s);
  }

  /** `get_parts_with_multiple_pin_units(accumulator, symbol)`: the entry
      `entryName has <n> pin units` is added exactly when two or more units have pins. */
  method GetPartsWithMultiplePinUnits(acc: MutableSet?<string>, sym: Symbol) returns (r: MutableSet<string>)
    modifies acc
    ensures acc == null ==> fresh(r)
    ensures acc != null ==> r == acc
    ensures HasSeveralPinUnits(sym) ==>
            r.elems == (if acc == null then {} else old(acc.elems)) +
                       {MultipleUnitsEntry(sym.entryName, |PinUnits(sym.units)|)}
    ensures !HasSeveralPinUnits(sym) ==> r.elems == (if acc == null then {} else old(acc.elems))
  {
    var s := acc;
    if s == null {
      s := new MutableSet();
    }
    r := s;
    PinUnitsCount(sym);
    var pinUnits := PinUnits(sym.units);
    if |pinUnits| > 1 {
      r.Add(MultipleUnitsEntry(sym.entryName, |pinUnits|));
    }
  }

  /** The truth value of `symbol.extends`: set and not the empty string. */
  predicate IsDerived(sym: Symbol)
  {
    sym.parentName.Some? && sym.parentName.value != ""
  }

  /** `derived_symbol_analysis(accumulator, symbol, lib)`: one record with the part name, the
      parent's name and the property dictionary is appended exactly when `extends` is truthy. */
  method DerivedSymbolAnalysis(acc: MutableList?<Record>, sym: Symbol) returns (r: MutableList<Record>)
    modifies acc
    ensures acc == null ==> fresh(r)
    ensures acc != null ==> r == acc
    ensures IsDerived(sym) ==>
            r.items == (if acc == null then [] else old(acc.items)) +
                       [Derived(sym.entryName, sym.parentName.value, PropDict(sym.properties))]
    ensures !IsDerived(sym) ==> r.items == (if acc == null then [] else old(acc.items))
  {
    var l := acc;
    if l == null {
      l := new MutableList();
    }
    r := l;
    if IsDerived(sym) {
      r.Append(Derived(sym.entryName, sym.parentName.value, PropDict(sym.properties)));
    }
  }

  /** `footprint_vs_fp_filters(accumulator, symbol)`: appends one record per call, holding the
      `Footprint` and `ki_fp_filters` properties; they are read from `current`, the script's
      module-level loop variable `sym`, not from the `symbol` argument. A duplicated property
      raises before anything is appended. */
  method FootprintVsFpFilters(acc: MutableList?<Record>, symbol: Symbol, current: Symbol)
    returns (r: Result<MutableList<Record>>)
    modifies acc
    ensures r.Ok? <==> PropValue(current, "Footprint").Ok? && PropValue(current, "ki_fp_filters").Ok?
    ensures r.Err? ==>
            r.error == (if PropValue(current, "Footprint").Err? then PropValue(current, "Footprint").error
                        else PropValue(current, "ki_fp_filters").error)
    ensures r.Err? && acc != null ==> acc.items == old(acc.items)
    ensures r.Ok? && acc == null ==> fresh(r.value)
    ensures r.Ok? && acc != null ==> r.value == acc
    ensures r.Ok? ==>
            r.value.items == (if acc == null then [] else old(acc.items)) +
                             [FootprintFilters(PropValue(current, "Footprint").value,
                                               PropValue(current, "ki_fp_filters").value)]
  {
    var l := acc;
    if l == null {
      l := new MutableList();
    }
    var footprint := PropValue(current, "Footprint");
    if footprint.Err? {
      return Err(footprint.error);
    }
    var filters := PropValue(current, "ki_fp_filters");
    if filters.Err? {
      return Err(filters.error);
    }
    l.Append(FootprintFilters(footprint.value, filters.value));
    return Ok(l);
  }
}
