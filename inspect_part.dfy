/** `inspect_part.py`: helpers for looking at one symbol (`find_symbol` and `prop` are the
    shared `Symbols.FindSymbol` and `Symbols.PropValue`). */
module InspectPart {
  import opened Outcomes
  import opened Filtering
  import opened Symbols

  /** The pins of the units, concatenated in unit order. */
  function UnitPins(units: seq<Unit>): seq<SymbolPin>
  {
    if units == [] then [] else units[0].pins + UnitPins(units[1..])
  }

  /** `all_pins(symbol)`: `[p for u in symbol.units for p in u.pins]`. */
  function AllPins(sym: Symbol): seq<SymbolPin>
  {
    UnitPins(sym.units)
  }

  /** The number of pins the units carry together. */
  function PinTotal(units: seq<Unit>): nat
  {
    if units == [] then 0 else |units[0].pins| + PinTotal(units[1..])
  }

  /** Every unit's pins are listed, each as often as the unit carries it. */
  lemma {:induction false} UnitPinsLength(units: seq<Unit>)
    ensures |UnitPins(units)| == PinTotal(units)
  {
    if units != [] {
      UnitPinsLength(units[1..]);
    }
  }

  /** A pin is listed exactly when some unit carries it. */
  lemma {:induction false} UnitPinsHas(units: seq<Unit>, p: SymbolPin)
    ensures p in UnitPins(units) <==> exists u :: 0 <= u < |units| && p in units[u].pins
  {
    if units != [] {
      UnitPinsHas(units[1..], p);
      if exists u :: 0 <= u < |units| && p in units[u].pins {
        var u :| 0 <= u < |units| && p in units[u].pins;
        if u > 0 { assert units[1..][u - 1] == units[u]; }
      }
      if exists u :: 0 <= u < |units[1..]| && p in units[1..][u].pins {
        var u :| 0 <= u < |units[1..]| && p in units[1..][u].pins;
        assert units[u + 1] == units[1..][u];
      }
    }
  }

  /** Units without pins add nothing: all pins are the pins of the pin-bearing units, pooled. */
  lemma {:induction false} UnitPinsOfPinUnits(units: seq<Unit>)
    ensures UnitPins(units) == UnitPins(PinUnits(units))
  {
    if units != [] {
      var f := HasPins;
      assert PinUnits(units) == Filter(units, f);
      assert PinUnits(units[1..]) == Filter(units[1..], f);
      UnitPinsOfPinUnits(units[1..]);
      if units[0].pins != [] {
        assert Filter(units, f) == [units[0]] + Filter(units[1..], f);
        assert ([units[0]] + Filter(units[1..], f))[1..] == Filter(units[1..], f);
      } else {
        assert Filter(units, f) == Filter(units[1..], f);
      }
    }
  }

  /** `all_pins`: every unit's pins in unit order, each pin listed once per unit that carries it;
      with one pin-bearing unit it is exactly that unit's pins. */
  lemma AllPinsPooled(sym: Symbol)
    ensures forall p :: p in AllPins(sym) <==> exists u :: 0 <= u < |sym.units| && p in sym.units[u].pins
    ensures |AllPins(sym)| == PinTotal(sym.units)
    ensures AllPins(sym) == UnitPins(PinUnits(sym.units))
    ensures forall u :: OnlyPinUnit(sym.units, u) ==> AllPins(sym) == sym.units[u].pins
  {
    forall p ensures p in AllPins(sym) <==> exists u :: 0 <= u < |sym.units| && p in sym.units[u].pins {
      UnitPinsHas(sym.units, p);
    }
    UnitPinsLength(sym.units);
    UnitPinsOfPinUnits(sym.units);
    PinUnitsSingle(sym.units);
    forall u | OnlyPinUnit(sym.units, u) ensures AllPins(sym) == sym.units[u].pins {
      assert UnitPins([sym.units[u]]) == sym.units[u].pins + UnitPins([]);
    }
  }

  /** `ppins(symbol)`: one `(number, name)` pair per pin of `all_pins`, in the same order. */
  function PPins(sym: Symbol): (r: seq<(int, string)>)
    ensures |r| == |AllPins(sym)|
    ensures forall i :: 0 <= i < |r| ==> r[i] == (AllPins(sym)[i].number, AllPins(sym)[i].name)
  {
    var pins := AllPins(sym);
    seq(|pins|, i requires 0 <= i < |pins| => (pins[i].number, pins[i].name))
  }

  /** `footprint(symbol)`, that is `prop(symbol, 'Footprint')`: `None` when no property is
      keyed `Footprint`, a raised error when several are, else that property's value. */
  function Footprint(sym: Symbol): (r: Result<Option<string>>)
    ensures r == Ok(None) <==> forall i :: 0 <= i < |sym.properties| ==> sym.properties[i].key != "Footprint"
    ensures r.Err? <==>
            exists i, j :: 0 <= i < j < |sym.properties| &&
                           sym.properties[i].key == "Footprint" && sym.properties[j].key == "Footprint"
    ensures r.Ok? && r.value.Some? ==>
            exists i :: 0 <= i < |sym.properties| && sym.properties[i].key == "Footprint" &&
                        r.value.value == sym.properties[i].value
  {
    PropValue(sym, "Footprint")
  }
}
