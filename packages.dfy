/** Physical packages, their pin-grouping rule, and the footprint registry. */
module Packages {
  import opened Outcomes

  /** A physical contact of a part: its number and its display name. */
  datatype Pin = Pin(number: int, name: string)

  /** A named (or, with `None`, anonymous) run of pins along one edge of a package. */
  datatype PinGroup = PinGroup(name: Option<string>, pins: seq<Pin>)

  /** A package family. `desc` is the description as stored by the constructor (the
      value `desc()` returns); `groupNames` may be empty; `maxPins` is `None` when unset. */
  datatype Package = Package(slug: string, desc: string, groupNames: seq<string>, maxPins: Option<int>)
  {
    /** The test `if self._max_pins:`, which is false for `None` and for `0`. */
    predicate HasPinLimit()
    {
      maxPins.Some? && maxPins.value != 0
    }

    /** What `group_pins(pins)` returns, or the assertion it fails, checked in source order:
        distinct numbers, the pin limit, then (only with group names) even division. */
    function Grouping(pins: seq<Pin>): Result<seq<PinGroup>>
    {
      if |NumberSet(pins)| != |pins| then Err(DuplicatePinNumbers)
      else if HasPinLimit() && |pins| > maxPins.value then Err(TooManyPins(|pins|, maxPins.value))
      else if groupNames == [] then Ok([PinGroup(None, pins)])
      else if |pins| % |groupNames| != 0 then Err(UnevenGroups(|pins|, |groupNames|))
      else Ok(Slices(groupNames, pins, |pins| / |groupNames|))
    }

    /** `group_pins(pins)`: the checks, then a loop that cuts one slice per group name. */
    method GroupPins(pins: seq<Pin>) returns (r: Result<seq<PinGroup>>)
      ensures r == Grouping(pins)
    {
      if |NumberSet(pins)| != |pins| {
        return Err(DuplicatePinNumbers);
      }
      if HasPinLimit() && |pins| > maxPins.value {
        return Err(TooManyPins(|pins|, maxPins.value));
      }
      if groupNames == [] {
        return Ok([PinGroup(None, pins)]);
      }
      if |pins| % |groupNames| != 0 {
        return Err(UnevenGroups(|pins|, |groupNames|));
      }
      var groupSize := |pins| / |groupNames|;
      DivExact(|pins|, |groupNames|);
      ghost var expected := Slices(groupNames, pins, groupSize);
      var i := 0;
      var res: seq<PinGroup> := [];
      for k := 0 to |groupNames|
        invariant i == k * groupSize
        invariant |res| == k
        invariant forall m :: 0 <= m < k ==> res[m] == expected[m]
      {
        SliceOfSlices(groupNames, pins, groupSize, k);
        res := res + [PinGroup(Some(groupNames[k]), pins[i..i + groupSize])];
        i := i + groupSize;
        MulSucc(k + 1, groupSize);
      }
      assert res == expected;
      assert Grouping(pins) == Ok(expected);
      return Ok(res);
    }
  }

  /** The set of pin numbers, `set(p.number for p in pins)`. */
  function NumberSet(pins: seq<Pin>): (r: set<int>)
    ensures |r| <= |pins|
  {
    if pins == [] then {} else {pins[0].number} + NumberSet(pins[1..])
  }

  /** No two pins share a number. */
  ghost predicate DistinctNumbers(pins: seq<Pin>)
  {
    forall i, j :: 0 <= i < j < |pins| ==> pins[i].number != pins[j].number
  }

  /** `k * size .. k * size + size` lies within `n` slices of `size`. */
  lemma SliceBounds(k: nat, n: nat, size: nat)
    requires k < n
    ensures k * size + size <= n * size
  {
    calc {
      n * size;
    ==
      (k + 1) * size + (n - k - 1) * size;
    >=
      k * size + size;
    }
  }

  /** Group `k` of `|names|` equal slices: named `names[k]`, holding `pins[k*size .. (k+1)*size)`. */
  function Slices(names: seq<string>, pins: seq<Pin>, size: nat): (r: seq<PinGroup>)
    requires |pins| == |names| * size
    ensures |r| == |names|
  {
    seq(|names|, k requires 0 <= k < |names| =>
      SliceBounds(k, |names|, size);
      PinGroup(Some(names[k]), pins[k * size .. k * size + size]))
  }

  /** `part` is the run of `pins` that starts at index `start`. */
  ghost predicate SliceAt(pins: seq<Pin>, start: int, part: seq<Pin>)
  {
    0 <= start && start + |part| <= |pins| && pins[start .. start + |part|] == part
  }

  /** The pins of the groups, concatenated in group order. */
  function Flatten(groups: seq<PinGroup>): seq<Pin>
  {
    if groups == [] then [] else Flatten(groups[..|groups| - 1]) + groups[|groups| - 1].pins
  }

  /** A pin number is in the set exactly when some pin has it. */
  lemma {:induction false} NumberSetHas(pins: seq<Pin>, n: int)
    ensures n in NumberSet(pins) <==> exists i :: 0 <= i < |pins| && pins[i].number == n
  {
    if pins != [] {
      NumberSetHas(pins[1..], n);
      if exists i :: 0 <= i < |pins| && pins[i].number == n {
        var i :| 0 <= i < |pins| && pins[i].number == n;
        if i > 0 { assert pins[1..][i - 1].number == n; }
      }
      if exists i :: 0 <= i < |pins[1..]| && pins[1..][i].number == n {
        var i :| 0 <= i < |pins[1..]| && pins[1..][i].number == n;
        assert pins[i + 1].number == n;
      }
    }
  }

  /** The duplicate check `len(set(numbers)) == len(pins)` holds exactly when the numbers are distinct. */
  lemma {:induction false} DistinctIffFullSet(pins: seq<Pin>)
    ensures |NumberSet(pins)| == |pins| <==> DistinctNumbers(pins)
  {
    if pins != [] {
      var t := pins[1..];
      var n := pins[0].number;
      DistinctIffFullSet(t);
      NumberSetHas(t, n);
      if n in NumberSet(t) {
        assert NumberSet(pins) == NumberSet(t);
      } else {
        assert |NumberSet(pins)| == |NumberSet(t)| + 1;
      }
      assert forall i :: 1 <= i < |pins| ==> pins[i] == t[i - 1];
      if DistinctNumbers(pins) {
        assert DistinctNumbers(t);
        assert n !in NumberSet(t);
      }
      if |NumberSet(pins)| == |pins| {
        assert n !in NumberSet(t) && |NumberSet(t)| == |t|;
        forall i, j | 0 <= i < j < |pins| ensures pins[i].number != pins[j].number {
          if i > 0 {
            assert t[i - 1].number != t[j - 1].number;
          }
        }
      }
    }
  }

  /** The first `m` slices, concatenated, are the first `m * size` pins. */
  lemma {:induction false} FlattenSlicesPrefix(names: seq<string>, pins: seq<Pin>, size: nat, m: nat)
    requires |pins| == |names| * size
    requires m <= |names|
    ensures m * size <= |pins|
    ensures Flatten(Slices(names, pins, size)[..m]) == pins[..m * size]
  {
    var gs := Slices(names, pins, size);
    if m == 0 {
      assert gs[..0] == [];
    } else {
      FlattenSlicesPrefix(names, pins, size, m - 1);
      var lo, hi := (m - 1) * size, m * size;
      SliceBounds(m - 1, |names|, size);
      assert hi == lo + size by { MulSucc(m, size); }
      SliceOfSlices(names, pins, size, m - 1);
      assert gs[..m][..m - 1] == gs[..m - 1];
      assert pins[..lo] + pins[lo .. hi] == pins[..hi];
    }
  }

  lemma DivExact(n: nat, d: nat)
    requires d > 0 && n % d == 0
    ensures 0 <= n / d && n == d * (n / d)
  {
  }

  lemma MulSucc(m: nat, size: nat)
    requires m >= 1
    ensures m * size == (m - 1) * size + size
  {
  }

  /** The `k`-th of the slices. */
  lemma SliceOfSlices(names: seq<string>, pins: seq<Pin>, size: nat, k: nat)
    requires |pins| == |names| * size
    requires k < |names|
    ensures 0 <= k * size && k * size + size <= |pins|
    ensures Slices(names, pins, size)[k] == PinGroup(Some(names[k]), pins[k * size .. k * size + size])
  {
    SliceBounds(k, |names|, size);
  }

  /** The errors of `group_pins`, each stated by what causes it. */
  lemma GroupingErrors(p: Package, pins: seq<Pin>)
    ensures p.Grouping(pins) == Err(DuplicatePinNumbers) <==> !DistinctNumbers(pins)
    ensures p.Grouping(pins).Err? && p.Grouping(pins).error.TooManyPins? <==>
            DistinctNumbers(pins) && p.maxPins.Some? && p.maxPins.value != 0 && |pins| > p.maxPins.value
    ensures p.Grouping(pins).Err? && p.Grouping(pins).error.UnevenGroups? <==>
            DistinctNumbers(pins) && !(p.HasPinLimit() && |pins| > p.maxPins.value) &&
            p.groupNames != [] && |pins| % |p.groupNames| != 0
    ensures p.Grouping(pins).Ok? <==>
            DistinctNumbers(pins) && !(p.HasPinLimit() && |pins| > p.maxPins.value) &&
            (p.groupNames == [] || |pins| % |p.groupNames| == 0)
  {
    DistinctIffFullSet(pins);
  }

  /** With no limit set (`None`, or `0`, which the truth test reads as unset) no pin count is too many. */
  lemma NoLimitWithoutMaxPins(p: Package, pins: seq<Pin>)
    requires p.maxPins == None || p.maxPins == Some(0)
    requires DistinctNumbers(pins)
    ensures p.groupNames == [] ==> p.Grouping(pins) == Ok([PinGroup(None, pins)])
    ensures !(p.Grouping(pins).Err? && p.Grouping(pins).error.TooManyPins?)
  {
    DistinctIffFullSet(pins);
  }

  /** A successful grouping with group names is the run of equal slices. */
  lemma GroupingIsSlices(p: Package, pins: seq<Pin>, groups: seq<PinGroup>)
    requires p.Grouping(pins) == Ok(groups)
    requires p.groupNames != []
    ensures |pins| == |p.groupNames| * (|pins| / |p.groupNames|)
    ensures groups == Slices(p.groupNames, pins, |pins| / |p.groupNames|)
  {
  }

  /** A successful grouping partitions the input: with no group names, one anonymous group
      holding the pins unchanged; otherwise one group per name, in order, each an equal
      contiguous slice, and the groups concatenated give back the input exactly. */
  lemma GroupingPartition(p: Package, pins: seq<Pin>, groups: seq<PinGroup>)
    requires p.Grouping(pins) == Ok(groups)
    ensures Flatten(groups) == pins
    ensures p.groupNames == [] ==> groups == [PinGroup(None, pins)]
    ensures p.groupNames != [] ==>
              |groups| == |p.groupNames| &&
              forall k :: 0 <= k < |groups| ==>
                groups[k].name == Some(p.groupNames[k]) &&
                |groups[k].pins| == |pins| / |p.groupNames| &&
                SliceAt(pins, k * (|pins| / |p.groupNames|), groups[k].pins)
  {
    if p.groupNames == [] {
      assert Flatten(groups) == Flatten([]) + pins;
    } else {
      var n, size := |p.groupNames|, |pins| / |p.groupNames|;
      DivExact(|pins|, n);
      GroupingIsSlices(p, pins, groups);
      FlattenSlicesPrefix(p.groupNames, pins, size, n);
      assert groups[..n] == groups;
      forall k | 0 <= k < n
        ensures groups[k].name == Some(p.groupNames[k]) && |groups[k].pins| == size
        ensures SliceAt(pins, k * size, groups[k].pins)
      {
        SliceOfSlices(p.groupNames, pins, size, k);
        var lo := k * size;
        assert groups[k].pins == pins[lo .. lo + size];
      }
    }
  }

  // The preset packages.

  const DipLeftSide := "Left side (numbering starts at far end)"
  const DipRightSide := "Right side (numbering starts at near end)"
  const DipSides: seq<string> := [DipLeftSide, DipRightSide]

  const DipDescription: string :=
    "This package has two parallel rows of pins extending down from opposite edges of the chip.\n\n"
    + "There should be a semicircular notch that you can feel in the middle of one of the package's shorter bare edges. "
    + "With the pins facing downward and the chip oriented so notch is on the side of the chip furthest from you, "
    + "Pin 1 will be in the far left corner of the chip.\n\n"
    + "Pins are numbered counter-clockwise. Numbers increase from the far left corner to the near left corner. "
    + "They then continue on the right side, increasing from the near right corner to the far right corner. "
    + "Thus the highest number pin is to the right of pin 1."

  const TO220Description: string :=
    "This package has 3 pins on one edge, and a metal tab with a hole in the center on the opposite edge. "
    + "The metal tab serves as a heat sink and can be soldered to a larger heat sink or attached with an M3 screw.\n\n"
    + "With the pins pointing towards you and the part flat on the table, tab side down, "
    + "the pins are numbered 1, 2, 3 from left to right.\n\n"
    + "The metal tab may be designated as pin 4. It is typically electrically connected to the center pin."

  const TO92Description: string :=
    "This small package has three pins protruding from one end. The body of the part has a curved side and a flat side, "
    + "forming a D-shaped cross section. With the flat side facing up and the three pins pointing toward you, "
    + "the pins are numbered 1, 2, 3 from left to right."

  const DIPPackage := Package(
    "DIP",
    DipDescription,
    DipSides,
    None)

  const TO220Package := Package(
    "TO-220",
    TO220Description,
    [],
    Some(4))

  const TO92Package := Package(
    "TO-92",
    TO92Description,
    [],
    Some(3))

  // The registry, keyed by KiCad footprint name.

  const TO220Keys: seq<string> := ["Package_TO_SOT_THT:TO-220-3_Vertical", "digikey-footprints:TO-220-3"]

  const TO92Keys: seq<string> :=
    ["Package_TO_SOT_THT:TO-92_Inline", "digikey-footprints:TO-92-3", "digikey-footprints:TO-92-3_Formed_Leads"]

  /** The literal entries of `PACKAGE_REGISTRY` before the DIP keys are filled in. */
  const InitialRegistry: map<string, Package> := map[
    "Package_TO_SOT_THT:TO-220-3_Vertical" := TO220Package,
    "digikey-footprints:TO-220-3" := TO220Package,
    "Package_TO_SOT_THT:TO-92_Inline" := TO92Package,
    "digikey-footprints:TO-92-3" := TO92Package,
    "digikey-footprints:TO-92-3_Formed_Leads" := TO92Package]

  /** `THT_DIP_KEYS`; the last entry is a literal key, not a pattern. */
  const ThtDipKeys: seq<string> := [
    "Package_DIP:DIP-12_W7.62mm",
    "Package_DIP:DIP-14_W7.62mm",
    "Package_DIP:DIP-16_W10.16mm",
    "Package_DIP:DIP-16_W7.62mm",
    "Package_DIP:DIP-18_W7.62mm",
    "Package_DIP:DIP-20_W7.62mm",
    "Package_DIP:DIP-20_W7.62mm_LongPads",
    "Package_DIP:DIP-22_W7.62mm",
    "Package_DIP:DIP-24_W15.24mm",
    "Package_DIP:DIP-24_W7.62mm",
    "Package_DIP:DIP-28_W15.24mm",
    "Package_DIP:DIP-28_W7.62mm",
    "Package_DIP:DIP-32_W15.24mm",
    "Package_DIP:DIP-40_W15.24mm",
    "Package_DIP:DIP-4_W10.16mm",
    "Package_DIP:DIP-4_W7.62mm",
    "Package_DIP:DIP-5-6_W7.62mm",
    "Package_DIP:DIP-6_W7.62mm",
    "Package_DIP:DIP-8-N6_W7.62mm",
    "Package_DIP:DIP-8-N7_W7.62mm",
    "Package_DIP:DIP-8_W10.16mm",
    "Package_DIP:DIP-8_W7.62mm",
    "Package_DIP:DIP-8_W7.62mm_LongPads",
    "digikey-footprints:DIP-8_W7.62mm",
    "digikey-footprints:DIP-14_W3mm",
    "digikey-footprints:DIP-16_W7.62mm",
    "digikey-footprints:DIP-6_W7.62mm",
    "digikey-footprints:DIP-28_W7.62mm",
    "digikey-footprints:DIP-20_W7.62mm",
    "digikey-footprints:DIP-18_W7.62mm",
    "digikey-footprints:DIP-4_W7.62mm",
    "digikey-footprints:DIP-40_W15.24mm",
    "digikey-footprints:DIP-10_W10.16mm",
    "DIP*W7.62mm*"]

  /** The loop `for key in keys: registry[key] = package`: every key now maps to `package`,
      and every other entry is as it was. */
  method FillRegistry(initial: map<string, Package>, keys: seq<string>, package: Package)
    returns (registry: map<string, Package>)
    ensures registry.Keys == initial.Keys + set k | k in keys
    ensures forall k :: k in keys ==> registry[k] == package
    ensures forall k :: k in initial && k !in keys ==> registry[k] == initial[k]
  {
    registry := initial;
    for i := 0 to |keys|
      invariant registry.Keys == initial.Keys + set k | k in keys[..i]
      invariant forall k :: k in keys[..i] ==> registry[k] == package
      invariant forall k :: k in initial && k !in keys[..i] ==> registry[k] == initial[k]
    {
      assert keys[..i + 1] == keys[..i] + [keys[i]];
      registry := registry[keys[i] := package];
    }
    assert keys[..|keys|] == keys;
  }

  /** `PACKAGE_REGISTRY` once the module has loaded. */
  function Registry(): map<string, Package>
  {
    InitialRegistry + map k | k in ThtDipKeys :: DIPPackage
  }

  /** Module load: the literal entries, then the DIP fill loop. */
  method BuildRegistry() returns (registry: map<string, Package>)
    ensures registry == Registry()
  {
    registry := FillRegistry(InitialRegistry, ThtDipKeys, DIPPackage);
  }

  /** `PACKAGE_REGISTRY[footprint]` against a given registry: an exact-key lookup, where a
      missing footprint (`None`) or an unregistered name raises `KeyError`. */
  function Lookup(registry: map<string, Package>, footprint: Option<string>): (r: Result<Package>)
    ensures r.Ok? <==> footprint.Some? && footprint.value in registry
    ensures r.Ok? ==> r.value == registry[footprint.value]
    ensures r.Err? ==> r.error == UnknownFootprint(footprint)
  {
    if footprint.Some? && footprint.value in registry then Ok(registry[footprint.value])
    else Err(UnknownFootprint(footprint))
  }

  /** Character 19 tells the TO-220 and TO-92 names from every DIP key. */
  lemma DipKeysAt19()
    ensures forall i :: 0 <= i < |ThtDipKeys| ==> |ThtDipKeys[i]| <= 19 || ThtDipKeys[i][19] != 'T'
    ensures forall i :: 0 <= i < |TO220Keys| ==> |TO220Keys[i]| > 19 && TO220Keys[i][19] == 'T'
    ensures forall i :: 0 <= i < |TO92Keys| ==> |TO92Keys[i]| > 19 && TO92Keys[i][19] == 'T'
  {
  }

  /** The registered names are exactly the DIP keys and the TO-220 and TO-92 names. */
  lemma RegistryKeys()
    ensures Registry().Keys == (set k | k in ThtDipKeys) + (set k | k in TO220Keys) + (set k | k in TO92Keys)
  {
    assert InitialRegistry.Keys == (set k | k in TO220Keys) + (set k | k in TO92Keys);
  }

  /** Every DIP key, the literal `DIP*W7.62mm*` among them, maps to the two-sided DIP package. */
  lemma RegistryDip()
    ensures forall k :: k in ThtDipKeys ==> k in Registry() && Registry()[k] == DIPPackage
    ensures "DIP*W7.62mm*" in Registry() && Registry()["DIP*W7.62mm*"] == DIPPackage
    ensures DIPPackage.groupNames == DipSides && |DipSides| == 2 && DIPPackage.maxPins == None
  {
    assert "DIP*W7.62mm*" == ThtDipKeys[|ThtDipKeys| - 1];
  }

  /** The TO-220 names map to a package limited to 4 pins and the TO-92 names to one limited
      to 3, neither with group names: no DIP key overrides them. */
  lemma RegistryTransistorOutlines()
    ensures forall k :: k in TO220Keys ==> k in Registry() && Registry()[k] == TO220Package
    ensures forall k :: k in TO92Keys ==> k in Registry() && Registry()[k] == TO92Package
    ensures TO220Package.maxPins == Some(4) && TO220Package.groupNames == []
    ensures TO92Package.maxPins == Some(3) && TO92Package.groupNames == []
  {
    DipKeysAt19();
    forall k | k in TO220Keys ensures k !in ThtDipKeys && k in InitialRegistry && InitialRegistry[k] == TO220Package {
      assert |k| > 19 && k[19] == 'T';
    }
    forall k | k in TO92Keys ensures k !in ThtDipKeys && k in InitialRegistry && InitialRegistry[k] == TO92Package {
      assert |k| > 19 && k[19] == 'T';
    }
  }

  /** The only DIP key that starts with `D` is the literal pattern-like key; no other
      registered name starts with `D`. */
  lemma KeysStartingWithD()
    ensures forall i :: 0 <= i < |ThtDipKeys| ==> ThtDipKeys[i][0] != 'D' || ThtDipKeys[i] == "DIP*W7.62mm*"
    ensures forall k :: k in InitialRegistry ==> k[0] != 'D'
  {
  }

  /** Lookup is by exact key: a name that the last DIP key would match if it were a
      wildcard pattern is not registered, while the key itself is. */
  lemma LookupIsExact()
    ensures Lookup(Registry(), Some("DIP-30_W7.62mm")) == Err(UnknownFootprint(Some("DIP-30_W7.62mm")))
    ensures Lookup(Registry(), Some("DIP*W7.62mm*")) == Ok(DIPPackage)
  {
    RegistryDip();
    KeysStartingWithD();
    var name := "DIP-30_W7.62mm";
    assert name[0] == 'D' && name != "DIP*W7.62mm*";
    forall i | 0 <= i < |ThtDipKeys| ensures ThtDipKeys[i] != name {
    }
  }
}
