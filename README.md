# Pinout grouping model

A Dafny model of the pin-grouping core of a small tool that turns KiCad schematic symbols into
printable pinout descriptions. Given a parsed symbol, the tool takes the one unit that carries
pins and sorts its pins by number. It looks the symbol's `Footprint` property up in a registry of
physical packages (DIP, TO-220, TO-92). The package then cuts the sorted pins into named groups,
such as the two sides of a DIP chip. Around this core sit small helper scripts. They search a
library for a symbol, read properties, list pins, and run accumulator functions over whole
libraries to collect footprints and other patterns.

Modules (one file each):

- `Outcomes` (`outcomes.dfy`): `Option`, `Result` and an `Error` type that names each assertion
  failure or exception the source can raise.
- `Filtering` (`filtering.dfy`): the filtering list comprehension, and what its length says.
- `Symbols` (`symbols.dfy`): the parsed symbol record. It also holds the lookups that the scripts
  repeat: `prop_value` / `prop`, the pin-unit comprehension, and the first-match search by
  entry name. The two first-match searches differ when nothing matches. `find_symbol` returns
  `None` (`Symbols.FindSymbol`). The `next(...)` of generate.py:24 raises `StopIteration`
  (`Generate.SelectPart`).
- `Packages` (`packages.dfy`): `Pin`, `PinGroup`, `Package` with `group_pins`, the three preset
  packages and the footprint registry.
- `Generate` (`generate.dfy`): part selection and `get_groups`.
- `InspectPart` (`inspect_part.dfy`): `all_pins`, `ppins`, `footprint`.
- `Accumulators` (`accumulators.dfy`): the Python `Counter`, `set` and `list` that the analysis
  functions mutate, as classes.
- `Analyze` (`analyze.dfy`) and `MiscAnalyze` (`misc_analyze.dfy`): the accumulator functions of
  the two analysis scripts.

An exception or a failed `assert` in the source is an `Err` in the model. Each one carries an
`Error` that names its cause. A raised exception leaves the accumulators as they were, because
in each function the raising call comes before the mutation.

## Model

| member | source | states |
|---|---|---|
| Packages.Package.GroupPins | packages.py:40-63 | the loop that cuts one slice per group name returns exactly `Grouping(pins)`: the checks in source order, then the run of equal slices |
| Packages.GroupingErrors | packages.py:43-52 | duplicate pin numbers fail; too many pins fails only when `max_pins` is set and non-zero; an uneven split fails only with group names; success holds exactly when none of these apply |
| Packages.NoLimitWithoutMaxPins | packages.py:46-47 | `max_pins` of `None` or `0` imposes no limit (the truth test), and with no names the one anonymous group holds the pins |
| Packages.GroupingPartition | packages.py:49-61 | no names: one group named `None` holding the input unchanged; with names: one group per name in order, each of size `len(pins) / len(names)`, group k the slice starting at `k * size`, and the groups concatenated give back the input exactly |
| Packages.DistinctIffFullSet | packages.py:43 | the set of pin numbers has as many elements as the list exactly when no two pins share a number |
| Packages.NumberSetHas | packages.py:43 | a number is in the set of pin numbers exactly when some pin carries it |
| Packages.FlattenSlicesPrefix | packages.py:56-61 | the first m slices, concatenated, are the first `m * size` pins |
| Packages.FillRegistry | packages.py:145-146 | after the fill loop every listed key maps to the given package, the key set is the old keys plus the listed ones, and other entries are unchanged |
| Packages.BuildRegistry | packages.py:100-146 | the registry after module load is the literal entries overwritten by the DIP keys |
| Packages.RegistryKeys | packages.py:100-143 | the registered names are exactly the DIP keys, the TO-220 names and the TO-92 names |
| Packages.RegistryDip | packages.py:66-76 | every DIP key, the literal `DIP*W7.62mm*` included, maps to the DIP package, which has the two side names and no pin limit |
| Packages.RegistryTransistorOutlines | packages.py:78-106 | the TO-220 names map to the package limited to 4 pins, the TO-92 names to the one limited to 3, neither has group names, and no DIP key overrides them |
| Packages.Lookup | generate.py:58 | `PACKAGE_REGISTRY[footprint]` succeeds exactly for a present, registered name and returns its package; otherwise it is `KeyError` naming the footprint |
| Packages.LookupIsExact | packages.py:142 | lookup is by exact key: `DIP-30_W7.62mm` is not registered although the literal key `DIP*W7.62mm*` would match it as a wildcard, and the literal key itself is |
| Symbols.PropValue | generate.py:27-36 | `None` exactly when no property has the key; an error exactly when two do; otherwise the value of a property with the key |
| Symbols.FindSymbol | inspect_part.py:12-17 | `None` exactly when no symbol has the name; otherwise the symbol at the first position with that name |
| Symbols.PinUnitsSingle | generate.py:40-41 | the pin-unit list has length 1 exactly when one unit alone has pins, and then it is that unit |
| Filtering.FilterEmpty | generate.py:40 | a comprehension is empty exactly when no element passes its test |
| Filtering.FilterSeveral | generate.py:40 | a comprehension has two or more elements exactly when two distinct positions pass its test |
| Filtering.FilterSingle | generate.py:40 | a comprehension has exactly one element exactly when one position alone passes, and then it is that element |
| Generate.SelectPart | generate.py:24 | the first symbol whose entry name is the requested name; an error naming it exactly when there is none |
| Generate.ToPins | generate.py:48-54 | one `Pin` per declared pin, same order, same number and name |
| Generate.SortByNumberCorrect | generate.py:56 | sorting by number yields the same pins (as a multiset) in ascending order of number |
| Generate.InsertByNumberSorted | generate.py:56 | inserting a pin into a run sorted by number keeps it sorted |
| Generate.GetGroups | generate.py:39-58 | `get_groups` returns exactly `Groups(registry, sym)`: pin-unit check, footprint property, pins built, sorted, looked up, grouped |
| Generate.GroupsFailures | generate.py:40-58 | it fails with the pin-unit count exactly when there is not exactly one pin-bearing unit; with one, a duplicated `Footprint` raises before any lookup; a missing footprint fails as `KeyError(None)` and an unregistered one as `KeyError(name)`, never skipped |
| Generate.GroupsSuccess | generate.py:48-58 | on success the groups concatenated are that one unit's pins, the same multiset, ascending by number with distinct numbers, and the footprint was registered |
| Generate.DipSixteenPins | generate.py:56-58 | for a DIP footprint and 16 pins numbered 1 to 16 in any declared order: two groups of 8, the left side holding 1..8 and the right side 9..16 |
| Generate.SortedOneToN | generate.py:56 | n sorted pins with distinct numbers between 1 and n are numbered 1, 2, ..., n in order |
| InspectPart.AllPinsPooled | inspect_part.py:49-50 | a pin is in `all_pins` exactly when some unit has it; its length is the units' pin counts added up; units without pins add nothing; with one pin-bearing unit the result is that unit's pins |
| InspectPart.UnitPinsLength | inspect_part.py:50 | the concatenation lists every unit's pins, its length the sum of the units' pin counts |
| InspectPart.UnitPinsHas | inspect_part.py:50 | membership in the concatenation is membership in some unit |
| InspectPart.UnitPinsOfPinUnits | inspect_part.py:50 | concatenating all units' pins equals concatenating the pin-bearing units' pins |
| InspectPart.PPins | inspect_part.py:53-57 | same length and order as `all_pins`, each entry the `(number, name)` of the pin at that position |
| InspectPart.Footprint | inspect_part.py:60-61 | the `Footprint` property by the `prop` rule: `None` when absent, an error on duplicates, else that property's value |
| Analyze.GetFootprints | analyze.py:25-33 | a fresh set when given `None`; on success the set is the old elements plus the footprint (possibly `None`), so repeating the call with the same footprint changes nothing; a duplicated `Footprint` raises and leaves the set as it was |
| MiscAnalyze.PropDictLastWins | misc/analyze.py:26-29 | the dictionary has exactly the property keys, each mapped to the value of the last property with that key |
| MiscAnalyze.PropDictAgreesWithPropValue | misc/analyze.py:15-29 | where `prop_value` does not raise, the dictionary agrees with it: absent key absent, present key with the same value |
| MiscAnalyze.DecimalString | misc/analyze.py:62 | `str(n)` is a non-empty run of decimal digits with no leading zero |
| MiscAnalyze.DecimalRoundTrip | misc/analyze.py:62 | reading back the digits of `str(n)` gives `n` |
| MiscAnalyze.PinUnitsCount | misc/analyze.py:45-61 | the pin-unit list is non-empty exactly when some unit has pins, and longer than 1 exactly when two units have pins |
| MiscAnalyze.GetFootprints | misc/analyze.py:31-38 | a fresh counter when given `None`; the footprint's count (possibly for `None`) rises by exactly 1 and every other count is unchanged; a duplicated `Footprint` raises before counting |
| MiscAnalyze.GetPartsWithNamedPins | misc/analyze.py:41-52 | adds `entryName::str(footprint)` exactly when some unit has pins, otherwise the accumulator is returned as it was; it raises only for a pin-bearing part with a duplicated `Footprint` |
| MiscAnalyze.GetPartsWithMultiplePinUnits | misc/analyze.py:55-64 | adds `entryName has <n> pin units` exactly when two or more units have pins, otherwise the accumulator is unchanged |
| MiscAnalyze.DerivedSymbolAnalysis | misc/analyze.py:67-79 | appends exactly one record (part, parent, property dictionary) exactly when `extends` is truthy, otherwise nothing |
| MiscAnalyze.FootprintVsFpFilters | misc/analyze.py:82-92 | appends exactly one record per call, from the `Footprint` and `ki_fp_filters` properties of the module-level `sym`, not of its `symbol` argument; a duplicated property raises before appending |
| Accumulators.Counter.Increment | misc/analyze.py:36 | `counter[k] += 1`: a missing key counts from 0, the key's count rises by one, no other count changes |
| Accumulators.MutableSet.Add | analyze.py:31 | `add`: the old elements plus the new one |
| Accumulators.MutableList.Append | misc/analyze.py:72 | `append`: the old items followed by the new one |

`prop_value` appears three times in the source, with the same text each time: generate.py:27-36,
analyze.py:14-23 and misc/analyze.py:15-24. `prop` in inspect_part.py:37-46 is a fourth copy.
`Symbols.PropValue` models all four.

## Left out

- File and library input, `sys.argv`, `os.listdir`, `tqdm` and `pprint`, including the `pprint`
  of the pins in `get_groups` (generate.py:44), are left out. The scripts' driver loops are left
  out too (generate.py:11-24 apart from the first-match search, analyze.py:35-55,
  misc/analyze.py:94-114, inspect_part.py:65-66), and so is `search_all_files`
  (inspect_part.py:20-33). The model starts from a parsed symbol or a sequence of symbols.
- `PACKAGE_REGISTRY` is a module global. `Generate.GetGroups` and `Generate.Groups` take the
  registry as a parameter; `Packages.Registry` and `Packages.BuildRegistry` build the one the
  module loads.
- `textwrap.dedent(desc).strip()` (packages.py:32) is not modelled. The preset descriptions are
  written already dedented and stripped, and `desc` is an opaque string field of `Package`.
  Because `Package` is a value, `desc()` returns it unchanged and `group_pins` changes no field.
  No source code updates a `Package` after construction.
- `int(p.number)` (generate.py:51) is not modelled. Pin numbers arrive already parsed as
  integers, so the `ValueError` of a non-numeric pin number is not modelled.
- `InspectPart.AllPins`, `InspectPart.PPins`: the source (inspect_part.py:49-57) passes the
  library's pin numbers through as raw strings, with no `int()`, so a number such as `A1` works
  there. The model returns the already-parsed integer numbers instead.
- `Generate.GetGroups`: `pins.sort` (generate.py:56) sorts a list in place. The model sorts a
  sequence value with a stable insertion sort (`Generate.SortByNumber`), so the in-place update
  is not captured. Only the resulting order and contents matter to the caller.
- `MiscAnalyze.DerivedSymbolAnalysis`: the `lib` parameter and the `**kwargs` of the accumulator
  functions are unused in the source and are not modelled.
- `MiscAnalyze.FootprintVsFpFilters`: the module-level `sym` it reads is passed explicitly as
  `current`. In the driver loop it is the same symbol as the `symbol` argument.
- `MiscAnalyze.GetFootprints`: `accumulator[...] += 1` on a `Counter` is modelled by
  `Accumulators.Counter`, a map with a default of 0. Other `Counter` behaviour is not modelled.
- The `Part` record (packages.py:16-27) is declared but never built in the source, and it is not
  modelled.
- The label rewriter `reformat_label`, exercised by test_cases.py, is not defined in any of the
  modelled files and is not part of this model. repos.py holds only configuration data and is
  not modelled either.
- The source has no wildcard footprint matching, no resolution of `extends` inheritance and no
  pooling of several pin units in `get_groups`, and the model adds none. `DIP*W7.62mm*` is an
  ordinary key. An unregistered or missing footprint raises `KeyError` rather than being
  skipped.
