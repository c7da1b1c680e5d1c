# Insulin Rx Guide — verified model of the catalog build and the starting-dose rules

The Insulin Rx Guide is a one-page prescribing aid. Two pieces of logic sit
inside the page code, and this project models and proves them in Dafny.

- **The catalog build.** One pass over the rows of the insulin spreadsheet fills
  two nested tables, `LONG_ACTING_OPTIONS` and `RAPID_ACTING_OPTIONS`. Each maps
  insulin name → concentration key → device form → units per device.
  - A row is filed under the long-acting class when its name is in the
    long-acting set. It is filed under the rapid-acting class when its name is
    in the rapid-acting set. Otherwise it is not filed.
  - A row with an empty insulin-type, form or amount cell is skipped.
  - An empty concentration cell is not a reason to skip. The row is filed
    under the key `"Unknown"`.
  - A later row with the same path overwrites an earlier one.
- **The starting-dose rules.**
  - A new patient gets `round(weight * 0.2, -1)` below 50 kg and 70 units
    otherwise.
  - An existing patient keeps the total daily dose (TDD) they entered.
  - Awiqli, a once-weekly insulin, overrides this. A new patient starts at
    70 units a week. An existing patient with fasting BG above 10.0 mmol/L and
    no hypoglycaemia in the last month gets `round(tdd * 1.5, -1)`. Anyone else
    keeps the entered dose.
  - For Awiqli, the number entered as "units per day" (line 57) is shown as
    "units once weekly" (line 86), with no conversion by 7. The model keeps
    that convention: the TDD it passes on is the number entered.
  - The page displays the dose only for Awiqli (line 86). That branch replaces
    a new patient's weight-based value with 70. So the weight rule's result is
    computed but never shown in this file; the model still states it
    (`Dosing.InitialTdd`).

Modules, one per file:

- `wrappers.dfy` (`Wrappers`): `Option`, used for possibly empty spreadsheet cells.
- `rounding.dfy` (`Rounding`): `RoundTo10HalfEven`, Python's `round(x, -1)` on an
  exact quotient. It rounds to the nearest multiple of 10, and a tie goes to the
  even multiple.
- `labels.dfy` (`Labels`): the concentration key `f"U-{int(c)}"` or `"Unknown"`,
  with `int()` as truncation toward zero and `str()` as decimal digits.
- `catalog.dfy` (`Catalog`): rows, classes, the two tables and the build loop.
  - `BuildOptions` is a method with a `for` loop. The loop reassigns the two
    map-of-maps tables row by row, as the source mutates its dicts.
  - Its contract ties every path of each table to `LastStored`: the capacity of
    the last kept row of that class with that path.
  - The contract also says no inner map is ever empty (`WellFormed`). The
    selection boxes at insulin_prescription_fixed.py:69-73 depend on this.
- `dosing.dfy` (`Dosing`): the new/existing TDD rules and the Awiqli override,
  as pure functions with lemmas.

Facts about the code that the model records:

- A complete row with an empty concentration cell is kept, under the key
  `"Unknown"` (lines 22-25, 30).
- `round` rounds half to even. So an Awiqli loading dose from a TDD of 350
  (525 units) is 520, not 530 (`Dosing.Awiqli350Gives520`).
- For any insulin other than Awiqli, a new patient from 10 to 25 kg gets 0
  units and one from 26 to 49 kg gets 10 units (`Dosing.NewPatientDoseBands`),
  because 0.2 units/kg is rounded to the nearest 10. A new Awiqli patient
  gets 70 whatever the weight (line 81).

## Model

| member | source | states |
|---|---|---|
| `Catalog.ClassSetsDisjoint` | insulin_prescription_fixed.py:10-11 | no insulin name is in both the long-acting and the rapid-acting set |
| `Catalog.Classify` | insulin_prescription_fixed.py:31-37 | a name is long-acting iff it is in the long-acting set, rapid-acting iff it is in the rapid-acting set, and unclassified iff it is in neither |
| `Catalog.Admit` | insulin_prescription_fixed.py:19-31 | a row is kept iff its name, form and amount cells are present and its name is in one of the two sets; a kept row carries its own name, form, amount and concentration key, and its class matches its set |
| `Catalog.ConcentrationKeyOfKeptRow` | insulin_prescription_fixed.py:22-30 | a complete row of a known class is kept even when its concentration cell is empty, and is then filed under "Unknown"; otherwise under "U-" and the truncated concentration |
| `Labels.Trunc` | insulin_prescription_fixed.py:23 | `int()` on a float truncates toward zero: the result is within 1 of the value and no further from 0 |
| `Labels.NatToDecimal` | insulin_prescription_fixed.py:23 | the printed form of a natural number is a non-empty string of digits without a leading zero |
| `Labels.IntToDecimal` | insulin_prescription_fixed.py:23 | the printed form of an integer is non-empty and starts with '-' exactly when the integer is negative |
| `Labels.DecimalRoundTrip` | insulin_prescription_fixed.py:23 | reading back the printed digits of n gives n |
| `Labels.IntToDecimalInjective` | insulin_prescription_fixed.py:23 | two integers print the same iff they are equal |
| `Labels.ConcentrationLabel` | insulin_prescription_fixed.py:22-25 | the key is "Unknown" iff the concentration cell is empty; a present concentration gives a key starting "U-" |
| `Labels.ConcentrationLabelsAgree` | insulin_prescription_fixed.py:22-25 | two present concentrations get the same key iff they truncate to the same integer |
| `Catalog.StoreEntry` | insulin_prescription_fixed.py:32-36 | storing sets exactly the entry [name][conc][form] to the capacity and leaves every other entry as it was; the insulin keys gain only that name; a table with no empty inner map keeps that property |
| `Catalog.LastStoredSnoc` | insulin_prescription_fixed.py:30-42 | one more row sets a path to its capacity if it writes that path, and otherwise leaves the path as it was |
| `Catalog.BuildOptions` | insulin_prescription_fixed.py:18-42 | after the loop each table holds, at every path, the capacity of the last kept row of its class with that path and nothing else; no insulin has an empty concentration map and no concentration an empty form map; the keys of each table lie in its class set |
| `Catalog.NeverWrittenIsAbsent` | insulin_prescription_fixed.py:18-42 | a path is absent from a table iff no kept row of that class has that path |
| `Catalog.StoredComesFromLastRow` | insulin_prescription_fixed.py:18-42 | every value held at a path is the capacity of a kept row of that class with that path, and no later row writes that path |
| `Catalog.SkippedRowChangesNothing` | insulin_prescription_fixed.py:30 | a row that is skipped or whose name is in neither set leaves both tables unchanged at every path |
| `Catalog.RowRoutedToOneClass` | insulin_prescription_fixed.py:31-42 | a row whose name is not in the long-acting set leaves the long-acting table unchanged, and likewise for the rapid-acting set and table |
| `Catalog.LaterRowOverwrites` | insulin_prescription_fixed.py:36 | after a kept row, its path holds that row's capacity whatever earlier rows stored there, as long as no later row writes the same path |
| `Catalog.TablesDeterminedByLookup` | insulin_prescription_fixed.py:18-42 | two tables without empty inner maps that agree at every path are equal, so BuildOptions' contract fixes both tables completely, and with them the key sets that the selection boxes read |
| `Rounding.RoundTo10HalfEven` | insulin_prescription_fixed.py:53 | the result is a multiple of 10 at most 5 from num/den, and the even multiple on an exact tie |
| `Rounding.RoundTo10Unique` | insulin_prescription_fixed.py:53 | any multiple of 10 within 5 of num/den that is even on a tie equals the rounded value |
| `Dosing.NewPatientDose` | insulin_prescription_fixed.py:50-55 | the new-patient dose is a multiple of 10; 70 from 50 kg up; below 50 kg within 5 units of 0.2 units per kg, and the even multiple of 10 on a tie |
| `Dosing.NewPatientDoseBands` | insulin_prescription_fixed.py:52-53 | for 10 to 49 kg the dose is 0 up to 25 kg and 10 from 26 kg |
| `Dosing.Weight25GivesZero` | insulin_prescription_fixed.py:53 | 25 kg gives 0 units, because the tie at 5.0 goes to the even 0 |
| `Dosing.InitialTdd` | insulin_prescription_fixed.py:50-57 | an existing patient's TDD is the entered number unchanged; a new patient's is 0 up to 25 kg, 10 from 26 to 49 kg and 70 from 50 kg |
| `Dosing.LoadingDose` | insulin_prescription_fixed.py:84 | the loading dose is a multiple of 10 within 5 units of 1.5 × TDD, and the even multiple of 10 on a tie |
| `Dosing.LoadingDoseCharacterised` | insulin_prescription_fixed.py:84 | the loading dose is the unique multiple of 10 nearest 1.5 × TDD, the even one on a tie |
| `Dosing.LoadingDose350` | insulin_prescription_fixed.py:84 | a TDD of 350 gives 520: the tie at 525 goes to the even 520 |
| `Dosing.LoadingDoseOfSmallTdd` | insulin_prescription_fixed.py:84 | a TDD of 1 to 3 gives a loading dose of 0 |
| `Dosing.Awiqli350Gives520` | insulin_prescription_fixed.py:80-84 | an existing Awiqli patient on 350 units with fasting BG 11.0 and no hypoglycaemia is recommended 520 units a week |
| `Dosing.AwiqliDose` | insulin_prescription_fixed.py:80-84 | a new patient gets 70 whatever the other inputs; an existing patient with fasting BG > 10.0 and no hypoglycaemia gets a multiple of 10 within 5 of 1.5 × TDD, the even one on a tie; anyone else keeps the entered TDD |
| `Dosing.RecommendedDose` | insulin_prescription_fixed.py:76-84 | for valid inputs a new patient gets 70 for Awiqli and the weight rule for any other insulin, a multiple of 10 from 0 to 70; an existing patient keeps the entered TDD unless the insulin is Awiqli and the loading condition holds, in which case the dose is the loading dose |

## Left out

- Loading the spreadsheet (lines 6-7) is file I/O. The model takes the rows as an already-parsed sequence. Each cell is an `Option`, and `None` stands for NaN.
- The page widgets and output are presentation only, and are not modelled. This covers the radios, select boxes, number inputs, the text written, the disclaimer and the guide link (lines 45-104). The bounds of the number inputs appear only as `Dosing.ValidInput`.
- The titration guideline text (lines 87-90) is fixed display text, not a computed value.
- `INSULIN_OPTIONS` (line 14) is declared and never used.
- Floating point is not modelled. The model works on exact quotients: weight/5 for `weight * 0.2` and 3·tdd/2 for `tdd * 1.5`.
  - `weight * 0.2` is not exact in binary floating point, because 0.2 has no exact binary form. For 10 to 49 kg the float product still falls on the same side of every rounding boundary as weight/5. At 25 kg it is exactly 5.0, a tie.
  - `tdd * 1.5` is exact for ordinary TDDs. It is a tie whenever the TDD is 10 modulo 20: 10 → 15, 30 → 45, 350 → 525.
  - `round(x, -1)` returns a float (for example `0.0`), which the page prints. The model returns an integer.
  - Fasting BG is a `real`, used only in the comparison with 10.0.
- `Dosing.LoadingDose`: float rounding of `tdd * 1.5` for huge TDDs is not modelled. For odd TDD the float product is already inexact once 3·tdd/2 reaches 2^52, from a TDD of about 3.0·10^15 (2^53/3). The model is exact for every integer.
- `Labels.Trunc`: `int()` on an infinite concentration raises in the source. The model has no infinities, so that error path does not exist in it.
- The amount per device is stored as given, as a `real`. A non-numeric cell is not modelled.
- The order of the tables' keys is not modelled. Python dicts keep insertion order, and an overwrite at line 36 keeps a key where it was. The selection boxes (lines 63, 65, 69-73) list `.keys()` in that order and preselect the first key. Dafny maps have no order, so the model fixes which options each list offers but not their order or the default selection.
- The source's NaN test on the concentration key always passes, because the key is a string. The model leaves that test out.
