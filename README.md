# LFA-457 to PIF converter, modelled in Dafny

This project models `lfa457_to_pif` from `sparks_pif_converters/LFA/lfa_to_pif.py`. The function converts the CSV export of a
Netzsch LFA-457 laser-flash-analysis instrument into a PIF (Physical Information File) `ChemicalSystem` record.

The converter makes one forward pass over the CSV rows. Each non-empty row goes through three phases:

1. Seven independent substring tests on the first field fill metadata slots from the second field:
   material, instrument, thickness, diameter, date, atmosphere and gas flow.
2. Two header tests on the first field decide whether the row is the header:
   - `#Shot` with `Std_Dev` in field 4;
   - `#Shot` or `#Time/min`.

   A header row sets `header_row_index` and rescans the cells for "Temperature" and "Diffusivity". Only a row that
   passes the first test is also scanned for "Std_Dev". The second scan, which every header row passes, then sets
   `std_index` to False.
3. The data test: once a truthy header has been seen, any row after the most recent header row that is not itself a
   header row, and whose temperature and diffusivity cells are both non-empty, has those cells appended, as text, to
   the temperature and diffusivity lists.

After the pass, the record is assembled:

- the id is the basename up to its first `_`;
- the formula comes from the `#Material` row;
- the properties are, in order: diffusivity, thickness, diameter;
- the diffusivity property has the series, the conditions [temperature series, date, atmosphere, flow], the instrument
  and a file reference.

Files:

- `wrappers.dfy`: `Option` and `Result`. The `Err` side of a `Result` stands for the Python exception the converter
  would raise.
- `text.dfy`: the Python 2 string operations used, namely `in`, `strip()`, `replace("#", "")` and `split("_")[0]`.
- `pif.dfy`: the PIF objects the converter fills in, as plain datatypes.
- `lfa_to_pif.dfy`: the converter.
  - Specification functions for each phase: `ApplyTags`, `DetectHeader`, `Accumulate`. These compose into one loop
    iteration (`Step`), the whole pass (`Scan`), the assembly (`Assemble`) and the conversion (`Convert`).
  - Imperative methods that do the same work step by step, each proved equal to its specification function:
    `ScanHeader` (the cell loops), `ReadTag`/`ReadMetadata`, `FindHeader`, `CollectData`, `ProcessRow` (one loop
    iteration), `ReadRows` (the row loop), `BuildRecord` (the assembly) and `Lfa457ToPif` (the whole function).
- `lfa_properties.dfy`: reference definitions that never mention the loop's state, and the lemmas that tie the pass to
  them. The reference definitions are:
  - the last header row;
  - the columns resolved by the header rows;
  - the contributing rows and their cells;
  - the last row carrying each tag.

The state of the loop is one `State` record made of two parts:

- `Metadata`: the record's `chemical_formula` attribute, which the `#Material` row sets, and the six metadata locals
  (instrument, thickness, diameter, date, atmosphere, flow);
- `Table`: `header_row_index`, the column indices and the three lists.

Each phase of a row reads and writes only one part, so a phase that does not touch a part leaves it unchanged by
construction. `None` stands for:

- a metadata local never assigned, and the formula attribute left at its default `None`;
- `temp_index` and `diff_index` never assigned;
- the initial `header_row_index = False` (line 17).

`std_index` has three states: never assigned, False, or a position. Python's truthiness test on `header_row_index` is
`Truthy`: a position other than 0 (both False and 0 are falsy).

Behaviour of the code that the model reproduces, and that a reader might not expect:

- **The `$\pm$` suffix is never produced.** Any row that passes the first header test also passes the second. The second
  scan assigns `std_index = False` for every cell. So after any header `std_index` is False
  (`RuleAOverriddenByRuleB`, `HeaderColumns`, `StdOffAfterHeader`). Every diffusivity entry is the bare cell (`ScanAgreesWithReference`). The
  `$\pm$` branch is modelled but unreachable.
- **The last header row wins, not the first.** Every `#Shot` or `#Time/min` row sets the header index again. Column
  indices not found in a later header keep their earlier values.
- **A header at row 0 disables collection**, because `header_row_index` is tested for truthiness (`NoTruthyHeaderNoData`).
- **A `#Shot` row with fewer than five fields raises** an index error. It is not treated as "no match".
- **A missing `#Material` row does not fail.** The formula stays absent. Assembly fails only when the date, atmosphere,
  flow, instrument, thickness or diameter row is missing (`ConvertNeedsSixTags`).
- **Whitespace handling differs by field.** Material, date and atmosphere values are stripped. Thickness, diameter and
  flow values are kept as they are. The instrument name has every `#` removed.

## Model

| member | source | states |
|---|---|---|
| `Text.ContainsIff` | sparks_pif_converters/LFA/lfa_to_pif.py:35 | the substring test used for every tag and header check holds exactly when the key occurs at some position of the field |
| `Text.StripLeftTrims` | sparks_pif_converters/LFA/lfa_to_pif.py:36 | the left half of `strip()` removes a leading run of whitespace, leaving a suffix of the input, and stops at the first non-whitespace character |
| `Text.StripRightTrims` | sparks_pif_converters/LFA/lfa_to_pif.py:36 | the right half of `strip()` removes a trailing run of whitespace, leaving a prefix of the input, and stops at the last non-whitespace character |
| `Text.StripTrims` | sparks_pif_converters/LFA/lfa_to_pif.py:36 | `strip()` returns the infix of its argument left after removing whitespace from both ends; the result neither starts nor ends with whitespace |
| `Text.RemoveCharDrops` | sparks_pif_converters/LFA/lfa_to_pif.py:39 | `replace("#", "")` leaves no `#` and keeps every other character with its multiplicity; a string without `#` is unchanged |
| `Text.RemoveCharAppend` | sparks_pif_converters/LFA/lfa_to_pif.py:39 | `replace("#", "")` on a concatenation is the concatenation of the two results, so the kept characters stay in their original order |
| `Text.RemoveCharSingle` | sparks_pif_converters/LFA/lfa_to_pif.py:39 | on a single character `replace("#", "")` drops a `#` and keeps anything else; with `RemoveCharAppend` this fixes the result on every string |
| `Text.BeforeFirstIsPrefix` | sparks_pif_converters/LFA/lfa_to_pif.py:13 | `split("_")[0]` is the longest prefix free of `_`: a prefix of the input, `_`-free, and followed by `_` unless it is the whole input |
| `LfaToPif.FillSetsSlot` | sparks_pif_converters/LFA/lfa_to_pif.py:35-54 | assigning a tag's local sets that slot to the object the source builds from the cell |
| `LfaToPif.FillKeepsOtherSlots` | sparks_pif_converters/LFA/lfa_to_pif.py:35-54 | assigning one tag's local leaves every other metadata local as it was |
| `LfaToPif.FillIfTagged` | sparks_pif_converters/LFA/lfa_to_pif.py:35-36 | one tag test fails with an index error on field 1 exactly when the tag matches a one-field row |
| `LfaToPif.ApplyTagList` | sparks_pif_converters/LFA/lfa_to_pif.py:35-54 | a run of tag tests fails exactly when some tested tag matches and the row has fewer than two fields |
| `LfaToPif.ApplyTags` | sparks_pif_converters/LFA/lfa_to_pif.py:34-54 | the seven tag tests fail (index error on field 1) exactly when some tag matches a one-field row |
| `LfaToPif.DetectHeader` | sparks_pif_converters/LFA/lfa_to_pif.py:56-75 | the header tests fail (index error on field 4) exactly on a `#Shot` row shorter than five fields; otherwise only header and columns change (the lists are untouched), the header becomes this row when it carries `#Shot` or `#Time/min`, and columns are untouched otherwise |
| `LfaToPif.Accumulate` | sparks_pif_converters/LFA/lfa_to_pif.py:77-85 | the data test changes only the two lists, grows them by the same amount (at most one), and does nothing unless the header is truthy and lies before this row. After such a header it fails exactly when the temperature index is unassigned or past the row's end, or the temperature cell is non-empty and the diffusivity index is unassigned or past the row's end, or both cells are non-empty and `std_index` is unassigned or a non-zero position past the row's end. The failure is on this row: an index error names a field past the row's end, and an unbound-column error names an unassigned index. Through the short-circuit `and`, an empty temperature cell skips the row without reading `diff_index`, and an empty diffusivity cell skips it without reading `std_index`. With `std_index` False the two cells are appended exactly when both are non-empty |
| `LfaToPif.Step` | sparks_pif_converters/LFA/lfa_to_pif.py:30-32 | a row with zero fields leaves the whole state unchanged |
| `LfaToPif.Assemble` | sparks_pif_converters/LFA/lfa_to_pif.py:87-99 | assembly fails exactly when date, atmosphere, flow, instrument, thickness or diameter was never assigned. It names the first unassigned one in the reading order date, atmosphere, flow, instrument, thickness, diameter. Otherwise the record has id = basename up to `_`, the material formula, properties [diffusivity, thickness, diameter], diffusivity series = the list, conditions [temperature series, date, atmosphere, flow], the instrument and the file reference |
| `LfaToPif.ScanErrorSticky` | sparks_pif_converters/LFA/lfa_to_pif.py:26-85 | an exception in any row aborts the pass with that exception |
| `LfaToPif.ScanHeader` | sparks_pif_converters/LFA/lfa_to_pif.py:60-75 | the cell loop over a header row computes exactly the left-to-right scan `Resolve` |
| `LfaToPif.ReadTag` | sparks_pif_converters/LFA/lfa_to_pif.py:35-54 | one `if "<tag>" in row[0]` block computes exactly `FillIfTagged` |
| `LfaToPif.ReadMetadata` | sparks_pif_converters/LFA/lfa_to_pif.py:34-54 | the seven tag blocks, in source order, compute exactly `ApplyTags` |
| `LfaToPif.FindHeader` | sparks_pif_converters/LFA/lfa_to_pif.py:56-75 | the two header blocks compute exactly `DetectHeader` |
| `LfaToPif.CollectData` | sparks_pif_converters/LFA/lfa_to_pif.py:77-85 | the data block computes exactly `Accumulate` |
| `LfaToPif.ProcessRow` | sparks_pif_converters/LFA/lfa_to_pif.py:30-85 | one iteration of the row loop (skip an empty row, then the metadata, header and data blocks, stopping at the first exception) computes exactly `Step` |
| `LfaToPif.ReadRows` | sparks_pif_converters/LFA/lfa_to_pif.py:26-85 | the row loop computes exactly `Scan`, the fold of `Step` over the rows that stops at the first exception |
| `LfaToPif.BuildRecord` | sparks_pif_converters/LFA/lfa_to_pif.py:87-99 | the assembly statements, with their reads of the metadata locals in source order, compute exactly `Assemble` |
| `LfaToPif.Lfa457ToPif` | sparks_pif_converters/LFA/lfa_to_pif.py:8-99 | the row loop followed by assembly returns exactly `Convert`, the fold of `Step` over the rows then `Assemble` |
| `LfaProperties.LastHeader` | sparks_pif_converters/LFA/lfa_to_pif.py:57-68 | the position of the last `#Shot`/`#Time/min` row: such a row, with none after it; none when no row is one |
| `LfaProperties.LastTagged` | sparks_pif_converters/LFA/lfa_to_pif.py:35-54 | the position of the last row carrying a tag: such a row, with none after it; none when no row carries it |
| `LfaProperties.LastCell` | sparks_pif_converters/LFA/lfa_to_pif.py:60-74 | the position of the last header cell containing a key, with no later cell containing it; none when no cell does |
| `LfaProperties.ResolveFindsLastCell` | sparks_pif_converters/LFA/lfa_to_pif.py:60-75 | a header scan sets temperature and diffusivity indices to the last matching cell and keeps the previous value when none matches; the `#Shot`/`#Time/min` scan leaves `std_index` False on any non-empty row; the `Std_Dev` scan takes the last `Std_Dev` cell |
| `LfaProperties.RuleAOverriddenByRuleB` | sparks_pif_converters/LFA/lfa_to_pif.py:57-75 | on a row where both header tests fire, the result equals the second scan alone: the first leaves no trace |
| `LfaProperties.HeaderColumns` | sparks_pif_converters/LFA/lfa_to_pif.py:57-75 | the columns resolved by the header rows so far are the initial unassigned ones before any header, and `std_index` is False after any header |
| `LfaProperties.SeriesInLockstep` | sparks_pif_converters/LFA/lfa_to_pif.py:80-85 | the temperature and diffusivity series always have equal length |
| `LfaProperties.NoTruthyHeaderNoData` | sparks_pif_converters/LFA/lfa_to_pif.py:78 | when there is no header, or the last header is row 0, both series are empty |
| `LfaProperties.HeaderRowKeepsTable` | sparks_pif_converters/LFA/lfa_to_pif.py:56-85 | a header row moves the header to itself, sets the columns to those its `#Shot`/`#Time/min` scan resolves, and collects nothing, keeping the table equal to the reference |
| `LfaProperties.DataRowKeepsTable` | sparks_pif_converters/LFA/lfa_to_pif.py:77-85 | any other row appends its cells exactly when it contributes, keeping the table equal to the reference |
| `LfaProperties.ContributingRowAppended` | sparks_pif_converters/LFA/lfa_to_pif.py:34-85 | a contributing row does not abort the pass unless a tag meets a one-field row: the row succeeds and appends its temperature cell and its bare diffusivity cell, at the positions the header rows resolved |
| `LfaProperties.StepKeepsTable` | sparks_pif_converters/LFA/lfa_to_pif.py:26-85 | one successful row keeps header, columns, both series and the empty time list equal to the reference definitions over the rows so far |
| `LfaProperties.ScanAgreesWithReference` | sparks_pif_converters/LFA/lfa_to_pif.py:17-85 | after a successful pass: the header is the last header row, the columns are those the header rows resolve, the series hold exactly the non-empty temperature and bare diffusivity cells of rows after a truthy header (never a header row), in input order, and the time list is empty |
| `LfaProperties.ApplyTagListSlots` | sparks_pif_converters/LFA/lfa_to_pif.py:35-54 | after a run of tag tests a slot holds the value built from this row's field 1 exactly when its tag was tested and matched; otherwise it is unchanged |
| `LfaProperties.StepSlots` | sparks_pif_converters/LFA/lfa_to_pif.py:35-54 | a row carrying a tag has at least two fields and overwrites that slot with the value built from field 1; other rows leave the slot unchanged |
| `LfaProperties.SlotsAgreeWithReference` | sparks_pif_converters/LFA/lfa_to_pif.py:35-54 | after a successful pass every metadata slot holds the value built from the last row carrying its tag, and is unassigned when no row carries it |
| `LfaProperties.SlotAssigned` | sparks_pif_converters/LFA/lfa_to_pif.py:35-54 | a slot is assigned after the pass exactly when some row carries its tag |
| `LfaProperties.AssembleNeedsSixSlots` | sparks_pif_converters/LFA/lfa_to_pif.py:91-97 | assembly succeeds exactly when every metadata local but the formula is assigned |
| `LfaProperties.ConvertNeedsSixTags` | sparks_pif_converters/LFA/lfa_to_pif.py:91-97 | after a successful pass, conversion succeeds exactly when date, atmosphere, flow, instrument, thickness and diameter rows all occur; `#Material` is not needed |
| `LfaProperties.ConvertedSeries` | sparks_pif_converters/LFA/lfa_to_pif.py:87-99 | a converted record has id = basename up to `_`, three properties, the diffusivity property first with the reference diffusivity series, its units, four conditions starting with the reference temperature series, and the file reference |
| `LfaProperties.ConvertedMetadata` | sparks_pif_converters/LFA/lfa_to_pif.py:91-97 | in a converted record the formula, instrument, thickness, diameter and the date, atmosphere and flow conditions are each the value built from the last row carrying the corresponding tag |
| `LfaProperties.ScanSkipsTrailingEmptyRow` | sparks_pif_converters/LFA/lfa_to_pif.py:31-32 | a trailing row with zero fields does not change the outcome of the pass |
| `LfaProperties.StepFailures` | sparks_pif_converters/LFA/lfa_to_pif.py:36-83 | a one-field tagged row fails on field 1; a short `#Shot` row fails on field 4; a data row after a truthy header fails when the temperature index was never assigned or lies past the row's end, and, when its temperature cell is non-empty, when the diffusivity index was never assigned or lies past the row's end, or when both cells are non-empty and `std_index` was never assigned |
| `LfaProperties.StdOffAfterHeader` | sparks_pif_converters/LFA/lfa_to_pif.py:67-83 | after a successful pass with a truthy header `std_index` is False, so the `std_index` failure and the `$\pm$` suffix cannot occur |

## Left out

- The `__main__` block (lines 102-113) is not modelled: argument parsing, the loop over files, renaming `.csv` to `.json`, and `pif.dump`. It is command-line and file I/O.
- Opening the file and CSV decoding (lines 24-25) are not modelled. The model takes the already-split rows as `seq<seq<string>>`; the CSV quoting rules belong to the `csv` library.
- `os.path.basename` is not modelled. The model takes the basename as input. Only the split on `_` (line 13) is modelled.
- The progress `print` at line 9 is not modelled. It is output only. It only works under Python 2: under Python 3 it raises before any parsing. The model follows Python 2, so `strip()` removes the six ASCII whitespace bytes.
- The commented-out time property (line 89) is not modelled. The unused time list is kept, and is proved to stay empty.
- The pypif classes `ChemicalSystem`, `Property`, `Value`, `Instrument` and `FileReference` are replaced by plain datatypes holding only the fields the converter sets. Their other fields and their serialisation are not modelled. `files` holds the single `FileReference` that line 93 assigns; pypif declares that field as a list.
- Strings are sequences of characters. Python 2 byte strings with non-ASCII content are not distinguished from Unicode text.
- Thickness, diameter and every series value stay text. The source does no numeric parsing, so neither does the model.
