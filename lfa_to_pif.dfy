/**
 * The LFA-457 converter: one forward pass over the CSV rows of a
 * laser-flash-analysis export, filling metadata slots, locating the header
 * row, resolving column positions from it and collecting the temperature and
 * diffusivity columns of the rows that follow; then assembly of the PIF
 * record.
 *
 * The specification functions (`Step`, `Scan`, `Assemble`, `Convert`) say
 * what the pass computes; the methods below them do the work step by step
 * and are proved to compute exactly that. Python's runtime failures are the
 * `Err` side of a `Result`.
 */
module LfaToPif {
  import opened Wrappers
  import opened Text
  import opened Pif

  /** The metadata tags recognised in a row's first field, in the order they are tested. */
  datatype Tag = MaterialTag | InstrumentTag | ThicknessTag | DiameterTag | DateTag | AtmosphereTag | GasFlowTag

  function TagText(tag: Tag): string {
    match tag
    case MaterialTag => "#Material"
    case InstrumentTag => "#Instrument"
    case ThicknessTag => "#Thickness_RT/mm"
    case DiameterTag => "#Diameter/mm"
    case DateTag => "#Date"
    case AtmosphereTag => "#Atmosphere"
    case GasFlowTag => "#Gas_flow/(ml/min)"
  }

  /** The row is non-empty and its first field contains the tag's text. */
  predicate Tagged(row: seq<string>, tag: Tag) {
    |row| > 0 && Contains(row[0], TagText(tag))
  }

  /** Some metadata tag occurs in the first field. */
  predicate AnyTag(first: string) {
    exists tag: Tag :: Contains(first, TagText(tag))
  }

  /** The order in which the source tests the tags. */
  const TagOrder: seq<Tag> := [MaterialTag, InstrumentTag, ThicknessTag, DiameterTag, DateTag, AtmosphereTag, GasFlowTag]

  lemma EveryTagTested(tag: Tag)
    ensures tag in TagOrder
  {
  }

  /** A row that (re)defines the header: its first field contains `#Shot` or `#Time/min`. */
  predicate IsHeaderRow(row: seq<string>) {
    |row| > 0 && (Contains(row[0], "#Shot") || Contains(row[0], "#Time/min"))
  }

  /** The value of the `std_index` local: never assigned, set to False, or a cell position. */
  datatype StdIndex = StdUnset | StdOff | StdAt(pos: nat)

  /** The `temp_index`, `diff_index` and `std_index` locals; `None` means never assigned. */
  datatype Columns = Columns(temp: Option<nat>, diff: Option<nat>, std: StdIndex)

  /** The two header scans: `#Shot` with `Std_Dev` in field 4, and `#Shot` or `#Time/min`. */
  datatype HeaderRule = ShotWithStdDev | ShotOrTime

  datatype Column = TemperatureColumn | DiffusivityColumn | StdDevColumn

  /** The Python exceptions the converter can raise. */
  datatype Error =
    | IndexError(row: nat, field: nat)          // row[field] on a row with at most `field` cells
    | UnboundColumn(row: nat, column: Column)   // a column index read before any header assigned it
    | UnboundSlot(slot: Tag)                    // a metadata local read at assembly but never assigned

  /**
   * The record's `chemical_formula` attribute (default `None`) and the six
   * metadata locals, each unassigned until a row carrying its tag is seen.
   */
  datatype Metadata = Metadata(
    formula: Option<string>,
    device: Option<Instrument>,
    thickness: Option<Property>,
    diameter: Option<Property>,
    date: Option<Value>,
    atmosphere: Option<Value>,
    flow: Option<Value>)

  /**
   * The table locals: `header_row_index` (`None` for its initial False), the
   * column indices and the three lists.
   */
  datatype Table = Table(
    header: Option<nat>,
    cols: Columns,
    temps: seq<string>,
    times: seq<string>,
    diffs: seq<string>)

  /** The locals of the conversion loop. */
  datatype State = State(meta: Metadata, table: Table)

  const NoMetadata: Metadata := Metadata(None, None, None, None, None, None, None)
  const EmptyTable: Table := Table(None, Columns(None, None, StdUnset), [], [], [])
  const Initial: State := State(NoMetadata, EmptyTable)

  const PlusMinus: string := "$\\pm$"
  const DiffusivityUnits: string := "mm$^2$/s"
  const TemperatureUnits: string := "$^\\circ$C"

  // ---------------------------------------------------------------------
  // Metadata
  // ---------------------------------------------------------------------

  /** The object the source builds from a tagged row's second field. */
  datatype Meta = Formula(text: string) | Device(instrument: Instrument) | Prop(property: Property) | Val(value: Value)

  function MetaFor(tag: Tag, cell: string): Meta {
    match tag
    case MaterialTag => Formula(Strip(cell))
    case InstrumentTag => Device(Instrument(RemoveChar(cell, '#')))
    case ThicknessTag => Prop(Property("Thickness", Single(cell), Some("mm"), [], None, None))
    case DiameterTag => Prop(Property("Diameter", Single(cell), Some("mm"), [], None, None))
    case DateTag => Val(Value("Experiment date", Single(Strip(cell)), None))
    case AtmosphereTag => Val(Value("Atmosphere", Single(Strip(cell)), None))
    case GasFlowTag => Val(Value("Flow rate", Single(cell), Some("ml/min")))
  }

  /** The slot a tag fills, viewed uniformly. */
  function SlotOf(m: Metadata, tag: Tag): Option<Meta> {
    match tag
    case MaterialTag => if m.formula.Some? then Some(Formula(m.formula.value)) else None
    case InstrumentTag => if m.device.Some? then Some(Device(m.device.value)) else None
    case ThicknessTag => if m.thickness.Some? then Some(Prop(m.thickness.value)) else None
    case DiameterTag => if m.diameter.Some? then Some(Prop(m.diameter.value)) else None
    case DateTag => if m.date.Some? then Some(Val(m.date.value)) else None
    case AtmosphereTag => if m.atmosphere.Some? then Some(Val(m.atmosphere.value)) else None
    case GasFlowTag => if m.flow.Some? then Some(Val(m.flow.value)) else None
  }

  /** Assign the slot of `tag` from `cell`. */
  function Fill(m: Metadata, tag: Tag, cell: string): Metadata {
    var v := MetaFor(tag, cell);
    match tag
    case MaterialTag => m.(formula := Some(v.text))
    case InstrumentTag => m.(device := Some(v.instrument))
    case ThicknessTag => m.(thickness := Some(v.property))
    case DiameterTag => m.(diameter := Some(v.property))
    case DateTag => m.(date := Some(v.value))
    case AtmosphereTag => m.(atmosphere := Some(v.value))
    case GasFlowTag => m.(flow := Some(v.value))
  }

  /** Filling a slot puts the tag's value for the cell in it. */
  lemma FillSetsSlot(m: Metadata, tag: Tag, cell: string)
    ensures SlotOf(Fill(m, tag, cell), tag) == Some(MetaFor(tag, cell))
  {
  }

  /** Filling one slot leaves every other slot as it was. */
  lemma FillKeepsOtherSlots(m: Metadata, tag: Tag, cell: string, t: Tag)
    requires t != tag
    ensures SlotOf(Fill(m, tag, cell), t) == SlotOf(m, t)
  {
    var r := Fill(m, tag, cell);
    match t
    case MaterialTag => assert r.formula == m.formula;
    case InstrumentTag => assert r.device == m.device;
    case ThicknessTag => assert r.thickness == m.thickness;
    case DiameterTag => assert r.diameter == m.diameter;
    case DateTag => assert r.date == m.date;
    case AtmosphereTag => assert r.atmosphere == m.atmosphere;
    case GasFlowTag => assert r.flow == m.flow;
  }

  /** One `if "<tag>" in row[0]:` test: reading `row[1]` fails on a one-field row. */
  function FillIfTagged(m: Metadata, index: nat, row: seq<string>, tag: Tag): (r: Result<Metadata, Error>)
    requires |row| > 0
    ensures r.Err? <==> Contains(row[0], TagText(tag)) && |row| < 2
    ensures r.Err? ==> r.error == IndexError(index, 1)
  {
    if !Contains(row[0], TagText(tag)) then Ok(m)
    else if |row| < 2 then Err(IndexError(index, 1))
    else Ok(Fill(m, tag, row[1]))
  }

  /** The tag tests of `tags`, one after the other; the first failure stops them. */
  function ApplyTagList(m: Metadata, index: nat, row: seq<string>, tags: seq<Tag>): (r: Result<Metadata, Error>)
    requires |row| > 0
    ensures r.Err? <==> |row| < 2 && exists k :: 0 <= k < |tags| && Contains(row[0], TagText(tags[k]))
    ensures r.Err? ==> r.error == IndexError(index, 1)
    decreases |tags|
  {
    if tags == [] then
      Ok(m)
    else
      var m1 :- FillIfTagged(m, index, row, tags[0]);
      assert forall k :: 1 <= k < |tags| ==> tags[k] == tags[1..][k - 1];
      ApplyTagList(m1, index, row, tags[1..])
  }

  /** The seven independent tag tests, in source order. */
  function ApplyTags(m: Metadata, index: nat, row: seq<string>): (r: Result<Metadata, Error>)
    requires |row| > 0
    ensures r.Err? <==> AnyTag(row[0]) && |row| < 2
    ensures r.Err? ==> r.error == IndexError(index, 1)
  {
    var r := ApplyTagList(m, index, row, TagOrder);
    assert AnyTag(row[0]) ==> exists k :: 0 <= k < |TagOrder| && Contains(row[0], TagText(TagOrder[k])) by {
      if AnyTag(row[0]) {
        var tag :| Contains(row[0], TagText(tag));
        EveryTagTested(tag);
      }
    }
    r
  }

  // ---------------------------------------------------------------------
  // Header
  // ---------------------------------------------------------------------

  /** What one header cell at position `i` does to the column indices under a rule. */
  function CellUpdate(cols: Columns, i: nat, cell: string, rule: HeaderRule): Columns {
    var c1 := if Contains(cell, "Temperature") then cols.(temp := Some(i)) else cols;
    var c2 := if Contains(cell, "Diffusivity") then c1.(diff := Some(i)) else c1;
    match rule
    case ShotWithStdDev => if Contains(cell, "Std_Dev") then c2.(std := StdAt(i)) else c2
    case ShotOrTime => c2.(std := StdOff)
  }

  /** The column indices after scanning the cells of `header` from left to right. */
  function Resolve(header: seq<string>, cols: Columns, rule: HeaderRule): Columns
    decreases |header|
  {
    if header == [] then cols
    else CellUpdate(Resolve(header[..|header| - 1], cols, rule), |header| - 1, header[|header| - 1], rule)
  }

  /** The two header rules, in source order; reading `row[4]` fails on a short `#Shot` row. */
  function DetectHeader(t: Table, index: nat, row: seq<string>): (r: Result<Table, Error>)
    requires |row| > 0
    ensures r.Err? <==> Contains(row[0], "#Shot") && |row| < 5
    ensures r.Err? ==> r.error == IndexError(index, 4)
    ensures r.Ok? ==> r.value.(header := t.header, cols := t.cols) == t
    ensures r.Ok? ==> r.value.header == if IsHeaderRow(row) then Some(index) else t.header
    ensures r.Ok? && !IsHeaderRow(row) ==> r.value.cols == t.cols
  {
    var shot := Contains(row[0], "#Shot");
    if shot && |row| < 5 then
      Err(IndexError(index, 4))
    else
      var t1 := if shot && Contains(row[4], "Std_Dev")
                then t.(header := Some(index), cols := Resolve(row, t.cols, ShotWithStdDev))
                else t;
      Ok(if shot || Contains(row[0], "#Time/min")
         then t1.(header := Some(index), cols := Resolve(row, t1.cols, ShotOrTime))
         else t1)
  }

  // ---------------------------------------------------------------------
  // Data rows
  // ---------------------------------------------------------------------

  /** Python truthiness of `header_row_index`: assigned, and not 0. */
  predicate Truthy(header: Option<nat>) {
    header.Some? && header.value != 0
  }

  /**
   * The data-row test: after a truthy header, a row whose temperature and
   * diffusivity cells are both non-empty has them appended. The `and` is
   * short-circuit, so the diffusivity cell is not read when the temperature
   * cell is empty.
   */
  function Accumulate(t: Table, index: nat, row: seq<string>): (r: Result<Table, Error>)
    ensures r.Ok? ==> r.value.(temps := t.temps, diffs := t.diffs) == t
    ensures r.Ok? ==> |r.value.temps| - |t.temps| == |r.value.diffs| - |t.diffs| <= 1
    ensures !Truthy(t.header) || index <= t.header.value ==> r == Ok(t)
    ensures r.Err? ==> !r.error.UnboundSlot? && r.error.row == index
    ensures r.Err? && r.error.IndexError? ==> r.error.field >= |row|
    ensures r.Err? && r.error.UnboundColumn? ==>
              match r.error.column
              case TemperatureColumn => t.cols.temp.None?
              case DiffusivityColumn => t.cols.diff.None?
              case StdDevColumn => t.cols.std.StdUnset?
    ensures && Truthy(t.header) && index > t.header.value
            && t.cols.temp.Some? && t.cols.temp.value < |row| && t.cols.diff.Some? && t.cols.diff.value < |row|
            && (t.cols.std.StdOff? || (t.cols.std.StdAt? && (t.cols.std.pos == 0 || t.cols.std.pos < |row|)))
            ==> r.Ok?
    ensures && Truthy(t.header) && index > t.header.value
            && t.cols.temp.Some? && t.cols.temp.value < |row| && t.cols.diff.Some? && t.cols.diff.value < |row|
            && t.cols.std.StdOff?
            ==> var temp, diff := row[t.cols.temp.value], row[t.cols.diff.value];
                r == Ok(if temp != "" && diff != "" then t.(temps := t.temps + [temp], diffs := t.diffs + [diff]) else t)
    // The short-circuit `and`: an empty temperature cell skips the row without reading `diff_index`,
    // and an empty diffusivity cell skips it without reading `std_index`.
    ensures && Truthy(t.header) && index > t.header.value
            && t.cols.temp.Some? && t.cols.temp.value < |row| && row[t.cols.temp.value] == ""
            ==> r == Ok(t)
    ensures && Truthy(t.header) && index > t.header.value
            && t.cols.temp.Some? && t.cols.temp.value < |row|
            && t.cols.diff.Some? && t.cols.diff.value < |row| && row[t.cols.diff.value] == ""
            ==> r == Ok(t)
    ensures r.Err? <==>
              && Truthy(t.header) && index > t.header.value
              && (|| t.cols.temp.None? || t.cols.temp.value >= |row|
                  || (&& row[t.cols.temp.value] != ""
                      && (|| t.cols.diff.None? || t.cols.diff.value >= |row|
                          || (&& row[t.cols.diff.value] != ""
                              && (|| t.cols.std.StdUnset?
                                  || (t.cols.std.StdAt? && t.cols.std.pos != 0 && t.cols.std.pos >= |row|))))))
  {
    if !Truthy(t.header) || index <= t.header.value then Ok(t)
    else if t.cols.temp.None? then Err(UnboundColumn(index, TemperatureColumn))
    else if t.cols.temp.value >= |row| then Err(IndexError(index, t.cols.temp.value))
    else if row[t.cols.temp.value] == "" then Ok(t)
    else if t.cols.diff.None? then Err(UnboundColumn(index, DiffusivityColumn))
    else if t.cols.diff.value >= |row| then Err(IndexError(index, t.cols.diff.value))
    else if row[t.cols.diff.value] == "" then Ok(t)
    else
      var temp, diff := row[t.cols.temp.value], row[t.cols.diff.value];
      match t.cols.std
      case StdUnset => Err(UnboundColumn(index, StdDevColumn))
      case StdOff => Ok(t.(temps := t.temps + [temp], diffs := t.diffs + [diff]))
      case StdAt(i) =>
        if i == 0 then Ok(t.(temps := t.temps + [temp], diffs := t.diffs + [diff]))
        else if i >= |row| then Err(IndexError(index, i))
        else Ok(t.(temps := t.temps + [temp], diffs := t.diffs + [diff + PlusMinus + row[i]]))
  }

  // ---------------------------------------------------------------------
  // The whole pass and the record
  // ---------------------------------------------------------------------

  /** One iteration of the loop, on the row at position `index`. */
  function Step(s: State, index: nat, row: seq<string>): (r: Result<State, Error>)
    ensures |row| == 0 ==> r == Ok(s)
  {
    if |row| == 0 then
      Ok(s)
    else
      var meta :- ApplyTags(s.meta, index, row);
      var table :- DetectHeader(s.table, index, row);
      var table' :- Accumulate(table, index, row);
      Ok(State(meta, table'))
  }

  /** The loop over all rows; the first failure aborts the pass. */
  function Scan(rows: seq<seq<string>>): Result<State, Error>
    decreases |rows|
  {
    if rows == [] then
      Ok(Initial)
    else
      var s :- Scan(rows[..|rows| - 1]);
      Step(s, |rows| - 1, rows[|rows| - 1])
  }

  /** The record identifier: the file's basename up to its first `_`. */
  function RecordId(basename: string): string {
    BeforeFirst(basename, '_')
  }

  /** The order in which assembly reads the metadata locals. */
  const ReadOrder: seq<Tag> := [DateTag, AtmosphereTag, GasFlowTag, InstrumentTag, ThicknessTag, DiameterTag]

  /**
   * Assembly of the record. The diffusivity conditions name date, atmosphere
   * and flow, then the instrument, thickness and diameter are read, in that
   * order; the first of them never assigned fails.
   */
  function Assemble(basename: string, s: State): (r: Result<ChemicalSystem, Error>)
    ensures var m := s.meta;
            r.Err? <==> || m.date.None? || m.atmosphere.None? || m.flow.None?
                        || m.device.None? || m.thickness.None? || m.diameter.None?
    ensures r.Err? ==> r.error.UnboundSlot? && SlotOf(s.meta, r.error.slot).None?
    ensures r.Err? ==> exists k :: 0 <= k < |ReadOrder| && ReadOrder[k] == r.error.slot
                                   && forall j :: 0 <= j < k ==> SlotOf(s.meta, ReadOrder[j]).Some?
    ensures r.Ok? ==> && r.value.ids == [RecordId(basename)]
                      && r.value.chemicalFormula == s.meta.formula
                      && |r.value.properties| == 3
                      && r.value.properties[0].scalars == Series(s.table.diffs)
                      && r.value.properties[0].conditions
                         == [Value("Temperature", Series(s.table.temps), Some(TemperatureUnits)),
                             s.meta.date.value, s.meta.atmosphere.value, s.meta.flow.value]
                      && r.value.properties[0].instrument == s.meta.device
                      && r.value.properties[0].files == Some(FileReference(basename))
                      && r.value.properties[1] == s.meta.thickness.value
                      && r.value.properties[2] == s.meta.diameter.value
  {
    var m := s.meta;
    assert ReadOrder[0] == DateTag && ReadOrder[1] == AtmosphereTag && ReadOrder[2] == GasFlowTag;
    assert ReadOrder[3] == InstrumentTag && ReadOrder[4] == ThicknessTag && ReadOrder[5] == DiameterTag;
    if m.date.None? then Err(UnboundSlot(DateTag))
    else if m.atmosphere.None? then Err(UnboundSlot(AtmosphereTag))
    else if m.flow.None? then Err(UnboundSlot(GasFlowTag))
    else if m.device.None? then Err(UnboundSlot(InstrumentTag))
    else if m.thickness.None? then Err(UnboundSlot(ThicknessTag))
    else if m.diameter.None? then Err(UnboundSlot(DiameterTag))
    else
      var temperature := Value("Temperature", Series(s.table.temps), Some(TemperatureUnits));
      var diffusivity := Property("Diffusivity", Series(s.table.diffs), Some(DiffusivityUnits),
                                  [temperature, m.date.value, m.atmosphere.value, m.flow.value],
                                  m.device, Some(FileReference(basename)));
      Ok(ChemicalSystem([RecordId(basename)], m.formula, [diffusivity, m.thickness.value, m.diameter.value]))
  }

  /** The whole conversion of the rows of the file named `basename`. */
  function Convert(basename: string, rows: seq<seq<string>>): Result<ChemicalSystem, Error> {
    var s :- Scan(rows);
    Assemble(basename, s)
  }

  /** Once a prefix of the rows has failed, the whole pass fails the same way. */
  lemma {:induction false} ScanErrorSticky(rows: seq<seq<string>>, k: nat)
    requires k <= |rows| && Scan(rows[..k]).Err?
    ensures Scan(rows) == Scan(rows[..k])
    decreases |rows|
  {
    if k < |rows| {
      assert rows[..|rows| - 1][..k] == rows[..k];
      ScanErrorSticky(rows[..|rows| - 1], k);
    } else {
      assert rows[..k] == rows;
    }
  }

  // ---------------------------------------------------------------------
  // The converter, step by step
  // ---------------------------------------------------------------------

  /** The scan of one header row (either `for h_index, h in enumerate(header_row)` loop). */
  method ScanHeader(header: seq<string>, cols: Columns, rule: HeaderRule) returns (r: Columns)
    ensures r == Resolve(header, cols, rule)
  {
    r := cols;
    var hIndex := 0;
    while hIndex < |header|
      invariant 0 <= hIndex <= |header|
      invariant r == Resolve(header[..hIndex], cols, rule)
    {
      var h := header[hIndex];
      if Contains(h, "Temperature") {
        r := r.(temp := Some(hIndex));
      }
      if Contains(h, "Diffusivity") {
        r := r.(diff := Some(hIndex));
      }
      match rule {
        case ShotWithStdDev =>
          if Contains(h, "Std_Dev") {
            r := r.(std := StdAt(hIndex));
          }
        case ShotOrTime =>
          r := r.(std := StdOff);
      }
      assert header[..hIndex + 1][..hIndex] == header[..hIndex];
      hIndex := hIndex + 1;
    }
    assert header[..hIndex] == header;
  }

  /** One `if "<tag>" in row[0]:` test, assigning the tag's local from `row[1]`. */
  method ReadTag(m: Metadata, index: nat, row: seq<string>, tag: Tag) returns (r: Result<Metadata, Error>)
    requires |row| > 0
    ensures r == FillIfTagged(m, index, row, tag)
  {
    if !Contains(row[0], TagText(tag)) {
      return Ok(m);
    }
    if |row| < 2 {
      return Err(IndexError(index, 1));
    }
    return Ok(Fill(m, tag, row[1]));
  }

  /** The seven metadata tests on a non-empty row, in source order. */
  method ReadMetadata(meta: Metadata, index: nat, row: seq<string>) returns (r: Result<Metadata, Error>)
    requires |row| > 0
    ensures r == ApplyTags(meta, index, row)
  {
    var m := meta;
    assert TagOrder[0..] == TagOrder;
    m :- ReadTag(m, index, row, MaterialTag);
    assert ApplyTags(meta, index, row) == ApplyTagList(m, index, row, TagOrder[1..]);
    m :- ReadTag(m, index, row, InstrumentTag);
    assert ApplyTags(meta, index, row) == ApplyTagList(m, index, row, TagOrder[2..]);
    m :- ReadTag(m, index, row, ThicknessTag);
    assert ApplyTags(meta, index, row) == ApplyTagList(m, index, row, TagOrder[3..]);
    m :- ReadTag(m, index, row, DiameterTag);
    assert ApplyTags(meta, index, row) == ApplyTagList(m, index, row, TagOrder[4..]);
    m :- ReadTag(m, index, row, DateTag);
    assert ApplyTags(meta, index, row) == ApplyTagList(m, index, row, TagOrder[5..]);
    m :- ReadTag(m, index, row, AtmosphereTag);
    assert ApplyTags(meta, index, row) == ApplyTagList(m, index, row, TagOrder[6..]);
    m :- ReadTag(m, index, row, GasFlowTag);
    assert ApplyTags(meta, index, row) == ApplyTagList(m, index, row, TagOrder[7..]);
    return Ok(m);
  }

  /** The two header tests on a non-empty row. */
  method FindHeader(table: Table, index: nat, row: seq<string>) returns (r: Result<Table, Error>)
    requires |row| > 0
    ensures r == DetectHeader(table, index, row)
  {
    var t := table;
    if Contains(row[0], "#Shot") {
      if |row| < 5 { return Err(IndexError(index, 4)); }
      if Contains(row[4], "Std_Dev") {
        t := t.(header := Some(index));
        var cols := ScanHeader(row, t.cols, ShotWithStdDev);
        t := t.(cols := cols);
      }
    }
    if Contains(row[0], "#Shot") || Contains(row[0], "#Time/min") {
      t := t.(header := Some(index));
      var cols := ScanHeader(row, t.cols, ShotOrTime);
      t := t.(cols := cols);
    }
    return Ok(t);
  }

  /** The data-row test on the row at position `index`. */
  method CollectData(table: Table, index: nat, row: seq<string>) returns (r: Result<Table, Error>)
    ensures r == Accumulate(table, index, row)
  {
    if table.header.None? || table.header.value == 0 || index <= table.header.value {
      return Ok(table);
    }
    if table.cols.temp.None? { return Err(UnboundColumn(index, TemperatureColumn)); }
    var tempIndex := table.cols.temp.value;
    if tempIndex >= |row| { return Err(IndexError(index, tempIndex)); }
    if row[tempIndex] == "" {
      return Ok(table);
    }
    if table.cols.diff.None? { return Err(UnboundColumn(index, DiffusivityColumn)); }
    var diffIndex := table.cols.diff.value;
    if diffIndex >= |row| { return Err(IndexError(index, diffIndex)); }
    if row[diffIndex] == "" {
      return Ok(table);
    }
    var t := table.(temps := table.temps + [row[tempIndex]]);
    match table.cols.std {
      case StdUnset =>
        return Err(UnboundColumn(index, StdDevColumn));
      case StdOff =>
        t := t.(diffs := t.diffs + [row[diffIndex]]);
      case StdAt(stdIndex) =>
        if stdIndex == 0 {
          t := t.(diffs := t.diffs + [row[diffIndex]]);
        } else {
          if stdIndex >= |row| { return Err(IndexError(index, stdIndex)); }
          t := t.(diffs := t.diffs + [row[diffIndex] + PlusMinus + row[stdIndex]]);
        }
    }
    return Ok(t);
  }

  /** The body of the row loop, on the row at position `index`. */
  method ProcessRow(st: State, index: nat, row: seq<string>) returns (r: Result<State, Error>)
    ensures r == Step(st, index, row)
  {
    if |row| == 0 {
      return Ok(st);
    }
    var meta :- ReadMetadata(st.meta, index, row);
    var table :- FindHeader(st.table, index, row);
    table :- CollectData(table, index, row);
    return Ok(State(meta, table));
  }

  /** The row loop; the first failing row aborts it. */
  method ReadRows(rows: seq<seq<string>>) returns (r: Result<State, Error>)
    ensures r == Scan(rows)
  {
    var st := Initial;
    var index := 0;
    while index < |rows|
      invariant 0 <= index <= |rows|
      invariant Scan(rows[..index]) == Ok(st)
    {
      assert rows[..index + 1][..index] == rows[..index];
      var next := ProcessRow(st, index, rows[index]);
      if next.Err? {
        ScanErrorSticky(rows, index + 1);
        return Err(next.error);
      }
      st := next.value;
      index := index + 1;
    }
    assert rows[..index] == rows;
    return Ok(st);
  }

  /** Assembly of the record from the final state, reading the metadata locals in source order. */
  method BuildRecord(basename: string, st: State) returns (r: Result<ChemicalSystem, Error>)
    ensures r == Assemble(basename, st)
  {
    var m := st.meta;
    var ids := [RecordId(basename)];
    var temperature := Value("Temperature", Series(st.table.temps), Some(TemperatureUnits));
    var heatCapacity := Property("Diffusivity", Series(st.table.diffs), Some(DiffusivityUnits), [], None, None);
    if m.date.None? { return Err(UnboundSlot(DateTag)); }
    if m.atmosphere.None? { return Err(UnboundSlot(AtmosphereTag)); }
    if m.flow.None? { return Err(UnboundSlot(GasFlowTag)); }
    heatCapacity := heatCapacity.(conditions := [temperature, m.date.value, m.atmosphere.value, m.flow.value]);
    if m.device.None? { return Err(UnboundSlot(InstrumentTag)); }
    heatCapacity := heatCapacity.(instrument := m.device);
    heatCapacity := heatCapacity.(files := Some(FileReference(basename)));
    var properties := [heatCapacity];
    if m.thickness.None? { return Err(UnboundSlot(ThicknessTag)); }
    properties := properties + [m.thickness.value];
    if m.diameter.None? { return Err(UnboundSlot(DiameterTag)); }
    properties := properties + [m.diameter.value];
    assert properties == [heatCapacity, m.thickness.value, m.diameter.value];
    return Ok(ChemicalSystem(ids, m.formula, properties));
  }

  /** The converter: the row loop, then assembly of the record. */
  method Lfa457ToPif(basename: string, rows: seq<seq<string>>) returns (r: Result<ChemicalSystem, Error>)
    ensures r == Convert(basename, rows)
  {
    var st :- ReadRows(rows);
    r := BuildRecord(basename, st);
  }
}
