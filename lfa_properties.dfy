/**
 * What the LFA-457 conversion promises, stated against reference
 * definitions that do not mention the loop's state: the header is the last
 * `#Shot`/`#Time/min` row, the columns come from scanning the header rows,
 * the series are the non-empty temperature/diffusivity cells of the rows
 * after a truthy header, and each metadata slot holds the value of the last
 * row carrying its tag.
 */
module LfaProperties {
  import opened Wrappers
  import opened Text
  import opened Pif
  import opened LfaToPif

  // ---------------------------------------------------------------------
  // Reference definitions
  // ---------------------------------------------------------------------

  /** Position of the last header row, if any. */
  function LastHeader(rows: seq<seq<string>>): (r: Option<nat>)
    ensures r.Some? ==> r.value < |rows| && IsHeaderRow(rows[r.value])
    ensures r.Some? ==> forall j :: r.value < j < |rows| ==> !IsHeaderRow(rows[j])
    ensures r.None? ==> forall j :: 0 <= j < |rows| ==> !IsHeaderRow(rows[j])
    decreases |rows|
  {
    if rows == [] then None
    else if IsHeaderRow(rows[|rows| - 1]) then Some(|rows| - 1)
    else LastHeader(rows[..|rows| - 1])
  }

  /** Position of the last row carrying `tag`, if any. */
  function LastTagged(rows: seq<seq<string>>, tag: Tag): (r: Option<nat>)
    ensures r.Some? ==> r.value < |rows| && Tagged(rows[r.value], tag)
    ensures r.Some? ==> forall j :: r.value < j < |rows| ==> !Tagged(rows[j], tag)
    ensures r.None? ==> forall j :: 0 <= j < |rows| ==> !Tagged(rows[j], tag)
    decreases |rows|
  {
    if rows == [] then None
    else if Tagged(rows[|rows| - 1], tag) then Some(|rows| - 1)
    else LastTagged(rows[..|rows| - 1], tag)
  }

  /** Position of the last cell of `row` containing `key`, if any. */
  function LastCell(row: seq<string>, key: string): (r: Option<nat>)
    ensures r.Some? ==> r.value < |row| && Contains(row[r.value], key)
    ensures r.Some? ==> forall j :: r.value < j < |row| ==> !Contains(row[j], key)
    ensures r.None? ==> forall j :: 0 <= j < |row| ==> !Contains(row[j], key)
    decreases |row|
  {
    if row == [] then None
    else if Contains(row[|row| - 1], key) then Some(|row| - 1)
    else LastCell(row[..|row| - 1], key)
  }

  function FoundOr(found: Option<nat>, previous: Option<nat>): Option<nat> {
    if found.Some? then found else previous
  }

  /** The value the last row carrying `tag` would put in its slot; None without such a row. */
  function TaggedMeta(rows: seq<seq<string>>, tag: Tag): Option<Meta> {
    match LastTagged(rows, tag)
    case None => None
    case Some(i) => if |rows[i]| >= 2 then Some(MetaFor(tag, rows[i][1])) else None
  }

  // ---------------------------------------------------------------------
  // Column resolution within one header row
  // ---------------------------------------------------------------------

  /**
   * A header scan sets each index to the LAST cell containing its key and
   * leaves it as it was when no cell does; the `#Shot`-or-`#Time/min` scan
   * sets `std_index` to False on every cell.
   */
  lemma {:induction false} ResolveFindsLastCell(header: seq<string>, cols: Columns, rule: HeaderRule)
    ensures Resolve(header, cols, rule).temp == FoundOr(LastCell(header, "Temperature"), cols.temp)
    ensures Resolve(header, cols, rule).diff == FoundOr(LastCell(header, "Diffusivity"), cols.diff)
    ensures rule == ShotOrTime ==> Resolve(header, cols, rule).std == if header == [] then cols.std else StdOff
    ensures rule == ShotWithStdDev ==>
              Resolve(header, cols, rule).std == match LastCell(header, "Std_Dev")
                                                 case Some(i) => StdAt(i)
                                                 case None => cols.std
    decreases |header|
  {
    if header != [] {
      ResolveFindsLastCell(header[..|header| - 1], cols, rule);
    }
  }

  /**
   * On a `#Shot` row with `Std_Dev` in field 4 both scans run; the second
   * one leaves nothing of the first: same indices, and `std_index` False.
   */
  lemma RuleAOverriddenByRuleB(header: seq<string>, cols: Columns)
    requires |header| > 0
    ensures Resolve(header, Resolve(header, cols, ShotWithStdDev), ShotOrTime) == Resolve(header, cols, ShotOrTime)
  {
    var a := Resolve(header, cols, ShotWithStdDev);
    ResolveFindsLastCell(header, cols, ShotWithStdDev);
    ResolveFindsLastCell(header, a, ShotOrTime);
    ResolveFindsLastCell(header, cols, ShotOrTime);
  }

  // ---------------------------------------------------------------------
  // The table, by reference
  // ---------------------------------------------------------------------

  /** The column indices after scanning every header row so far with the `#Shot`-or-`#Time/min` scan. */
  function HeaderColumns(rows: seq<seq<string>>): (c: Columns)
    ensures LastHeader(rows).None? ==> c == EmptyTable.cols
    ensures LastHeader(rows).Some? ==> c.std == StdOff
    decreases |rows|
  {
    if rows == [] then
      EmptyTable.cols
    else
      var prefix, row := rows[..|rows| - 1], rows[|rows| - 1];
      if IsHeaderRow(row) then
        ResolveFindsLastCell(row, HeaderColumns(prefix), ShotOrTime);
        Resolve(row, HeaderColumns(prefix), ShotOrTime)
      else
        HeaderColumns(prefix)
  }

  /**
   * `row`, following `prefix`, contributes to the series: it is not itself a
   * header row, the last header so far is at a non-zero position, and its
   * cells at the resolved temperature and diffusivity positions exist and are
   * non-empty.
   */
  predicate Contributes(prefix: seq<seq<string>>, row: seq<string>) {
    var c := HeaderColumns(prefix);
    && |row| > 0 && !IsHeaderRow(row)
    && Truthy(LastHeader(prefix))
    && c.temp.Some? && c.temp.value < |row| && row[c.temp.value] != ""
    && c.diff.Some? && c.diff.value < |row| && row[c.diff.value] != ""
  }

  /** The temperature cells of the contributing rows, in input order. */
  function RefTemps(rows: seq<seq<string>>): seq<string>
    decreases |rows|
  {
    if rows == [] then []
    else
      var prefix, row := rows[..|rows| - 1], rows[|rows| - 1];
      RefTemps(prefix) + if Contributes(prefix, row) then [row[HeaderColumns(prefix).temp.value]] else []
  }

  /** The diffusivity cells of the contributing rows, verbatim, in input order. */
  function RefDiffs(rows: seq<seq<string>>): seq<string>
    decreases |rows|
  {
    if rows == [] then []
    else
      var prefix, row := rows[..|rows| - 1], rows[|rows| - 1];
      RefDiffs(prefix) + if Contributes(prefix, row) then [row[HeaderColumns(prefix).diff.value]] else []
  }

  /** The two series always have the same length. */
  lemma {:induction false} SeriesInLockstep(rows: seq<seq<string>>)
    ensures |RefTemps(rows)| == |RefDiffs(rows)|
    decreases |rows|
  {
    if rows != [] {
      SeriesInLockstep(rows[..|rows| - 1]);
    }
  }

  /** Without a header at a non-zero position (in particular, a lone header at row 0) nothing is collected. */
  lemma {:induction false} NoTruthyHeaderNoData(rows: seq<seq<string>>)
    requires !Truthy(LastHeader(rows))
    ensures RefTemps(rows) == [] && RefDiffs(rows) == []
    decreases |rows|
  {
    if rows != [] {
      var prefix := rows[..|rows| - 1];
      if IsHeaderRow(rows[|rows| - 1]) {
        assert |rows| == 1 && prefix == [];
      } else {
        NoTruthyHeaderNoData(prefix);
      }
    }
  }

  // ---------------------------------------------------------------------
  // The pass agrees with the reference
  // ---------------------------------------------------------------------

  /** The invariant of the pass: the table part of the state is the reference's. */
  ghost predicate TableMatches(t: Table, rows: seq<seq<string>>) {
    && t.header == LastHeader(rows)
    && t.cols == HeaderColumns(rows)
    && t.temps == RefTemps(rows)
    && t.diffs == RefDiffs(rows)
    && t.times == []
  }

  /** A header row keeps the table equal to the reference: it moves the header and rescans the columns, and collects nothing. */
  lemma HeaderRowKeepsTable(prefix: seq<seq<string>>, row: seq<string>, t: Table)
    requires TableMatches(t, prefix) && IsHeaderRow(row)
    requires DetectHeader(t, |prefix|, row).Ok?
    ensures var t1 := DetectHeader(t, |prefix|, row).value;
            Accumulate(t1, |prefix|, row) == Ok(t1) && TableMatches(t1, prefix + [row])
  {
    var rows := prefix + [row];
    assert rows[..|rows| - 1] == prefix && rows[|rows| - 1] == row;
    var t1 := DetectHeader(t, |prefix|, row).value;
    if Contains(row[0], "#Shot") && Contains(row[4], "Std_Dev") {
      RuleAOverriddenByRuleB(row, t.cols);
    }
    assert t1.cols == Resolve(row, t.cols, ShotOrTime);
    assert !Contributes(prefix, row);
  }

  /** Any other row keeps the table equal to the reference: it is appended exactly when it contributes. */
  lemma DataRowKeepsTable(prefix: seq<seq<string>>, row: seq<string>, t: Table)
    requires TableMatches(t, prefix) && |row| > 0 && !IsHeaderRow(row)
    requires Accumulate(t, |prefix|, row).Ok?
    ensures TableMatches(Accumulate(t, |prefix|, row).value, prefix + [row])
  {
    var rows := prefix + [row];
    assert rows[..|rows| - 1] == prefix && rows[|rows| - 1] == row;
    if Truthy(t.header) {
      assert t.header.value < |prefix|;
    }
  }

  /** One row keeps the table part of the state equal to the reference. */
  lemma StepKeepsTable(prefix: seq<seq<string>>, row: seq<string>, s: State)
    requires TableMatches(s.table, prefix)
    requires Step(s, |prefix|, row).Ok?
    ensures TableMatches(Step(s, |prefix|, row).value.table, prefix + [row])
  {
    if |row| == 0 {
      var rows := prefix + [row];
      assert rows[..|rows| - 1] == prefix && rows[|rows| - 1] == row;
    } else if IsHeaderRow(row) {
      HeaderRowKeepsTable(prefix, row, s.table);
    } else {
      DataRowKeepsTable(prefix, row, DetectHeader(s.table, |prefix|, row).value);
    }
  }

  /**
   * A contributing row never aborts the pass (unless a tag in its first field
   * meets a one-field row): the row succeeds and its temperature and bare
   * diffusivity cells are appended to the lists.
   */
  lemma ContributingRowAppended(prefix: seq<seq<string>>, row: seq<string>, s: State)
    requires TableMatches(s.table, prefix) && Contributes(prefix, row)
    requires |row| >= 2 || !AnyTag(row[0])
    ensures var c := HeaderColumns(prefix);
            && Step(s, |prefix|, row).Ok?
            && Step(s, |prefix|, row).value.table
               == s.table.(temps := s.table.temps + [row[c.temp.value]], diffs := s.table.diffs + [row[c.diff.value]])
  {
    assert LastHeader(prefix).Some?;
    assert s.table.header.value < |prefix|;
    assert DetectHeader(s.table, |prefix|, row) == Ok(s.table);
  }

  /** After any prefix that does not fail, the state's table is the reference's. */
  lemma {:induction false} ScanAgreesWithReference(rows: seq<seq<string>>)
    requires Scan(rows).Ok?
    ensures TableMatches(Scan(rows).value.table, rows)
    decreases |rows|
  {
    if rows != [] {
      var prefix := rows[..|rows| - 1];
      assert prefix + [rows[|rows| - 1]] == rows;
      ScanAgreesWithReference(prefix);
      StepKeepsTable(prefix, rows[|rows| - 1], Scan(prefix).value);
    }
  }

  /** Metadata: the tag tests of `tags` leave a slot filled from this row exactly when its tag was tested and matched. */
  lemma {:induction false} ApplyTagListSlots(m: Metadata, index: nat, row: seq<string>, tags: seq<Tag>, tag: Tag)
    requires |row| > 0 && ApplyTagList(m, index, row, tags).Ok?
    ensures SlotOf(ApplyTagList(m, index, row, tags).value, tag)
            == if tag in tags && Contains(row[0], TagText(tag)) then Some(MetaFor(tag, row[1])) else SlotOf(m, tag)
    decreases |tags|
  {
    if tags != [] {
      var m1 := FillIfTagged(m, index, row, tags[0]).value;
      ApplyTagListSlots(m1, index, row, tags[1..], tag);
      if Contains(row[0], TagText(tags[0])) {
        if tags[0] == tag {
          FillSetsSlot(m, tag, row[1]);
        } else {
          FillKeepsOtherSlots(m, tags[0], row[1], tag);
        }
      }
      assert tag in tags <==> tag == tags[0] || tag in tags[1..];
    }
  }

  /** One row fills the slot of `tag` from its second field when it carries the tag, and leaves it otherwise. */
  lemma StepSlots(s: State, index: nat, row: seq<string>, tag: Tag)
    requires Step(s, index, row).Ok?
    ensures Tagged(row, tag) ==> |row| >= 2
    ensures SlotOf(Step(s, index, row).value.meta, tag)
            == if Tagged(row, tag) then Some(MetaFor(tag, row[1])) else SlotOf(s.meta, tag)
  {
    if |row| > 0 {
      if Tagged(row, tag) {
        assert AnyTag(row[0]);
      }
      EveryTagTested(tag);
      ApplyTagListSlots(s.meta, index, row, TagOrder, tag);
    }
  }

  /** Each metadata slot ends up holding the value of the last row carrying its tag; a later row overwrites an earlier one. */
  lemma {:induction false} SlotsAgreeWithReference(rows: seq<seq<string>>, tag: Tag)
    requires Scan(rows).Ok?
    ensures LastTagged(rows, tag).Some? ==> |rows[LastTagged(rows, tag).value]| >= 2
    ensures SlotOf(Scan(rows).value.meta, tag) == TaggedMeta(rows, tag)
    decreases |rows|
  {
    if rows != [] {
      var prefix := rows[..|rows| - 1];
      SlotsAgreeWithReference(prefix, tag);
      StepSlots(Scan(prefix).value, |rows| - 1, rows[|rows| - 1], tag);
    }
  }

  // ---------------------------------------------------------------------
  // The record
  // ---------------------------------------------------------------------

  /** A slot is assigned exactly when some row carries its tag. */
  lemma SlotAssigned(rows: seq<seq<string>>, tag: Tag)
    requires Scan(rows).Ok?
    ensures SlotOf(Scan(rows).value.meta, tag).Some? <==> LastTagged(rows, tag).Some?
  {
    SlotsAgreeWithReference(rows, tag);
  }

  /** Every slot that assembly reads (all but the formula) is assigned. */
  predicate SlotsAssembled(m: Metadata) {
    forall tag :: tag != MaterialTag ==> SlotOf(m, tag).Some?
  }

  /** Every tag but `#Material` occurs in some row. */
  predicate RequiredTagsSeen(rows: seq<seq<string>>) {
    forall tag :: tag != MaterialTag ==> LastTagged(rows, tag).Some?
  }

  /** Assembly succeeds exactly when every slot but the formula is assigned. */
  lemma AssembleNeedsSixSlots(basename: string, s: State)
    ensures Assemble(basename, s).Ok? <==> SlotsAssembled(s.meta)
  {
    if Assemble(basename, s).Ok? {
      forall tag | tag != MaterialTag
        ensures SlotOf(s.meta, tag).Some?
      {
      }
    } else {
      var tag := Assemble(basename, s).error.slot;
      assert tag != MaterialTag && SlotOf(s.meta, tag).None?;
    }
  }

  /** Assembly succeeds exactly when date, atmosphere, flow, instrument, thickness and diameter rows were all seen. */
  lemma ConvertNeedsSixTags(basename: string, rows: seq<seq<string>>)
    requires Scan(rows).Ok?
    ensures Convert(basename, rows).Ok? <==> RequiredTagsSeen(rows)
  {
    var s := Scan(rows).value;
    assert Convert(basename, rows) == Assemble(basename, s);
    AssembleNeedsSixSlots(basename, s);
    forall tag
      ensures SlotOf(s.meta, tag).Some? <==> LastTagged(rows, tag).Some?
    {
      SlotAssigned(rows, tag);
    }
    assert SlotsAssembled(s.meta) ==> RequiredTagsSeen(rows);
    assert RequiredTagsSeen(rows) ==> SlotsAssembled(s.meta);
  }

  /**
   * The finished record's shape and series: its id is the basename up to the
   * first `_`; its properties are [diffusivity, thickness, diameter]; the
   * diffusivity series is the reference one, bare cells only, and its
   * conditions start with the reference temperature series.
   */
  lemma ConvertedSeries(basename: string, rows: seq<seq<string>>)
    requires Convert(basename, rows).Ok?
    ensures var sys := Convert(basename, rows).value;
      && sys.ids == [RecordId(basename)]
      && |sys.properties| == 3
      && sys.properties[0].name == "Diffusivity"
      && sys.properties[0].scalars == Series(RefDiffs(rows))
      && sys.properties[0].units == Some(DiffusivityUnits)
      && |sys.properties[0].conditions| == 4
      && sys.properties[0].conditions[0] == Value("Temperature", Series(RefTemps(rows)), Some(TemperatureUnits))
      && sys.properties[0].files == Some(FileReference(basename))
  {
    var s := Scan(rows).value;
    assert Convert(basename, rows) == Assemble(basename, s);
    ScanAgreesWithReference(rows);
  }

  /** Where the record keeps the value of each tag: formula, the three trailing conditions, instrument, thickness, diameter. */
  function RecordSlot(sys: ChemicalSystem, tag: Tag): Option<Meta> {
    if |sys.properties| != 3 || |sys.properties[0].conditions| != 4 then None
    else
      var diffusivity := sys.properties[0];
      match tag
      case MaterialTag => if sys.chemicalFormula.Some? then Some(Formula(sys.chemicalFormula.value)) else None
      case InstrumentTag => if diffusivity.instrument.Some? then Some(Device(diffusivity.instrument.value)) else None
      case ThicknessTag => Some(Prop(sys.properties[1]))
      case DiameterTag => Some(Prop(sys.properties[2]))
      case DateTag => Some(Val(diffusivity.conditions[1]))
      case AtmosphereTag => Some(Val(diffusivity.conditions[2]))
      case GasFlowTag => Some(Val(diffusivity.conditions[3]))
  }

  /**
   * The finished record's metadata: the conditions after the temperature
   * series are date, atmosphere and flow, then come the instrument, thickness
   * and diameter, each the value built from the last row carrying its tag;
   * the formula is absent when no `#Material` row was seen.
   */
  lemma ConvertedMetadata(basename: string, rows: seq<seq<string>>, tag: Tag)
    requires Convert(basename, rows).Ok?
    ensures RecordSlot(Convert(basename, rows).value, tag) == TaggedMeta(rows, tag)
  {
    var s := Scan(rows).value;
    assert Convert(basename, rows) == Assemble(basename, s);
    SlotsAgreeWithReference(rows, tag);
  }

  // ---------------------------------------------------------------------
  // Single rows
  // ---------------------------------------------------------------------

  /** An empty row at the end changes nothing. */
  lemma ScanSkipsTrailingEmptyRow(rows: seq<seq<string>>)
    ensures Scan(rows + [[]]) == Scan(rows)
  {
    assert (rows + [[]])[..|rows|] == rows;
  }

  /** The failures a single row can cause. */
  lemma StepFailures(s: State, index: nat, row: seq<string>)
    ensures |row| == 1 && AnyTag(row[0]) ==> Step(s, index, row) == Err(IndexError(index, 1))
    ensures 0 < |row| < 5 && Contains(row[0], "#Shot") && !(|row| == 1 && AnyTag(row[0]))
            ==> Step(s, index, row) == Err(IndexError(index, 4))
    ensures && |row| > 0 && (|row| >= 2 || !AnyTag(row[0])) && !IsHeaderRow(row)
            && Truthy(s.table.header) && s.table.header.value < index
            ==> var c := s.table.cols;
                && (c.temp.None? ==> Step(s, index, row) == Err(UnboundColumn(index, TemperatureColumn)))
                && (c.temp.Some? && c.temp.value >= |row|
                    ==> Step(s, index, row) == Err(IndexError(index, c.temp.value)))
                && (c.temp.Some? && c.temp.value < |row| && row[c.temp.value] != "" ==>
                      && (c.diff.None? ==> Step(s, index, row) == Err(UnboundColumn(index, DiffusivityColumn)))
                      && (c.diff.Some? && c.diff.value >= |row|
                          ==> Step(s, index, row) == Err(IndexError(index, c.diff.value)))
                      && (c.diff.Some? && c.diff.value < |row| && row[c.diff.value] != "" && c.std.StdUnset?
                          ==> Step(s, index, row) == Err(UnboundColumn(index, StdDevColumn))))
  {
  }

  /**
   * After a successful pass that has seen a truthy header, `std_index` is
   * False: a data row can then fail only on the temperature or diffusivity
   * index, never on `std_index`, and never gets the `$\pm$` suffix.
   */
  lemma StdOffAfterHeader(rows: seq<seq<string>>)
    requires Scan(rows).Ok? && Truthy(Scan(rows).value.table.header)
    ensures Scan(rows).value.table.cols.std == StdOff
  {
    ScanAgreesWithReference(rows);
  }
}
