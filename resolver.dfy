/**
 * Selection resolution: from the three persisted configuration ids and the
 * schema, derive the working (table, view, done field) and the write-backs
 * (`globalConfig.setAsync`) the render issues, in table, view, done-field
 * order. Every step reads the configuration and schema as they were on
 * entry: a write-back only takes effect on a later pass.
 */
module Resolver {
  import opened Wrappers
  import opened Schema

  /** The installation's shared configuration; an unset key is `None`. */
  datatype Config = Config(selectedTableId: Option<Id>, selectedViewId: Option<Id>, selectedDoneFieldId: Option<Id>)

  datatype ConfigKey = SelectedTableId | SelectedViewId | SelectedDoneFieldId

  /** The intent of one `globalConfig.setAsync(key, value)` call. */
  datatype ConfigWrite = SetAsync(key: ConfigKey, value: Id)

  /** What one resolution step found and which write-backs it issued. */
  datatype Step<T> = Step(found: Option<T>, writes: seq<ConfigWrite>)

  datatype Selection = Selection(table: Option<Table>, view: Option<View>, doneField: Option<Field>)

  datatype Resolution = Resolution(selection: Selection, writes: seq<ConfigWrite>)

  /** A render either completes or throws; writes issued before the throw are already sent. */
  datatype Render = Rendered(resolution: Resolution) | Crashed(writesBeforeCrash: seq<ConfigWrite>)

  function KeyValue(config: Config, key: ConfigKey): Option<Id>
  {
    match key
    case SelectedTableId => config.selectedTableId
    case SelectedViewId => config.selectedViewId
    case SelectedDoneFieldId => config.selectedDoneFieldId
  }

  function Rank(key: ConfigKey): nat
  {
    match key
    case SelectedTableId => 0
    case SelectedViewId => 1
    case SelectedDoneFieldId => 2
  }

  /** Writes come in table, view, done-field order, hence at most one per key. */
  predicate Ordered(ws: seq<ConfigWrite>)
  {
    forall i, j :: 0 <= i < j < |ws| ==> Rank(ws[i].key) < Rank(ws[j].key)
  }

  /** The value written for `key`, if any write targets it (the first one). */
  function WrittenValue(ws: seq<ConfigWrite>, key: ConfigKey): (v: Option<Id>)
    ensures v.Some? <==> exists i :: 0 <= i < |ws| && ws[i].key == key
    ensures v.Some? ==> SetAsync(key, v.value) in ws
  {
    if |ws| == 0 then None
    else if ws[0].key == key then Some(ws[0].value)
    else WrittenValue(ws[1..], key)
  }

  /** The selection invariant: the view and done field, when present, belong to the resolved table. */
  ghost predicate Consistent(base: Base, sel: Selection)
  {
    && (sel.table.Some? ==> sel.table.value in base.tables)
    && (sel.view.Some? ==> sel.table.Some? && sel.view.value in sel.table.value.views)
    && (sel.doneField.Some? ==> sel.table.Some? && sel.doneField.value in sel.table.value.fields)
  }

  /** Table step: look the id up; if that fails and the base has exactly one table, write its id back. */
  function ResolveTable(config: Config, base: Base): Step<Table>
  {
    var table := GetTableByIdIfExists(base, config.selectedTableId);
    Step(table, if table.None? && |base.tables| == 1 then [SetAsync(SelectedTableId, base.tables[0].id)] else [])
  }

  /** View step: looked up on the resolved table only; same unique-candidate rule over its views. */
  function ResolveView(config: Config, table: Option<Table>): Step<View>
  {
    var view := if table.Some? then GetViewByIdIfExists(table.value, config.selectedViewId) else None;
    Step(view, if view.None? && table.Some? && |table.value.views| == 1
               then [SetAsync(SelectedViewId, table.value.views[0].id)] else [])
  }

  /** Done-field step on a table that is present: unique-candidate rule over its checkbox fields. */
  function ResolveDoneField(config: Config, table: Table): (s: Step<Field>)
    ensures s.found == GetFieldByIdIfExists(table, config.selectedDoneFieldId)
    ensures s.writes != [] <==> s.found.None? && |CheckboxFields(table.fields)| == 1
    ensures s.writes != [] ==> exists f :: IsOnlyCheckbox(table, f) && s.writes == [SetAsync(SelectedDoneFieldId, f.id)]
  {
    var doneField := GetFieldByIdIfExists(table, config.selectedDoneFieldId);
    var candidates := CheckboxFields(table.fields);
    if doneField.None? && |candidates| == 1 then
      SingleCheckbox(table);
      Step(doneField, [SetAsync(SelectedDoneFieldId, candidates[0].id)])
    else
      Step(doneField, [])
  }

  /**
   * The resolver as written: when the table does not resolve, the done-field
   * step still reads the table's fields and the render throws, after the
   * table (and view) write-backs have been sent.
   */
  function ResolveAsWritten(config: Config, base: Base): (out: Render)
    ensures out.Crashed? <==> GetTableByIdIfExists(base, config.selectedTableId).None?
  {
    var t := ResolveTable(config, base);
    var v := ResolveView(config, t.found);
    if t.found.None? then Crashed(t.writes + v.writes)
    else
      var d := ResolveDoneField(config, t.found.value);
      Rendered(Resolution(Selection(t.found, v.found, d.found), t.writes + v.writes + d.writes))
  }

  /** The resolver with the done-field step guarded by "a table resolved". */
  function Resolve(config: Config, base: Base): (r: Resolution)
    ensures Consistent(base, r.selection)
    ensures Ordered(r.writes)
    // every lookup uses the configuration as it was on entry, and view and field are looked up on the resolved table
    ensures r.selection.table == GetTableByIdIfExists(base, config.selectedTableId)
    ensures r.selection.table.None? ==> r.selection.view.None? && r.selection.doneField.None?
    ensures r.selection.table.Some? ==>
              && r.selection.view == GetViewByIdIfExists(r.selection.table.value, config.selectedViewId)
              && r.selection.doneField == GetFieldByIdIfExists(r.selection.table.value, config.selectedDoneFieldId)
    // auto-defaults fire exactly on a failed lookup with one candidate
    ensures WrittenValue(r.writes, SelectedTableId) ==
              if r.selection.table.None? && |base.tables| == 1 then Some(base.tables[0].id) else None
    ensures WrittenValue(r.writes, SelectedViewId) ==
              if r.selection.table.Some? && r.selection.view.None? && |r.selection.table.value.views| == 1
              then Some(r.selection.table.value.views[0].id) else None
    ensures WrittenValue(r.writes, SelectedDoneFieldId).Some? <==>
              r.selection.table.Some? && r.selection.doneField.None? && |CheckboxFields(r.selection.table.value.fields)| == 1
    ensures WrittenValue(r.writes, SelectedDoneFieldId).Some? ==>
              exists f :: IsOnlyCheckbox(r.selection.table.value, f) && WrittenValue(r.writes, SelectedDoneFieldId) == Some(f.id)
    // a write-back never replaces an id that resolves
    ensures r.selection.table.Some? && r.selection.view.Some? && r.selection.doneField.Some? ==> r.writes == []
  {
    var t := ResolveTable(config, base);
    var v := ResolveView(config, t.found);
    var d := if t.found.Some? then ResolveDoneField(config, t.found.value) else Step(None, []);
    StepWrites(t.writes, v.writes, d.writes);
    Resolution(Selection(t.found, v.found, d.found), t.writes + v.writes + d.writes)
  }

  /** The first write for a key in `a + b` is `a`'s if it has one, else `b`'s. */
  lemma {:induction false} WrittenValueAppend(a: seq<ConfigWrite>, b: seq<ConfigWrite>, key: ConfigKey)
    ensures WrittenValue(a + b, key) == if WrittenValue(a, key).Some? then WrittenValue(a, key) else WrittenValue(b, key)
  {
    if a != [] {
      assert (a + b)[1..] == a[1..] + b;
      WrittenValueAppend(a[1..], b, key);
    } else {
      assert a + b == b;
    }
  }

  /** Three single-key steps, concatenated: each key's written value is its own step's. */
  lemma StepWrites(tw: seq<ConfigWrite>, vw: seq<ConfigWrite>, dw: seq<ConfigWrite>)
    requires |tw| <= 1 && |vw| <= 1 && |dw| <= 1
    requires forall w :: w in tw ==> w.key == SelectedTableId
    requires forall w :: w in vw ==> w.key == SelectedViewId
    requires forall w :: w in dw ==> w.key == SelectedDoneFieldId
    ensures Ordered(tw + vw + dw)
    ensures WrittenValue(tw + vw + dw, SelectedTableId) == (if tw == [] then None else Some(tw[0].value))
    ensures WrittenValue(tw + vw + dw, SelectedViewId) == (if vw == [] then None else Some(vw[0].value))
    ensures WrittenValue(tw + vw + dw, SelectedDoneFieldId) == (if dw == [] then None else Some(dw[0].value))
  {
    WrittenValueAppend(tw + vw, dw, SelectedTableId);
    WrittenValueAppend(tw + vw, dw, SelectedViewId);
    WrittenValueAppend(tw + vw, dw, SelectedDoneFieldId);
    WrittenValueAppend(tw, vw, SelectedTableId);
    WrittenValueAppend(tw, vw, SelectedViewId);
    WrittenValueAppend(tw, vw, SelectedDoneFieldId);
  }

  /** Where the table resolves, the guarded resolver and the code as written agree. */
  lemma AsWrittenAgreesWithResolve(config: Config, base: Base)
    ensures GetTableByIdIfExists(base, config.selectedTableId).Some? ==>
              ResolveAsWritten(config, base) == Rendered(Resolve(config, base))
    ensures GetTableByIdIfExists(base, config.selectedTableId).None? ==>
              ResolveAsWritten(config, base) == Crashed(Resolve(config, base).writes)
  {
  }

  /**
   * The converse of the done-field rule: on a table with distinct field ids
   * whose only checkbox field is `f`, a done field that does not resolve
   * makes the pass write `f`'s id.
   */
  lemma OnlyCheckboxIsWritten(config: Config, base: Base, f: Field)
    requires Resolve(config, base).selection.table.Some?
    requires DistinctFieldIds(Resolve(config, base).selection.table.value)
    requires IsOnlyCheckbox(Resolve(config, base).selection.table.value, f)
    requires Resolve(config, base).selection.doneField.None?
    ensures WrittenValue(Resolve(config, base).writes, SelectedDoneFieldId) == Some(f.id)
  {
    var r := Resolve(config, base);
    var table := r.selection.table.value;
    OneCandidateIffOnlyCheckbox(table);
    var g :| IsOnlyCheckbox(table, g) && WrittenValue(r.writes, SelectedDoneFieldId) == Some(g.id);
    assert g == f;
  }

  /** A first install on a base with two tables: nothing resolves and the render throws. */
  lemma AsWrittenCrashesOnFreshInstall()
    ensures var f := Field("fldName", OtherType("singleLineText"));
            var base := Base([Table("tblA", f, [f], []), Table("tblB", f, [f], [])]);
            ResolveAsWritten(Config(None, None, None), base) == Crashed([])
  {
  }

  /** The host applying one write-back. */
  function Apply(config: Config, w: ConfigWrite): Config
  {
    match w.key
    case SelectedTableId => config.(selectedTableId := Some(w.value))
    case SelectedViewId => config.(selectedViewId := Some(w.value))
    case SelectedDoneFieldId => config.(selectedDoneFieldId := Some(w.value))
  }

  /** The configuration once every write-back of a pass has completed. */
  function ApplyWrites(config: Config, ws: seq<ConfigWrite>): (c: Config)
    requires Ordered(ws)
    decreases |ws|
    ensures forall key :: KeyValue(c, key) ==
              if WrittenValue(ws, key).Some? then WrittenValue(ws, key) else KeyValue(config, key)
  {
    if |ws| == 0 then config
    else
      assert forall key :: key == ws[0].key ==> WrittenValue(ws[1..], key).None?;
      ApplyWrites(Apply(config, ws[0]), ws[1..])
  }

  lemma NoWritesApplied(config: Config)
    ensures ApplyWrites(config, []) == config
  {
  }

  /** A resolution issued no writes exactly when it reports no write for any key. */
  lemma NoWrittenKeyMeansNoWrites(ws: seq<ConfigWrite>)
    ensures ws == [] <==>
              WrittenValue(ws, SelectedTableId).None? && WrittenValue(ws, SelectedViewId).None? &&
              WrittenValue(ws, SelectedDoneFieldId).None?
  {
    if ws != [] {
      assert WrittenValue(ws, ws[0].key) == Some(ws[0].value);
    }
  }

  /** Once the table resolves, applying the pass's write-backs leaves nothing to write on the next pass. */
  lemma {:induction false} ResolvedTableSettles(config: Config, base: Base)
    requires Resolve(config, base).selection.table.Some?
    ensures var r := Resolve(config, base);
            var r' := Resolve(ApplyWrites(config, r.writes), base);
            && r'.writes == []
            && r'.selection.table == r.selection.table
            && (r.selection.view.Some? ==> r'.selection.view == r.selection.view)
            && (r.selection.doneField.Some? ==> r'.selection.doneField == r.selection.doneField)
            && (WrittenValue(r.writes, SelectedViewId).Some? ==> r'.selection.view.Some?)
            && (WrittenValue(r.writes, SelectedDoneFieldId).Some? ==> r'.selection.doneField.Some?)
  {
    var r := Resolve(config, base);
    var c' := ApplyWrites(config, r.writes);
    var r' := Resolve(c', base);
    var table := r.selection.table.value;
    assert KeyValue(c', SelectedTableId) == config.selectedTableId;
    assert r'.selection.table == r.selection.table;
    var dv := WrittenValue(r.writes, SelectedDoneFieldId);
    if dv.Some? {
      var f :| IsOnlyCheckbox(table, f) && dv == Some(f.id);
      assert KeyValue(c', SelectedDoneFieldId) == Some(f.id);
      assert r'.selection.doneField.Some?;
    } else {
      assert KeyValue(c', SelectedDoneFieldId) == config.selectedDoneFieldId;
    }
    NoWrittenKeyMeansNoWrites(r'.writes);
  }

  /** A missing table with a single candidate resolves on the pass after its write-back. */
  lemma TableWriteResolvesNextPass(config: Config, base: Base)
    requires Resolve(config, base).selection.table.None? && |base.tables| == 1
    ensures Resolve(ApplyWrites(config, Resolve(config, base).writes), base).selection.table == Some(base.tables[0])
  {
    var r := Resolve(config, base);
    assert KeyValue(ApplyWrites(config, r.writes), SelectedTableId) == Some(base.tables[0].id);
  }

  /** From any configuration, the third pass issues no write-backs. */
  lemma {:induction false} SettlesWithinThreePasses(config: Config, base: Base)
    ensures var c1 := ApplyWrites(config, Resolve(config, base).writes);
            var c2 := ApplyWrites(c1, Resolve(c1, base).writes);
            Resolve(c2, base).writes == []
  {
    var r0 := Resolve(config, base);
    var c1 := ApplyWrites(config, r0.writes);
    var r1 := Resolve(c1, base);
    var c2 := ApplyWrites(c1, r1.writes);
    if r0.selection.table.Some? {
      ResolvedTableSettles(config, base);
      NoWritesApplied(c1);
    } else if |base.tables| == 1 {
      TableWriteResolvesNextPass(config, base);
      ResolvedTableSettles(c1, base);
    } else {
      NoWrittenKeyMeansNoWrites(r0.writes);
      NoWritesApplied(config);
      NoWritesApplied(c1);
    }
  }

  // The example installation: one table "Tasks" with one view and one checkbox field.
  const ExampleName := Field("fldName", OtherType("singleLineText"))
  const ExampleDone := Field("fldDone", Checkbox)
  const ExampleView := View("viwAll")
  const ExampleTable := Table("tblTasks", ExampleName, [ExampleName, ExampleDone], [ExampleView])
  const ExampleBase := Base([ExampleTable])

  /** On an empty configuration the first pass only writes the table back; the code as written then throws. */
  lemma ExampleFirstPass()
    ensures Resolve(Config(None, None, None), ExampleBase) ==
              Resolution(Selection(None, None, None), [SetAsync(SelectedTableId, "tblTasks")])
    ensures ResolveAsWritten(Config(None, None, None), ExampleBase) ==
              Crashed([SetAsync(SelectedTableId, "tblTasks")])
    ensures ApplyWrites(Config(None, None, None), [SetAsync(SelectedTableId, "tblTasks")]) ==
              Config(Some("tblTasks"), None, None)
  {
    var c := ApplyWrites(Config(None, None, None), [SetAsync(SelectedTableId, "tblTasks")]);
    assert KeyValue(c, SelectedTableId) == Some("tblTasks");
    assert KeyValue(c, SelectedViewId) == None;
    assert KeyValue(c, SelectedDoneFieldId) == None;
  }

  /** With the table written back, the second pass writes the view and the done field. */
  lemma ExampleSecondPass()
    ensures Resolve(Config(Some("tblTasks"), None, None), ExampleBase) ==
              Resolution(Selection(Some(ExampleTable), None, None),
                         [SetAsync(SelectedViewId, "viwAll"), SetAsync(SelectedDoneFieldId, "fldDone")])
    ensures ApplyWrites(Config(Some("tblTasks"), None, None),
                        [SetAsync(SelectedViewId, "viwAll"), SetAsync(SelectedDoneFieldId, "fldDone")]) ==
              Config(Some("tblTasks"), Some("viwAll"), Some("fldDone"))
  {
    assert CheckboxFields(ExampleTable.fields) == [ExampleDone];
    var ws := [SetAsync(SelectedViewId, "viwAll"), SetAsync(SelectedDoneFieldId, "fldDone")];
    var c := ApplyWrites(Config(Some("tblTasks"), None, None), ws);
    assert KeyValue(c, SelectedTableId) == Some("tblTasks");
    assert KeyValue(c, SelectedViewId) == Some("viwAll");
    assert KeyValue(c, SelectedDoneFieldId) == Some("fldDone");
  }

  /** The third pass resolves everything and writes nothing. */
  lemma ExampleThirdPass()
    ensures Resolve(Config(Some("tblTasks"), Some("viwAll"), Some("fldDone")), ExampleBase) ==
              Resolution(Selection(Some(ExampleTable), Some(ExampleView), Some(ExampleDone)), [])
  {
  }
}
