/**
 * The record feed and its projection into tasks. Records are requested only
 * when a done field resolved, and only the primary and done fields are
 * loaded; each loaded record becomes one task keyed by its id.
 */
module Feed {
  import opened Wrappers
  import opened Schema
  import opened Resolver
  import opened Records

  /** The arguments of `useRecords(source, {fields})`; a `None` source asks for nothing. */
  datatype RecordQuery = RecordQuery(source: Option<View>, fields: seq<Field>)

  /** One rendered task: React key, label text, and whether it is struck through / checked. */
  datatype TaskView = TaskView(key: Id, text: string, isDone: bool)

  /** The record query the task list issues for a selection. */
  function QueryFor(sel: Selection): (q: RecordQuery)
    requires sel.doneField.Some? ==> sel.table.Some?
    ensures q.source.Some? ==> sel.doneField.Some? && q.source == sel.view
    ensures sel.doneField.Some? ==> q.source == sel.view
    ensures sel.doneField.None? ==> q.fields == []
    ensures sel.doneField.Some? ==> q.fields == [sel.table.value.primaryField, sel.doneField.value]
  {
    RecordQuery(if sel.doneField.Some? then sel.view else None,
                if sel.doneField.Some? then [sel.table.value.primaryField, sel.doneField.value] else [])
  }

  function FieldIds(fields: seq<Field>): (ids: set<Id>)
    ensures forall f :: f in fields ==> f.id in ids
    ensures forall id :: id in ids ==> exists f :: f in fields && f.id == id
  {
    set f | f in fields :: f.id
  }

  /** A record with only the cells of the requested fields loaded. */
  function Loaded(r: Record, ids: set<Id>): (l: Record)
    ensures l.id == r.id && l.name == r.name
    ensures l.cells.Keys == r.cells.Keys * ids
    ensures forall k :: k in l.cells ==> l.cells[k] == r.cells[k]
  {
    r.(cells := map k | k in r.cells && k in ids :: r.cells[k])
  }

  /** Every record of a snapshot with only the requested cells loaded, order kept. */
  function LoadAll(rs: seq<Record>, ids: set<Id>): (out: seq<Record>)
    ensures |out| == |rs|
    ensures forall i :: 0 <= i < |rs| ==> out[i] == Loaded(rs[i], ids)
  {
    if |rs| == 0 then [] else [Loaded(rs[0], ids)] + LoadAll(rs[1..], ids)
  }

  /**
   * `useRecords(query)`: `null` when there is no source; otherwise the
   * current records of the source view (`viewRecords`, owned by the host)
   * with only the requested fields loaded.
   */
  function UseRecords(q: RecordQuery, viewRecords: seq<Record>): (records: Option<seq<Record>>)
    ensures records.None? <==> q.source.None?
    ensures records.Some? ==> |records.value| == |viewRecords|
    ensures records.Some? ==> forall i :: 0 <= i < |viewRecords| ==>
              && records.value[i].id == viewRecords[i].id
              && records.value[i].name == viewRecords[i].name
              && records.value[i].cells.Keys == viewRecords[i].cells.Keys * FieldIds(q.fields)
              && forall k :: k in records.value[i].cells ==> records.value[i].cells[k] == viewRecords[i].cells[k]
  {
    if q.source.None? then None else Some(LoadAll(viewRecords, FieldIds(q.fields)))
  }

  /** The task for one record. */
  function TaskOf(r: Record, doneField: Field): (t: TaskView)
    ensures t.key == r.id && t.isDone == IsDone(r, doneField)
    ensures t.text == Label(r) && t.text != ""
    ensures r.name != "" ==> t.text == r.name
    ensures r.name == "" ==> t.text == Placeholder
  {
    TaskView(r.id, Label(r), IsDone(r, doneField))
  }

  /** `records.map(record => <Task …/>)`: one task per record, same order. */
  function ProjectRecords(rs: seq<Record>, doneField: Field): (ts: seq<TaskView>)
    ensures |ts| == |rs|
    ensures forall i :: 0 <= i < |rs| ==>
              ts[i].key == rs[i].id && ts[i].text == Label(rs[i]) && ts[i].isDone == IsDone(rs[i], doneField)
  {
    if |rs| == 0 then [] else [TaskOf(rs[0], doneField)] + ProjectRecords(rs[1..], doneField)
  }

  /** `tasks`: `null` exactly when the record list is `null`. */
  function Tasks(records: Option<seq<Record>>, doneField: Option<Field>): (tasks: Option<seq<TaskView>>)
    requires records.Some? ==> doneField.Some?
    ensures tasks.None? <==> records.None?
    ensures tasks.Some? ==> |tasks.value| == |records.value|
    ensures tasks.Some? ==> forall i :: 0 <= i < |records.value| ==>
              && tasks.value[i].key == records.value[i].id
              && tasks.value[i].text == Label(records.value[i])
              && tasks.value[i].isDone == IsDone(records.value[i], doneField.value)
  {
    if records.None? then None else Some(ProjectRecords(records.value, doneField.value))
  }

  /** `table && doneField && <AddTaskForm …/>`. */
  predicate ShowsAddForm(sel: Selection)
  {
    sel.table.Some? && sel.doneField.Some?
  }

  /** The whole read path of one render: resolve, query, load, project. */
  function TaskList(config: Config, base: Base, viewRecords: seq<Record>): (tasks: Option<seq<TaskView>>)
  {
    var sel := Resolve(config, base).selection;
    Tasks(UseRecords(QueryFor(sel), viewRecords), sel.doneField)
  }

  /**
   * The feed exists exactly when both a done field and a view resolved, and
   * then it asks for exactly the table's primary field and the done field.
   */
  lemma FeedGating(config: Config, base: Base, viewRecords: seq<Record>)
    ensures var sel := Resolve(config, base).selection;
            var q := QueryFor(sel);
            && (UseRecords(q, viewRecords).Some? <==> sel.doneField.Some? && sel.view.Some?)
            && (sel.doneField.Some? ==> q.fields == [sel.table.value.primaryField, sel.doneField.value])
            && (ShowsAddForm(sel) <==> sel.doneField.Some?)
  {
  }

  /** Loading only the primary and done fields loses nothing the task list shows. */
  lemma {:induction false} LoadingKeepsTasks(rs: seq<Record>, primary: Field, doneField: Field)
    ensures ProjectRecords(LoadAll(rs, {primary.id, doneField.id}), doneField) == ProjectRecords(rs, doneField)
  {
    if |rs| > 0 {
      LoadingKeepsTasks(rs[1..], primary, doneField);
      assert LoadAll(rs, {primary.id, doneField.id}) ==
             [Loaded(rs[0], {primary.id, doneField.id})] + LoadAll(rs[1..], {primary.id, doneField.id});
      assert GetCellValue(Loaded(rs[0], {primary.id, doneField.id}), doneField.id) == GetCellValue(rs[0], doneField.id);
    }
  }

  /** Distinct record ids give distinct task keys. */
  lemma TaskKeysDistinct(rs: seq<Record>, doneField: Field)
    requires forall i, j :: 0 <= i < j < |rs| ==> rs[i].id != rs[j].id
    ensures var ts := ProjectRecords(rs, doneField);
            forall i, j :: 0 <= i < j < |ts| ==> ts[i].key != ts[j].key
  {
  }

  /**
   * End to end: with a done field and a view resolved, the task list has one
   * task per record of the view, in order, keyed by record id, labelled by
   * name or the placeholder, and done exactly when the done cell is truthy.
   */
  lemma TaskListMatchesView(config: Config, base: Base, viewRecords: seq<Record>)
    ensures var sel := Resolve(config, base).selection;
            var tasks := TaskList(config, base, viewRecords);
            && (tasks.Some? <==> sel.doneField.Some? && sel.view.Some?)
            && (tasks.Some? ==>
                  && |tasks.value| == |viewRecords|
                  && forall i :: 0 <= i < |viewRecords| ==>
                       tasks.value[i] == TaskView(viewRecords[i].id, Label(viewRecords[i]),
                                                  IsDone(viewRecords[i], sel.doneField.value)))
  {
    var sel := Resolve(config, base).selection;
    if sel.doneField.Some? && sel.view.Some? {
      var primary := sel.table.value.primaryField;
      var done := sel.doneField.value;
      assert FieldIds([primary, done]) == {primary.id, done.id};
      LoadingKeepsTasks(viewRecords, primary, done);
    }
  }
}
