/**
 * The mutations the task list sends to the host: the update payloads of the
 * label toggle and the checkbox, the create payload of the add form, the
 * host's permission predicates and the effect log entries. The host's
 * application of an update is modelled only to state what a toggle does.
 */
module Mutations {
  import opened Wrappers
  import opened Schema
  import opened Records

  /** Cell values keyed by field id, as passed to `updateRecordAsync` / `createRecordAsync`. */
  type Payload = map<Id, CellValue>

  /** The host's synchronous permission checks, opaque to the task list. */
  datatype Permissions = Permissions(
    canUpdate: (Id, set<Id>) -> bool,  // record id, field ids to be written
    canDelete: Id -> bool,             // record id
    canCreate: set<Id> -> bool)        // field ids to be written

  /** One asynchronous call issued to the host; its completion is not modelled. */
  datatype Effect =
    | UpdateRecord(tableId: Id, recordId: Id, payload: Payload)
    | DeleteRecord(tableId: Id, recordId: Id)
    | CreateRecord(tableId: Id, payload: Payload)

  /** `toggle`: write the negation of the current done cell, and nothing else. */
  function TogglePayload(r: Record, doneField: Field): (p: Payload)
    ensures p.Keys == {doneField.id}
    ensures p[doneField.id] == Checked(!IsDone(r, doneField))
  {
    map[doneField.id := Checked(!Truthy(GetCellValue(r, doneField.id)))]
  }

  /** The checkbox's `onChange`: write the checked state, and nothing else. */
  function CheckboxPayload(doneField: Field, checked: bool): (p: Payload)
    ensures p.Keys == {doneField.id}
    ensures p[doneField.id] == Checked(checked)
  {
    map[doneField.id := Checked(checked)]
  }

  /** The add form's `onSubmit`: only the primary field, holding the typed name. */
  function CreatePayload(table: Table, taskName: string): (p: Payload)
    ensures p.Keys == {table.primaryField.id}
    ensures p[table.primaryField.id] == Text(taskName)
  {
    map[table.primaryField.id := Text(taskName)]
  }

  /** The host storing an update's cells; cells outside the payload are kept. */
  function ApplyUpdate(r: Record, p: Payload): (r': Record)
    ensures r'.id == r.id && r'.name == r.name
    ensures r'.cells.Keys == r.cells.Keys + p.Keys
    ensures forall k :: k in p ==> r'.cells[k] == p[k]
    ensures forall k :: k in r.cells && k !in p ==> r'.cells[k] == r.cells[k]
  {
    r.(cells := r.cells + p)
  }

  /** A toggle flips the done flag and leaves every other cell alone. */
  lemma ToggleFlips(r: Record, doneField: Field)
    ensures var r' := ApplyUpdate(r, TogglePayload(r, doneField));
            && IsDone(r', doneField) == !IsDone(r, doneField)
            && r'.cells - {doneField.id} == r.cells - {doneField.id}
  {
    var r' := ApplyUpdate(r, TogglePayload(r, doneField));
    assert GetCellValue(r', doneField.id) == Some(Checked(!IsDone(r, doneField)));
  }

  /**
   * Toggling twice restores the done flag; when the cell already held a
   * boolean (a checkbox cell that is set), the record comes back unchanged.
   */
  lemma ToggleTwiceRestores(r: Record, doneField: Field)
    ensures var r1 := ApplyUpdate(r, TogglePayload(r, doneField));
            var r2 := ApplyUpdate(r1, TogglePayload(r1, doneField));
            && IsDone(r2, doneField) == IsDone(r, doneField)
            && r2.cells - {doneField.id} == r.cells - {doneField.id}
            && (GetCellValue(r, doneField.id).Some? && GetCellValue(r, doneField.id).value.Checked? ==> r2 == r)
  {
    var r1 := ApplyUpdate(r, TogglePayload(r, doneField));
    ToggleFlips(r, doneField);
    ToggleFlips(r1, doneField);
    var r2 := ApplyUpdate(r1, TogglePayload(r1, doneField));
    if GetCellValue(r, doneField.id).Some? && GetCellValue(r, doneField.id).value.Checked? {
      assert r2.cells[doneField.id] == r.cells[doneField.id];
      assert r2.cells == r.cells;
    }
  }

  /** The checkbox sets the done flag to the checked state, whatever it was. */
  lemma CheckboxSetsDone(r: Record, doneField: Field, checked: bool)
    ensures var r' := ApplyUpdate(r, CheckboxPayload(doneField, checked));
            && IsDone(r', doneField) == checked
            && r'.cells - {doneField.id} == r.cells - {doneField.id}
  {
    var r' := ApplyUpdate(r, CheckboxPayload(doneField, checked));
    assert GetCellValue(r', doneField.id) == Some(Checked(checked));
  }

  /**
   * A record the host creates from the add form's payload shows up as a task
   * labelled with the typed name (or the placeholder) and not done, provided
   * the done field is not the primary field.
   */
  lemma CreatedRecordIsOpenTask(table: Table, doneField: Field, newId: Id, taskName: string)
    requires doneField.id != table.primaryField.id
    ensures var r := Record(newId, taskName, CreatePayload(table, taskName));
            && Label(r) == (if taskName == "" then Placeholder else taskName)
            && !IsDone(r, doneField)
  {
  }
}
