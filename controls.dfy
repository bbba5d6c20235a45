/**
 * The task list's controls over one table and done field: the label toggle,
 * the done checkbox, the delete button and the add form with its text
 * buffer. Every control issues its mutation as an entry in `effects`; a
 * disabled control issues nothing.
 */
module Controls {
  import opened Wrappers
  import opened Schema
  import opened Records
  import opened Mutations

  class TaskListControls {
    const table: Table
    const doneField: Field
    const perms: Permissions

    /** The add form's `taskName` state. */
    var taskName: string
    /** Every host call issued so far, oldest first. */
    var effects: seq<Effect>

    /** The checkbox is enabled when updating the done cell of the record is allowed. */
    predicate CheckboxEnabled(r: Record)
    {
      perms.canUpdate(r.id, {doneField.id})
    }

    /** The delete button is enabled when deleting the record is allowed. */
    predicate DeleteEnabled(r: Record)
    {
      perms.canDelete(r.id)
    }

    /** The input and the submit button are enabled when creating with a primary value is allowed. */
    predicate FormEnabled()
    {
      perms.canCreate({table.primaryField.id})
    }

    /**
     * Every issued call targets this table; updates write only the done
     * field, creations only the primary field and only while creation is
     * allowed, and deletions only records whose deletion is allowed.
     */
    ghost predicate Valid()
      reads this
    {
      forall e :: e in effects ==>
        && e.tableId == table.id
        && (e.UpdateRecord? ==> e.payload.Keys == {doneField.id})
        && (e.CreateRecord? ==> e.payload.Keys == {table.primaryField.id} && FormEnabled())
        && (e.DeleteRecord? ==> perms.canDelete(e.recordId))
    }

    constructor (table: Table, doneField: Field, perms: Permissions)
      ensures this.table == table && this.doneField == doneField && this.perms == perms
      ensures taskName == "" && effects == []
      ensures Valid()
    {
      this.table := table;
      this.doneField := doneField;
      this.perms := perms;
      taskName := "";
      effects := [];
    }

    /** Clicking a task's label toggles it; the label is not permission-gated. */
    method ClickLabel(r: Record)
      requires Valid()
      modifies this`effects
      ensures Valid()
      ensures effects == old(effects) + [UpdateRecord(table.id, r.id, TogglePayload(r, doneField))]
    {
      effects := effects + [UpdateRecord(table.id, r.id, TogglePayload(r, doneField))];
    }

    /** The done checkbox's `onChange`, which only fires while the checkbox is enabled. */
    method ChangeCheckbox(r: Record, checked: bool)
      requires Valid()
      modifies this`effects
      ensures Valid()
      ensures effects == old(effects) +
                (if CheckboxEnabled(r) then [UpdateRecord(table.id, r.id, CheckboxPayload(doneField, checked))] else [])
    {
      if CheckboxEnabled(r) {
        effects := effects + [UpdateRecord(table.id, r.id, CheckboxPayload(doneField, checked))];
      }
    }

    /** The delete button's `onClick`, which only fires while the button is enabled. */
    method ClickDelete(r: Record)
      requires Valid()
      modifies this`effects
      ensures Valid()
      ensures effects == old(effects) + (if DeleteEnabled(r) then [DeleteRecord(table.id, r.id)] else [])
    {
      if DeleteEnabled(r) {
        effects := effects + [DeleteRecord(table.id, r.id)];
      }
    }

    /** The input's `onChange`: the buffer takes the typed value while the input is enabled. */
    method ChangeInput(value: string)
      requires Valid()
      modifies this`taskName
      ensures Valid()
      ensures taskName == if FormEnabled() then value else old(taskName)
    {
      if FormEnabled() {
        taskName := value;
      }
    }

    /** The form's `onSubmit`: create a record holding the buffer in its primary field, then clear the buffer. */
    method Submit()
      requires Valid()
      modifies this
      ensures Valid()
      ensures FormEnabled() ==>
                && effects == old(effects) + [CreateRecord(table.id, CreatePayload(table, old(taskName)))]
                && taskName == ""
      ensures !FormEnabled() ==> effects == old(effects) && taskName == old(taskName)
    {
      if FormEnabled() {
        effects := effects + [CreateRecord(table.id, CreatePayload(table, taskName))];
        taskName := "";
      }
    }
  }

  /**
   * A session under a user who may not create: typing and submitting leave
   * the buffer empty and issue nothing, while a label click still sends an
   * update.
   */
  method ReadOnlySession(table: Table, doneField: Field, r: Record)
  {
    var perms := Permissions((id: Id, fields: set<Id>) => false, (id: Id) => false, (fields: set<Id>) => false);
    var c := new TaskListControls(table, doneField, perms);
    c.ChangeInput("Buy milk");
    c.Submit();
    c.ChangeCheckbox(r, true);
    c.ClickDelete(r);
    assert c.taskName == "" && c.effects == [];
    c.ClickLabel(r);
    assert |c.effects| == 1 && c.effects[0].UpdateRecord?;
  }

  /** A session under a user who may do everything: submit sends the typed name and clears the buffer. */
  method EditorSession(table: Table, doneField: Field)
  {
    var perms := Permissions((id: Id, fields: set<Id>) => true, (id: Id) => true, (fields: set<Id>) => true);
    var c := new TaskListControls(table, doneField, perms);
    c.ChangeInput("Buy milk");
    c.Submit();
    assert c.taskName == "";
    assert c.effects == [CreateRecord(table.id, map[table.primaryField.id := Text("Buy milk")])];
  }
}
