/**
 * Records as the task list reads them: an id, the host-derived name (the
 * primary value as text) and cell values keyed by field id. A missing cell
 * reads as `null`.
 */
module Records {
  import opened Wrappers
  import opened Schema

  /**
   * A cell value: a checkbox's boolean, text, a number, or any structured
   * value (select option, collaborator, attachments, linked records, ...),
   * which JavaScript always reads as an object or array.
   */
  datatype CellValue = Checked(b: bool) | Text(s: string) | Number(n: real) | Structured(kind: string)

  datatype Record = Record(id: Id, name: string, cells: map<Id, CellValue>)

  /** `record.getCellValue(fieldId)`: `None` plays `null`. */
  function GetCellValue(r: Record, fieldId: Id): Option<CellValue>
  {
    if fieldId in r.cells then Some(r.cells[fieldId]) else None
  }

  /** JavaScript truthiness of a cell value (`!!value`). */
  predicate Truthy(v: Option<CellValue>)
  {
    match v
    case None => false
    case Some(Checked(b)) => b
    case Some(Text(s)) => s != ""
    case Some(Number(n)) => n != 0.0
    case Some(Structured(_)) => true
  }

  /** The record's done flag: the done-field cell, read as a boolean. */
  predicate IsDone(r: Record, doneField: Field)
  {
    Truthy(GetCellValue(r, doneField.id))
  }

  const Placeholder := "Unnamed record"

  /** `record.name || "Unnamed record"`. */
  function Label(r: Record): (text: string)
    ensures text != ""
    ensures text == r.name || (r.name == "" && text == Placeholder)
  {
    if r.name != "" then r.name else Placeholder
  }
}
