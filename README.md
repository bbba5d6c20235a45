# Airtable to-do block: selection, feed and mutations in Dafny

This project models the logic of a to-do list block that runs inside an Airtable base (`frontend/index.js`). The block keeps three ids in the installation's shared `globalConfig`: the table, the view and the checkbox "done" field. On every render it works through these steps:

- It resolves each id against the base's schema. When a lookup fails and there is exactly one candidate, it writes that candidate's id back with `setAsync`. The steps run in table, view, done-field order.
- It subscribes to the view's records only when a done field resolved. It loads only the primary field and the done field.
- It projects each record into a task with a key, a label and a done flag.
- It offers four controls: a label click that toggles the task, a done checkbox, a delete button and an add form. The checkbox, the delete button and the form are each disabled when the host's permission check denies the action.

Modules, one file each:

- `wrappers.dfy`: `Option`, which stands in for `null` and `undefined`.
- `schema.dfy`: bases, tables, fields, views, the `…ByIdIfExists` lookups and the checkbox filter.
- `resolver.dfy`: the configuration, the write-back intents, the resolver as written and the guarded resolver, and lemmas about repeated passes.
- `records.dfy`: records, cell values, JavaScript truthiness and the label. A cell holds a boolean, text, a number, or a structured value. Structured values cover select options, collaborators, attachments and linked records, which JavaScript reads as objects or arrays and so always as true.
- `feed.dfy`: the record query, field loading, the task projection and the add-form gate.
- `mutations.dfy`: the update and create payloads, permissions, effects, and the host applying an update.
- `controls.dfy`: a class holding the add form's `taskName` buffer and a log of every host call the controls issue. It also has two example client methods. `ReadOnlySession` shows a user who may not create, update or delete: typing, submitting, checking and deleting issue nothing, but a label click still sends an update. `EditorSession` shows that submit sends the typed name and clears the buffer.

Every step of a render reads the configuration and schema as they were when the render started. So a table write-back does not make the table resolve in the same pass. With an empty configuration and a base with one table, one view and one checkbox field, the first pass writes only the table id. The second pass writes the view and the done field, and the third pass writes nothing (`Resolver.ExampleFirstPass` … `ExampleThirdPass`). A description of the block that expects all three writes in one pass does not match the code. This model follows the code.

The done-field lookup does not check the field's type. A stale configuration that names a text field resolves to that text field, and its cell is then read for truthiness.

## Model

| member | source | states |
|---|---|---|
| `Schema.FindById` | frontend/index.js:29 | The result has the requested id and comes from the list. It is absent exactly when no element has that id. |
| `Schema.FindByIdIsFirst` | frontend/index.js:29 | When several elements have the id, the lookup returns the first of them. |
| `Schema.GetTableByIdIfExists` | frontend/index.js:29 | The table lookup never fails. An unset id or an id no table has gives `None`. A found table is in the base and has the configured id. |
| `Schema.GetViewByIdIfExists` | frontend/index.js:35 | Same as above for the views of one table. |
| `Schema.GetFieldByIdIfExists` | frontend/index.js:40 | Same as above for the fields of one table. The field's type is not checked. |
| `Schema.CheckboxFields` | frontend/index.js:44 | The filter keeps exactly the fields of type CHECKBOX and nothing else. |
| `Schema.CheckboxFieldsCounts` | frontend/index.js:44 | The filter keeps each checkbox field as many times as it occurs and drops every other field. This fixes the length that `length === 1` reads. |
| `Schema.OneCandidateIffOnlyCheckbox` | frontend/index.js:44-45 | When field ids are distinct, the filter yields exactly one field if and only if the table has one and only one checkbox field. |
| `Resolver.ResolveDoneField` | frontend/index.js:39-46 | The found field is the lookup of the configured id on the table. A write-back is issued exactly when that lookup fails and the filter yields one checkbox field. The write is then that field's id, and it is the table's only checkbox field. |
| `Resolver.ResolveAsWritten` | frontend/index.js:28-46 | As written, the render throws exactly when the configured table does not resolve. |
| `Resolver.Resolve` | frontend/index.js:28-46 | The selection stays inside the resolved table. The view and field are looked up only on the resolved table, from the entry configuration. There is a table write exactly when the table id fails and the base has one table, and it writes `tables[0].id`. The view gets the same rule on the resolved table. There is a done-field write exactly when the field fails and the table has exactly one checkbox field, and it writes that field. Writes come in table, view, field order, at most one per key. No write is issued when all three resolve. |
| `Resolver.ApplyWrites` | frontend/index.js:28-46 | After the write-backs complete, each key holds its written value, or its old value if nothing was written to it. |
| `Resolver.OnlyCheckboxIsWritten` | frontend/index.js:39-46 | The converse of the done-field rule. On a resolved table with distinct field ids, if the done field does not resolve and `f` is the only checkbox field, the pass writes `f`'s id. |
| `Resolver.AsWrittenAgreesWithResolve` | frontend/index.js:28-46 | When the table resolves, the code as written equals the guarded resolver. Otherwise it throws after issuing the same writes. |
| `Resolver.AsWrittenCrashesOnFreshInstall` | frontend/index.js:40-44 | With an empty configuration on a base with two tables, the render throws and issues no writes. |
| `Resolver.ResolvedTableSettles` | frontend/index.js:34-46 | Once the table resolves, applying that pass's write-backs leaves nothing to write on the next pass. The table and any resolved view and field are kept. A written view or field then resolves. |
| `Resolver.TableWriteResolvesNextPass` | frontend/index.js:28-30 | A table write-back makes the single table resolve on the next pass. |
| `Resolver.SettlesWithinThreePasses` | frontend/index.js:28-46 | From any configuration, the third pass issues no write-backs. |
| `Resolver.ExampleFirstPass` | frontend/index.js:28-46 | In the one-table example, the first pass writes only the table id. The code as written then throws. |
| `Resolver.ExampleSecondPass` | frontend/index.js:34-46 | In the example, the second pass writes the view, then the done field. |
| `Resolver.ExampleThirdPass` | frontend/index.js:28-46 | In the example, the third pass resolves all three with no writes. |
| `Records.Label` | frontend/index.js:105 | The label is the record's name, or "Unnamed record" when the name is empty. It is never empty. |
| `Feed.QueryFor` | frontend/index.js:56-58 | The source is the resolved view when a done field resolved, and none otherwise. The fields are exactly `[primaryField, doneField]` when a done field resolved, and none otherwise. |
| `Feed.UseRecords` | frontend/index.js:56-58 | The feed is `null` exactly when there is no source. Otherwise it has one record per view record, in order, keeping each id and name. Each record's cells are the view record's cells restricted to the requested fields, with the same values. |
| `Feed.LoadAll` | frontend/index.js:57 | Loading keeps order and ids and restricts each record's cells to the requested fields. |
| `Feed.TaskOf` | frontend/index.js:104-124 | A task is keyed by the record id. Its label is the record's name, or "Unnamed record" when the name is empty. It is done exactly when the done cell is truthy. The strike-through and the checkbox read the same value. |
| `Feed.ProjectRecords` | frontend/index.js:61-65 | There is one task per record, in the same order, with its key, label and done flag. |
| `Feed.Tasks` | frontend/index.js:61-65 | Tasks are `null` exactly when the records are `null`. Otherwise task i has record i's id as its key, record i's label, and record i's done flag. |
| `Feed.FeedGating` | frontend/index.js:56-99 | The feed exists exactly when a done field and a view resolved. It then asks for the primary and done fields. The add form shows exactly when a done field resolved. |
| `Feed.LoadingKeepsTasks` | frontend/index.js:56-65 | Loading only the primary and done fields gives the same tasks as the full records. |
| `Feed.TaskKeysDistinct` | frontend/index.js:63 | Distinct record ids give distinct task keys. |
| `Feed.TaskListMatchesView` | frontend/index.js:56-65 | End to end: with a done field and a view resolved, the tasks are exactly the view's records projected in order. Otherwise there are no tasks. |
| `Mutations.TogglePayload` | frontend/index.js:140-142 | The toggle payload touches only the done field and holds the negation of its current truthiness. |
| `Mutations.CheckboxPayload` | frontend/index.js:145-149 | The checkbox payload touches only the done field and holds the checked state. |
| `Mutations.CreatePayload` | frontend/index.js:189-191 | The create payload holds only the primary field, set to the typed name. |
| `Mutations.ApplyUpdate` | frontend/index.js:141 | The host stores the payload's cells and keeps every other cell, the id and the name. |
| `Mutations.ToggleFlips` | frontend/index.js:140-142 | One toggle flips the done flag and changes no other cell. |
| `Mutations.ToggleTwiceRestores` | frontend/index.js:140-142 | Two toggles restore the done flag and every other cell. If the cell already held a boolean, the record is restored exactly. |
| `Mutations.CheckboxSetsDone` | frontend/index.js:144-149 | The checkbox sets the done flag to the checked state and changes no other cell. |
| `Mutations.CreatedRecordIsOpenTask` | frontend/index.js:187-193 | A record created from the form's payload projects to a task labelled with the typed name (or the placeholder) and not done. |
| `Controls.TaskListControls.constructor` | frontend/index.js:179-181 | The form starts with an empty buffer and no host calls issued. |
| `Controls.TaskListControls.ClickLabel` | frontend/index.js:119-122 | A label click always issues one toggle update for the record. It has no permission gate. |
| `Controls.TaskListControls.ChangeCheckbox` | frontend/index.js:144-163 | The checkbox issues a done-field update exactly when the update permission for that field holds. Otherwise nothing is issued. |
| `Controls.TaskListControls.ClickDelete` | frontend/index.js:167-176 | The delete button issues a delete exactly when the delete permission holds. |
| `Controls.TaskListControls.ChangeInput` | frontend/index.js:183-185 | While the form is enabled, the buffer takes the typed value. While it is disabled, the buffer is unchanged. |
| `Controls.TaskListControls.Submit` | frontend/index.js:187-204 | When creation is allowed, submit issues one create holding only the primary field with the buffer, then clears the buffer. When it is not allowed, nothing happens. It keeps `Valid`: every logged call targets this table, every update writes only the done field, every create writes only the primary field and was allowed, and every delete was allowed. Updates carry no permission condition, because the label click is ungated. |

## Left out

- Rendering, layout and styles (the JSX), and `initializeBlock`: this is UI with no decisions in it.
- The synced table, view and field pickers, and `expandRecord` (the expand button): their behaviour belongs to the host's UI library, which is not part of this model.
- The completion and failure of `setAsync`, `updateRecordAsync`, `deleteRecordAsync` and `createRecordAsync`: each is an emitted intent or effect. `Resolver.ApplyWrites` and `Mutations.ApplyUpdate` model only a successful completion, which is enough to state the properties above.
- Live subscriptions and re-rendering, and real-time sync between collaborators: a render is modelled as one call on a snapshot of configuration, schema and view records.
- The host's actual permission rules: they are opaque functions fixed for the life of a `TaskListControls` object. The model does not capture permissions changing between a check and a call.
- The `console.log` calls: they are output only.
- How the host derives a record's name from its primary cell: `Record.name` is given. `Mutations.ApplyUpdate` leaves the name alone even if the done field were the primary field.
- Determinism of re-resolution needs no lemma: `Resolver.Resolve` is a function, so the same configuration and schema always give the same selection and writes.

## Findings

| source | as written | input that shows it | evidently intended | confidence | as-written member | corrected member |
|---|---|---|---|---|---|---|
| frontend/index.js:40-44 | When the done field is missing, the code reads `table.fields` even when `table` is null. The render then throws, after any table write-back has been sent. | Empty configuration on a base with two tables: the render throws with no writes (`Resolver.AsWrittenCrashesOnFreshInstall`). On a base with one table, it throws after the table write (`Resolver.ExampleFirstPass`). | Run the done-field step only when a table resolved. The guard `table &&` appears in the commented-out line 43. | high, not executed | `Resolver.ResolveAsWritten` | `Resolver.Resolve` |
