/**
 * The host's schema as the task list sees it: a base holds tables, a table
 * holds an ordered list of typed fields, a primary field and its views.
 * Lookups by id return an optional value and never fail.
 */
module Schema {
  import opened Wrappers

  type Id = string

  /** Only the checkbox type matters to the task list; every other type is lumped together. */
  datatype FieldType = Checkbox | OtherType(name: string)

  datatype Field = Field(id: Id, fieldType: FieldType)

  datatype View = View(id: Id)

  datatype Table = Table(id: Id, primaryField: Field, fields: seq<Field>, views: seq<View>)

  datatype Base = Base(tables: seq<Table>)

  /** The first element of `xs` whose key is `id`, if there is one. */
  function FindById<T>(xs: seq<T>, key: T -> Id, id: Id): (r: Option<T>)
    ensures r.Some? ==> r.value in xs && key(r.value) == id
    ensures r.None? <==> forall i :: 0 <= i < |xs| ==> key(xs[i]) != id
    ensures |xs| > 0 && key(xs[0]) == id ==> r == Some(xs[0])
  {
    if |xs| == 0 then None
    else if key(xs[0]) == id then Some(xs[0])
    else FindById(xs[1..], key, id)
  }

  /** The lookup returns the first element with the id. */
  lemma {:induction false} FindByIdIsFirst<T>(xs: seq<T>, key: T -> Id, id: Id, i: nat)
    requires i < |xs| && key(xs[i]) == id
    requires forall j :: 0 <= j < i ==> key(xs[j]) != id
    ensures FindById(xs, key, id) == Some(xs[i])
  {
    if i > 0 {
      FindByIdIsFirst(xs[1..], key, id, i - 1);
    }
  }

  /** `base.getTableByIdIfExists(id)`; an absent configuration value finds nothing. */
  function GetTableByIdIfExists(base: Base, id: Option<Id>): (r: Option<Table>)
    ensures r.Some? ==> r.value in base.tables && id == Some(r.value.id)
    ensures r.None? <==> id.None? || forall t :: t in base.tables ==> t.id != id.value
    ensures id.Some? && |base.tables| > 0 && base.tables[0].id == id.value ==> r == Some(base.tables[0])
  {
    if id.None? then None else FindById(base.tables, (t: Table) => t.id, id.value)
  }

  /** `table.getViewByIdIfExists(id)`. */
  function GetViewByIdIfExists(table: Table, id: Option<Id>): (r: Option<View>)
    ensures r.Some? ==> r.value in table.views && id == Some(r.value.id)
    ensures r.None? <==> id.None? || forall v :: v in table.views ==> v.id != id.value
    ensures id.Some? && |table.views| > 0 && table.views[0].id == id.value ==> r == Some(table.views[0])
  {
    if id.None? then None else FindById(table.views, (v: View) => v.id, id.value)
  }

  /** `table.getFieldByIdIfExists(id)`; the field's type is not checked. */
  function GetFieldByIdIfExists(table: Table, id: Option<Id>): (r: Option<Field>)
    ensures r.Some? ==> r.value in table.fields && id == Some(r.value.id)
    ensures r.None? <==> id.None? || forall f :: f in table.fields ==> f.id != id.value
  {
    if id.None? then None else FindById(table.fields, (f: Field) => f.id, id.value)
  }

  /** `fields.filter(field => field.type === FieldType.CHECKBOX)`, order kept. */
  function CheckboxFields(fields: seq<Field>): (r: seq<Field>)
    ensures forall f :: f in r <==> f in fields && f.fieldType == Checkbox
    ensures |r| <= |fields|
  {
    if |fields| == 0 then []
    else (if fields[0].fieldType == Checkbox then [fields[0]] else []) + CheckboxFields(fields[1..])
  }

  /** The filter keeps every checkbox field as often as it occurs, and nothing else. */
  lemma {:induction false} CheckboxFieldsCounts(fields: seq<Field>)
    ensures forall f :: multiset(CheckboxFields(fields))[f] == if f.fieldType == Checkbox then multiset(fields)[f] else 0
  {
    if |fields| > 0 {
      assert fields == [fields[0]] + fields[1..];
      CheckboxFieldsCounts(fields[1..]);
    }
  }

  /** Field ids are unique within a table, as the host guarantees. */
  ghost predicate DistinctFieldIds(table: Table)
  {
    forall i, j :: 0 <= i < j < |table.fields| ==> table.fields[i].id != table.fields[j].id
  }

  /** Under distinct ids, every field occurs at most once. */
  lemma {:induction false} DistinctIdsOccurOnce(fields: seq<Field>, f: Field)
    requires forall i, j :: 0 <= i < j < |fields| ==> fields[i].id != fields[j].id
    ensures multiset(fields)[f] <= 1
  {
    if |fields| > 0 {
      assert fields == [fields[0]] + fields[1..];
      DistinctIdsOccurOnce(fields[1..], f);
      if fields[0] == f {
        assert f !in fields[1..] by {
          forall k | 0 <= k < |fields[1..]| ensures fields[1..][k] != f {
            assert fields[k + 1].id != fields[0].id;
          }
        }
      }
    }
  }

  /** `f` is a checkbox field of `table` and no other field of it is a checkbox. */
  ghost predicate IsOnlyCheckbox(table: Table, f: Field)
  {
    && f in table.fields
    && f.fieldType == Checkbox
    && forall g :: g in table.fields && g.fieldType == Checkbox ==> g == f
  }

  /** Exactly one checkbox candidate means that candidate is the table's only checkbox field. */
  lemma SingleCheckbox(table: Table)
    requires |CheckboxFields(table.fields)| == 1
    ensures IsOnlyCheckbox(table, CheckboxFields(table.fields)[0])
  {
    var cs := CheckboxFields(table.fields);
    assert cs == [cs[0]];
    assert cs[0] in cs;
    forall g | g in table.fields && g.fieldType == Checkbox
      ensures g == cs[0]
    {
      assert g in cs;
    }
  }

  /**
   * With distinct field ids, the filter yields exactly one field precisely
   * when the table has one and only one checkbox field.
   */
  lemma OneCandidateIffOnlyCheckbox(table: Table)
    requires DistinctFieldIds(table)
    ensures |CheckboxFields(table.fields)| == 1 <==> exists f :: IsOnlyCheckbox(table, f)
  {
    var cs := CheckboxFields(table.fields);
    if |cs| == 1 {
      SingleCheckbox(table);
    }
    if f :| IsOnlyCheckbox(table, f) {
      DistinctIdsOccurOnce(table.fields, f);
      CheckboxFieldsCounts(table.fields);
      forall g ensures multiset(cs)[g] == multiset{f}[g] {
        if g != f && g.fieldType == Checkbox {
          assert g !in table.fields;
        }
      }
      assert multiset(cs) == multiset{f};
      assert |cs| == |multiset(cs)|;
    }
  }
}
