/** Custom field values of a task: what a write stores and what a read then shows. */
module CustomFields {
  import opened Wrappers

  type Id = nat
  type Value = string

  /** A definition bound to the board, with the outcome of its type and regex check on a
      non-null value. */
  datatype Definition = Definition(id: Id, required: bool, default: Option<Value>, accepts: Value -> bool)
  type Definitions = map<string, Definition>

  /** The stored rows of one task by definition id, and a payload by field key. */
  type Rows = map<Id, Option<Value>>
  type Patch = map<string, Option<Value>>

  datatype FieldError = UnknownKeys(keys: set<string>) | InvalidValue | MissingRequired(keys: set<string>)

  ghost predicate DistinctIds(defs: Definitions) {
    forall k, l :: k in defs && l in defs && defs[k].id == defs[l].id ==> k == l
  }

  predicate Accepts(def: Definition, v: Option<Value>) {
    v.None? || def.accepts(v.value)
  }

  /** What a reader of the task sees for every bound field. */
  function Reading(defs: Definitions, rows: Rows): Patch {
    map k | k in defs :: if defs[k].id in rows then rows[defs[k].id] else defs[k].default
  }

  /** The reading that an accepted payload leads to when nothing is nulled. */
  function Effective(defs: Definitions, rows: Rows, patch: Patch): Patch {
    map k | k in defs :: if k in patch then patch[k] else Reading(defs, rows)[k]
  }

  function Missing(defs: Definitions, effective: Patch): set<string> {
    set k | k in defs && defs[k].required && (k !in effective || effective[k].None?)
  }

  /** The three refusals, in the order in which they are raised. */
  function Refusal(defs: Definitions, rows: Rows, patch: Patch): Option<FieldError> {
    if !(patch.Keys <= defs.Keys) then Some(UnknownKeys(patch.Keys - defs.Keys))
    else if exists k :: k in patch && !Accepts(defs[k], patch[k]) then Some(InvalidValue)
    else
      var missing := Missing(defs, Effective(defs, rows, patch));
      if missing != {} then Some(MissingRequired(missing)) else None
  }

  ghost function KeyOf(defs: Definitions, id: Id): (k: string)
    requires exists k :: k in defs && defs[k].id == id
    ensures k in defs && defs[k].id == id
  {
    var k :| k in defs && defs[k].id == id; k
  }

  ghost function IdsWhere(defs: Definitions, patch: Patch, present: bool): set<Id> {
    set k | k in patch && k in defs && patch[k].Some? == present :: defs[k].id
  }

  /** The rows after an accepted update: nulled fields lose their row, the others get theirs. */
  ghost function UpdatedRows(defs: Definitions, rows: Rows, patch: Patch): Rows
    requires DistinctIds(defs)
  {
    (rows - IdsWhere(defs, patch, false))
    + (map id | id in IdsWhere(defs, patch, true) :: patch[KeyOf(defs, id)])
  }

  ghost function ForUpdate(defs: Definitions, rows: Rows, patch: Patch): Result<Rows, FieldError>
    requires DistinctIds(defs)
  {
    var refusal := Refusal(defs, rows, patch);
    if refusal.Some? then Err(refusal.value) else Ok(UpdatedRows(defs, rows, patch))
  }

  /** A new task stores every non-null effective value, defaults included. */
  ghost function ForCreate(defs: Definitions, patch: Patch): Result<Rows, FieldError>
    requires DistinctIds(defs)
  {
    var refusal := Refusal(defs, map[], patch);
    if refusal.Some? then Err(refusal.value)
    else Ok(UpdatedRows(defs, map[], NonNull(Effective(defs, map[], patch))))
  }

  function NonNull(patch: Patch): Patch {
    map k | k in patch && patch[k].Some? :: patch[k]
  }

  lemma RowAfterUpdate(defs: Definitions, rows: Rows, patch: Patch, k: string)
    requires DistinctIds(defs) && k in defs
    ensures var after := UpdatedRows(defs, rows, patch); var id := defs[k].id;
            if k !in patch then (id in after <==> id in rows) && (id in rows ==> after[id] == rows[id])
            else if patch[k].Some? then id in after && after[id] == patch[k]
            else id !in after
  {
    var id := defs[k].id;
    assert KeyOf(defs, id) == k;
    if k in patch && patch[k].Some? {
      assert id in IdsWhere(defs, patch, true);
    } else if k in patch {
      assert id in IdsWhere(defs, patch, false);
    }
    if id in IdsWhere(defs, patch, true) {
      var l :| l in patch && l in defs && patch[l].Some? && defs[l].id == id;
    }
    if id in IdsWhere(defs, patch, false) {
      var l :| l in patch && l in defs && patch[l].None? && defs[l].id == id;
    }
  }

  /** Rows of definitions that are not bound to the board, or not in the payload, stay. */
  lemma OtherRowsAfterUpdate(defs: Definitions, rows: Rows, patch: Patch, id: Id)
    requires DistinctIds(defs)
    requires forall k :: k in patch && k in defs ==> defs[k].id != id
    ensures var after := UpdatedRows(defs, rows, patch);
            (id in after <==> id in rows) && (id in rows ==> after[id] == rows[id])
  {
  }

  /** After an accepted update a reader sees the new value of a non-null field, the default of
      a nulled one and the old reading of the rest; every required field reads non-null. */
  lemma ReadAfterUpdate(defs: Definitions, rows: Rows, patch: Patch)
    requires DistinctIds(defs) && ForUpdate(defs, rows, patch).Ok?
    ensures var before := Reading(defs, rows);
            var after := Reading(defs, ForUpdate(defs, rows, patch).value);
            forall k :: k in defs ==>
              && after[k] == (if k !in patch then before[k]
                              else if patch[k].Some? then patch[k] else defs[k].default)
              && (defs[k].required ==> after[k].Some?)
  {
    var after := Reading(defs, ForUpdate(defs, rows, patch).value);
    forall k | k in defs
      ensures after[k] == if k !in patch then Reading(defs, rows)[k]
                          else if patch[k].Some? then patch[k] else defs[k].default
      ensures defs[k].required ==> after[k].Some?
    {
      RowAfterUpdate(defs, rows, patch, k);
      if defs[k].required {
        assert k !in Missing(defs, Effective(defs, rows, patch));
      }
    }
  }

  /** A fresh task reads the payload where it gives a value and the default everywhere else. */
  lemma ReadAfterCreate(defs: Definitions, patch: Patch)
    requires DistinctIds(defs) && ForCreate(defs, patch).Ok?
    ensures var after := Reading(defs, ForCreate(defs, patch).value);
            forall k :: k in defs ==>
              && after[k] == (if k in patch && patch[k].Some? then patch[k] else defs[k].default)
              && (defs[k].required ==> after[k].Some?)
  {
    var effective := Effective(defs, map[], patch);
    var after := Reading(defs, ForCreate(defs, patch).value);
    forall k | k in defs
      ensures after[k] == if k in patch && patch[k].Some? then patch[k] else defs[k].default
      ensures defs[k].required ==> after[k].Some?
    {
      RowAfterUpdate(defs, map[], NonNull(effective), k);
      if defs[k].required {
        assert k !in Missing(defs, effective);
      }
    }
  }

  /** Processing one more key of the payload adds exactly that key's effect. */
  lemma UpdateOneMoreKey(defs: Definitions, rows: Rows, patch: Patch, k: string)
    requires DistinctIds(defs) && k in patch && k in defs
    ensures var earlier := UpdatedRows(defs, rows, patch - {k});
            UpdatedRows(defs, rows, patch)
            == if patch[k].Some? then earlier[defs[k].id := patch[k]] else earlier - {defs[k].id}
  {
    var earlier := UpdatedRows(defs, rows, patch - {k});
    var expected := if patch[k].Some? then earlier[defs[k].id := patch[k]] else earlier - {defs[k].id};
    var actual := UpdatedRows(defs, rows, patch);
    forall id
      ensures id in actual <==> id in expected
      ensures id in actual ==> actual[id] == expected[id]
    {
      RowOneMoreKey(defs, rows, patch, k, id);
    }
  }

  lemma RowOneMoreKey(defs: Definitions, rows: Rows, patch: Patch, k: string, id: Id)
    requires DistinctIds(defs) && k in patch && k in defs
    ensures var earlier, actual := UpdatedRows(defs, rows, patch - {k}), UpdatedRows(defs, rows, patch);
            if id == defs[k].id then
              if patch[k].Some? then id in actual && actual[id] == patch[k] else id !in actual
            else
              (id in actual <==> id in earlier) && (id in actual ==> actual[id] == earlier[id])
  {
    if l :| l in defs && defs[l].id == id {
      RowAfterUpdate(defs, rows, patch, l);
      RowAfterUpdate(defs, rows, patch - {k}, l);
    } else {
      OtherRowsAfterUpdate(defs, rows, patch, id);
      OtherRowsAfterUpdate(defs, rows, patch - {k}, id);
    }
  }

  lemma UpdateNextKey(defs: Definitions, rows: Rows, patch: Patch, todo: set<string>, k: string)
    requires DistinctIds(defs) && patch.Keys <= defs.Keys && k in todo && todo <= patch.Keys
    ensures var earlier := UpdatedRows(defs, rows, patch - todo);
            UpdatedRows(defs, rows, patch - (todo - {k}))
            == if patch[k].Some? then earlier[defs[k].id := patch[k]] else earlier - {defs[k].id}
  {
    UpdateOneMoreKey(defs, rows, patch - (todo - {k}), k);
    assert (patch - (todo - {k})) - {k} == patch - todo;
  }

  /** The loop at the end of both write paths: store, overwrite or delete row by row. */
  method StoreRows(defs: Definitions, rows: Rows, patch: Patch) returns (stored: Rows)
    requires DistinctIds(defs) && patch.Keys <= defs.Keys
    ensures stored == UpdatedRows(defs, rows, patch)
  {
    stored := rows;
    var todo := patch.Keys;
    while todo != {}
      invariant todo <= patch.Keys
      invariant stored == UpdatedRows(defs, rows, patch - todo)
      decreases todo
    {
      var k :| k in todo;
      UpdateNextKey(defs, rows, patch, todo, k);
      if patch[k].None? {
        stored := stored - {defs[k].id};
      } else {
        stored := stored[defs[k].id := patch[k]];
      }
      todo := todo - {k};
    }
    assert patch - {} == patch;
  }

  method SetForUpdate(defs: Definitions, rows: Rows, patch: Patch) returns (r: Result<Rows, FieldError>)
    requires DistinctIds(defs)
    ensures r == ForUpdate(defs, rows, patch)
  {
    var refusal := Refusal(defs, rows, patch);
    if refusal.Some? {
      return Err(refusal.value);
    }
    var stored := StoreRows(defs, rows, patch);
    r := Ok(stored);
  }

  method SetForCreate(defs: Definitions, patch: Patch) returns (r: Result<Rows, FieldError>)
    requires DistinctIds(defs)
    ensures r == ForCreate(defs, patch)
  {
    var refusal := Refusal(defs, map[], patch);
    if refusal.Some? {
      return Err(refusal.value);
    }
    var stored := StoreRows(defs, map[], NonNull(Effective(defs, map[], patch)));
    r := Ok(stored);
  }

  /** The read path: start from the defaults and lay the stored rows over them. */
  method Read(defs: Definitions, rows: Rows) returns (values: Patch)
    requires DistinctIds(defs)
    ensures values == Reading(defs, rows)
  {
    values := map k | k in defs :: defs[k].default;
    var todo := rows.Keys;
    while todo != {}
      invariant todo <= rows.Keys
      invariant values == Reading(defs, rows - todo)
      decreases todo
    {
      var id :| id in todo;
      if k :| k in defs && defs[k].id == id {
        values := values[k := rows[id]];
      }
      todo := todo - {id};
    }
    assert rows - {} == rows;
  }
}
