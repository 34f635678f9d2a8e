/**
 * The owner-scoped tables of the data store, as far as the core changes them:
 * the `shopping_list` table with its upsert, insert, update and delete
 * operations, and the owner-scoped update and delete the REST routes perform.
 */
module Store {
  import opened Wrappers
  import opened Seqs
  import opened Entities

  /** A row of an owner-scoped table: primary key, owner and the other columns. */
  datatype Row<T> = Row(id: nat, owner: UserId, data: T)

  /** The columns of a `shopping_list` row besides `id` and `user_id`. */
  datatype Item = Item(text: string, completed: bool)

  type ItemRow = Row<Item>

  /** The `shopping_list` table: its rows and the primary key the store assigns next. */
  datatype Table = Table(rows: seq<ItemRow>, nextId: nat)

  /** The row has the conflict key `(user_id, item)` = `(owner, text)`. */
  predicate HasKey(r: ItemRow, owner: UserId, text: string) {
    r.owner == owner && r.data.text == text
  }

  /**
   * What the store guarantees of the table: primary keys are distinct and below
   * the next one, and at most one row has each `(user_id, item)`, the unique
   * constraint the upsert's conflict target relies on.
   */
  predicate WellFormed(t: Table) {
    && (forall i :: 0 <= i < |t.rows| ==> t.rows[i].id < t.nextId)
    && (forall i, j :: 0 <= i < j < |t.rows| ==> t.rows[i].id != t.rows[j].id)
    && (forall i, j :: 0 <= i < j < |t.rows| ==> !HasKey(t.rows[j], t.rows[i].owner, t.rows[i].data.text))
  }

  /** The position of a row with key `(owner, text)`, if there is one. */
  function KeyIndex(rows: seq<ItemRow>, owner: UserId, text: string): (r: Option<nat>)
    ensures r.None? <==> forall i :: 0 <= i < |rows| ==> !HasKey(rows[i], owner, text)
    ensures r.Some? ==> r.value < |rows| && HasKey(rows[r.value], owner, text)
  {
    if rows == [] then None
    else if HasKey(rows[|rows| - 1], owner, text) then Some(|rows| - 1)
    else KeyIndex(rows[..|rows| - 1], owner, text)
  }

  /** In a well-formed table the row holding a key is the one KeyIndex finds. */
  lemma KeyIndexUnique(t: Table, k: nat, owner: UserId, text: string)
    requires WellFormed(t) && k < |t.rows| && HasKey(t.rows[k], owner, text)
    ensures KeyIndex(t.rows, owner, text) == Some(k)
  {
  }

  /** Two row sequences agree on every row's id and key. */
  predicate SameKeys(a: seq<ItemRow>, b: seq<ItemRow>) {
    && |a| == |b|
    && forall j :: 0 <= j < |a| ==> a[j].id == b[j].id && a[j].owner == b[j].owner && a[j].data.text == b[j].data.text
  }

  /** Changing columns other than the id and the key keeps the table well formed. */
  lemma SameKeysWellFormed(t: Table, rows: seq<ItemRow>)
    requires WellFormed(t) && SameKeys(t.rows, rows)
    ensures WellFormed(Table(rows, t.nextId))
  {
    assert forall j :: 0 <= j < |rows| ==> rows[j].id == t.rows[j].id;
  }

  /** Changing columns other than the id and the key leaves every key at its position. */
  lemma SameKeysKeyIndex(t: Table, rows: seq<ItemRow>, o: UserId, x: string)
    requires WellFormed(t) && SameKeys(t.rows, rows)
    ensures KeyIndex(rows, o, x) == KeyIndex(t.rows, o, x)
  {
    SameKeysWellFormed(t, rows);
    assert forall j :: 0 <= j < |rows| ==> (HasKey(rows[j], o, x) <==> HasKey(t.rows[j], o, x));
    var i := KeyIndex(t.rows, o, x);
    if i.Some? {
      KeyIndexUnique(Table(rows, t.nextId), i.value, o, x);
    }
  }

  /** Appending a row under the next id and a new key keeps the table well formed. */
  lemma AppendWellFormed(t: Table, r: ItemRow, o: UserId, x: string)
    requires WellFormed(t) && r.id == t.nextId && KeyIndex(t.rows, r.owner, r.data.text).None?
    ensures WellFormed(Table(t.rows + [r], t.nextId + 1))
    ensures KeyIndex(t.rows + [r], o, x) == if HasKey(r, o, x) then Some(|t.rows|) else KeyIndex(t.rows, o, x)
  {
    var rows := t.rows + [r];
    assert rows[..|rows| - 1] == t.rows;
    assert forall i :: 0 <= i < |t.rows| ==> rows[i] == t.rows[i] && !HasKey(t.rows[i], r.owner, r.data.text);
  }

  /** The `completed` flag of the row with key `(owner, text)`, or `None` when there is no such row. */
  function Lookup(t: Table, owner: UserId, text: string): Option<bool> {
    var i := KeyIndex(t.rows, owner, text);
    if i.Some? then Some(t.rows[i.value].data.completed) else None
  }

  /** `upsert([{user_id: owner, item: text, completed: false}], {onConflict: "user_id,item"})`. */
  function Upserted(t: Table, owner: UserId, text: string): Table {
    var i := KeyIndex(t.rows, owner, text);
    if i.Some? then Table(t.rows[i.value := Row(t.rows[i.value].id, owner, Item(text, false))], t.nextId)
    else Table(t.rows + [Row(t.nextId, owner, Item(text, false))], t.nextId + 1)
  }

  /**
   * An upsert keeps the table well formed, leaves the key `(owner, text)` with
   * a pending row and every other key as it was.
   */
  lemma UpsertedLookup(t: Table, owner: UserId, text: string, o: UserId, x: string)
    requires WellFormed(t)
    ensures WellFormed(Upserted(t, owner, text))
    ensures Lookup(Upserted(t, owner, text), o, x) == if o == owner && x == text then Some(false) else Lookup(t, o, x)
  {
    if KeyIndex(t.rows, owner, text).Some? {
      UpsertedExistingLookup(t, owner, text, o, x);
    } else {
      AppendWellFormed(t, Row(t.nextId, owner, Item(text, false)), o, x);
    }
  }

  /** An upsert on a key that has a row rewrites that row in place. */
  lemma UpsertedExistingLookup(t: Table, owner: UserId, text: string, o: UserId, x: string)
    requires WellFormed(t) && KeyIndex(t.rows, owner, text).Some?
    ensures WellFormed(Upserted(t, owner, text))
    ensures Lookup(Upserted(t, owner, text), o, x) == if o == owner && x == text then Some(false) else Lookup(t, o, x)
  {
    var k := KeyIndex(t.rows, owner, text).value;
    var rows := t.rows[k := Row(t.rows[k].id, owner, Item(text, false))];
    assert SameKeys(t.rows, rows);
    SameKeysWellFormed(t, rows);
    SameKeysKeyIndex(t, rows, o, x);
    var j := KeyIndex(t.rows, o, x);
    if j.Some? && j.value == k {
      assert o == owner && x == text;
    }
    if o == owner && x == text {
      assert j == Some(k);
    }
  }

  /** Upserting a key that already has a pending row changes nothing. */
  lemma UpsertedPending(t: Table, owner: UserId, text: string)
    requires WellFormed(t) && Lookup(t, owner, text) == Some(false)
    ensures Upserted(t, owner, text) == t
  {
    var k := KeyIndex(t.rows, owner, text).value;
    assert t.rows[k] == Row(t.rows[k].id, owner, Item(text, false));
    assert t.rows[k := t.rows[k]] == t.rows;
  }

  /** The rows upserted one after the other, in order (the meal planner's loop). */
  function UpsertedAll(t: Table, owner: UserId, texts: seq<string>): Table {
    if texts == [] then t
    else Upserted(UpsertedAll(t, owner, texts[..|texts| - 1]), owner, texts[|texts| - 1])
  }

  /**
   * After upserting `texts` for `owner` the table is well formed, every one of
   * those keys has a pending row and every other key is as it was.
   */
  lemma {:induction false} UpsertedAllLookup(t: Table, owner: UserId, texts: seq<string>, o: UserId, x: string)
    requires WellFormed(t)
    ensures WellFormed(UpsertedAll(t, owner, texts))
    ensures Lookup(UpsertedAll(t, owner, texts), o, x)
         == if o == owner && x in texts then Some(false) else Lookup(t, o, x)
  {
    if texts != [] {
      var front := texts[..|texts| - 1];
      UpsertedAllLookup(t, owner, front, o, x);
      UpsertedLookup(UpsertedAll(t, owner, front), owner, texts[|texts| - 1], o, x);
      assert texts == front + [texts[|texts| - 1]];
    }
  }

  /** An upsert keeps every row whose key it does not target, with the same id and columns. */
  lemma UpsertedKeepsRows(t: Table, owner: UserId, text: string, r: ItemRow)
    requires r in t.rows && !HasKey(r, owner, text)
    ensures r in Upserted(t, owner, text).rows
  {
    var i := KeyIndex(t.rows, owner, text);
    if i.Some? {
      var j :| 0 <= j < |t.rows| && t.rows[j] == r;
      assert Upserted(t, owner, text).rows[j] == r;
    } else {
      assert Upserted(t, owner, text).rows == t.rows + [Row(t.nextId, owner, Item(text, false))];
    }
  }

  /** Upserting `texts` for `owner` keeps every row of another owner or of an item not among `texts`. */
  lemma {:induction false} UpsertedAllKeepsRows(t: Table, owner: UserId, texts: seq<string>, r: ItemRow)
    requires r in t.rows && !(r.owner == owner && r.data.text in texts)
    ensures r in UpsertedAll(t, owner, texts).rows
  {
    if texts != [] {
      var front := texts[..|texts| - 1];
      assert texts == front + [texts[|texts| - 1]];
      UpsertedAllKeepsRows(t, owner, front, r);
      UpsertedKeepsRows(UpsertedAll(t, owner, front), owner, texts[|texts| - 1], r);
    }
  }

  /** Upserting keys that all have pending rows changes nothing. */
  lemma {:induction false} UpsertedAllPending(t: Table, owner: UserId, texts: seq<string>)
    requires WellFormed(t)
    requires forall x :: x in texts ==> Lookup(t, owner, x) == Some(false)
    ensures UpsertedAll(t, owner, texts) == t
  {
    if texts != [] {
      UpsertedAllPending(t, owner, texts[..|texts| - 1]);
      UpsertedPending(t, owner, texts[|texts| - 1]);
    }
  }

  /** Running the same upserts a second time leaves the table exactly as the first run left it. */
  lemma UpsertedAllIdempotent(t: Table, owner: UserId, texts: seq<string>)
    requires WellFormed(t)
    ensures UpsertedAll(UpsertedAll(t, owner, texts), owner, texts) == UpsertedAll(t, owner, texts)
  {
    var once := UpsertedAll(t, owner, texts);
    UpsertedAllLookup(t, owner, texts, owner, "");
    forall x | x in texts ensures Lookup(once, owner, x) == Some(false) {
      UpsertedAllLookup(t, owner, texts, owner, x);
    }
    UpsertedAllPending(once, owner, texts);
  }

  /** Why the store refuses an insert. */
  datatype StoreError = UniqueViolation

  /** `insert([{user_id: owner, ...item}])`: refused when the key already has a row. */
  function Inserted(t: Table, owner: UserId, item: Item): (r: Result<Table, StoreError>)
    ensures r.Err? <==> Lookup(t, owner, item.text).Some?
  {
    if KeyIndex(t.rows, owner, item.text).Some? then Err(UniqueViolation)
    else Ok(Table(t.rows + [Row(t.nextId, owner, item)], t.nextId + 1))
  }

  /** A successful insert adds exactly one row, under a fresh id, keeps the table well formed and every other key as it was. */
  lemma InsertedLookup(t: Table, owner: UserId, item: Item, o: UserId, x: string)
    requires WellFormed(t) && Inserted(t, owner, item).Ok?
    ensures var u := Inserted(t, owner, item).value;
            && WellFormed(u)
            && u.rows == t.rows + [Row(t.nextId, owner, item)]
            && (forall r :: r in t.rows ==> r.id != t.nextId)
            && Lookup(u, o, x) == if o == owner && x == item.text then Some(item.completed) else Lookup(t, o, x)
  {
    AppendWellFormed(t, Row(t.nextId, owner, item), o, x);
  }

  /** The rows for which `keep` holds, in order (a `delete()` with filters removes the others). */
  function Retain(rows: seq<ItemRow>, keep: ItemRow -> bool): (r: seq<ItemRow>)
    ensures forall x :: x in r <==> x in rows && keep(x)
    ensures IsSubseq(r, rows)
  {
    if rows == [] then []
    else if keep(rows[0]) then [rows[0]] + Retain(rows[1..], keep)
    else Retain(rows[1..], keep)
  }

  /** Removing rows keeps the table well formed. */
  lemma {:induction false} RetainWellFormed(t: Table, keep: ItemRow -> bool)
    requires WellFormed(t)
    ensures WellFormed(Table(Retain(t.rows, keep), t.nextId))
    decreases |t.rows|
  {
    if t.rows != [] {
      var tail := Table(t.rows[1..], t.nextId);
      RetainWellFormed(tail, keep);
      var r := Retain(t.rows, keep);
      var rest := Retain(t.rows[1..], keep);
      if keep(t.rows[0]) {
        forall j | 0 <= j < |rest|
          ensures rest[j].id != t.rows[0].id && !HasKey(rest[j], t.rows[0].owner, t.rows[0].data.text)
        {
          assert rest[j] in t.rows[1..];
        }
        assert r == [t.rows[0]] + rest;
      }
    }
  }

  /** `delete().eq("id", id)`: every row with that id is removed. */
  function WithoutId(t: Table, id: nat): (u: Table)
    ensures forall x :: x in u.rows <==> x in t.rows && x.id != id
    ensures IsSubseq(u.rows, t.rows) && u.nextId == t.nextId
  {
    Table(Retain(t.rows, (r: ItemRow) => r.id != id), t.nextId)
  }

  /**
   * `delete().eq("user_id", owner).eq("completed", true)`: this owner's
   * completed rows are removed; their pending rows and other owners' rows stay, in order.
   */
  function WithoutCompleted(t: Table, owner: UserId): (u: Table)
    ensures forall x :: x in u.rows <==> x in t.rows && !(x.owner == owner && x.data.completed)
    ensures IsSubseq(u.rows, t.rows) && u.nextId == t.nextId
  {
    Table(Retain(t.rows, (r: ItemRow) => !(r.owner == owner && r.data.completed)), t.nextId)
  }

  /** Both deletes keep the table well formed. */
  lemma DeletesWellFormed(t: Table, id: nat, owner: UserId)
    requires WellFormed(t)
    ensures WellFormed(WithoutId(t, id)) && WellFormed(WithoutCompleted(t, owner))
  {
    RetainWellFormed(t, (r: ItemRow) => r.id != id);
    RetainWellFormed(t, (r: ItemRow) => !(r.owner == owner && r.data.completed));
  }

  /** `update({completed: value}).eq("id", id)`: the flag of every row with that id is set. */
  function WithCompleted(rows: seq<ItemRow>, id: nat, value: bool): (r: seq<ItemRow>)
    ensures |r| == |rows|
    ensures forall k :: 0 <= k < |rows| ==>
              r[k] == if rows[k].id == id then rows[k].(data := rows[k].data.(completed := value)) else rows[k]
  {
    if rows == [] then []
    else
      [if rows[0].id == id then rows[0].(data := rows[0].data.(completed := value)) else rows[0]]
      + WithCompleted(rows[1..], id, value)
  }

  /**
   * Setting the flag of the row with `id` to the negation of the value shown
   * flips that row when the view was current, and changes no other row;
   * the table stays well formed.
   */
  lemma ToggleFlips(t: Table, id: nat, shown: bool, k: nat)
    requires WellFormed(t) && k < |t.rows| && t.rows[k].id == id && t.rows[k].data.completed == shown
    ensures WellFormed(Table(WithCompleted(t.rows, id, !shown), t.nextId))
    ensures WithCompleted(t.rows, id, !shown)[k] == t.rows[k].(data := Item(t.rows[k].data.text, !shown))
    ensures forall j :: 0 <= j < |t.rows| && j != k ==> WithCompleted(t.rows, id, !shown)[j] == t.rows[j]
  {
    WithCompletedWellFormed(t, id, !shown);
    assert forall j :: 0 <= j < |t.rows| && j != k ==> t.rows[j].id != id;
  }

  /** Setting flags keeps the table well formed: ids and keys do not change. */
  lemma WithCompletedWellFormed(t: Table, id: nat, value: bool)
    requires WellFormed(t)
    ensures WellFormed(Table(WithCompleted(t.rows, id, value), t.nextId))
  {
    assert SameKeys(t.rows, WithCompleted(t.rows, id, value));
    SameKeysWellFormed(t, WithCompleted(t.rows, id, value));
  }

  /** Some row has primary key `id` and belongs to `owner`. */
  predicate OwnsRow<T>(rows: seq<Row<T>>, id: nat, owner: UserId) {
    exists k :: 0 <= k < |rows| && rows[k].id == id && rows[k].owner == owner
  }

  /** The rows with `patch` applied to those matching `.eq("id", id).eq("user_id", owner)`. */
  function PatchRows<T>(rows: seq<Row<T>>, id: nat, owner: UserId, patch: T -> T): (r: seq<Row<T>>)
    ensures |r| == |rows|
    ensures forall k :: 0 <= k < |rows| ==>
              r[k] == if rows[k].id == id && rows[k].owner == owner then rows[k].(data := patch(rows[k].data)) else rows[k]
  {
    if rows == [] then []
    else
      [if rows[0].id == id && rows[0].owner == owner then rows[0].(data := patch(rows[0].data)) else rows[0]]
      + PatchRows(rows[1..], id, owner, patch)
  }

  /**
   * The `data` that `.update(body).eq("id", id).eq("user_id", owner).select()`
   * returns: the rows of `owner` with that id, as the patch leaves them, in order.
   */
  function UpdatedRows<T(==, !new)>(rows: seq<Row<T>>, id: nat, owner: UserId, patch: T -> T): (data: seq<Row<T>>)
    ensures forall x :: x in data <==>
              exists k :: 0 <= k < |rows| && rows[k].id == id && rows[k].owner == owner
                          && x == rows[k].(data := patch(rows[k].data))
    ensures data == [] <==> !OwnsRow(rows, id, owner)
  {
    if rows == [] then []
    else
      var rest := UpdatedRows(rows[1..], id, owner, patch);
      assert forall k :: 0 <= k < |rows| - 1 ==> rows[1..][k] == rows[k + 1];
      assert OwnsRow(rows[1..], id, owner) ==> OwnsRow(rows, id, owner);
      if rows[0].id == id && rows[0].owner == owner then [rows[0].(data := patch(rows[0].data))] + rest
      else rest
  }

  /** What an update route answers: the 404, or the first returned row. */
  datatype UpdateAnswer<T> = NoSuchRow | Returned(row: Row<T>)

  /**
   * The `PUT /api/recipes/:id` and `PUT /api/shopping-list/:id` routes: an
   * update scoped by id and owner. The answer is the 404 exactly when the
   * returned `data` is empty, which happens exactly when no row of that owner
   * has that id, and then nothing changes; otherwise it is a row of the new
   * table with that id and owner.
   */
  function ScopedUpdate<T(==, !new)>(rows: seq<Row<T>>, id: nat, owner: UserId, patch: T -> T)
    : (r: (UpdateAnswer<T>, seq<Row<T>>))
    ensures r.0.NoSuchRow? <==> !OwnsRow(rows, id, owner)
    ensures r.0.NoSuchRow? ==> r.1 == rows
    ensures r.0.Returned? ==> r.0.row.id == id && r.0.row.owner == owner && r.0.row in r.1
    ensures r.1 == PatchRows(rows, id, owner, patch)
  {
    var data := UpdatedRows(rows, id, owner, patch);
    var patched := PatchRows(rows, id, owner, patch);
    if data == [] then
      assert patched == rows;
      (NoSuchRow, patched)
    else
      assert data[0] in data;
      var k :| 0 <= k < |rows| && rows[k].id == id && rows[k].owner == owner
               && data[0] == rows[k].(data := patch(rows[k].data));
      assert patched[k] == data[0];
      (Returned(data[0]), patched)
  }

  /** A scoped update never changes a row of another owner or with another id. */
  lemma ScopedUpdateIsolation<T(!new)>(rows: seq<Row<T>>, id: nat, owner: UserId, patch: T -> T, k: nat)
    requires k < |rows| && (rows[k].owner != owner || rows[k].id != id)
    ensures ScopedUpdate(rows, id, owner, patch).1[k] == rows[k]
  {
  }

  /**
   * The `DELETE /api/recipes/:id` and `DELETE /api/shopping-list/:id` routes:
   * the rows of `owner` with that id are removed, every other row stays in
   * order. The route answers with success whether or not a row matched.
   */
  function ScopedDelete<T(==, !new)>(rows: seq<Row<T>>, id: nat, owner: UserId): (r: seq<Row<T>>)
    ensures forall x :: x in r <==> x in rows && (x.id != id || x.owner != owner)
    ensures !OwnsRow(rows, id, owner) ==> r == rows
    ensures IsSubseq(r, rows)
  {
    if rows == [] then []
    else if rows[0].id == id && rows[0].owner == owner then ScopedDelete(rows[1..], id, owner)
    else [rows[0]] + ScopedDelete(rows[1..], id, owner)
  }

  /** The columns a `PUT /api/shopping-list/:id` body may set. */
  datatype ItemPatch = ItemPatch(text: Option<string>, completed: Option<bool>)

  /** The columns of an item after the body's fields are written over them. */
  function ApplyPatch(it: Item, p: ItemPatch): Item {
    Item(if p.text.Some? then p.text.value else it.text,
         if p.completed.Some? then p.completed.value else it.completed)
  }

  /** The patch as the function the update applies to each matching item. */
  function Patcher(p: ItemPatch): Item -> Item {
    (it: Item) => ApplyPatch(it, p)
  }

  /** What the shopping-list update route answers. */
  datatype UpdateOutcome = Updated | NotFound | Rejected

  /**
   * The shopping-list update route on the table: 404 when no row of `owner`
   * has `id`; refused by the unique constraint when the new text collides with
   * another row of the owner; otherwise the row is patched.
   */
  function UpdatedItem(t: Table, id: nat, owner: UserId, p: ItemPatch): (r: (UpdateOutcome, Table))
    ensures r.0 == NotFound <==> !OwnsRow(t.rows, id, owner)
    ensures r.0 == Rejected <==>
              OwnsRow(t.rows, id, owner) && !WellFormed(Table(PatchRows(t.rows, id, owner, Patcher(p)), t.nextId))
    ensures r.0 == Updated ==> r.1 == Table(PatchRows(t.rows, id, owner, Patcher(p)), t.nextId)
    ensures r.0 != Updated ==> r.1 == t
    ensures r.0 == Updated ==> WellFormed(r.1) && |r.1.rows| == |t.rows|
    ensures r.0 == Updated ==>
              (forall k :: 0 <= k < |t.rows| && (t.rows[k].owner != owner || t.rows[k].id != id)
                 ==> r.1.rows[k] == t.rows[k])
  {
    var (answer, patched) := ScopedUpdate(t.rows, id, owner, Patcher(p));
    if answer.NoSuchRow? then (NotFound, t)
    else if WellFormed(Table(patched, t.nextId)) then (Updated, Table(patched, t.nextId))
    else (Rejected, t)
  }

  /**
   * The `shopping_list` table as a mutable store: each method is one request
   * the application sends, and the table changes exactly as the function
   * on `Table` for that request says.
   */
  class ShoppingStore {
    var rows: seq<ItemRow>
    var nextId: nat

    /** The table as a value. */
    function Snapshot(): Table
      reads this
    {
      Table(rows, nextId)
    }

    ghost predicate Valid()
      reads this
    {
      WellFormed(Snapshot())
    }

    constructor (initial: Table)
      requires WellFormed(initial)
      ensures Valid() && Snapshot() == initial
    {
      rows, nextId := initial.rows, initial.nextId;
    }

    /** An upsert of one row `(owner, text, completed = false)` with conflict key `(user_id, item)`. */
    method Upsert(owner: UserId, text: string)
      requires Valid()
      modifies this
      ensures Valid()
      ensures Snapshot() == Upserted(old(Snapshot()), owner, text)
    {
      UpsertedLookup(Snapshot(), owner, text, owner, text);
      var i := KeyIndex(rows, owner, text);
      if i.Some? {
        rows := rows[i.value := Row(rows[i.value].id, owner, Item(text, false))];
      } else {
        rows := rows + [Row(nextId, owner, Item(text, false))];
        nextId := nextId + 1;
      }
    }

    /** An upsert of a batch of rows for `owner`, all with `completed = false`. */
    method UpsertBatch(owner: UserId, texts: seq<string>)
      requires Valid()
      modifies this
      ensures Valid()
      ensures Snapshot() == UpsertedAll(old(Snapshot()), owner, texts)
    {
      var t := UpsertedAll(Snapshot(), owner, texts);
      UpsertedAllLookup(Snapshot(), owner, texts, owner, "");
      rows, nextId := t.rows, t.nextId;
    }

    /** An insert of one row; `false` when the unique constraint refuses it, and then nothing changes. */
    method Insert(owner: UserId, item: Item) returns (ok: bool)
      requires Valid()
      modifies this
      ensures Valid()
      ensures ok <==> Inserted(old(Snapshot()), owner, item).Ok?
      ensures Snapshot() == if ok then Inserted(old(Snapshot()), owner, item).value else old(Snapshot())
    {
      var r := Inserted(Snapshot(), owner, item);
      ok := r.Ok?;
      if ok {
        InsertedLookup(Snapshot(), owner, item, owner, item.text);
        rows, nextId := r.value.rows, r.value.nextId;
      }
    }

    /** `update({completed: value}).eq("id", id)`. */
    method UpdateCompleted(id: nat, value: bool)
      requires Valid()
      modifies this
      ensures Valid()
      ensures Snapshot() == Table(WithCompleted(old(rows), id, value), old(nextId))
    {
      WithCompletedWellFormed(Snapshot(), id, value);
      rows := WithCompleted(rows, id, value);
    }

    /** `delete().eq("id", id)`. */
    method DeleteById(id: nat)
      requires Valid()
      modifies this
      ensures Valid()
      ensures Snapshot() == WithoutId(old(Snapshot()), id)
    {
      DeletesWellFormed(Snapshot(), id, "");
      rows := WithoutId(Snapshot(), id).rows;
    }

    /** `delete().eq("user_id", owner).eq("completed", true)`. */
    method DeleteCompleted(owner: UserId)
      requires Valid()
      modifies this
      ensures Valid()
      ensures Snapshot() == WithoutCompleted(old(Snapshot()), owner)
    {
      DeletesWellFormed(Snapshot(), 0, owner);
      rows := WithoutCompleted(Snapshot(), owner).rows;
    }

    /** The shopping-list update route. */
    method UpdateScoped(id: nat, owner: UserId, p: ItemPatch) returns (outcome: UpdateOutcome)
      requires Valid()
      modifies this
      ensures Valid()
      ensures (outcome, Snapshot()) == UpdatedItem(old(Snapshot()), id, owner, p)
    {
      var r := UpdatedItem(Snapshot(), id, owner, p);
      outcome := r.0;
      rows, nextId := r.1.rows, r.1.nextId;
    }

    /** The shopping-list delete route. */
    method DeleteScoped(id: nat, owner: UserId)
      requires Valid()
      modifies this
      ensures Valid()
      ensures Snapshot() == Table(ScopedDelete(old(rows), id, owner), old(nextId))
    {
      ScopedDeleteWellFormed(Snapshot(), id, owner);
      rows := ScopedDelete(rows, id, owner);
    }
  }

  /** The scoped delete is the retain of the rows that do not match. */
  lemma {:induction false} ScopedDeleteIsRetain(rows: seq<ItemRow>, id: nat, owner: UserId)
    ensures ScopedDelete(rows, id, owner) == Retain(rows, (r: ItemRow) => !(r.id == id && r.owner == owner))
  {
    if rows != [] {
      ScopedDeleteIsRetain(rows[1..], id, owner);
    }
  }

  /** The scoped delete keeps the table well formed. */
  lemma ScopedDeleteWellFormed(t: Table, id: nat, owner: UserId)
    requires WellFormed(t)
    ensures WellFormed(Table(ScopedDelete(t.rows, id, owner), t.nextId))
  {
    ScopedDeleteIsRetain(t.rows, id, owner);
    RetainWellFormed(t, (r: ItemRow) => !(r.id == id && r.owner == owner));
  }
}
