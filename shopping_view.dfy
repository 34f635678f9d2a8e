/** The shopping-list screen: the filtered view, its counters and the handlers that change the table. */
module ShoppingList {
  import opened Wrappers
  import opened Seqs
  import opened Text
  import opened Entities
  import opened Store

  /** `select("*").eq("user_id", user)`: the rows the screen lists, in table order. */
  function UserItems(t: Table, user: UserId): (r: seq<ItemRow>)
    ensures forall x :: x in r <==> x in t.rows && x.owner == user
    ensures IsSubseq(r, t.rows)
  {
    Retain(t.rows, (x: ItemRow) => x.owner == user)
  }

  /** The three filter buttons. */
  datatype Filter = All | Pending | Completed

  /** Whether an item passes the filter. */
  predicate Shows(f: Filter, x: ItemRow) {
    match f
    case All => true
    case Pending => !x.data.completed
    case Completed => x.data.completed
  }

  /** `filteredItems`: the items that pass the filter, in the order listed. */
  function FilteredItems(items: seq<ItemRow>, f: Filter): (r: seq<ItemRow>)
    ensures forall x :: x in r <==> x in items && Shows(f, x)
    ensures IsSubseq(r, items) && |r| <= |items|
  {
    if items == [] then []
    else
      var rest := FilteredItems(items[1..], f);
      if Shows(f, items[0]) then [items[0]] + rest else rest
  }

  /** The "All" filter lists every item unchanged. */
  lemma {:induction false} FilterAllIsIdentity(items: seq<ItemRow>)
    ensures FilteredItems(items, All) == items
  {
    if items != [] {
      FilterAllIsIdentity(items[1..]);
    }
  }

  /** `completedCount`: the number of completed items. */
  function CompletedCount(items: seq<ItemRow>): (n: nat)
    ensures n <= |items|
  {
    |FilteredItems(items, Completed)|
  }

  /** Every item is either pending or completed, never both. */
  lemma {:induction false} FiltersPartition(items: seq<ItemRow>)
    ensures |FilteredItems(items, Pending)| + |FilteredItems(items, Completed)| == |items|
  {
    if items != [] {
      FiltersPartition(items[1..]);
    }
  }

  /** The "Pending (total - completed)" label counts exactly the items the pending filter lists. */
  lemma PendingLabelCount(items: seq<ItemRow>)
    ensures |FilteredItems(items, Pending)| == |items| - CompletedCount(items)
  {
    FiltersPartition(items);
  }

  /** What submitting the add form does. */
  datatype AddOutcome =
    | Ignored   // the input is blank: nothing is sent
    | Added     // the trimmed text is inserted as a pending item
    | Failed    // the insert is refused ("Error adding item to shopping list")

  /**
   * `handleAddItem`: a blank input is ignored; otherwise the trimmed text is
   * inserted as a pending item of the user, which the store refuses when the
   * user already has that item.
   */
  method HandleAddItem(store: ShoppingStore, user: UserId, newItem: string) returns (o: AddOutcome)
    requires store.Valid()
    modifies store
    ensures store.Valid()
    ensures o == Ignored <==> IsBlank(newItem)
    ensures o == Added <==> !IsBlank(newItem) && Inserted(old(store.Snapshot()), user, Item(Trim(newItem), false)).Ok?
    ensures o == Added ==> store.Snapshot() == Inserted(old(store.Snapshot()), user, Item(Trim(newItem), false)).value
    ensures o != Added ==> store.Snapshot() == old(store.Snapshot())
  {
    if IsBlank(newItem) {
      return Ignored;
    }
    var ok := store.Insert(user, Item(Trim(newItem), false));
    o := if ok then Added else Failed;
  }

  /**
   * A successful add leaves the user a pending item under the trimmed, non-empty
   * text, and no other key changes.
   */
  lemma AddedItemIsPending(t: Table, user: UserId, newItem: string, o: UserId, x: string)
    requires WellFormed(t) && !IsBlank(newItem) && Inserted(t, user, Item(Trim(newItem), false)).Ok?
    ensures Trim(newItem) != []
    ensures Lookup(Inserted(t, user, Item(Trim(newItem), false)).value, user, Trim(newItem)) == Some(false)
    ensures o != user || x != Trim(newItem) ==>
              Lookup(Inserted(t, user, Item(Trim(newItem), false)).value, o, x) == Lookup(t, o, x)
  {
    InsertedLookup(t, user, Item(Trim(newItem), false), user, Trim(newItem));
    InsertedLookup(t, user, Item(Trim(newItem), false), o, x);
  }

  /** `handleToggleComplete(id, completed)`: sets the flag to the negation of the one shown. */
  method HandleToggleComplete(store: ShoppingStore, id: nat, shown: bool)
    requires store.Valid()
    modifies store
    ensures store.Valid()
    ensures store.Snapshot() == Table(WithCompleted(old(store.Snapshot()).rows, id, !shown), old(store.Snapshot()).nextId)
  {
    store.UpdateCompleted(id, !shown);
  }

  /** When the list on screen is stale (the row's flag already differs from the one shown), the toggle changes nothing. */
  lemma StaleToggleKeepsRow(rows: seq<ItemRow>, id: nat, shown: bool, k: nat)
    requires k < |rows| && rows[k].id == id && rows[k].data.completed != shown
    ensures WithCompleted(rows, id, !shown)[k] == rows[k]
  {
  }

  /** Toggling the row shown as `shown` and then toggling it back restores every row. */
  lemma ToggleTwiceRestores(t: Table, id: nat, shown: bool)
    requires forall r :: r in t.rows && r.id == id ==> r.data.completed == shown
    ensures WithCompleted(WithCompleted(t.rows, id, !shown), id, shown) == t.rows
  {
    var back := WithCompleted(WithCompleted(t.rows, id, !shown), id, shown);
    forall k | 0 <= k < |t.rows|
      ensures back[k] == t.rows[k]
    {
      if t.rows[k].id == id {
        assert t.rows[k] in t.rows;
      }
    }
  }

  /** `handleClearCompleted`: when the user confirms, every completed item of the user is deleted. */
  method HandleClearCompleted(store: ShoppingStore, user: UserId, confirmed: bool)
    requires store.Valid()
    modifies store
    ensures store.Valid()
    ensures confirmed ==> store.Snapshot() == WithoutCompleted(old(store.Snapshot()), user)
    ensures !confirmed ==> store.Snapshot() == old(store.Snapshot())
  {
    if confirmed {
      store.DeleteCompleted(user);
    }
  }

  /**
   * After clearing, the user's list holds exactly their pending items, its
   * completed counter is 0, and the other users' rows are as before.
   */
  lemma ClearLeavesPending(t: Table, user: UserId)
    ensures forall x :: x in UserItems(WithoutCompleted(t, user), user) <==> x in UserItems(t, user) && !x.data.completed
    ensures CompletedCount(UserItems(WithoutCompleted(t, user), user)) == 0
    ensures forall x :: x in t.rows && x.owner != user ==> x in WithoutCompleted(t, user).rows
  {
    var done := FilteredItems(UserItems(WithoutCompleted(t, user), user), Completed);
    if done != [] {
      assert done[0] in done;
    }
  }
}
