/**
  * The `bookshelves` and `bookshelf_books` tables as the shelf routes use them.
  * Shelf ids are numbers handed out by the table in increasing order; the
  * `bookshelf_books` table is the set of (shelf, book) pairs.
  */
module ShelfTable {
  import opened Sorting

  type ShelfId = nat
  type UserId = string
  type BookId = string

  datatype Shelf = Shelf(id: ShelfId, userId: UserId, name: string, displayOrder: int, position: int)

  /** Every row is stored under its own id, and every id is below the next one to hand out. */
  ghost predicate WellKeyed(rows: map<ShelfId, Shelf>, nextId: nat) {
    forall id :: id in rows ==> rows[id].id == id && id < nextId
  }

  /** The ids in use below `n`, in increasing order. */
  function IdsBelow(rows: map<ShelfId, Shelf>, n: nat): (r: seq<ShelfId>)
    ensures forall k :: 0 <= k < |r| ==> r[k] < n && r[k] in rows
    ensures forall id :: id < n && id in rows ==> id in r
    ensures forall i, j :: 0 <= i < j < |r| ==> r[i] < r[j]
  {
    if n == 0 then []
    else IdsBelow(rows, n - 1) + (if n - 1 in rows then [n - 1] else [])
  }

  /** The rows with id below `n`, in id order: each row once. */
  function RowsBelow(rows: map<ShelfId, Shelf>, n: nat): (r: seq<Shelf>)
    ensures |r| == |IdsBelow(rows, n)|
    ensures forall k :: 0 <= k < |r| ==> r[k] == rows[IdsBelow(rows, n)[k]]
  {
    var ids := IdsBelow(rows, n);
    seq(|ids|, k requires 0 <= k < |ids| => rows[ids[k]])
  }

  /** Each row below `n` is listed, and nothing else is. */
  lemma RowsBelowMembers(rows: map<ShelfId, Shelf>, n: nat, nextId: nat)
    requires WellKeyed(rows, nextId)
    ensures var r := RowsBelow(rows, n);
            && (forall id :: id < n && id in rows ==> rows[id] in r)
            && (forall k :: 0 <= k < |r| ==> r[k].id in rows && rows[r[k].id] == r[k])
            && (forall i, j :: 0 <= i < j < |r| ==> r[i].id < r[j].id)
  {
    var ids := IdsBelow(rows, n);
    var r := RowsBelow(rows, n);
    forall id | id < n && id in rows ensures rows[id] in r {
      var k :| 0 <= k < |ids| && ids[k] == id;
      assert r[k] == rows[id];
    }
  }

  function OwnedBy(userId: UserId): Shelf -> bool {
    (s: Shelf) => s.userId == userId
  }

  /** `.from("bookshelves").select(...).eq("user_id", userId)`, in id order. */
  function UserRows(rows: map<ShelfId, Shelf>, nextId: nat, userId: UserId): seq<Shelf> {
    Filter(RowsBelow(rows, nextId), OwnedBy(userId))
  }

  /** `.update({name, display_order}).eq("id", id).eq("user_id", userId)`. */
  function UpdateRow(rows: map<ShelfId, Shelf>, id: ShelfId, userId: UserId, name: string, order: int):
    (r: map<ShelfId, Shelf>)
    ensures r.Keys == rows.Keys
    ensures forall k :: k in rows && (k != id || rows[k].userId != userId) ==> r[k] == rows[k]
    ensures id in rows && rows[id].userId == userId ==>
      r[id] == Shelf(rows[id].id, userId, name, order, rows[id].position)
  {
    if id in rows && rows[id].userId == userId then rows[id := rows[id].(name := name, displayOrder := order)]
    else rows
  }

  /** `.delete().in("id", ids).eq("user_id", userId)`. */
  function DeleteRows(rows: map<ShelfId, Shelf>, ids: set<ShelfId>, userId: UserId): (r: map<ShelfId, Shelf>)
    ensures forall k :: k in r <==> k in rows && !(k in ids && rows[k].userId == userId)
    ensures forall k :: k in r ==> r[k] == rows[k]
  {
    map k | k in rows && !(k in ids && rows[k].userId == userId) :: rows[k]
  }

  class Table {
    var rows: map<ShelfId, Shelf>
    var nextId: nat
    /** The `bookshelf_books` rows: which book is on which shelf. */
    var entries: set<(ShelfId, BookId)>

    ghost predicate Valid()
      reads this
    {
      WellKeyed(rows, nextId)
    }

    constructor()
      ensures Valid() && rows == map[] && nextId == 0 && entries == {}
    {
      rows := map[];
      nextId := 0;
      entries := {};
    }

    /** An insert: the table picks a fresh id; the columns the insert does not set are 0. */
    method Insert(userId: UserId, name: string, displayOrder: int, position: int) returns (row: Shelf)
      requires Valid()
      modifies this
      ensures Valid()
      ensures row == Shelf(old(nextId), userId, name, displayOrder, position)
      ensures rows == old(rows)[row.id := row] && nextId == old(nextId) + 1 && entries == old(entries)
    {
      row := Shelf(nextId, userId, name, displayOrder, position);
      rows := rows[nextId := row];
      nextId := nextId + 1;
    }

    method Update(id: ShelfId, userId: UserId, name: string, displayOrder: int)
      requires Valid()
      modifies this
      ensures Valid()
      ensures rows == UpdateRow(old(rows), id, userId, name, displayOrder)
      ensures nextId == old(nextId) && entries == old(entries)
    {
      rows := UpdateRow(rows, id, userId, name, displayOrder);
    }

    method Delete(ids: set<ShelfId>, userId: UserId)
      requires Valid()
      modifies this
      ensures Valid()
      ensures rows == DeleteRows(old(rows), ids, userId)
      ensures nextId == old(nextId) && entries == old(entries)
    {
      rows := DeleteRows(rows, ids, userId);
    }
  }
}
