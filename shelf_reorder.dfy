/**
  * `PUT /api/bookshelves/reorder`: the bulk save of the shelf editor. The caller's
  * shelves become the submitted list: shelves left out are deleted, known ones are
  * renamed and renumbered, the rest are inserted, each taking its index as display order.
  */
module ShelfReorder {
  import opened Wrappers
  import opened Http
  import opened Text
  import opened Sorting
  import opened ShelfTable

  /** One submitted shelf; a missing or empty id, and a missing or non-string name, are `None`. */
  datatype ShelfInput = ShelfInput(id: Option<ShelfId>, name: Option<string>)

  /** The shelf table's contents, for stating what a sequence of writes does. */
  datatype Db = Db(rows: map<ShelfId, Shelf>, nextId: nat)

  predicate Named(s: ShelfInput) {
    s.name.Some? && Trim(s.name.value) != ""
  }

  predicate AllNamed(shelves: seq<ShelfInput>) {
    forall i :: 0 <= i < |shelves| ==> Named(shelves[i])
  }

  /** The validation loop: stops at the first shelf without a usable name. */
  method CheckNames(shelves: seq<ShelfInput>) returns (ok: bool)
    ensures ok <==> AllNamed(shelves)
  {
    for i := 0 to |shelves|
      invariant forall j :: 0 <= j < i ==> Named(shelves[j])
    {
      if !Named(shelves[i]) {
        return false;
      }
    }
    return true;
  }

  /** The names as compared for uniqueness: trimmed and lower-cased. */
  function NameKeys(shelves: seq<ShelfInput>): (r: seq<string>)
    requires AllNamed(shelves)
    ensures |r| == |shelves|
  {
    seq(|shelves|, i requires 0 <= i < |shelves| => Lower(Trim(shelves[i].name.value)))
  }

  predicate Distinct<T(==)>(xs: seq<T>) {
    forall i, j :: 0 <= i < j < |xs| ==> xs[i] != xs[j]
  }

  function Elements<T(==)>(xs: seq<T>): set<T> {
    set x | x in xs
  }

  /** `new Set(names).size === names.length` holds exactly when no name repeats. */
  lemma {:induction false} SetSizeIffDistinct<T>(xs: seq<T>)
    ensures |Elements(xs)| <= |xs|
    ensures |Elements(xs)| == |xs| <==> Distinct(xs)
    decreases |xs|
  {
    if xs != [] {
      var init, x := xs[..|xs| - 1], xs[|xs| - 1];
      SetSizeIffDistinct(init);
      assert xs == init + [x];
      assert Elements(xs) == Elements(init) + {x};
      if x in init {
        assert Elements(xs) == Elements(init);
        var k :| 0 <= k < |init| && init[k] == x;
        assert xs[k] == xs[|xs| - 1];
      } else {
        assert |Elements(xs)| == |Elements(init)| + 1;
        if Distinct(init) {
          forall i, j | 0 <= i < j < |xs| ensures xs[i] != xs[j] {
            if j == |xs| - 1 {
              assert xs[i] == init[i];
            } else {
              assert xs[i] == init[i] && xs[j] == init[j];
            }
          }
        }
        if Distinct(xs) {
          forall i, j | 0 <= i < j < |init| ensures init[i] != init[j] {
            assert xs[i] == init[i] && xs[j] == init[j];
          }
        }
      }
    }
  }

  /** The ids of the caller's shelves. */
  function OwnedIds(rows: map<ShelfId, Shelf>, userId: UserId): (r: set<ShelfId>)
    ensures forall id :: id in r <==> id in rows && rows[id].userId == userId
  {
    set id | id in rows && rows[id].userId == userId
  }

  /** `newIds`: the ids the submitted list carries. */
  function InputIds(shelves: seq<ShelfInput>): (r: set<ShelfId>)
    ensures forall i :: 0 <= i < |shelves| && shelves[i].id.Some? ==> shelves[i].id.value in r
    ensures forall id :: id in r ==> exists i :: 0 <= i < |shelves| && shelves[i].id == Some(id)
  {
    set i | 0 <= i < |shelves| && shelves[i].id.Some? :: shelves[i].id.value
  }

  /** A validated shelf: its id and its trimmed name. */
  datatype Entry = Entry(id: Option<ShelfId>, name: string)

  function Entries(shelves: seq<ShelfInput>): (r: seq<Entry>)
    requires AllNamed(shelves)
    ensures |r| == |shelves|
    ensures forall i :: 0 <= i < |r| ==> r[i] == Entry(shelves[i].id, Trim(shelves[i].name.value))
  {
    seq(|shelves|, i requires 0 <= i < |shelves| => Entry(shelves[i].id, Trim(shelves[i].name.value)))
  }

  /** A submitted shelf that is one of the caller's current shelves is updated, any other inserted. */
  predicate Known(e: Entry, current: set<ShelfId>) {
    e.id.Some? && e.id.value in current
  }

  /** The write for the shelf at index `i`. */
  function WriteOne(db: Db, userId: UserId, current: set<ShelfId>, e: Entry, i: nat): Db {
    if Known(e, current) then Db(UpdateRow(db.rows, e.id.value, userId, e.name, i), db.nextId)
    else Db(db.rows[db.nextId := Shelf(db.nextId, userId, e.name, i, 0)], db.nextId + 1)
  }

  /** The table after the writes for the first `k` shelves. */
  function Writes(db: Db, userId: UserId, current: set<ShelfId>, entries: seq<Entry>, k: nat): Db
    requires k <= |entries|
  {
    if k == 0 then db
    else WriteOne(Writes(db, userId, current, entries, k - 1), userId, current, entries[k - 1], k - 1)
  }

  /** The index of the first write that fails, or `n` when none does. */
  function FirstFailure(writeErrors: map<nat, string>, n: nat): (k: nat)
    ensures k <= n
    ensures forall i :: 0 <= i < k ==> i !in writeErrors
    ensures k < n ==> k in writeErrors
  {
    if n == 0 then 0
    else
      var k := FirstFailure(writeErrors, n - 1);
      if k < n - 1 || n - 1 in writeErrors then k else n
  }

  /** The first failure is the first index in `writeErrors`, whatever comes after it. */
  lemma FirstFailureAt(writeErrors: map<nat, string>, n: nat, i: nat)
    requires i <= n
    requires forall j :: 0 <= j < i ==> j !in writeErrors
    requires i == n || i in writeErrors
    ensures FirstFailure(writeErrors, n) == i
  {
  }

  function ByDisplayOrder(): (Shelf, Shelf) -> bool {
    ByKeyAsc((s: Shelf) => s.displayOrder)
  }

  /** Whether the request passes validation. */
  predicate Acceptable(shelves: Option<seq<ShelfInput>>) {
    && shelves.Some? && |shelves.value| > 0
    && AllNamed(shelves.value) && Distinct(NameKeys(shelves.value))
  }

  /**
    * The handler. `currentRead` is false when the query for the caller's current
    * shelves returns nothing (the route then treats the caller as having none);
    * `deleteError` is the outcome of the delete; `writeErrors` gives, by index, the
    * writes that fail.
    */
  method Put(table: Table, user: Option<UserId>, shelves: Option<seq<ShelfInput>>, currentRead: bool,
             deleteError: Option<string>, writeErrors: map<nat, string>) returns (resp: Response<seq<Shelf>>)
    requires table.Valid()
    modifies table
    ensures table.Valid() && table.entries == old(table.entries)
    ensures user.None? ==> resp == Fail(401, "Not authenticated") && unchanged(table)
    ensures user.Some? && (shelves.None? || |shelves.value| == 0) ==>
      resp == Fail(400, "You must have at least one bookshelf") && unchanged(table)
    ensures user.Some? && shelves.Some? && |shelves.value| > 0 && !AllNamed(shelves.value) ==>
      resp == Fail(400, "All shelves must have a name") && unchanged(table)
    ensures user.Some? && shelves.Some? && |shelves.value| > 0 && AllNamed(shelves.value)
            && !Distinct(NameKeys(shelves.value)) ==>
      resp == Fail(400, "Shelf names must be unique") && unchanged(table)
    ensures user.Some? && Acceptable(shelves) ==>
      var current := if currentRead then OwnedIds(old(table.rows), user.value) else {};
      var toDelete := current - InputIds(shelves.value);
      if deleteError.Some? && toDelete != {} then
        resp == Fail(500, deleteError.value) && unchanged(table)
      else
        var n := |shelves.value|;
        var k := FirstFailure(writeErrors, n);
        var end := Writes(Db(DeleteRows(old(table.rows), toDelete, user.value), old(table.nextId)),
                          user.value, current, Entries(shelves.value), k);
        && table.rows == end.rows && table.nextId == end.nextId
        && resp == (if k < n then Fail(500, writeErrors[k])
                    else Ok(SortBy(UserRows(end.rows, end.nextId, user.value), ByDisplayOrder())))
  {
    if user.None? {
      return Fail(401, "Not authenticated");
    }
    if shelves.None? || |shelves.value| == 0 {
      return Fail(400, "You must have at least one bookshelf");
    }
    var input := shelves.value;
    var named := CheckNames(input);
    if !named {
      return Fail(400, "All shelves must have a name");
    }
    var names := NameKeys(input);
    var uniqueNames := Elements(names);
    SetSizeIffDistinct(names);
    if |uniqueNames| != |names| {
      return Fail(400, "Shelf names must be unique");
    }
    resp := Save(table, user.value, input, currentRead, deleteError, writeErrors);
  }

  /** Everything after validation: the delete, the writes and the final read. */
  method Save(table: Table, userId: UserId, input: seq<ShelfInput>, currentRead: bool,
              deleteError: Option<string>, writeErrors: map<nat, string>) returns (resp: Response<seq<Shelf>>)
    requires table.Valid() && AllNamed(input)
    modifies table
    ensures table.Valid() && table.entries == old(table.entries)
    ensures var current := if currentRead then OwnedIds(old(table.rows), userId) else {};
      var toDelete := current - InputIds(input);
      if deleteError.Some? && toDelete != {} then
        resp == Fail(500, deleteError.value) && unchanged(table)
      else
        var n := |input|;
        var k := FirstFailure(writeErrors, n);
        var end := Writes(Db(DeleteRows(old(table.rows), toDelete, userId), old(table.nextId)),
                          userId, current, Entries(input), k);
        && table.rows == end.rows && table.nextId == end.nextId
        && resp == (if k < n then Fail(500, writeErrors[k])
                    else Ok(SortBy(UserRows(end.rows, end.nextId, userId), ByDisplayOrder())))
  {
    var currentIds := if currentRead then OwnedIds(table.rows, userId) else {};
    var toDelete := currentIds - InputIds(input);
    if deleteError.Some? && toDelete != {} {
      resp := Fail(500, deleteError.value);
    } else {
      DeleteStale(table, toDelete, userId);
      var failed := WriteAll(table, userId, currentIds, Entries(input), writeErrors);
      if failed.Some? {
        resp := Fail(500, failed.value);
      } else {
        var sorted := ReadSorted(table, userId);
        resp := Ok(sorted);
      }
    }
  }

  /** The delete of the shelves no longer submitted, skipped when there are none. */
  method DeleteStale(table: Table, toDelete: set<ShelfId>, userId: UserId)
    requires table.Valid()
    modifies table
    ensures table.Valid() && table.entries == old(table.entries)
    ensures table.rows == DeleteRows(old(table.rows), toDelete, userId) && table.nextId == old(table.nextId)
  {
    if toDelete != {} {
      table.Delete(toDelete, userId);
    } else {
      assert DeleteRows(table.rows, toDelete, userId) == table.rows;
    }
  }

  /** The final read: the caller's shelves by display order. */
  method ReadSorted(table: Table, userId: UserId) returns (r: seq<Shelf>)
    ensures r == SortBy(UserRows(table.rows, table.nextId, userId), ByDisplayOrder())
  {
    var updated := UserRows(table.rows, table.nextId, userId);
    var ordered := new Shelf[|updated|](j requires 0 <= j < |updated| => updated[j]);
    assert ordered[..] == updated;
    SortInPlace(ordered, ByDisplayOrder());
    r := ordered[..];
  }

  /** The loop over the submitted shelves, stopping at the first write that fails. */
  /** One write: an update of a known shelf, or an insert at the next id. */
  method WriteShelf(table: Table, userId: UserId, currentIds: set<ShelfId>, e: Entry, i: nat)
    requires table.Valid()
    modifies table
    ensures table.Valid() && table.entries == old(table.entries)
    ensures Db(table.rows, table.nextId) == WriteOne(Db(old(table.rows), old(table.nextId)), userId, currentIds, e, i)
  {
    if e.id.Some? && e.id.value in currentIds {
      table.Update(e.id.value, userId, e.name, i);
    } else {
      var _ := table.Insert(userId, e.name, i, 0);
    }
  }

  /** The write loop: stops at the first write that fails. */
  method WriteAll(table: Table, userId: UserId, currentIds: set<ShelfId>, entries: seq<Entry>,
                  writeErrors: map<nat, string>) returns (failed: Option<string>)
    requires table.Valid()
    modifies table
    ensures table.Valid() && table.entries == old(table.entries)
    ensures var k := FirstFailure(writeErrors, |entries|);
      && Db(table.rows, table.nextId) == Writes(Db(old(table.rows), old(table.nextId)), userId, currentIds, entries, k)
      && failed == (if k < |entries| then Some(writeErrors[k]) else None)
  {
    ghost var start := Db(table.rows, table.nextId);
    var i := 0;
    while i < |entries|
      invariant 0 <= i <= |entries|
      invariant forall j :: 0 <= j < i ==> j !in writeErrors
      invariant table.Valid() && table.entries == old(table.entries)
      invariant Db(table.rows, table.nextId) == Writes(start, userId, currentIds, entries, i)
    {
      if i in writeErrors {
        FirstFailureAt(writeErrors, |entries|, i);
        return Some(writeErrors[i]);
      }
      WriteShelf(table, userId, currentIds, entries[i], i);
      i := i + 1;
    }
    FirstFailureAt(writeErrors, |entries|, i);
    return None;
  }

  // ------------------------------------------------------ what a save leaves

  /** How many of the first `k` entries are inserts. */
  function Inserts(entries: seq<Entry>, current: set<ShelfId>, k: nat): nat
    requires k <= |entries|
  {
    if k == 0 then 0
    else Inserts(entries, current, k - 1) + (if Known(entries[k - 1], current) then 0 else 1)
  }

  /** The row the write for index `i` lands on: the shelf's own id, or the next fresh id. */
  function Target(entries: seq<Entry>, current: set<ShelfId>, next0: nat, i: nat): ShelfId
    requires i < |entries|
  {
    if Known(entries[i], current) then entries[i].id.value else next0 + Inserts(entries, current, i)
  }

  ghost predicate IsTarget(entries: seq<Entry>, current: set<ShelfId>, next0: nat, k: nat, id: ShelfId)
    requires k <= |entries|
  {
    exists i :: 0 <= i < k && Target(entries, current, next0, i) == id
  }

  /** The submitted ids are pairwise different. */
  predicate DistinctIds(shelves: seq<ShelfInput>) {
    forall i, j :: 0 <= i < j < |shelves| && shelves[i].id.Some? && shelves[j].id.Some? ==>
      shelves[i].id != shelves[j].id
  }

  /** What the starting table must give the writes: every known shelf is the caller's row. */
  ghost predicate WriteStart(start: Db, userId: UserId, current: set<ShelfId>, entries: seq<Entry>) {
    && WellKeyed(start.rows, start.nextId)
    && (forall i, j :: 0 <= i < j < |entries| && Known(entries[i], current) && Known(entries[j], current) ==>
          entries[i].id != entries[j].id)
    && (forall i :: 0 <= i < |entries| && Known(entries[i], current) ==>
          entries[i].id.value in start.rows && start.rows[entries[i].id.value].userId == userId)
  }

  /** The row written for index `i`: the caller's, with display order `i` and the entry's name. */
  ghost predicate WrittenAt(db: Db, entries: seq<Entry>, current: set<ShelfId>, next0: nat, userId: UserId, i: nat)
    requires i < |entries|
  {
    var t := Target(entries, current, next0, i);
    && t in db.rows && db.rows[t].userId == userId && db.rows[t].displayOrder == i
    && db.rows[t].name == entries[i].name
  }

  /** The state after `k` writes: each write's row in place, every other row as it started. */
  ghost predicate Placed(db: Db, start: Db, userId: UserId, current: set<ShelfId>, entries: seq<Entry>, k: nat)
    requires k <= |entries|
  {
    && db.nextId == start.nextId + Inserts(entries, current, k)
    && WellKeyed(db.rows, db.nextId)
    && start.rows.Keys <= db.rows.Keys
    && (forall i :: 0 <= i < k ==> WrittenAt(db, entries, current, start.nextId, userId, i))
    && (forall id :: id in db.rows && !IsTarget(entries, current, start.nextId, k, id) ==>
          id in start.rows && db.rows[id] == start.rows[id])
  }

  lemma {:induction false} WritesPlace(start: Db, userId: UserId, current: set<ShelfId>, entries: seq<Entry>, k: nat)
    requires k <= |entries| && WriteStart(start, userId, current, entries)
    ensures Placed(Writes(start, userId, current, entries, k), start, userId, current, entries, k)
  {
    if k == 0 {
      assert Inserts(entries, current, 0) == 0;
    } else {
      WritesPlace(start, userId, current, entries, k - 1);
      PlacedStep(start, userId, current, entries, k - 1, Writes(start, userId, current, entries, k - 1));
    }
  }

  lemma PlacedStep(start: Db, userId: UserId, current: set<ShelfId>, entries: seq<Entry>, k: nat, db: Db)
    requires k < |entries| && WriteStart(start, userId, current, entries)
    requires Placed(db, start, userId, current, entries, k)
    ensures Placed(WriteOne(db, userId, current, entries[k], k), start, userId, current, entries, k + 1)
  {
    var db' := WriteOne(db, userId, current, entries[k], k);
    var e := entries[k];
    var next0 := start.nextId;
    var t := Target(entries, current, next0, k);
    if Known(e, current) {
      assert t == e.id.value && t in start.rows && t < next0;
      assert !IsTarget(entries, current, next0, k, t) by {
        forall i | 0 <= i < k ensures Target(entries, current, next0, i) != t {
          if Known(entries[i], current) {
            assert entries[i].id != entries[k].id;
          }
        }
      }
      assert db.rows[t] == start.rows[t];
      assert db'.rows == db.rows[t := db.rows[t].(name := e.name, displayOrder := k)];
      forall i | 0 <= i < k ensures WrittenAt(db', entries, current, next0, userId, i) {
        assert WrittenAt(db, entries, current, next0, userId, i);
      }
      forall id | id in db'.rows && !IsTarget(entries, current, next0, k + 1, id)
        ensures id in start.rows && db'.rows[id] == start.rows[id]
      {
        assert !IsTarget(entries, current, next0, k, id);
      }
    } else {
      assert t == db.nextId;
      assert db'.rows == db.rows[t := Shelf(t, userId, e.name, k, 0)];
      forall i | 0 <= i < k ensures WrittenAt(db', entries, current, next0, userId, i) {
        assert WrittenAt(db, entries, current, next0, userId, i);
      }
      forall id | id in db'.rows && !IsTarget(entries, current, next0, k + 1, id)
        ensures id in start.rows && db'.rows[id] == start.rows[id]
      {
        assert !IsTarget(entries, current, next0, k, id);
      }
    }
    assert WrittenAt(db', entries, current, next0, userId, k);
  }

  /** Every caller row the writes start from is one of the submitted known shelves. */
  ghost predicate Covered(start: Db, userId: UserId, current: set<ShelfId>, entries: seq<Entry>) {
    forall id :: id in start.rows && start.rows[id].userId == userId ==>
      exists j :: 0 <= j < |entries| && Known(entries[j], current) && entries[j].id == Some(id)
  }

  /** After all the writes, every row of the caller is the row written for some index. */
  lemma CallerRowsWritten(start: Db, userId: UserId, current: set<ShelfId>, entries: seq<Entry>)
    requires WriteStart(start, userId, current, entries) && Covered(start, userId, current, entries)
    ensures var end := Writes(start, userId, current, entries, |entries|);
            && Placed(end, start, userId, current, entries, |entries|)
            && forall id :: id in end.rows && end.rows[id].userId == userId ==>
                 IsTarget(entries, current, start.nextId, |entries|, id)
  {
    var n := |entries|;
    var end := Writes(start, userId, current, entries, n);
    WritesPlace(start, userId, current, entries, n);
    forall id | id in end.rows && end.rows[id].userId == userId
      ensures IsTarget(entries, current, start.nextId, n, id)
    {
      if !IsTarget(entries, current, start.nextId, n, id) {
        assert id in start.rows && end.rows[id] == start.rows[id];
        var j :| 0 <= j < n && Known(entries[j], current) && entries[j].id == Some(id);
        assert Target(entries, current, start.nextId, j) == id;
      }
    }
  }

  /** After a complete save over validated entries, every index's row is in place. */
  lemma SavedEntriesWritten(start: Db, userId: UserId, current: set<ShelfId>, entries: seq<Entry>)
    requires WriteStart(start, userId, current, entries) && Covered(start, userId, current, entries)
    ensures forall i :: 0 <= i < |entries| ==>
              WrittenAt(Writes(start, userId, current, entries, |entries|), entries, current, start.nextId, userId, i)
  {
    CallerRowsWritten(start, userId, current, entries);
  }

  /** After a complete save over validated entries, each caller row carries the name of its display order. */
  lemma SavedEntriesNamed(start: Db, userId: UserId, current: set<ShelfId>, entries: seq<Entry>)
    requires WriteStart(start, userId, current, entries) && Covered(start, userId, current, entries)
    ensures var end := Writes(start, userId, current, entries, |entries|);
            forall id :: id in end.rows && end.rows[id].userId == userId ==>
              0 <= end.rows[id].displayOrder < |entries| && end.rows[id].name == entries[end.rows[id].displayOrder].name
  {
    var n := |entries|;
    var next0 := start.nextId;
    var end := Writes(start, userId, current, entries, n);
    CallerRowsWritten(start, userId, current, entries);
    forall id | id in end.rows && end.rows[id].userId == userId
      ensures 0 <= end.rows[id].displayOrder < n && end.rows[id].name == entries[end.rows[id].displayOrder].name
    {
      var i :| 0 <= i < n && Target(entries, current, next0, i) == id;
      assert WrittenAt(end, entries, current, next0, userId, i);
    }
  }

  /** After a complete save over validated entries, no two caller rows share a display order. */
  lemma SavedEntriesUnique(start: Db, userId: UserId, current: set<ShelfId>, entries: seq<Entry>)
    requires WriteStart(start, userId, current, entries) && Covered(start, userId, current, entries)
    ensures var end := Writes(start, userId, current, entries, |entries|);
            forall a, b ::
              (a in end.rows && b in end.rows && end.rows[a].userId == userId
               && end.rows[b].userId == userId && end.rows[a].displayOrder == end.rows[b].displayOrder) ==> a == b
  {
    var n := |entries|;
    var next0 := start.nextId;
    var end := Writes(start, userId, current, entries, n);
    CallerRowsWritten(start, userId, current, entries);
    forall a, b | a in end.rows && b in end.rows && end.rows[a].userId == userId
        && end.rows[b].userId == userId && end.rows[a].displayOrder == end.rows[b].displayOrder
      ensures a == b
    {
      var i :| 0 <= i < n && Target(entries, current, next0, i) == a;
      var j :| 0 <= j < n && Target(entries, current, next0, j) == b;
      assert WrittenAt(end, entries, current, next0, userId, i);
      assert WrittenAt(end, entries, current, next0, userId, j);
    }
  }

  /** The starting table of a save whose current shelves were read meets both conditions. */
  lemma SaveStart(rows: map<ShelfId, Shelf>, nextId: nat, userId: UserId, shelves: seq<ShelfInput>)
    requires WellKeyed(rows, nextId) && AllNamed(shelves) && DistinctIds(shelves)
    ensures var current := OwnedIds(rows, userId);
            var start := Db(DeleteRows(rows, current - InputIds(shelves), userId), nextId);
            WriteStart(start, userId, current, Entries(shelves)) && Covered(start, userId, current, Entries(shelves))
  {
    var current := OwnedIds(rows, userId);
    var start := Db(DeleteRows(rows, current - InputIds(shelves), userId), nextId);
    var entries := Entries(shelves);
    forall i | 0 <= i < |entries| && Known(entries[i], current)
      ensures entries[i].id.value in start.rows && start.rows[entries[i].id.value].userId == userId
    {
      assert shelves[i].id.value in InputIds(shelves);
    }
    forall id | id in start.rows && start.rows[id].userId == userId
      ensures exists j :: 0 <= j < |entries| && Known(entries[j], current) && entries[j].id == Some(id)
    {
      assert id in InputIds(shelves);
      var j :| 0 <= j < |shelves| && shelves[j].id == Some(id);
      assert Known(entries[j], current);
    }
  }

  /** The table a complete save leaves, when the caller's current shelves were read. */
  function Saved(rows: map<ShelfId, Shelf>, nextId: nat, userId: UserId, shelves: seq<ShelfInput>): Db
    requires AllNamed(shelves)
  {
    var current := OwnedIds(rows, userId);
    Writes(Db(DeleteRows(rows, current - InputIds(shelves), userId), nextId), userId, current, Entries(shelves), |shelves|)
  }

  /** One of the user's shelves has display order `i` and the given name. */
  ghost predicate ShelfAt(db: Db, userId: UserId, i: nat, name: string) {
    exists id :: id in db.rows && db.rows[id].userId == userId && db.rows[id].displayOrder == i && db.rows[id].name == name
  }

  /**
    * What a complete save leaves, when the submitted ids are distinct: for every
    * index `i` one of the caller's shelves has display order `i` and carries the
    * trimmed `i`-th name.
    */
  lemma SavedHasEveryShelf(rows: map<ShelfId, Shelf>, nextId: nat, userId: UserId, shelves: seq<ShelfInput>)
    requires WellKeyed(rows, nextId) && AllNamed(shelves) && DistinctIds(shelves)
    ensures forall i :: 0 <= i < |shelves| ==>
              ShelfAt(Saved(rows, nextId, userId, shelves), userId, i, Trim(shelves[i].name.value))
  {
    var current := OwnedIds(rows, userId);
    var start := Db(DeleteRows(rows, current - InputIds(shelves), userId), nextId);
    var entries := Entries(shelves);
    var end := Saved(rows, nextId, userId, shelves);
    SaveStart(rows, nextId, userId, shelves);
    SavedEntriesWritten(start, userId, current, entries);
    forall i | 0 <= i < |shelves|
      ensures ShelfAt(end, userId, i, Trim(shelves[i].name.value))
    {
      assert WrittenAt(end, entries, current, nextId, userId, i);
      var t := Target(entries, current, nextId, i);
      assert entries[i].name == Trim(shelves[i].name.value);
      assert t in end.rows && end.rows[t].userId == userId
             && end.rows[t].displayOrder == i && end.rows[t].name == Trim(shelves[i].name.value);
    }
  }

  /** After a complete save the caller has no shelves but the submitted ones: each is named after its index. */
  lemma SavedHasNoOtherShelf(rows: map<ShelfId, Shelf>, nextId: nat, userId: UserId, shelves: seq<ShelfInput>)
    requires WellKeyed(rows, nextId) && AllNamed(shelves) && DistinctIds(shelves)
    ensures var end := Saved(rows, nextId, userId, shelves);
            forall id :: id in end.rows && end.rows[id].userId == userId ==>
              0 <= end.rows[id].displayOrder < |shelves|
              && end.rows[id].name == Trim(shelves[end.rows[id].displayOrder].name.value)
  {
    var current := OwnedIds(rows, userId);
    var start := Db(DeleteRows(rows, current - InputIds(shelves), userId), nextId);
    var entries := Entries(shelves);
    var end := Saved(rows, nextId, userId, shelves);
    SaveStart(rows, nextId, userId, shelves);
    SavedEntriesNamed(start, userId, current, entries);
    assert end == Writes(start, userId, current, entries, |entries|);
    forall id | id in end.rows && end.rows[id].userId == userId
      ensures 0 <= end.rows[id].displayOrder < |shelves|
           && end.rows[id].name == Trim(shelves[end.rows[id].displayOrder].name.value)
    {
      assert end.rows[id].name == entries[end.rows[id].displayOrder].name;
    }
  }

  /** After a complete save no two of the caller's shelves share a display order. */
  lemma SavedOrdersUnique(rows: map<ShelfId, Shelf>, nextId: nat, userId: UserId, shelves: seq<ShelfInput>)
    requires WellKeyed(rows, nextId) && AllNamed(shelves) && DistinctIds(shelves)
    ensures var end := Saved(rows, nextId, userId, shelves);
            forall a, b ::
              (a in end.rows && b in end.rows && end.rows[a].userId == userId
               && end.rows[b].userId == userId && end.rows[a].displayOrder == end.rows[b].displayOrder) ==> a == b
  {
    var current := OwnedIds(rows, userId);
    var start := Db(DeleteRows(rows, current - InputIds(shelves), userId), nextId);
    SaveStart(rows, nextId, userId, shelves);
    SavedEntriesUnique(start, userId, current, Entries(shelves));
    assert Saved(rows, nextId, userId, shelves) == Writes(start, userId, current, Entries(shelves), |shelves|);
  }

  /** A submitted shelf that was one of the caller's keeps its row, now with its new display order. */
  lemma SavedKeepsKnownRows(rows: map<ShelfId, Shelf>, nextId: nat, userId: UserId, shelves: seq<ShelfInput>)
    requires WellKeyed(rows, nextId) && AllNamed(shelves) && DistinctIds(shelves)
    ensures var end := Saved(rows, nextId, userId, shelves);
            forall i ::
              (0 <= i < |shelves| && shelves[i].id.Some? && shelves[i].id.value in rows
               && rows[shelves[i].id.value].userId == userId) ==>
              shelves[i].id.value in end.rows && end.rows[shelves[i].id.value].displayOrder == i
  {
    var current := OwnedIds(rows, userId);
    var start := Db(DeleteRows(rows, current - InputIds(shelves), userId), nextId);
    var entries := Entries(shelves);
    var end := Saved(rows, nextId, userId, shelves);
    SaveStart(rows, nextId, userId, shelves);
    SavedEntriesWritten(start, userId, current, entries);
    forall i | 0 <= i < |shelves| && shelves[i].id.Some? && shelves[i].id.value in rows
        && rows[shelves[i].id.value].userId == userId
      ensures shelves[i].id.value in end.rows && end.rows[shelves[i].id.value].displayOrder == i
    {
      assert Known(entries[i], current);
      assert WrittenAt(end, entries, current, nextId, userId, i);
    }
  }

  /** Whatever the outcome, the writes leave other users' shelves exactly as they were. */
  lemma {:induction false} WritesKeepOthers(start: Db, userId: UserId, current: set<ShelfId>,
                                            entries: seq<Entry>, k: nat)
    requires k <= |entries| && WellKeyed(start.rows, start.nextId)
    ensures var end := Writes(start, userId, current, entries, k);
            && WellKeyed(end.rows, end.nextId) && end.nextId >= start.nextId
            && (forall id :: id in start.rows && start.rows[id].userId != userId ==>
                  id in end.rows && end.rows[id] == start.rows[id])
            && (forall id :: id in end.rows && end.rows[id].userId != userId ==>
                  id in start.rows && end.rows[id] == start.rows[id])
  {
    if k > 0 {
      WritesKeepOthers(start, userId, current, entries, k - 1);
      var db := Writes(start, userId, current, entries, k - 1);
      var e := entries[k - 1];
      if !Known(e, current) {
        assert db.nextId !in db.rows;
      }
    }
  }

  /** The delete and the writes of a save touch only the caller's shelves. */
  lemma SaveKeepsOthers(rows: map<ShelfId, Shelf>, nextId: nat, userId: UserId, current: set<ShelfId>,
                        shelves: seq<ShelfInput>, k: nat, other: ShelfId)
    requires WellKeyed(rows, nextId) && k <= |shelves| && AllNamed(shelves)
    requires other in rows && rows[other].userId != userId
    ensures var end := Writes(Db(DeleteRows(rows, current - InputIds(shelves), userId), nextId),
                              userId, current, Entries(shelves), k);
            other in end.rows && end.rows[other] == rows[other]
  {
    WritesKeepOthers(Db(DeleteRows(rows, current - InputIds(shelves), userId), nextId), userId, current, Entries(shelves), k);
  }
}
