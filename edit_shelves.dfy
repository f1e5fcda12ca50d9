/**
  * The shelf editor dialog (`EditShelvesModal`). It keeps an editable copy of the
  * caller's shelves: rows can be dragged to a new place, renamed, deleted (never the
  * last one) and added, with names compared trimmed and case-insensitively. Saving
  * sends the list, in order, to the bulk save route.
  */
module EditShelves {
  import opened Wrappers
  import opened Text
  import opened ShelfTable
  import ShelfReorder

  /** A row of the editor; rows added in the dialog have no id yet. */
  datatype EditableShelf = EditableShelf(id: Option<ShelfId>, name: string, isNew: bool)

  const DuplicateMessage := "Shelf names must be unique"
  const LastShelfMessage := "You must have at least one bookshelf"

  /** How names are compared: trimmed and lower-cased. */
  function NameKey(name: string): string {
    Lower(Trim(name))
  }

  /** The rows the dialog starts from: the fetched shelves' ids and names. */
  function FromShelves(shelves: seq<Shelf>): (r: seq<EditableShelf>)
    ensures |r| == |shelves|
    ensures forall i :: 0 <= i < |r| ==> r[i] == EditableShelf(Some(shelves[i].id), shelves[i].name, false)
  {
    seq(|shelves|, i requires 0 <= i < |shelves| => EditableShelf(Some(shelves[i].id), shelves[i].name, false))
  }

  // ------------------------------------------------------------------ moving

  /** The list without the element at `i`. */
  function RemoveAt<T>(s: seq<T>, i: nat): (r: seq<T>)
    requires i < |s|
    ensures |r| == |s| - 1
    ensures forall k :: 0 <= k < i ==> r[k] == s[k]
    ensures forall k :: i <= k < |r| ==> r[k] == s[k + 1]
  {
    s[..i] + s[i + 1..]
  }

  /** `splice(from, 1)` and then `splice(to, 0, dragged)` on a copy. */
  function Move<T>(s: seq<T>, from: nat, to: nat): (r: seq<T>)
    requires from < |s| && to < |s|
    ensures |r| == |s|
    ensures r[to] == s[from]
    ensures RemoveAt(r, to) == RemoveAt(s, from)
  {
    var rest := RemoveAt(s, from);
    var r := rest[..to] + [s[from]] + rest[to..];
    assert RemoveAt(r, to) == rest;
    r
  }

  /** A move only reorders: the same rows, as many times each. */
  lemma MovePermutes<T>(s: seq<T>, from: nat, to: nat)
    requires from < |s| && to < |s|
    ensures multiset(Move(s, from, to)) == multiset(s)
  {
    var r := Move(s, from, to);
    assert r == r[..to] + [r[to]] + r[to + 1..];
    assert s == s[..from] + [s[from]] + s[from + 1..];
    assert RemoveAt(r, to) == r[..to] + r[to + 1..];
    assert RemoveAt(s, from) == s[..from] + s[from + 1..];
    calc {
      multiset(r);
      multiset(r[..to]) + multiset{r[to]} + multiset(r[to + 1..]);
      multiset(RemoveAt(r, to)) + multiset{r[to]};
      multiset(RemoveAt(s, from)) + multiset{s[from]};
      multiset(s[..from]) + multiset(s[from + 1..]) + multiset{s[from]};
      multiset(s);
    }
  }

  /** A row dragged back to where it came from restores the list. */
  lemma MoveBack<T>(s: seq<T>, from: nat, to: nat)
    requires from < |s| && to < |s|
    ensures Move(Move(s, from, to), to, from) == s
  {
    var r := Move(s, from, to);
    var back := Move(r, to, from);
    assert r[to] == s[from];
    assert RemoveAt(back, from) == RemoveAt(s, from);
    forall k | 0 <= k < |s| ensures back[k] == s[k] {
      if k < from {
        assert back[k] == RemoveAt(back, from)[k];
      } else if k > from {
        assert back[k] == RemoveAt(back, from)[k - 1];
      }
    }
  }

  // ------------------------------------------------------------ renaming, names

  /** Another row than `except` that already carries `name`, compared trimmed and lower-cased. */
  predicate Duplicate(shelves: seq<EditableShelf>, name: string, except: Option<nat>)
    decreases |shelves|
  {
    if shelves == [] then false
    else
      var k := |shelves| - 1;
      (Some(k) != except && NameKey(shelves[k].name) == Lower(name)) || Duplicate(shelves[..k], name, except)
  }

  /** A row other than `except` whose name matches makes the name a duplicate. */
  lemma {:induction false} DuplicateAt(shelves: seq<EditableShelf>, name: string, except: Option<nat>, i: nat)
    requires i < |shelves| && Some(i) != except && NameKey(shelves[i].name) == Lower(name)
    ensures Duplicate(shelves, name, except)
    decreases |shelves|
  {
    if i < |shelves| - 1 {
      DuplicateAt(shelves[..|shelves| - 1], name, except, i);
    }
  }

  /** A duplicate name is matched by some row other than `except`. */
  lemma {:induction false} DuplicateWitness(shelves: seq<EditableShelf>, name: string, except: Option<nat>)
    requires Duplicate(shelves, name, except)
    ensures exists i :: 0 <= i < |shelves| && Some(i) != except && NameKey(shelves[i].name) == Lower(name)
    decreases |shelves|
  {
    var k := |shelves| - 1;
    if !(Some(k) != except && NameKey(shelves[k].name) == Lower(name)) {
      DuplicateWitness(shelves[..k], name, except);
      var i :| 0 <= i < k && Some(i) != except && NameKey(shelves[..k][i].name) == Lower(name);
      assert shelves[..k][i] == shelves[i];
    }
  }

  /** The row at `index` renamed; the others as they were. */
  function Rename(shelves: seq<EditableShelf>, index: nat, name: string): (r: seq<EditableShelf>)
    ensures |r| == |shelves|
    ensures forall i :: 0 <= i < |r| && i != index ==> r[i] == shelves[i]
    ensures index < |r| ==> r[index] == shelves[index].(name := name)
  {
    seq(|shelves|, i requires 0 <= i < |shelves| => if i == index then shelves[i].(name := name) else shelves[i])
  }

  /** No two rows share a name, compared trimmed and lower-cased. */
  predicate UniqueNames(shelves: seq<EditableShelf>) {
    forall i, j :: 0 <= i < j < |shelves| ==> NameKey(shelves[i].name) != NameKey(shelves[j].name)
  }

  /** Every row has a name that is not blank once trimmed. */
  predicate AllNamed(shelves: seq<EditableShelf>) {
    forall i :: 0 <= i < |shelves| ==> Trim(shelves[i].name) != ""
  }

  /** A rename the checks accept keeps the names unique. */
  lemma RenameKeepsUnique(shelves: seq<EditableShelf>, index: nat, name: string)
    requires UniqueNames(shelves) && name == Trim(name) && !Duplicate(shelves, name, Some(index))
    ensures UniqueNames(Rename(shelves, index, name))
  {
    TrimIdempotent(name);
    var r := Rename(shelves, index, name);
    forall i, j | 0 <= i < j < |r| ensures NameKey(r[i].name) != NameKey(r[j].name) {
      if i == index {
        if NameKey(r[i].name) == NameKey(r[j].name) {
          DuplicateAt(shelves, name, Some(index), j);
        }
      } else if j == index {
        if NameKey(r[i].name) == NameKey(r[j].name) {
          DuplicateAt(shelves, name, Some(index), i);
        }
      }
    }
  }

  /** An added name the checks accept keeps the names unique. */
  lemma AppendKeepsUnique(shelves: seq<EditableShelf>, name: string)
    requires UniqueNames(shelves) && name == Trim(name) && !Duplicate(shelves, name, None)
    ensures UniqueNames(shelves + [EditableShelf(None, name, true)])
  {
    TrimIdempotent(name);
    var r := shelves + [EditableShelf(None, name, true)];
    forall i, j | 0 <= i < j < |r| ensures NameKey(r[i].name) != NameKey(r[j].name) {
      if j == |shelves| {
        assert r[i] == shelves[i];
        if NameKey(r[i].name) == NameKey(r[j].name) {
          DuplicateAt(shelves, name, None, i);
        }
      } else {
        assert r[i] == shelves[i] && r[j] == shelves[j];
      }
    }
  }

  /** An accepted rename keeps both name invariants of the list. */
  lemma RenameKeepsNames(shelves: seq<EditableShelf>, index: nat, name: string)
    requires name == Trim(name) && name != "" && !Duplicate(shelves, name, Some(index))
    ensures UniqueNames(shelves) ==> UniqueNames(Rename(shelves, index, name))
    ensures AllNamed(shelves) ==> AllNamed(Rename(shelves, index, name))
  {
    if UniqueNames(shelves) {
      RenameKeepsUnique(shelves, index, name);
    }
  }

  /** An accepted addition keeps both name invariants of the list. */
  lemma AppendKeepsNames(shelves: seq<EditableShelf>, name: string)
    requires name == Trim(name) && name != "" && !Duplicate(shelves, name, None)
    ensures UniqueNames(shelves) ==> UniqueNames(shelves + [EditableShelf(None, name, true)])
    ensures AllNamed(shelves) ==> AllNamed(shelves + [EditableShelf(None, name, true)])
  {
    if UniqueNames(shelves) {
      AppendKeepsUnique(shelves, name);
    }
    if AllNamed(shelves) {
      AppendKeepsNamed(shelves, EditableShelf(None, name, true));
    }
  }

  /** Adding a row with a name keeps every row named. */
  lemma AppendKeepsNamed(shelves: seq<EditableShelf>, row: EditableShelf)
    requires AllNamed(shelves) && Trim(row.name) != ""
    ensures AllNamed(shelves + [row])
  {
    var r := shelves + [row];
    forall i | 0 <= i < |r| ensures Trim(r[i].name) != "" {
      if i < |shelves| {
        assert r[i] == shelves[i];
      } else {
        assert r[i] == row;
      }
    }
  }

  /** Deleting a row keeps the names unique. */
  lemma RemoveKeepsUnique(shelves: seq<EditableShelf>, index: nat)
    requires UniqueNames(shelves) && index < |shelves|
    ensures UniqueNames(RemoveAt(shelves, index))
  {
    var r := RemoveAt(shelves, index);
    forall i, j | 0 <= i < j < |r| ensures NameKey(r[i].name) != NameKey(r[j].name) {
      var i' := if i < index then i else i + 1;
      var j' := if j < index then j else j + 1;
      assert r[i] == shelves[i'] && r[j] == shelves[j'];
    }
  }

  /** The index of the row that a move puts at `i`. */
  function MovedFrom(from: nat, to: nat, i: nat): nat {
    if i == to then from
    else
      var i' := if i < to then i else i - 1;
      if i' < from then i' else i' + 1
  }

  /** Every row after a move is the row `MovedFrom` names. */
  lemma MoveAt<T>(s: seq<T>, from: nat, to: nat, i: nat)
    requires from < |s| && to < |s| && i < |s|
    ensures MovedFrom(from, to, i) < |s| && Move(s, from, to)[i] == s[MovedFrom(from, to, i)]
  {
    var r := Move(s, from, to);
    if i != to {
      var i' := if i < to then i else i - 1;
      assert r[i] == RemoveAt(r, to)[i'] == RemoveAt(s, from)[i'];
    }
  }

  /** Different places after a move hold different rows of the original. */
  lemma MovedFromInjective(from: nat, to: nat, i: nat, j: nat)
    requires i != j
    ensures MovedFrom(from, to, i) != MovedFrom(from, to, j)
  {
  }

  /** Moving a row keeps the names unique. */
  lemma MoveKeepsUnique(shelves: seq<EditableShelf>, from: nat, to: nat)
    requires UniqueNames(shelves) && from < |shelves| && to < |shelves|
    ensures UniqueNames(Move(shelves, from, to))
  {
    var r := Move(shelves, from, to);
    forall i, j | 0 <= i < j < |r| ensures NameKey(r[i].name) != NameKey(r[j].name) {
      MoveAt(shelves, from, to, i);
      MoveAt(shelves, from, to, j);
      MovedFromInjective(from, to, i, j);
    }
  }

  /** The fields a rename or an addition changes. */
  datatype Outcome = Outcome(shelves: seq<EditableShelf>, editingIndex: Option<nat>, editingName: string,
                             newShelfName: string, error: string)

  /** `confirmRename` on the dialog's fields. */
  function ConfirmedRename(o: Outcome): Outcome {
    if o.editingIndex.None? || Trim(o.editingName) == "" then o
    else if Duplicate(o.shelves, Trim(o.editingName), o.editingIndex) then o.(error := DuplicateMessage)
    else o.(shelves := Rename(o.shelves, o.editingIndex.value, Trim(o.editingName)),
            editingIndex := None, editingName := "", error := "")
  }

  /**
    * What a rename does: without an edited row or with a blank name nothing changes; a
    * name another row already has only sets the error; otherwise the edited row takes
    * the trimmed name, editing ends and the error is cleared. The field for a new
    * shelf is never touched.
    */
  lemma ConfirmedRenameCases(o: Outcome)
    ensures var r := ConfirmedRename(o);
            && r.newShelfName == o.newShelfName
            && (o.editingIndex.None? || Trim(o.editingName) == "" ==> r == o)
            && ((o.editingIndex.Some? && Trim(o.editingName) != ""
                 && Duplicate(o.shelves, Trim(o.editingName), o.editingIndex)) ==> r == o.(error := DuplicateMessage))
            && ((o.editingIndex.Some? && Trim(o.editingName) != ""
                 && !Duplicate(o.shelves, Trim(o.editingName), o.editingIndex)) ==>
                  && r.shelves == Rename(o.shelves, o.editingIndex.value, Trim(o.editingName))
                  && r.editingIndex.None? && r.editingName == "" && r.error == "")
  {
  }

  /** A rename leaves the field for a new shelf alone. */
  lemma ConfirmedRenameKeepsDraft(o: Outcome)
    ensures ConfirmedRename(o).newShelfName == o.newShelfName
  {
  }

  /** A rename changes no row but the edited one. */
  lemma ConfirmedRenameKeepsRows(o: Outcome)
    ensures var r := ConfirmedRename(o);
            && |r.shelves| == |o.shelves|
            && (forall i :: 0 <= i < |o.shelves| && Some(i) != o.editingIndex ==> r.shelves[i] == o.shelves[i])
  {
    var name := Trim(o.editingName);
    if o.editingIndex.None? || name == "" || Duplicate(o.shelves, name, o.editingIndex) {
      assert ConfirmedRename(o).shelves == o.shelves;
    } else {
      assert ConfirmedRename(o).shelves == Rename(o.shelves, o.editingIndex.value, name);
    }
  }

  /** A rename keeps the names unique and non-blank. */
  lemma ConfirmedRenameKeepsNames(o: Outcome)
    ensures UniqueNames(o.shelves) ==> UniqueNames(ConfirmedRename(o).shelves)
    ensures AllNamed(o.shelves) ==> AllNamed(ConfirmedRename(o).shelves)
  {
    var name := Trim(o.editingName);
    if o.editingIndex.None? || name == "" || Duplicate(o.shelves, name, o.editingIndex) {
      assert ConfirmedRename(o).shelves == o.shelves;
    } else {
      assert ConfirmedRename(o).shelves == Rename(o.shelves, o.editingIndex.value, name);
      TrimIdempotent(o.editingName);
      RenameKeepsNames(o.shelves, o.editingIndex.value, name);
    }
  }

  /** `handleAddShelf` on the dialog's fields. */
  function AddedShelf(o: Outcome): Outcome {
    if Trim(o.newShelfName) == "" then o
    else if Duplicate(o.shelves, Trim(o.newShelfName), None) then o.(error := DuplicateMessage)
    else o.(shelves := o.shelves + [EditableShelf(None, Trim(o.newShelfName), true)], newShelfName := "", error := "")
  }

  /**
    * What an addition does: a blank name changes nothing; a name a row already has only
    * sets the error; otherwise a new row with the trimmed name goes at the end and the
    * field and the error are cleared. Editing is never touched.
    */
  lemma AddedShelfCases(o: Outcome)
    ensures var r := AddedShelf(o);
            && r.editingIndex == o.editingIndex && r.editingName == o.editingName
            && (Trim(o.newShelfName) == "" ==> r == o)
            && (Trim(o.newShelfName) != "" && Duplicate(o.shelves, Trim(o.newShelfName), None) ==>
                  r == o.(error := DuplicateMessage))
            && (Trim(o.newShelfName) != "" && !Duplicate(o.shelves, Trim(o.newShelfName), None) ==>
                  && r.shelves == o.shelves + [EditableShelf(None, Trim(o.newShelfName), true)]
                  && r.newShelfName == "" && r.error == "")
  {
  }

  /** An addition leaves the rename in progress alone. */
  lemma AddedShelfKeepsEditing(o: Outcome)
    ensures AddedShelf(o).editingIndex == o.editingIndex && AddedShelf(o).editingName == o.editingName
  {
  }

  /** An addition keeps every row there was, in place, and adds at most one. */
  lemma AddedShelfKeepsRows(o: Outcome)
    ensures var r := AddedShelf(o);
            && |o.shelves| <= |r.shelves| <= |o.shelves| + 1 && r.shelves[..|o.shelves|] == o.shelves
  {
    var name := Trim(o.newShelfName);
    if name == "" || Duplicate(o.shelves, name, None) {
      assert AddedShelf(o).shelves == o.shelves;
    } else {
      var added := o.shelves + [EditableShelf(None, name, true)];
      assert AddedShelf(o).shelves == added;
      assert added[..|o.shelves|] == o.shelves;
    }
  }

  /** An addition keeps the names unique and non-blank. */
  lemma AddedShelfKeepsNames(o: Outcome)
    ensures UniqueNames(o.shelves) ==> UniqueNames(AddedShelf(o).shelves)
    ensures AllNamed(o.shelves) ==> AllNamed(AddedShelf(o).shelves)
  {
    var name := Trim(o.newShelfName);
    if name == "" || Duplicate(o.shelves, name, None) {
      assert AddedShelf(o).shelves == o.shelves;
    } else {
      assert AddedShelf(o).shelves == o.shelves + [EditableShelf(None, name, true)];
      TrimIdempotent(o.newShelfName);
      AppendKeepsNames(o.shelves, name);
    }
  }

  // ------------------------------------------------------------------ saving

  /** The body of the save request: the rows in order, with no id for the rows added here. */
  function SavePayload(shelves: seq<EditableShelf>): (r: seq<ShelfReorder.ShelfInput>)
    ensures |r| == |shelves|
    ensures forall i :: 0 <= i < |r| ==>
      r[i] == ShelfReorder.ShelfInput(if shelves[i].isNew then None else shelves[i].id, Some(shelves[i].name))
  {
    seq(|shelves|, i requires 0 <= i < |shelves| =>
      ShelfReorder.ShelfInput(if shelves[i].isNew then None else shelves[i].id, Some(shelves[i].name)))
  }

  /** A list the editor keeps named and unique passes the save route's two name checks. */
  lemma PayloadPassesNameChecks(shelves: seq<EditableShelf>)
    requires AllNamed(shelves) && UniqueNames(shelves)
    ensures ShelfReorder.AllNamed(SavePayload(shelves))
    ensures ShelfReorder.Distinct(ShelfReorder.NameKeys(SavePayload(shelves)))
  {
    var p := SavePayload(shelves);
    assert ShelfReorder.AllNamed(p) by {
      forall i | 0 <= i < |p| ensures ShelfReorder.Named(p[i]) {
        assert p[i].name == Some(shelves[i].name);
      }
    }
    var keys := ShelfReorder.NameKeys(p);
    forall i, j | 0 <= i < j < |keys| ensures keys[i] != keys[j] {
      assert keys[i] == NameKey(shelves[i].name) && keys[j] == NameKey(shelves[j].name);
    }
  }

  // ------------------------------------------------------------------ the dialog

  class Editor {
    var shelves: seq<EditableShelf>
    var editingIndex: Option<nat>
    var editingName: string
    var newShelfName: string
    var error: string
    /** The drag refs: the row picked up and the row currently dragged over. */
    var dragIndex: Option<nat>
    var dragOverIndex: Option<nat>

    constructor (initial: seq<Shelf>)
      ensures shelves == FromShelves(initial)
      ensures editingIndex.None? && editingName == "" && newShelfName == "" && error == ""
      ensures dragIndex.None? && dragOverIndex.None?
    {
      shelves := FromShelves(initial);
      editingIndex := None;
      editingName := "";
      newShelfName := "";
      error := "";
      dragIndex, dragOverIndex := None, None;
    }

    /** Opening the dialog starts over from the given shelves; closing it keeps the state. */
    method HandleOpenChange(isOpen: bool, initial: seq<Shelf>)
      modifies this
      ensures isOpen ==>
        shelves == FromShelves(initial) && editingIndex.None? && newShelfName == "" && error == ""
      ensures !isOpen ==>
        shelves == old(shelves) && editingIndex == old(editingIndex)
        && newShelfName == old(newShelfName) && error == old(error)
      ensures editingName == old(editingName)
      ensures dragIndex == old(dragIndex) && dragOverIndex == old(dragOverIndex)
    {
      if isOpen {
        shelves := FromShelves(initial);
        editingIndex := None;
        newShelfName := "";
        error := "";
      }
    }

    method HandleDragStart(index: nat)
      modifies this
      ensures dragIndex == Some(index)
      ensures shelves == old(shelves) && dragOverIndex == old(dragOverIndex)
      ensures editingIndex == old(editingIndex) && editingName == old(editingName)
      ensures newShelfName == old(newShelfName) && error == old(error)
    {
      dragIndex := Some(index);
    }

    method HandleDragOver(index: nat)
      modifies this
      ensures dragOverIndex == Some(index)
      ensures shelves == old(shelves) && dragIndex == old(dragIndex)
      ensures editingIndex == old(editingIndex) && editingName == old(editingName)
      ensures newShelfName == old(newShelfName) && error == old(error)
    {
      dragOverIndex := Some(index);
    }

    method HandleDragEnd()
      modifies this
      ensures dragIndex.None? && dragOverIndex.None?
      ensures shelves == old(shelves)
      ensures editingIndex == old(editingIndex) && editingName == old(editingName)
      ensures newShelfName == old(newShelfName) && error == old(error)
    {
      dragIndex, dragOverIndex := None, None;
    }

    /**
      * A drop moves the dragged row to the row dragged over and clears both refs.
      * Without both refs, or onto itself, nothing happens (and the refs stay as they are).
      */
    method HandleDrop()
      requires dragIndex.Some? ==> dragIndex.value < |shelves|
      requires dragOverIndex.Some? ==> dragOverIndex.value < |shelves|
      modifies this
      ensures if old(dragIndex).None? || old(dragOverIndex).None? || old(dragIndex) == old(dragOverIndex) then
          shelves == old(shelves) && dragIndex == old(dragIndex) && dragOverIndex == old(dragOverIndex)
        else
          shelves == Move(old(shelves), old(dragIndex).value, old(dragOverIndex).value)
          && dragIndex.None? && dragOverIndex.None?
      ensures editingIndex == old(editingIndex) && editingName == old(editingName)
      ensures newShelfName == old(newShelfName) && error == old(error)
    {
      if dragIndex.None? || dragOverIndex.None? {
        return;
      }
      if dragIndex == dragOverIndex {
        return;
      }
      shelves := Move(shelves, dragIndex.value, dragOverIndex.value);
      dragIndex, dragOverIndex := None, None;
    }

    method StartEditing(index: nat)
      requires index < |shelves|
      modifies this
      ensures editingIndex == Some(index) && editingName == old(shelves)[index].name
      ensures shelves == old(shelves) && newShelfName == old(newShelfName) && error == old(error)
      ensures dragIndex == old(dragIndex) && dragOverIndex == old(dragOverIndex)
    {
      editingIndex := Some(index);
      editingName := shelves[index].name;
    }

    method CancelRename()
      modifies this
      ensures editingIndex.None? && editingName == "" && error == ""
      ensures shelves == old(shelves) && newShelfName == old(newShelfName)
      ensures dragIndex == old(dragIndex) && dragOverIndex == old(dragOverIndex)
    {
      editingIndex := None;
      editingName := "";
      error := "";
    }

    /** The dialog's fields as one value. */
    function Fields(): Outcome
      reads this
    {
      Outcome(shelves, editingIndex, editingName, newShelfName, error)
    }

    /** Confirming a rename: the fields become `ConfirmedRename` of the old ones. */
    method ConfirmRename()
      modifies this
      ensures Fields() == ConfirmedRename(old(Fields()))
      ensures dragIndex == old(dragIndex) && dragOverIndex == old(dragOverIndex)
    {
      ghost var o := Fields();
      var r := ConfirmedRename(Fields());
      ConfirmedRenameKeepsDraft(o);
      shelves, editingIndex, editingName, error := r.shelves, r.editingIndex, r.editingName, r.error;
    }

    /**
      * Deleting the row at `index`, refused while it is the only row. Editing stops only
      * when the deleted row is the one being edited; an edited row further down keeps
      * its index, which after the delete names the row that followed it.
      */
    method HandleDelete(index: nat)
      requires index < |shelves|
      modifies this
      ensures |old(shelves)| <= 1 ==>
        && shelves == old(shelves) && editingIndex == old(editingIndex)
        && editingName == old(editingName) && error == LastShelfMessage
      ensures |old(shelves)| > 1 ==>
        && shelves == RemoveAt(old(shelves), index) && error == ""
        && (old(editingIndex) == Some(index) ==> editingIndex.None? && editingName == "")
        && (old(editingIndex) != Some(index) ==>
              editingIndex == old(editingIndex) && editingName == old(editingName))
      ensures |shelves| >= 1
      ensures UniqueNames(old(shelves)) ==> UniqueNames(shelves)
      ensures AllNamed(old(shelves)) ==> AllNamed(shelves)
      ensures newShelfName == old(newShelfName)
      ensures dragIndex == old(dragIndex) && dragOverIndex == old(dragOverIndex)
    {
      if |shelves| <= 1 {
        error := LastShelfMessage;
        return;
      }
      if UniqueNames(shelves) {
        RemoveKeepsUnique(shelves, index);
      }
      shelves := RemoveAt(shelves, index);
      if editingIndex == Some(index) {
        editingIndex := None;
        editingName := "";
      }
      error := "";
    }

    /** Adding a shelf: the fields become `AddedShelf` of the old ones. */
    method HandleAddShelf()
      modifies this
      ensures Fields() == AddedShelf(old(Fields()))
      ensures dragIndex == old(dragIndex) && dragOverIndex == old(dragOverIndex)
    {
      ghost var o := Fields();
      var r := AddedShelf(Fields());
      AddedShelfKeepsEditing(o);
      shelves, newShelfName, error := r.shelves, r.newShelfName, r.error;
    }
  }
}
