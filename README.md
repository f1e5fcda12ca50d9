# book-tagger in Dafny

book-tagger is a web application where readers tag books and vote tags up or down. They explore books
by include and exclude tag filters, keep books on shelves, and keep preferences about tags. This
project models the sequential logic underneath the pages and routes, in Dafny, and proves what it
promises.

The model covers:

- **Vote store.** The vote store is the `book_tags` table: one row per (book, tag, user), holding 1
  or -1.
  - The vote route deletes a row on 0 and upserts it on ±1.
  - The add route upserts +1, then reports the summed score and the caller's own value.
  - The vote control on the book page changes score and value optimistically and rolls back on
    failure. A proof connects its optimistic score to the table's score after the request.
- **Explore route.** The explore route parses the include and exclude lists and sums the votes into
  per-book tag scores with a loop over a nested dictionary. It then filters, computes match score
  and popularity, and sorts stably.
- **Tag section.** The per-book tag list is sorted by score or name and grouped by category, with the
  groups in display order. It has updates for a settled vote and for an added tag.
- **Shelves.**
  - The shelf list and shelf creation routes.
  - The bulk save of the shelf editor: validation, the delete set, and the update-or-insert loop
    that gives the i-th shelf display order i.
  - The editor dialog itself: drag to move, rename, delete and add, with names unique trimmed and
    case-insensitively.
  - The shelf toggle button, with optimistic marks and rollback.
- **Tag preferences and "my tags".** The three tag preference icons, and the "my tags" route that
  counts votes per tag and sorts.
- **Validators.**
  - Tag-name validation and normalisation for tag proposals, with the add-tag box that uses it.
  - Account field validation and normalisation, in that route's order.
- **Author and theme helpers.** The author helpers, and theme resolution.
- **Page state.** The state of the explore and my-books pages, and the tag filter picker they share.

JavaScript's `Array.prototype.sort` is stable since ES2019. It is modelled as a stable insertion sort
(`Sorting.SortBy`). The model proves that sort is a permutation, ordered and stable, and
`Sorting.SortInPlace` sorts an array in place to the same result. Sums over `Object.values` or over
table rows are order-independent sums over maps (`MapSums.Sum`).

Every database call becomes an abstract table or a parameter:

- Tables are classes with `map`/`seq` fields.
- The signed-in user is a `user: Option<UserId>` parameter.
- A query's outcome is a boolean or an `Option` error parameter.

Client components are classes whose fields are the component's state. An asynchronous handler is
split in two methods at the `await`. The first runs up to the request and returns the request. The
second, `Settle`, takes the outcome.

Some behaviour is modelled exactly as the source has it:

- The tag-name message says "under 40 characters", while a trimmed length of exactly 40 is accepted
  by `src/app/api/tags/propose/route.ts:23-24`. The model accepts 40, as the code does.
- The tag filter picker starts a search only when the trimmed query has two characters. It draws its
  dropdown, and "No matching tags", when the untrimmed query has two characters
  (`src/components/TagFilterInput.tsx:55,131`; `TagFilterInput.TagFilterBox.NoMatchShown`).
- The shelf editor's delete keeps `editingIndex` when another row is deleted. After the delete of an
  earlier row, that index names the row that followed the one being edited.
- The shelf list route orders by `position` (`src/app/api/bookshelves/route.ts:21`). The bulk save orders by
  `display_order` (`src/app/api/bookshelves/reorder/route.ts:100`). Each is modelled as written.
- The vote control's press-twice-restores holds only from no vote or from the pressed vote itself.
  From the opposite vote, two presses end at no vote.

## Model

| member | source | states |
|---|---|---|
| BookTags.Slice | src/app/api/tags/add/route.ts:60-66 | the rows of one (book, tag) pair: exactly the table's rows with that book and tag, values unchanged |
| BookTags.Apply | src/app/api/tags/vote/route.ts:29-51 | a vote of 0 removes the caller's row and ±1 upserts it; no other key is added, removed or changed, and the caller's own value afterwards is the voted value |
| BookTags.ApplyIdempotent | src/app/api/tags/vote/route.ts:40-51 | repeating the same vote leaves the table as one vote does (the upsert is keyed on book, tag and user) |
| BookTags.SliceOfApply | src/app/api/tags/vote/route.ts:33-36 | a vote changes only its own (book, tag) slice, and that slice as the vote applied to it |
| BookTags.ScoreOfApply | src/app/api/tags/vote/route.ts:29-51 | a vote moves its own (book, tag) score by the change of the caller's value and no other score |
| BookTags.ScoreBounded | src/app/api/tags/vote/route.ts:12-14 | with values in -1..1, a score lies between minus and plus the number of voters |
| VoteRoute.Post | src/app/api/tags/vote/route.ts:6-58 | invalid input gives 400 "Invalid data" before the auth check, no user gives 401, a store error gives 500; otherwise success and the table becomes Apply of the caller's key and value; the table keeps only ±1 values |
| VoteRoute.RejectsOutOfRange | src/app/api/tags/vote/route.ts:12-14 | with both ids present, the input is rejected exactly when the value is missing or outside 1, -1, 0 |
| AddTagRoute.TagWithVotes | src/app/api/tags/add/route.ts:70-81 | the returned record copies the tag row, carries score and value, and a missing category gives name "" and order 0 |
| AddTagRoute.Post | src/app/api/tags/add/route.ts:5-84 | missing ids give 400 before auth, no user 401, failed upsert 500; otherwise the caller's vote becomes 1, and the answer is the tag with the summed (book, tag) score and the caller's value 1 (0 and 0 when the votes read returns nothing), or 500 when the tag row is missing |
| AddTagRoute.ReportedScore | src/app/api/tags/add/route.ts:23-69 | the reported score is the previous score minus the caller's previous value plus 1 |
| TagVoteControl.NewValue | src/components/TagVote.tsx:21 | the new value is in -1..1, it is 0 exactly when the pressed button was the current value, and otherwise the pressed value |
| TagVoteControl.OptimisticScore | src/components/TagVote.tsx:28-31 | the optimistic update keeps score minus own value unchanged |
| TagVoteControl.TagVote.constructor | src/components/TagVote.tsx:14-17 | starts idle with the initial score and value |
| TagVoteControl.TagVote.Vote | src/components/TagVote.tsx:19-40 | while loading nothing changes and nothing is sent; otherwise the previous score and value are saved, the new value and optimistic score are shown, the parent is told, and the request carries the new value; score minus value is preserved |
| TagVoteControl.TagVote.Settle | src/components/TagVote.tsx:41-51 | on failure score and value return exactly to the saved ones and the parent is told those; on success they stay; loading ends |
| TagVoteControl.TwicePressedRestores | src/components/TagVote.tsx:21-31 | from no vote or the pressed vote, pressing the same button twice restores value and score |
| TagVoteControl.TwicePressedFromOpposite | src/components/TagVote.tsx:21-31 | from the opposite vote, two presses end at no vote, with the score moved by the pressed value |
| TagVoteControl.OptimisticMatchesServer | src/components/TagVote.tsx:21-32 | when the control shows the table's score and own value, applying the request it sends gives exactly the optimistic score and the new value in the table |
| ExploreRoute.NonEmpty | src/app/api/books/explore/route.ts:8-9 | keeps exactly the non-empty segments |
| ExploreRoute.ParseIdList | src/app/api/books/explore/route.ts:8-9 | a missing parameter gives no ids; every id is non-empty and holds no comma |
| ExploreRoute.NonEmptyOfNonEmpty | src/app/api/books/explore/route.ts:8-9 | dropping empty segments from a list without any changes nothing |
| ExploreRoute.ParseJoinedIds | src/app/api/books/explore/route.ts:8-9 | ids joined with commas (or no parameter for none) parse back to the same ids |
| ExploreRoute.TagScores | src/app/api/books/explore/route.ts:52-61 | a book's score table has exactly the tags with rows on that book |
| ExploreRoute.AccumulateScores | src/app/api/books/explore/route.ts:52-61 | the loop leaves, for every book, the sum of values per tag over that book's rows |
| ExploreRoute.AccumulateStep | src/app/api/books/explore/route.ts:54-60 | one loop step adds the row's value to its own (book, tag) entry and changes nothing else |
| ExploreRoute.AddRow | src/app/api/books/explore/route.ts:54-60 | the row's value is added to its (book, tag) entry, which starts from 0 when missing; all other entries are kept |
| ExploreRoute.StepOtherBook | src/app/api/books/explore/route.ts:54-60 | a row of another book changes neither this book's tags nor its scores |
| ExploreRoute.StepOwnBook | src/app/api/books/explore/route.ts:54-60 | a row of this book adds its tag, adds its value to that tag's sum, and leaves the other tags' sums alone |
| ExploreRoute.StepOwnScores | src/app/api/books/explore/route.ts:54-60 | updating the book's score table with the row gives the score table of the longer prefix |
| ExploreRoute.RowSumAbsent | src/app/api/books/explore/route.ts:92 | a tag without rows on a book scores 0 |
| ExploreRoute.RowSumAppend | src/app/api/books/explore/route.ts:53-61 | the score over two runs of rows is the sum of the scores over each |
| ExploreRoute.RowSumPermutation | src/app/api/books/explore/route.ts:52-61 | a score does not depend on the order of the rows |
| ExploreRoute.ScoresIgnoreRowOrder | src/app/api/books/explore/route.ts:52-61 | the whole score table of a book is the same for any order of the same rows |
| ExploreRoute.HasAllIncluded | src/app/api/books/explore/route.ts:69-71 | true exactly when every include tag has a defined positive score |
| ExploreRoute.HasAnyExcluded | src/app/api/books/explore/route.ts:77-79 | true exactly when some exclude tag has a defined positive score |
| ExploreRoute.PassesIff | src/app/api/books/explore/route.ts:64-84 | a book passes exactly when every include tag is positive on it and no exclude tag is; an empty list imposes nothing |
| ExploreRoute.OverlapExcludesAll | src/app/api/books/explore/route.ts:68-81 | a tag both included and excluded lets no book through |
| ExploreRoute.MatchScore | src/app/api/books/explore/route.ts:91-93 | absent tags count 0: with none present it is 0, and with all positive it is at least the number of include tags |
| ExploreRoute.Clamped | src/app/api/books/explore/route.ts:96-99 | every score with negatives raised to 0, same tags |
| ExploreRoute.PopularityOf | src/app/api/books/explore/route.ts:96-99 | popularity is the sum of max(0, score), never negative and at least each tag's score |
| ExploreRoute.Scored | src/app/api/books/explore/route.ts:87-102 | each filtered book with its match score and popularity, in order |
| ExploreRoute.Get | src/app/api/books/explore/route.ts:4-115 | a books read error gives 500, no books gives an empty body with total 0; otherwise the body is the filtered, scored and sorted books and total is their count |
| ExploreRoute.ScoreEach | src/app/api/books/explore/route.ts:87-102 | a fresh array holding each book's scores in filtered order |
| ExploreRoute.RankedPass | src/app/api/books/explore/route.ts:64-84 | every returned book was fetched and passes the filter |
| ExploreRoute.ScoredFrom | src/app/api/books/explore/route.ts:87-102 | every scored result is one of the filtered books |
| ExploreRoute.FilteredPass | src/app/api/books/explore/route.ts:64-84 | every filtered book was fetched and passes the include and exclude test |
| ExploreRoute.PassingRanked | src/app/api/books/explore/route.ts:64-115 | every fetched book that passes is returned, and the count is the number passing |
| ExploreRoute.RankedOrder | src/app/api/books/explore/route.ts:105-110 | by match score descending when sort is best_match with an include list, else by popularity descending; equal keys keep the filtered order |
| ExploreRoute.MatchScoreOfPassing | src/app/api/books/explore/route.ts:68-93 | with an include list, a passing book has match score at least its length |
| TagSection.TagOrderWeak | src/components/TagSection.tsx:20-25 | both comparators are consistent orders, so the sort is well defined |
| TagSection.SortedTags | src/components/TagSection.tsx:19-27 | the copy is sorted in place to the stable sort of the tags |
| TagSection.SortedTagsOrder | src/components/TagSection.tsx:19-27 | the sorted list is a permutation, highest score first or names ascending, and tied tags keep their order |
| TagSection.CategoryKeys | src/components/TagSection.tsx:30-41 | the category keys, each once, exactly those some tag uses |
| TagSection.FirstIn | src/components/TagSection.tsx:33-37 | the first tag of a category is a tag of that category |
| TagSection.GroupsInKeyOrder | src/components/TagSection.tsx:42 | one group per category key |
| TagSection.Grouped | src/components/TagSection.tsx:30-43 | the grouping loop's map, read out in key order and sorted by display order |
| TagSection.Collect | src/components/TagSection.tsx:31-41 | the loop leaves one entry per category, in first-use order, holding that category's tags in order |
| TagSection.AddTag | src/components/TagSection.tsx:33-40 | an unseen category gets a new group named after the tag's category; the tag is appended to its category's group; no other entry changes |
| TagSection.ReadOut | src/components/TagSection.tsx:42 | the map's values in key order, in a fresh array |
| TagSection.GroupedStep | src/components/TagSection.tsx:32-40 | one loop step keeps the map equal to the groups of the tags so far |
| TagSection.GroupNew | src/components/TagSection.tsx:33-40 | a tag of a category not seen before opens a group named after its category, holding just that tag |
| TagSection.GroupJoin | src/components/TagSection.tsx:40 | a tag of a category already seen goes at the end of that category's group; the name and order stay those of the first tag |
| TagSection.GroupOther | src/components/TagSection.tsx:32-41 | a tag leaves the group of every other category unchanged |
| TagSection.GroupedStepKeys | src/components/TagSection.tsx:32-41 | after one more tag the map's keys are the categories in first-use order, each once |
| TagSection.GroupedStepValues | src/components/TagSection.tsx:32-41 | after one more tag every map entry holds its category's group of the tags so far |
| TagSection.FirstInPrefix | src/components/TagSection.tsx:33-37 | later tags do not change a category's first tag |
| TagSection.FirstInAfter | src/components/TagSection.tsx:33-37 | a tag of a new category is that category's first tag |
| TagSection.GroupsPartition | src/components/TagSection.tsx:30-41 | every tag lands in exactly one group |
| TagSection.GroupedOrder | src/components/TagSection.tsx:42 | the groups come out ascending by display order, none lost or duplicated |
| TagSection.ApplyVote | src/components/TagSection.tsx:45-53 | same length and order; only the tag with that id changes, and only its score and own value |
| TagSection.ApplyVoteIdempotent | src/components/TagSection.tsx:45-53 | applying the same settled vote twice equals once |
| TagSection.AddOrReplace | src/components/TagSection.tsx:55-64 | a tag with the same id is replaced in place, otherwise the new tag is appended |
| TagSection.AddOrReplaceKeepsIdsUnique | src/components/TagSection.tsx:55-64 | the new tag is present, the list grows by at most one, and unique ids stay unique |
| TagSection.AddOrReplaceIdempotent | src/components/TagSection.tsx:55-64 | adding the same tag twice equals adding it once |
| TagSection.Capitalize | src/components/TagSection.tsx:67-69 | same length, a lower-case first letter becomes upper-case, everything else unchanged |
| TagSection.CapitalizeIdempotent | src/components/TagSection.tsx:67-69 | capitalising twice equals once |
| ShelfTable.IdsBelow | src/app/api/bookshelves/route.ts:16-22 | the ids in use below a bound, increasing, each once |
| ShelfTable.RowsBelow | src/app/api/bookshelves/route.ts:16-22 | the rows of those ids, in id order |
| ShelfTable.RowsBelowMembers | src/app/api/bookshelves/route.ts:16-22 | every stored row is listed once and nothing else is |
| ShelfTable.UpdateRow | src/app/api/bookshelves/reorder/route.ts:70-75 | the update touches only the row with that id and the caller's user id, setting name and display order |
| ShelfTable.DeleteRows | src/app/api/bookshelves/reorder/route.ts:53-58 | removes exactly the caller's rows among the ids, leaves every other row as it was |
| ShelfTable.Table.Insert | src/app/api/bookshelves/route.ts:73-77 | a new row under a fresh id, nothing else changes |
| ShelfTable.Table.Update | src/app/api/bookshelves/reorder/route.ts:70-75 | the table becomes UpdateRow of its rows |
| ShelfTable.Table.Delete | src/app/api/bookshelves/reorder/route.ts:53-58 | the table becomes DeleteRows of its rows |
| BookshelvesRoute.WithBookStatus | src/app/api/bookshelves/route.ts:38-43 | the same shelves in the same order, each marked exactly when an entry links it to the book |
| BookshelvesRoute.Get | src/app/api/bookshelves/route.ts:6-47 | no user gives 401, a read error 500; otherwise the caller's shelves by position, plain without a book id, marked with a book id |
| BookshelvesRoute.UserRowsMembers | src/app/api/bookshelves/route.ts:16-22 | the listed rows are exactly the caller's |
| BookshelvesRoute.ListedByPosition | src/app/api/bookshelves/route.ts:16-22 | the listing is exactly the caller's shelves, each once, ascending by position |
| BookshelvesRoute.NextPosition | src/app/api/bookshelves/route.ts:63-71 | above every existing position, 0 without shelves, otherwise one more than an existing position |
| BookshelvesRoute.Post | src/app/api/bookshelves/route.ts:49-84 | no user 401, missing or blank name 400, insert error 500, all without change; otherwise a new shelf with the trimmed name at the next position |
| BookshelvesRoute.NewShelfGoesLast | src/app/api/bookshelves/route.ts:63-71 | a new shelf's position is after every shelf the caller has |
| ShelfReorder.CheckNames | src/app/api/bookshelves/reorder/route.ts:23-27 | the validation loop accepts exactly when every shelf has a non-blank name |
| ShelfReorder.NameKeys | src/app/api/bookshelves/reorder/route.ts:30-31 | one comparison key per shelf |
| ShelfReorder.SetSizeIffDistinct | src/app/api/bookshelves/reorder/route.ts:30-34 | the set of names has as many elements as the list exactly when no name repeats |
| ShelfReorder.OwnedIds | src/app/api/bookshelves/reorder/route.ts:43-48 | exactly the ids of the caller's shelves |
| ShelfReorder.InputIds | src/app/api/bookshelves/reorder/route.ts:50 | exactly the ids the submitted list carries |
| ShelfReorder.Entries | src/app/api/bookshelves/reorder/route.ts:65-68 | each submitted shelf with its id and trimmed name, in order |
| ShelfReorder.FirstFailure | src/app/api/bookshelves/reorder/route.ts:65-93 | the index of the first failing write, or the count when none fails |
| ShelfReorder.FirstFailureAt | src/app/api/bookshelves/reorder/route.ts:65-93 | the first failing index is determined by the earlier writes alone |
| ShelfReorder.Put | src/app/api/bookshelves/reorder/route.ts:5-107 | the error cascade 401, 400 "at least one bookshelf", 400 names, 400 unique, each without change; then the delete of the caller's shelves absent from the input (500 on error), then the writes in order, stopping at the first failure with 500, else the caller's shelves by display order |
| ShelfReorder.Save | src/app/api/bookshelves/reorder/route.ts:43-100 | the delete, the writes and the final read, as in Put |
| ShelfReorder.DeleteStale | src/app/api/bookshelves/reorder/route.ts:51-58 | the caller's shelves in the given set are deleted and nothing else |
| ShelfReorder.ReadSorted | src/app/api/bookshelves/reorder/route.ts:95-100 | the caller's shelves, sorted by display order with ties kept in table order |
| ShelfReorder.WriteShelf | src/app/api/bookshelves/reorder/route.ts:69-92 | a known id is updated, any other entry is inserted with its index as display order |
| ShelfReorder.WriteAll | src/app/api/bookshelves/reorder/route.ts:65-93 | the loop performs the writes up to the first failure and reports that failure |
| ShelfReorder.WritesPlace | src/app/api/bookshelves/reorder/route.ts:65-93 | after k writes each written row is in place and every other row as it started |
| ShelfReorder.PlacedStep | src/app/api/bookshelves/reorder/route.ts:69-92 | one more write keeps the rows in place |
| ShelfReorder.CallerRowsWritten | src/app/api/bookshelves/reorder/route.ts:43-93 | after a complete save every row of the caller is the row written for some index |
| ShelfReorder.SavedEntriesWritten | src/app/api/bookshelves/reorder/route.ts:65-93 | after a complete save every index's row is in place |
| ShelfReorder.SavedEntriesNamed | src/app/api/bookshelves/reorder/route.ts:65-93 | after a complete save each caller row has the name of the entry at its display order |
| ShelfReorder.SavedEntriesUnique | src/app/api/bookshelves/reorder/route.ts:65-93 | after a complete save no two caller rows share a display order |
| ShelfReorder.SaveStart | src/app/api/bookshelves/reorder/route.ts:43-62 | after the delete, the known shelves are the caller's and cover the caller's rows |
| ShelfReorder.SavedHasEveryShelf | src/app/api/bookshelves/reorder/route.ts:65-93 | for each index i some caller shelf has display order i and the trimmed i-th name |
| ShelfReorder.SavedHasNoOtherShelf | src/app/api/bookshelves/reorder/route.ts:43-93 | the caller has no other shelves: each is named after its index |
| ShelfReorder.SavedOrdersUnique | src/app/api/bookshelves/reorder/route.ts:65-93 | no two of the caller's shelves share a display order |
| ShelfReorder.SavedKeepsKnownRows | src/app/api/bookshelves/reorder/route.ts:69-76 | a submitted shelf of the caller keeps its row, with display order its index |
| ShelfReorder.WritesKeepOthers | src/app/api/bookshelves/reorder/route.ts:57-74 | the writes leave other users' shelves exactly as they were |
| ShelfReorder.SaveKeepsOthers | src/app/api/bookshelves/reorder/route.ts:57-74 | the delete and the writes leave another user's shelf as it was |
| EditShelves.FromShelves | src/components/EditShelvesModal.tsx:48-57 | one editable row per fetched shelf, with its id and name |
| EditShelves.RemoveAt | src/components/EditShelvesModal.tsx:121-126 | the list without that index, the others in order |
| EditShelves.Move | src/components/EditShelvesModal.tsx:72-74 | the dragged row lands at the target index, and removing it there gives the list without it at the source |
| EditShelves.MovePermutes | src/components/EditShelvesModal.tsx:72-74 | a move is a permutation |
| EditShelves.MoveBack | src/components/EditShelvesModal.tsx:72-74 | moving back restores the list |
| EditShelves.Rename | src/components/EditShelvesModal.tsx:106-108 | only the edited row changes, and only its name |
| EditShelves.DuplicateAt | src/components/EditShelvesModal.tsx:98-100 | any row other than the excepted one whose trimmed lower-cased name matches makes the name a duplicate |
| EditShelves.DuplicateWitness | src/components/EditShelvesModal.tsx:98-100 | a duplicate name is matched by some row other than the excepted one |
| EditShelves.RenameKeepsUnique | src/components/EditShelvesModal.tsx:98-108 | a rename that passes the duplicate check keeps names unique |
| EditShelves.AppendKeepsUnique | src/components/EditShelvesModal.tsx:139-150 | an add that passes the duplicate check keeps names unique |
| EditShelves.RenameKeepsNames | src/components/EditShelvesModal.tsx:98-108 | an accepted rename keeps the names unique and keeps every row named |
| EditShelves.AppendKeepsNames | src/components/EditShelvesModal.tsx:139-150 | an accepted addition keeps the names unique and keeps every row named |
| EditShelves.AppendKeepsNamed | src/components/EditShelvesModal.tsx:139-150 | appending a named row keeps every row named |
| EditShelves.RemoveKeepsUnique | src/components/EditShelvesModal.tsx:121-126 | a delete keeps names unique |
| EditShelves.MoveKeepsUnique | src/components/EditShelvesModal.tsx:68-79 | a move keeps names unique |
| EditShelves.MoveAt | src/components/EditShelvesModal.tsx:72-74 | each place after a move holds the row of the original that MovedFrom names: the dragged row at the target, the others in their old order |
| EditShelves.MovedFromInjective | src/components/EditShelvesModal.tsx:72-74 | different places after a move hold different rows of the original |
| EditShelves.ConfirmedRenameCases | src/components/EditShelvesModal.tsx:92-111 | nothing edited or a blank name: no change; a name another row has: only the error is set; otherwise the edited row takes the trimmed name, editing ends and the error clears; the new-shelf field is untouched |
| EditShelves.ConfirmedRenameKeepsDraft | src/components/EditShelvesModal.tsx:92-111 | a rename leaves the new-shelf field as it was |
| EditShelves.ConfirmedRenameKeepsRows | src/components/EditShelvesModal.tsx:92-111 | a rename keeps the number of rows and changes no row but the edited one |
| EditShelves.ConfirmedRenameKeepsNames | src/components/EditShelvesModal.tsx:92-111 | a rename keeps the names unique and keeps every row named |
| EditShelves.AddedShelfCases | src/components/EditShelvesModal.tsx:135-150 | a blank name: no change; a name a row has: only the error is set; otherwise a new row with the trimmed name is appended and the field and error clear; editing is untouched |
| EditShelves.AddedShelfKeepsEditing | src/components/EditShelvesModal.tsx:135-150 | an addition leaves the rename in progress as it was |
| EditShelves.AddedShelfKeepsRows | src/components/EditShelvesModal.tsx:135-150 | an addition keeps every row in place and adds at most one |
| EditShelves.AddedShelfKeepsNames | src/components/EditShelvesModal.tsx:135-150 | an addition keeps the names unique and keeps every row named |
| EditShelves.SavePayload | src/components/EditShelvesModal.tsx:162-165 | the rows in order, new rows without id |
| EditShelves.PayloadPassesNameChecks | src/components/EditShelvesModal.tsx:153-165 | a list the editor keeps named and unique passes the save route's name checks |
| EditShelves.Editor.constructor | src/components/EditShelvesModal.tsx:37-46 | starts from the given shelves, not editing, no error, no drag |
| EditShelves.Editor.HandleOpenChange | src/components/EditShelvesModal.tsx:48-57 | opening resets the rows, editing, new name and error; closing keeps them |
| EditShelves.Editor.HandleDragStart | src/components/EditShelvesModal.tsx:59-61 | records the dragged index, nothing else changes |
| EditShelves.Editor.HandleDragOver | src/components/EditShelvesModal.tsx:63-66 | records the index dragged over, nothing else changes |
| EditShelves.Editor.HandleDragEnd | src/components/EditShelvesModal.tsx:81-84 | clears both drag refs |
| EditShelves.Editor.HandleDrop | src/components/EditShelvesModal.tsx:68-79 | without both refs or onto itself nothing changes; otherwise the row moves and both refs are cleared |
| EditShelves.Editor.StartEditing | src/components/EditShelvesModal.tsx:87-90 | edits that row, starting from its name |
| EditShelves.Editor.CancelRename | src/components/EditShelvesModal.tsx:114-118 | stops editing and clears the error |
| EditShelves.Editor.ConfirmRename | src/components/EditShelvesModal.tsx:92-111 | the dialog's fields become ConfirmedRename of the old ones; the drag refs are kept |
| EditShelves.Editor.HandleDelete | src/components/EditShelvesModal.tsx:121-132 | refused with an error when one row remains; otherwise exactly that index is removed; at least one row is kept; unique and non-blank names stay so |
| EditShelves.Editor.HandleAddShelf | src/components/EditShelvesModal.tsx:135-150 | the dialog's fields become AddedShelf of the old ones; the drag refs are kept |
| BookshelfButton.FlipHasBook | src/components/BookshelfButton.tsx:51-53 | flips the mark of the shelf with that id only, same list |
| BookshelfButton.SetHasBook | src/components/BookshelfButton.tsx:63-77 | sets the mark of the shelf with that id only |
| BookshelfButton.RollbackRestores | src/components/BookshelfButton.tsx:51-77 | rolling back a toggle restores the list exactly |
| BookshelfButton.FlipTwiceRestores | src/components/BookshelfButton.tsx:51-53 | two successful toggles of a shelf restore the list |
| BookshelfButton.OnAnyShelves | src/components/BookshelfButton.tsx:93 | true exactly when some shelf holds the book |
| BookshelfButton.ActiveShelfNames | src/components/BookshelfButton.tsx:94-96 | the names of exactly the shelves holding the book, empty exactly when none does |
| BookshelfButton.DefaultShelfGetsBook | src/components/BookshelfButton.tsx:83-87 | adding to the default shelf marks the first shelf and shows the book as shelved |
| BookshelfButton.ShelfButton.constructor | src/components/BookshelfButton.tsx:22-25 | starts loading with no shelves and nothing toggling |
| BookshelfButton.ShelfButton.FetchShelves | src/components/BookshelfButton.tsx:27-39 | signed out nothing happens; otherwise loading ends and a failed fetch keeps the list |
| BookshelfButton.ShelfButton.ToggleShelf | src/components/BookshelfButton.tsx:47-58 | the shelf's mark flips at once, it is marked as toggling, and the request is DELETE when it had the book, else POST |
| BookshelfButton.ShelfButton.Settle | src/components/BookshelfButton.tsx:59-80 | on failure the shelf gets back its earlier mark; toggling ends |
| BookshelfButton.ShelfButton.AddToDefaultShelf | src/components/BookshelfButton.tsx:83-87 | no shelves: nothing; otherwise a POST toggle of the first shelf |
| TagPreferences.Flip | src/components/TagPreferenceIcons.tsx:36-41 | exactly that preference's membership flips |
| TagPreferences.FlipTwice | src/components/TagPreferenceIcons.tsx:36-41 | two toggles of the same preference restore the set |
| TagPreferences.FlipCommutes | src/components/TagPreferenceIcons.tsx:36-41 | toggles of two preferences commute |
| TagPreferences.PreferenceIcons.constructor | src/components/TagPreferenceIcons.tsx:16-18 | starts with no active preference and nothing loading |
| TagPreferences.PreferenceIcons.FetchPrefs | src/components/TagPreferenceIcons.tsx:20-25 | the fetched preferences become the active set; a failure keeps it |
| TagPreferences.PreferenceIcons.Toggle | src/components/TagPreferenceIcons.tsx:31-50 | no change without a user or while loading; otherwise the set flips, the previous set is kept and loading is that preference |
| TagPreferences.PreferenceIcons.Settle | src/components/TagPreferenceIcons.tsx:51-57 | failure restores the exact previous set; loading ends |
| MyTags.Tab | src/app/api/tags/my-tags/route.ts:13 | the tab parameter, or "upvoted" when missing or empty |
| MyTags.VoteValue | src/app/api/tags/my-tags/route.ts:17 | "upvoted" selects 1, "downvoted" -1 |
| MyTags.CountOf | src/app/api/tags/my-tags/route.ts:30-33 | a count never exceeds the number of rows |
| MyTags.CountAbsent | src/app/api/tags/my-tags/route.ts:30-33 | a tag with no rows counts 0 |
| MyTags.CountsStep | src/app/api/tags/my-tags/route.ts:31-32 | one more row adds one to its own tag's count only |
| MyTags.TagIdsSnoc | src/app/api/tags/my-tags/route.ts:30-33 | one more row adds its tag to the set of voted tags |
| MyTags.CountsTotal | src/app/api/tags/my-tags/route.ts:30-33 | the counts add up to the number of rows |
| MyTags.CountTags | src/app/api/tags/my-tags/route.ts:30-33 | the loop leaves one entry per voted tag holding its number of rows |
| MyTags.LastAddedDates | src/app/api/tags/my-tags/route.ts:75-78 | the map has exactly the mentioned tags, each with the date of its last row |
| MyTags.AddedDates | src/app/api/tags/my-tags/route.ts:75-78 | the loop computes that map |
| MyTags.Voted | src/app/api/tags/my-tags/route.ts:49-55 | each tag with its category name or "" and its count or 0 |
| MyTags.Preferred | src/app/api/tags/my-tags/route.ts:92-98 | each tag with its category name or "" and its date or "" |
| MyTags.ByAddedDescWeak | src/app/api/tags/my-tags/route.ts:100 | the date comparator is a consistent order |
| MyTags.VotedList | src/app/api/tags/my-tags/route.ts:49-57 | the enriched list sorted by count |
| MyTags.PreferredList | src/app/api/tags/my-tags/route.ts:92-100 | the enriched list sorted by date |
| MyTags.VoteTab | src/app/api/tags/my-tags/route.ts:19-59 | no rows or no tags gives []; otherwise the voted tags with counts, most first |
| MyTags.PreferenceTab | src/app/api/tags/my-tags/route.ts:64-102 | no rows or no tags gives []; otherwise the preferred tags with their last dates, latest first |
| MyTags.Get | src/app/api/tags/my-tags/route.ts:4-106 | no user 401; a vote tab selects the caller's rows with its value; a preference tab the caller's rows for it; any other tab 400 "Invalid tab" |
| MyTags.VotedOrder | src/app/api/tags/my-tags/route.ts:57 | a permutation, most books first, each tag's count the positive number of its rows |
| MyTags.CountPositive | src/app/api/tags/my-tags/route.ts:30-33 | a tag with a row counts at least 1 |
| MyTags.PreferredOrder | src/app/api/tags/my-tags/route.ts:100 | a permutation, latest added first |
| TagPropose.ValidateTagName | src/app/api/tags/propose/route.ts:19-29 | no error exactly for a trimmed length of 2..40 with only letters, digits, spaces and hyphens; each of the four messages exactly under its own condition, in the source's order |
| TagPropose.ProposalTable.constructor | src/app/api/tags/propose/route.ts:39-44 | an empty proposal table |
| TagPropose.Post | src/app/api/tags/propose/route.ts:5-51 | 401 first; a failing name gives 400 with the validator's message; an insert error 500; all without insert; otherwise exactly one proposal with the stored name is appended |
| TagPropose.LowerAllAllowed | src/app/api/tags/propose/route.ts:27 | lowering does not change whether the characters are allowed |
| TagPropose.StoredNameIsTrimmedLowered | src/app/api/tags/propose/route.ts:40 | lowering and trimming commute, and the stored name keeps the trimmed length |
| TagPropose.LoweredTrimmedValid | src/app/api/tags/propose/route.ts:19-40 | a valid name stays valid after normalising |
| TagPropose.StoredNameValid | src/app/api/tags/propose/route.ts:19-40 | the stored name of a valid name has no upper-case letter and passes validation |
| TagPropose.StoredNameIdempotent | src/app/api/tags/propose/route.ts:40 | normalising twice is normalising once |
| AddTagInput.FindByName | src/components/AddTagInput.tsx:86-87 | the index of the first category with that name, or none exactly when there is none |
| AddTagInput.DefaultCategoryChoice | src/components/AddTagInput.tsx:85-90 | the default is a listed id: the first "themes" category's id when present and non-empty, else the first category's |
| AddTagInput.TagBox.constructor | src/components/AddTagInput.tsx:38-52 | starts empty, no modal, no error |
| AddTagInput.TagBox.FetchCategories | src/components/AddTagInput.tsx:72-90 | the fetched categories or none; with none selected the default is chosen |
| AddTagInput.TagBox.HandleSelect | src/components/AddTagInput.tsx:93-107 | sends the book and tag; on success hands on the returned tag and clears query and suggestions |
| AddTagInput.TagBox.OpenProposeModal | src/components/AddTagInput.tsx:110-114 | opens the modal with the query as the name and no error |
| AddTagInput.TagBox.SubmitNewTag | src/components/AddTagInput.tsx:116-125 | a failing name sets the error and sends nothing; a sent name passes validation |
| AddTagInput.TagBox.SubmitSettled | src/components/AddTagInput.tsx:126-140 | failure shows the route's error or the fallback; success closes the modal, clears the box and shows the confirmation |
| AddTagInput.RejectionShowsRouteMessage | src/components/AddTagInput.tsx:142-149 | a rejected name has a non-empty message different from the fallback |
| Account.ProfileFailure | src/app/api/account/route.ts:33-38 | code "23505" gives 409 "Username already taken", any other error 500 with its message |
| Account.UpdateRow | src/app/api/account/route.ts:28-31 | a present row gets the value, others unchanged, same keys |
| Account.UpdateRowKeepsGood | src/app/api/account/route.ts:28-31 | writing a stored username keeps every stored username well-formed |
| Account.StoredUsernameFixed | src/app/api/account/route.ts:20-31 | a stored username is trimmed and accepted |
| Account.StoredEmailFixed | src/app/api/account/route.ts:43 | a stored email is its own normal form |
| Account.NormalEmailStored | src/app/api/account/route.ts:43 | a normalised email has no surrounding space and no upper-case letter |
| Account.NormalEmailIdempotent | src/app/api/account/route.ts:43 | normalising twice is normalising once |
| Account.AccountStore.constructor | src/app/api/account/route.ts:5-9 | starts from the given accounts |
| Account.AccountStore.UpdateUsername | src/app/api/account/route.ts:19-39 | a trimmed length outside 2..30 gives 400; a profile error is mapped; otherwise the trimmed name is stored; stored names stay well-formed |
| Account.AccountStore.UpdatePassword | src/app/api/account/route.ts:51-62 | shorter than 6 gives 400, an error 400; otherwise the password is set |
| Account.AccountStore.UpdateEmail | src/app/api/account/route.ts:42-48 | an error gives 400; otherwise the normalised email is stored |
| Account.AccountStore.Patch | src/app/api/account/route.ts:5-65 | 401 first; then username, email, password in that order, the first failure returning at once; success otherwise; well-formed accounts stay well-formed |
| Account.AccountStore.Delete | src/app/api/account/route.ts:68-92 | 401 first; an error gives 500 and no change; otherwise the caller's profile is removed |
| Authors.Names | src/lib/authors.ts:11 | the authors' names in order |
| Authors.FormatAuthors | src/lib/authors.ts:7-12 | "Unknown" for a missing or empty list, the bare name for one, "A and B" for two |
| Authors.Spaced | src/lib/authors.ts:11 | each name with a space in front |
| Authors.JoinCommaSpace | src/lib/authors.ts:11 | joining with ", " is joining with "," after spacing every part but the first |
| Authors.JoinSnoc | src/lib/authors.ts:11 | appending after the separator is one more joined part |
| Authors.FormatAuthorsPieces | src/lib/authors.ts:11 | for three or more comma-free names, the pieces between commas are the first name, each middle name after a space, and the last after " and " |
| Authors.FormatAuthorsJoined | src/lib/authors.ts:11 | for three or more authors the display string is the first name, the spaced middle names and " and " with the last name, joined by commas |
| Authors.PiecesHaveNoComma | src/lib/authors.ts:11 | when no name has a comma, no piece has one |
| Authors.AuthorsOf | src/lib/authors.ts:28 | the linked author of each row, in order |
| Authors.ParseAuthorsJoin | src/lib/authors.ts:23-29 | null gives []; otherwise the caller's array is sorted in place by display order and the linked authors are returned in that order |
| Authors.ParsedRows | src/lib/authors.ts:25-28 | no more authors than rows; the kept rows are a permutation of the input's rows with an author; display orders never decrease |
| UrlParams.SearchParams.Set | src/app/books/explore/page.tsx:43-57 | the key gets the value, every other key keeps its own |
| TagFilters.Ids | src/app/books/explore/page.tsx:46 | each tag's id, in order |
| TagFilters.WithoutId | src/app/books/explore/page.tsx:86-92 | no tag with that id remains, every other tag does, none added |
| TagFilters.DisjointSymmetric | src/app/books/explore/page.tsx:85-95 | disjointness does not depend on which list is named first |
| TagFilters.AddTo | src/app/books/explore/page.tsx:85-95 | the tag appended to one list, removed by id from the other |
| TagFilters.AddKeepsDisjoint | src/app/books/explore/page.tsx:85-95 | adding to either list keeps disjoint lists disjoint; the tag is in its list and not the other |
| TagFilters.RemoveKeepsDisjoint | src/app/books/explore/page.tsx:124-132 | removing from a list keeps disjoint lists disjoint |
| TagFilters.IdParam | src/app/books/explore/page.tsx:46-47 | a value exactly for a non-empty list |
| TagFilters.SetFilters | src/app/books/explore/page.tsx:46-53 | each tag list set only when non-empty, each year only when filled in, every other key kept |
| ExplorePage.QueryFor | src/app/books/explore/page.tsx:43-57 | include, exclude, years only when set, sort always, and no other key |
| ExplorePage.RouteReadsParams | src/app/books/explore/page.tsx:43-57 | the route parses the page's include or exclude value back to the page's ids, and reads back its sort |
| ExplorePage.Page.constructor | src/app/books/explore/page.tsx:24-37 | starts with no filters, best match, not searched |
| ExplorePage.Page.FetchBooks | src/app/books/explore/page.tsx:39-63 | marks searched and loading, and gives the query of the current filters |
| ExplorePage.Page.Settle | src/app/books/explore/page.tsx:59-71 | the route's books and total, or [] and 0 on failure; loading ends |
| ExplorePage.Page.HandleSortChange | src/app/books/explore/page.tsx:78-83 | the sort is remembered and a refetch with it is started exactly when the page has searched |
| ExplorePage.Page.HandleAddIncludeTag | src/app/books/explore/page.tsx:85-89 | appended to include, removed from exclude, disjointness kept |
| ExplorePage.Page.HandleAddExcludeTag | src/app/books/explore/page.tsx:91-95 | appended to exclude, removed from include, disjointness kept |
| ExplorePage.Page.HandleRemove | src/app/books/explore/page.tsx:124-132 | removed by id from that list, disjointness kept |
| MyBooksPage.FirstOrderZero | src/app/my-books/page.tsx:72 | the first shelf with display order 0, or none exactly when there is none |
| MyBooksPage.DefaultShelfChoice | src/app/my-books/page.tsx:70-74 | the default is a listed shelf: the first with display order 0 when there is one, else the first shelf |
| MyBooksPage.NextSortProperties | src/app/my-books/page.tsx:132-139 | the toggled column becomes current; the current column flips and flips back; a new column starts ascending for title and descending otherwise |
| MyBooksPage.ListQuery | src/app/my-books/page.tsx:95-102 | q only for a non-blank trimmed query, tag lists only when non-empty, years only when set, sort and dir always, no other key |
| MyBooksPage.Page.constructor | src/app/my-books/page.tsx:38-57 | no shelf selected, no filters, added_at descending |
| MyBooksPage.Page.FetchShelves | src/app/my-books/page.tsx:60-80 | signed out nothing; otherwise loading ends; fetched shelves replace the list and with none selected the default shelf is chosen |
| MyBooksPage.Page.FetchBooks | src/app/my-books/page.tsx:91-102 | no request exactly when no shelf is selected; otherwise the selected shelf and the list query |
| MyBooksPage.Page.Settle | src/app/my-books/page.tsx:103-119 | the route's books and total, or [] and 0 on failure |
| MyBooksPage.Page.HandleSortToggle | src/app/my-books/page.tsx:132-139 | the sort becomes NextSort of the old sort and the column |
| MyBooksPage.Page.HandleShelvesEdited | src/app/my-books/page.tsx:141-151 | the list is replaced; a still-listed selection is kept, else the default of a non-empty list is chosen, else unchanged; a non-empty list always ends with a listed selection |
| MyBooksPage.Page.HandleAddIncludeTag | src/app/my-books/page.tsx:153-156 | appended to include, removed from exclude, disjointness kept |
| MyBooksPage.Page.HandleAddExcludeTag | src/app/my-books/page.tsx:158-161 | appended to exclude, removed from include, disjointness kept |
| MyBooksPage.Page.HandleRemove | src/app/my-books/page.tsx:281-292 | removed by id from that list, disjointness kept |
| TagFilterInput.Unselected | src/components/TagFilterInput.tsx:67-69 | a hit is kept exactly when no chosen tag has its id |
| TagFilterInput.UnselectedAppend | src/components/TagFilterInput.tsx:67-69 | filtering keeps the search's order |
| TagFilterInput.TagFilterBox.constructor | src/components/TagFilterInput.tsx:34-37 | empty query, no suggestions, closed |
| TagFilterInput.TagFilterBox.Type | src/components/TagFilterInput.tsx:121-124 | the query becomes the text and the dropdown opens |
| TagFilterInput.TagFilterBox.Focus | src/components/TagFilterInput.tsx:125 | the dropdown opens |
| TagFilterInput.TagFilterBox.ClickOutside | src/components/TagFilterInput.tsx:42-50 | the dropdown closes and is not visible |
| TagFilterInput.TagFilterBox.StartSearch | src/components/TagFilterInput.tsx:52-64 | no search exactly when the trimmed query is shorter than 2, which clears the suggestions; otherwise the untrimmed query is sent |
| TagFilterInput.TagFilterBox.SearchSettled | src/components/TagFilterInput.tsx:64-78 | the unchosen hits, or none on error; no suggestion has a chosen id; loading ends |
| TagFilterInput.TagFilterBox.HandleSelect | src/components/TagFilterInput.tsx:84-89 | hands on only id and name, clears query and suggestions, closes the dropdown |
| Theme.ParseTheme | src/context/ThemeContext.tsx:40-55 | "light" and "dark" give their themes, anything else "system" |
| Theme.ParseThemeName | src/context/ThemeContext.tsx:57-80 | a theme written by name reads back as itself |
| Theme.ParseThemeOnlyNames | src/context/ThemeContext.tsx:40-55 | only a valid name reads back as a theme other than "system" |
| Theme.IsDark | src/context/ThemeContext.tsx:19-27 | dark exactly for "dark", or "system" when the system prefers dark |
| Theme.IsDarkFollowsPreference | src/context/ThemeContext.tsx:19-27 | the system preference matters only in "system" mode |
| Theme.ThemeProvider.constructor | src/context/ThemeContext.tsx:33-34 | "system", not loaded |
| Theme.ThemeProvider.LoadSignedOut | src/context/ThemeContext.tsx:38-45 | the theme is read from storage, which then agrees with it |
| Theme.ThemeProvider.LoadSignedIn | src/context/ThemeContext.tsx:48-59 | the theme is read from the user's row (a missing row as nothing) and written to storage |
| Theme.ThemeProvider.Apply | src/context/ThemeContext.tsx:63-66 | once loaded, the page's dark class follows the theme |
| Theme.ThemeProvider.SetTheme | src/context/ThemeContext.tsx:76-88 | state, dark class and storage take the new theme; only with a user is that user's row updated, no other row |

## Left out

- Database and auth calls are tables or parameters.
  - Supabase queries become classes with `map`/`seq` fields, or parameters for what a query returns.
  - `auth.getUser` becomes a `user: Option<UserId>` parameter.
  - A query's failure becomes an `Option` error or a boolean parameter.
  - SQL filters are not modelled: the explore route's year bounds (`parseInt`, gte/lte) and the `ilike` of the search routes. The explore model takes the already-filtered books.
- Network, promises and concurrency are left out.
  - Each asynchronous handler is split at its `await` into a start and a `Settle` with the outcome.
  - Interleaved or racing requests are not modelled.
  - The 300 ms debounce timers in AddTagInput and TagFilterInput are not modelled. AddTagInput's tag search (src/components/AddTagInput.tsx:55-69) is not modelled either.
- React machinery is reduced to plain fields.
  - Hooks, effects and refs are left out. Effect dependencies are not modelled: which change triggers a refetch is not captured.
  - `localStorage` and `matchMedia` are fields and parameters.
  - The `matchMedia` change listener is `Apply` called again.
  - The DOM class list is one boolean.
- String functions are ASCII-only.
  - `trim`, `toLowerCase`/`toUpperCase` and the regex `\s` use ASCII letters and six ASCII white-space characters.
  - `localeCompare` is code-unit order.
  - String length is the number of `char`s, not UTF-16 code units.
  - `toLocaleDateString` formatting is omitted.
- Type errors are not modelled. A JSON body whose fields have the wrong type, which would throw and give a 500, is modelled as the field being missing where the route checks it, and not otherwise.
- `URLSearchParams` is a map: key order, serialisation and encoding are not modelled.
- Shelf ids are number keys.
  - They are handed out by the table in increasing order, with the route's string ids as those numbers.
  - Insert columns the source does not set (position, display order) are 0.
- Result order of plain selects is by row id. Object key order of `Object.values`/`Object.keys` is the order keys were first set, where the source relies on it.
- The account route's email change is modelled as an immediate update: Supabase's confirmation flow is not part of this model.
- The account route's DELETE is modelled without the `signOut` call and without the cascading deletes of the database.
- The `catch` blocks that turn a thrown error into a 500 are not modelled, beyond the error cases listed in each route's contract.
- ShelfReorder.Put: the final read's failure after the writes is not modelled; the final list is always read back.
- EditShelves.Editor: `handleSave` and the `isSaving` flag are left out. Its payload is `EditShelves.SavePayload`, and the route it calls is `ShelfReorder.Put`.
- The Author type that `src/lib/authors.ts` imports is not part of this model. Its two fields (id, name) are taken from how the file uses it.
- The `data.books || []` and `data.total || 0` defaults of the page fetches are folded into the `Settle` parameter: the body's fields are taken as given.
- TagVoteControl.TwicePressedRestores: stated only from no vote or from the pressed vote, because from the opposite vote two presses end at no vote (TagVoteControl.TwicePressedFromOpposite).
- ShelfReorder.SavedHasEveryShelf: stated for a submitted list whose ids are distinct, because the route does not reject a repeated id and the later write of that id overwrites the earlier one.
- ShelfReorder.SavedHasNoOtherShelf: stated for distinct submitted ids, for the same reason.
- ShelfReorder.SavedOrdersUnique: stated for distinct submitted ids, for the same reason.
- ShelfReorder.SavedKeepsKnownRows: stated for distinct submitted ids, for the same reason.
- EditShelves.Editor.HandleDrop: requires the recorded drag indices to be rows of the list. They always are when a drag on a row set them.
