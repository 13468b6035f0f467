# Board state of the shiptivitas kanban board, in Dafny

This project models the `Board` component of `src/Board.js`. The component shows
client records, called cards, in three swimlanes: Backlog, In Progress and
Complete. Its state `clients` keeps one ordered list per lane under the keys
`backlog`, `inProgress` and `complete`. At construction all twenty seed clients
are in the backlog.

When a card is dropped, the drop handler reads three strings off the page: the
card's `data-id`, and the `data-status` of the target and source columns. The
statuses are `backlog`, `in-progress` and `complete`. Then:

- A drop into another column calls `updateClientStatus`. It concatenates the
  three lanes, gives the card the target status and rebuilds every lane by
  filtering on the status strings.
- A drop back into the same column calls `rearrangeClientsWithinSwimlane`. It
  looks up the lane under the target status, takes the card out with
  `findIndex` and `splice`, and puts it back in front of the sibling card or at
  the end.

Files and modules:

- `js_array.dfy`, module `JsArray`: the index clamping of JavaScript's
  `Array.prototype.splice`, which gives `findIndex`'s -1 its meaning ("the last
  position").
- `board_state.dfy`, module `BoardState`:
  - the record and state datatypes, the status strings and the lane keys;
  - the board invariant `Consistent`: every record sits in the lane its status
    names, and no id occurs twice;
  - the seed data.
- `status_update.dfy`, module `StatusUpdate`: the updater of
  `updateClientStatus` as the function `UpdatedClients`, and its properties.
- `swimlane_order.dfy`, module `SwimlaneOrder`: the updater of
  `rearrangeClientsWithinSwimlane` as the function `RearrangedClients`, and its
  properties.
- `board_component.dfy`, module `BoardComponent`:
  - the drop handler's dispatch;
  - drops and series of drops;
  - the component as the class `Board`, whose `clients` field each method
    replaces.

Both updaters are pure functions from the previous state to the next, as React's
`setState(prevState => …)` receives them. The rearranging updater can fail, in
two ways:

- Spreading `prevState.clients[status]` for a status that is not a key of the
  state throws a TypeError. The model returns `Err(LaneNotIterable(status))`.
- Splicing an empty lane yields `undefined` as the client. Whether it is then
  pushed or spliced in front of the sibling, the code stores `[undefined]` as
  the lane. The model returns `Err(UndefinedRecord)`.

The class methods apply an updater's result to the field. When the updater
fails they keep the old state and return the failure.

## Model

| member | source | states |
|---|---|---|
| JsArray.SpliceMovesElements | src/Board.js:72 | `splice` on a start clamped into the array: the elements of the result plus the removed ones are exactly the old ones plus the inserted ones; at most `deleteCount` are removed (none if it is negative); the new length follows |
| JsArray.SpliceRemovesAt | src/Board.js:72 | `splice(i, 1)` with `i` inside the array removes exactly `s[i]` and keeps the rest in order |
| JsArray.SpliceMinusOneRemovesLast | src/Board.js:71-72 | `splice(-1, 1)`, as after an unsuccessful `findIndex`, removes the last element; on an empty array it removes nothing |
| JsArray.SpliceInsertsAt | src/Board.js:77 | `splice(j, 0, x)` with `0 <= j <= length` inserts `x` in front of index `j` |
| JsArray.SpliceMinusOneInsertsBeforeLast | src/Board.js:76-77 | `splice(-1, 0, x)` inserts `x` in front of the last element, or alone into an empty array |
| BoardState.LaneByKey | src/Board.js:70 | `prevState.clients[key]` is a lane exactly for the three keys `backlog`, `inProgress` and `complete` |
| BoardState.WithLane | src/Board.js:82-86 | `{ ...prevState.clients, [status]: clients }` stores the new lane under the key and every other key reads as before |
| BoardState.GetClients | src/Board.js:91-118 | twenty records; the k-th has id the decimal numeral of k+1 and status `backlog` |
| BoardState.DecimalStringInjective | src/Board.js:93-112 | different numbers have different numerals, so the seed ids are distinct |
| BoardState.InitialClientsConsistent | src/Board.js:10-17 | the initial state satisfies the board invariant, holds each seed id exactly once and has empty in-progress and complete lanes |
| BoardState.PermutedIds | src/Board.js:70-86 | reordering records reorders their ids: equal record multisets give equal id multisets |
| StatusUpdate.Retagged | src/Board.js:51-56 | the `map` keeps the length, and at each index it gives the record with the id the new status and leaves every other record as it was |
| StatusUpdate.InLane | src/Board.js:60-62 | each `filter` keeps only records with its status, all taken from the concatenation |
| StatusUpdate.UpdatedClients | src/Board.js:48-66 | whatever the previous state, every record in each rebuilt lane carries that lane's status |
| StatusUpdate.UpdateTargetLane | src/Board.js:50-62 | the new status's lane is the concatenation, in backlog, in-progress, complete order, of its old records and the retagged records with the id from the other lanes |
| StatusUpdate.UpdateSourceLanes | src/Board.js:50-62 | every other lane loses the records with the id and nothing else, in order |
| StatusUpdate.UpdatePlacesRecord | src/Board.js:51-62 | every record with the id ends up, retagged, in the new status's lane, and no record with the id keeps another status |
| StatusUpdate.UpdateKeepsOtherRecords | src/Board.js:51-62 | in every lane, the records without the id are exactly those it had, in the same order |
| StatusUpdate.UpdatedLanesAreSubsequences | src/Board.js:50-62 | every rebuilt lane is a subsequence of the retagged concatenation, so relative order is kept |
| StatusUpdate.MovedToInProgressComesFirst | src/Board.js:50-62 | on a consistent board, a backlog card moved to in progress becomes the first in-progress record |
| StatusUpdate.MovedToBacklogComesLast | src/Board.js:50-62 | on a consistent board, a complete card moved to the backlog becomes the last backlog record |
| StatusUpdate.UpdateWithoutChangeIsIdentity | src/Board.js:48-66 | if no record with the id has a status other than the new one, the update changes nothing |
| StatusUpdate.UpdateUnknownIdIsIdentity | src/Board.js:48-66 | an id that is not on the board leaves the state as it was |
| StatusUpdate.UpdateUnknownStatusDropsRecord | src/Board.js:60-62 | a new status that is none of the three strings removes the records with the id from every lane |
| StatusUpdate.UpdatePreservesRecords | src/Board.js:50-62 | with a known new status and known statuses, the rebuilt lanes hold exactly the retagged records as a multiset |
| StatusUpdate.UpdatePreservesConsistency | src/Board.js:48-66 | the update keeps the board invariant; with a known new status it keeps every id on the board |
| SwimlaneOrder.FindIndex | src/Board.js:71 | the first index whose record has the id, or -1 exactly when none does |
| SwimlaneOrder.RemovalTakesClient | src/Board.js:71-72 | a client in the lane is taken out at its first index, and the rest is left in order |
| SwimlaneOrder.RemovalOfAbsentClientTakesLast | src/Board.js:71-72 | an id not in a non-empty lane makes the updater take out the last record; without a sibling the lane is then unchanged |
| SwimlaneOrder.PlacedBeforeSibling | src/Board.js:74-77 | with a sibling found at `j`, the client is inserted at `j`, right in front of it |
| SwimlaneOrder.PlacedWhenSiblingAbsent | src/Board.js:75-77 | with a sibling id not found, the client goes in front of the last record, or alone into an empty list |
| SwimlaneOrder.PlacedAddsClient | src/Board.js:74-80 | putting the client back adds exactly that one record |
| SwimlaneOrder.RearrangePermutesLane | src/Board.js:70-80 | the updater yields a lane exactly when the old lane is not empty, and the new lane is a permutation of the old |
| SwimlaneOrder.RearrangeBeforeSibling | src/Board.js:70-80 | with the client and the sibling found, the lane keeps its length, the client sits right in front of the sibling, and the other records keep their order |
| SwimlaneOrder.RearrangeWithoutSibling | src/Board.js:70-80 | with the client found and no sibling, the client moves to the end and the others keep their order |
| SwimlaneOrder.RearrangeWithAbsentSibling | src/Board.js:70-80 | with the client found and the sibling's id not found, the client goes in front of the last remaining record |
| SwimlaneOrder.RearrangeUnknownKeyFails | src/Board.js:70 | a status that is not a state key makes the updater fail with that key |
| SwimlaneOrder.RearrangeInProgressFails | src/Board.js:70 | the status `in-progress` is not a state key, so rearranging under it always fails |
| SwimlaneOrder.RearrangeKeepsOtherLanes | src/Board.js:68-89 | the updater succeeds exactly for a state key with a non-empty lane; it then leaves every other key as it was and only permutes that lane |
| SwimlaneOrder.RearrangePreservesConsistency | src/Board.js:68-89 | a successful rearrangement keeps the board invariant and every id on the board |
| BoardComponent.Dispatch | src/Board.js:40-44 | the drop reorders exactly when the target and source statuses are equal, under the target status and with the sibling; otherwise it sets the card's status to the target's |
| BoardComponent.DropFailsExactly | src/Board.js:40-44 | a drop fails exactly when it stays in one column whose status is not a state key or whose lane is empty |
| BoardComponent.DropWithinInProgressFails | src/Board.js:40-41 | a drop within the In Progress column always fails |
| BoardComponent.DropAcrossColumnsMovesCard | src/Board.js:42-44 | a drop into another column moves every record with the card's id, retagged, into the target lane, and leaves none with another status |
| BoardComponent.DropWithinColumnReorders | src/Board.js:40-41 | a drop within the backlog or complete column with a non-empty lane succeeds, leaves every other key as it was and permutes that lane |
| BoardComponent.DropPreservesConsistency | src/Board.js:35-45 | the state after any drop satisfies the board invariant, and keeps every id when the drop stays in one column or targets a known status |
| BoardComponent.DropsFromColumnsKeepIds | src/Board.js:35-45 | along any series of drops between the three columns, a consistent board stays consistent and keeps exactly its ids |
| BoardComponent.BoardKeepsSeed | src/Board.js:8-45 | from the initial state `init`, after any series of drops between the columns, the board is consistent and holds each of the twenty seed ids exactly once |
| BoardComponent.LaneKey | src/Board.js:12-17 | maps each status string to a state key, and looking up that key gives the lane of that status |
| BoardComponent.IntendedDropWithinColumnReorders | src/Board.js:40-41 | with the lane looked up by `LaneKey`, a drop within any of the three columns with a non-empty lane succeeds, changes no other lane and permutes that one |
| BoardComponent.IntendedDropPreservesConsistency | src/Board.js:40-44 | the corrected handler keeps the board invariant and every id |
| BoardComponent.Board.constructor | src/Board.js:8-18 | the state starts as the seed clients in the backlog, consistent and holding each seed id once |
| BoardComponent.Board.UpdateClientStatus | src/Board.js:48-66 | the new state is the updater's result, and the board invariant is kept |
| BoardComponent.Board.RearrangeClientsWithinSwimlane | src/Board.js:68-89 | the new state is the updater's result, or the old state with the failure returned; the board invariant is kept |
| BoardComponent.Board.OnDrop | src/Board.js:35-45 | the new state is the state after the drop, a failure is reported exactly when the drop fails, and the board invariant is kept |

## Behaviour worth knowing

- `updateClientStatus` rebuilds every lane from the concatenation of the three lanes, so a moved card takes its place in concatenation order within its new lane. A card moved from the backlog into In Progress becomes the first in-progress record (`StatusUpdate.MovedToInProgressComesFirst`). A card moved from Complete into the backlog becomes the last backlog record (`StatusUpdate.MovedToBacklogComesLast`).
- `updateClientStatus` with the status the card already has returns the state unchanged (`StatusUpdate.UpdateWithoutChangeIsIdentity`).
- `rearrangeClientsWithinSwimlane` changes only the lane stored under the given status, and only its order (`SwimlaneOrder.RearrangeKeepsOtherLanes`).
- When the id is not in a non-empty lane, `findIndex` gives -1 and `splice(-1, 1)` takes out the lane's last record (`SwimlaneOrder.RemovalOfAbsentClientTakesLast`). With a sibling, that record is then inserted in front of the sibling, or in front of the new last record when the sibling is not found either. Without a sibling, `push` puts it back and the lane is unchanged.
- A sibling id that is not in the lane makes `splice(-1, 0, client)` put the card in front of the last record. When no other record is left, the card is the only record (`SwimlaneOrder.PlacedWhenSiblingAbsent`).

## Left out

- Rendering (`render`, `renderSwimlane`, the `Swimlane` and `Card` components) and the CSS: they only display the state.
- The drag-and-drop library, the DOM and `componentDidMount`'s container lookup. A drop is the value `DropEvent`, holding the strings the handler reads off the elements. A sibling element is `Some` of its `data-id`, and no sibling is `None`. A sibling without a `data-id` attribute is not modelled.
- The library has already moved the card's element in the DOM before the handler runs. That DOM move, and how it interacts with React's re-rendering, are not modelled.
- `setState` batching and deferral: each updater is applied at once to the state it is given.
- Exceptions. When the rearranging updater throws, as for the key `in-progress`, the exception escapes `setState`. React runs the updater when it processes the update, and an error there that no error boundary catches unmounts the component tree (React 16 and later). The model instead keeps the old state and returns `LaneNotIterable`. So `BoardComponent.DropsFromColumnsKeepIds` and `BoardComponent.BoardKeepsSeed` also cover series of drops that go on past a reorder within In Progress, which the program does not survive.
- `undefined` in a lane. Rearranging an empty lane stores `[undefined]` as the lane, and a `Client` cannot be `undefined`. The model reports `UndefinedRecord` and keeps the state.
- Other property lookups. Keys such as `constructor` or `toString`, which JavaScript would find on the object's prototype, are treated like any other missing key.
- The refs in `this.swimlanes`, which only point at DOM nodes.

## Findings

| source | as written | input that shows it | evidently intended | confidence | as-written member | corrected member |
|---|---|---|---|---|---|---|
| src/Board.js:40-41 | a drop within a column passes the column's `data-status` as the state key, so the In Progress column looks up `clients['in-progress']`, which is undefined, and spreading it throws | a drop with target and source status both `in-progress` | the lane is looked up under the key of its status (`inProgress`), so cards can be reordered within In Progress like in the other two columns | high (not executed) | BoardComponent.DropWithinInProgressFails | BoardComponent.IntendedDropWithinColumnReorders |
