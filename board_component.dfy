/**
  The Board component of src/Board.js: what a drop of a card does to the
  component's `clients` state, and the component itself as an object whose
  `clients` field each drop replaces.

  A drop reports the dragged card's id, the status of the column it was dropped
  in, the status of the column it came from and the id of the card it was
  dropped in front of, if any. The component keeps the lanes in its state and
  hands each change to `setState` as an updater from the previous state to the
  next; here the updaters are the functions `UpdatedClients` and
  `RearrangedClients`, and a failing updater leaves the state as it was.
 */
module BoardComponent {
  import opened BoardState
  import opened StatusUpdate
  import opened SwimlaneOrder

  /** What the drag-and-drop library reports for one drop, read off the page. */
  datatype DropEvent = DropEvent(
    clientId: string,            // the dragged card's `data-id`
    targetStatus: string,        // `data-status` of the column it was dropped in
    sourceStatus: string,        // `data-status` of the column it was dragged from
    siblingId: Option<string>)   // `data-id` of the card it now sits in front of, if any

  /** The two state changes a drop can ask for. */
  datatype Action =
    | Rearrange(clientId: string, status: string, siblingId: Option<string>)
    | UpdateStatus(clientId: string, newStatus: string)

  /**
    The drop handler's choice: a drop back into the column the card came from
    reorders that column, with the target status as the lane key and the
    sibling passed on; a drop into another column changes the card's status
    to the target's and ignores the sibling.
   */
  function Dispatch(e: DropEvent): (a: Action)
    ensures a.Rearrange? <==> e.targetStatus == e.sourceStatus
    ensures a.clientId == e.clientId
    ensures a.Rearrange? ==> a.status == e.targetStatus && a.siblingId == e.siblingId
    ensures a.UpdateStatus? ==> a.newStatus == e.targetStatus
  {
    if e.targetStatus == e.sourceStatus then Rearrange(e.clientId, e.targetStatus, e.siblingId)
    else UpdateStatus(e.clientId, e.targetStatus)
  }

  /** The state the updater chosen for a drop computes, or why it cannot. */
  function Drop(c: Clients, e: DropEvent): Result<Clients> {
    match Dispatch(e)
    case Rearrange(clientId, status, siblingId) => RearrangedClients(c, clientId, status, siblingId)
    case UpdateStatus(clientId, newStatus) => Ok(UpdatedClients(c, clientId, newStatus))
  }

  /** The component's state after a drop: the updater's result, or the old state when it fails. */
  function AfterDrop(c: Clients, e: DropEvent): Clients {
    match Drop(c, e)
    case Ok(next) => next
    case Err(_) => c
  }

  /** The state after a series of drops, in order. */
  function AfterDrops(c: Clients, es: seq<DropEvent>): Clients
    decreases |es|
  {
    if es == [] then c else AfterDrops(AfterDrop(c, es[0]), es[1..])
  }

  /** The three statuses the board's columns carry. */
  ghost predicate FromColumns(e: DropEvent) {
    IsStatus(e.targetStatus) && IsStatus(e.sourceStatus)
  }

  /**
    A drop fails exactly when it stays within one column and either that
    column's status is not a key of the state or its lane is empty.
   */
  lemma DropFailsExactly(c: Clients, e: DropEvent)
    ensures Drop(c, e).Err? <==>
      e.targetStatus == e.sourceStatus
      && (!IsLaneKey(e.targetStatus) || LaneByKey(c, e.targetStatus).value == [])
  {
    if e.targetStatus == e.sourceStatus {
      RearrangeKeepsOtherLanes(c, e.clientId, e.targetStatus, e.siblingId);
    }
  }

  /** Reordering the in-progress column by dragging within it always fails. */
  lemma DropWithinInProgressFails(c: Clients, e: DropEvent)
    requires e.targetStatus == IN_PROGRESS && e.sourceStatus == IN_PROGRESS
    ensures Drop(c, e) == Err(LaneNotIterable(IN_PROGRESS))
  {
    RearrangeInProgressFails(c, e.clientId, e.siblingId);
  }

  /**
    A drop into another column moves every record with the dragged id, with the
    target status, into the target's lane and leaves none elsewhere.
   */
  lemma DropAcrossColumnsMovesCard(c: Clients, e: DropEvent)
    requires LanesMatchStatus(c) && IsStatus(e.targetStatus)
    requires e.targetStatus != e.sourceStatus
    ensures Drop(c, e).Ok?
    ensures forall r | r in AllClients(c) && r.id == e.clientId ::
      r.(status := e.targetStatus) in Lane(Drop(c, e).value, e.targetStatus)
    ensures forall r | r in AllClients(Drop(c, e).value) && r.id == e.clientId ::
      r.status == e.targetStatus
  {
    UpdatePlacesRecord(c, e.clientId, e.targetStatus);
  }

  /**
    A drop within the backlog or the complete column whose lane has records
    reorders that lane and changes nothing else.
   */
  lemma DropWithinColumnReorders(c: Clients, e: DropEvent)
    requires e.targetStatus == e.sourceStatus
    requires e.targetStatus == BACKLOG || e.targetStatus == COMPLETE
    requires LaneByKey(c, e.targetStatus).value != []
    ensures Drop(c, e).Ok?
    ensures forall key :: key != e.targetStatus ==> LaneByKey(Drop(c, e).value, key) == LaneByKey(c, key)
    ensures multiset(LaneByKey(Drop(c, e).value, e.targetStatus).value) == multiset(LaneByKey(c, e.targetStatus).value)
  {
    RearrangeKeepsOtherLanes(c, e.clientId, e.targetStatus, e.siblingId);
  }

  /**
    Any drop that succeeds keeps the board invariant; it keeps every id on the
    board when it stays within a column or targets one of the three statuses.
   */
  lemma DropPreservesConsistency(c: Clients, e: DropEvent)
    requires Consistent(c)
    ensures Consistent(AfterDrop(c, e))
    ensures e.targetStatus == e.sourceStatus || IsStatus(e.targetStatus) ==> IdBag(AfterDrop(c, e)) == IdBag(c)
  {
    if e.targetStatus == e.sourceStatus {
      RearrangePreservesConsistency(c, e.clientId, e.targetStatus, e.siblingId);
    } else {
      UpdatePreservesConsistency(c, e.clientId, e.targetStatus);
    }
  }

  /**
    Whatever cards are dragged between the columns, the board keeps its
    invariant and shows the same ids, each once.
   */
  lemma {:induction false} DropsFromColumnsKeepIds(c: Clients, es: seq<DropEvent>)
    requires Consistent(c)
    requires forall k :: 0 <= k < |es| ==> FromColumns(es[k])
    ensures Consistent(AfterDrops(c, es)) && IdBag(AfterDrops(c, es)) == IdBag(c)
    decreases |es|
  {
    if es != [] {
      DropPreservesConsistency(c, es[0]);
      DropsFromColumnsKeepIds(AfterDrop(c, es[0]), es[1..]);
    }
  }

  /** From the initial state, any series of drops between the columns keeps the seed clients. */
  lemma BoardKeepsSeed(init: Clients, es: seq<DropEvent>)
    requires init == InitialClients()
    requires forall k :: 0 <= k < |es| ==> FromColumns(es[k])
    ensures Consistent(AfterDrops(init, es)) && IdBag(AfterDrops(init, es)) == SeedIds()
  {
    InitialClientsConsistent();
    DropsFromColumnsKeepIds(init, es);
  }

  // ---------------------------------------------------------------------------
  // The drop handler as evidently intended: within a column, the lane is looked
  // up under the state key of the column's status rather than the status itself.

  /** The state key of the lane whose records carry `status`. */
  function LaneKey(status: string): (key: string)
    requires IsStatus(status)
    ensures IsLaneKey(key)
    ensures forall c :: LaneByKey(c, key) == Some(Lane(c, status))
  {
    if status == BACKLOG then BACKLOG_KEY
    else if status == IN_PROGRESS then IN_PROGRESS_KEY
    else COMPLETE_KEY
  }

  /** `Drop` with the lane of a within-column drop found by `LaneKey`. */
  function IntendedDrop(c: Clients, e: DropEvent): Result<Clients>
    requires FromColumns(e)
  {
    if e.targetStatus == e.sourceStatus then
      RearrangedClients(c, e.clientId, LaneKey(e.targetStatus), e.siblingId)
    else Ok(UpdatedClients(c, e.clientId, e.targetStatus))
  }

  /**
    With the key lookup corrected, a drop within ANY of the three columns whose
    lane has records succeeds, reorders that lane and leaves the others alone.
   */
  lemma IntendedDropWithinColumnReorders(c: Clients, e: DropEvent)
    requires FromColumns(e) && e.targetStatus == e.sourceStatus
    requires Lane(c, e.targetStatus) != []
    ensures IntendedDrop(c, e).Ok?
    ensures forall status | IsStatus(status) && status != e.targetStatus ::
      Lane(IntendedDrop(c, e).value, status) == Lane(c, status)
    ensures multiset(Lane(IntendedDrop(c, e).value, e.targetStatus)) == multiset(Lane(c, e.targetStatus))
  {
    var key := LaneKey(e.targetStatus);
    RearrangeKeepsOtherLanes(c, e.clientId, key, e.siblingId);
    var next := IntendedDrop(c, e).value;
    forall status | IsStatus(status) && status != e.targetStatus
      ensures Lane(next, status) == Lane(c, status)
    {
      assert LaneByKey(next, LaneKey(status)) == LaneByKey(c, LaneKey(status));
    }
  }

  /** The corrected handler keeps the board invariant and every id on the board. */
  lemma IntendedDropPreservesConsistency(c: Clients, e: DropEvent)
    requires Consistent(c) && FromColumns(e)
    ensures IntendedDrop(c, e).Ok? ==>
      Consistent(IntendedDrop(c, e).value) && IdBag(IntendedDrop(c, e).value) == IdBag(c)
  {
    if e.targetStatus == e.sourceStatus {
      RearrangePreservesConsistency(c, e.clientId, LaneKey(e.targetStatus), e.siblingId);
    } else {
      UpdatePreservesConsistency(c, e.clientId, e.targetStatus);
    }
  }

  /** The component: its `clients` state, replaced by each update. */
  class Board {
    var clients: Clients

    /** The board invariant on the current state. */
    ghost predicate Valid()
      reads this
    {
      Consistent(clients)
    }

    /** Starts with the seed clients in the backlog and the other lanes empty. */
    constructor()
      ensures clients == InitialClients()
      ensures Valid() && IdBag(clients) == SeedIds()
    {
      clients := InitialClients();
      InitialClientsConsistent();
    }

    /** Gives the record with the id the new status and regroups every lane by status. */
    method UpdateClientStatus(clientId: string, newStatus: string)
      modifies this
      ensures clients == UpdatedClients(old(clients), clientId, newStatus)
      ensures old(Valid()) ==> Valid()
    {
      if Consistent(clients) {
        UpdatePreservesConsistency(clients, clientId, newStatus);
      }
      clients := UpdatedClients(clients, clientId, newStatus);
    }

    /**
      Moves the record with the id within the lane stored under `status`, in
      front of the sibling or to the end; on failure the state is kept and the
      failure returned.
     */
    method RearrangeClientsWithinSwimlane(clientId: string, status: string, siblingId: Option<string>)
      returns (failure: Option<Failure>)
      modifies this
      ensures failure.None? <==> RearrangedClients(old(clients), clientId, status, siblingId).Ok?
      ensures failure.Some? ==>
        failure.value == RearrangedClients(old(clients), clientId, status, siblingId).failure
      ensures clients == match RearrangedClients(old(clients), clientId, status, siblingId)
        case Ok(next) => next
        case Err(_) => old(clients)
      ensures old(Valid()) ==> Valid()
    {
      if Consistent(clients) {
        RearrangePreservesConsistency(clients, clientId, status, siblingId);
      }
      var outcome := RearrangedClients(clients, clientId, status, siblingId);
      match outcome
      case Ok(next) =>
        clients := next;
        failure := None;
      case Err(f) =>
        failure := Some(f);
    }

    /** The drop handler: reorders within a column or moves the card to another. */
    method OnDrop(e: DropEvent) returns (failure: Option<Failure>)
      modifies this
      ensures clients == AfterDrop(old(clients), e)
      ensures failure.None? <==> Drop(old(clients), e).Ok?
      ensures old(Valid()) ==> Valid()
    {
      if e.targetStatus == e.sourceStatus {
        failure := RearrangeClientsWithinSwimlane(e.clientId, e.targetStatus, e.siblingId);
      } else {
        UpdateClientStatus(e.clientId, e.targetStatus);
        failure := None;
      }
    }
  }
}
