/**
  `rearrangeClientsWithinSwimlane(clientId, status, sibling)` of src/Board.js.
  Its state updater copies the lane stored under the key `status`, takes the
  client out with `findIndex` and `splice(i, 1)`, and puts it back either in
  front of the sibling (again `findIndex`, then `splice(j, 0, client)`) or at the
  end with `push`. The other lanes are kept as they are. `findIndex` answers -1
  when nothing matches, and `splice` reads -1 as "the last position", which the
  model keeps.
 */
module SwimlaneOrder {
  import opened BoardState
  import JsArray

  /** `clients.findIndex(client => client.id === id)`: the first index with the id, or -1. */
  function FindIndex(cs: seq<Client>, id: string): (r: int)
    ensures -1 <= r < |cs|
    ensures r == -1 <==> forall k :: 0 <= k < |cs| ==> cs[k].id != id
    ensures r >= 0 ==> cs[r].id == id && forall k :: 0 <= k < r ==> cs[k].id != id
  {
    if cs == [] then -1
    else if cs[0].id == id then 0
    else
      var r := FindIndex(cs[1..], id);
      if r == -1 then -1 else r + 1
  }

  /**
    The second half of the updater: put `client` back in front of the first
    record with the sibling's id, or at the end when there is no sibling.
   */
  function Placed(clients: seq<Client>, client: Client, siblingId: Option<string>): seq<Client> {
    match siblingId
    case Some(sid) => JsArray.Splice(clients, FindIndex(clients, sid), 0, [client]).after
    case None => clients + [client]
  }

  /**
    The lane the updater writes back. `None` when the lane is empty: `splice`
    then removes nothing and the client it takes out is `undefined`.
   */
  function RearrangedLane(lane: seq<Client>, clientId: string, siblingId: Option<string>): Option<seq<Client>> {
    var removal := JsArray.Splice(lane, FindIndex(lane, clientId), 1, []);
    if removal.removed == [] then None
    else Some(Placed(removal.after, removal.removed[0], siblingId))
  }

  /** The state that the updater of `rearrangeClientsWithinSwimlane` returns, or why it cannot. */
  function RearrangedClients(prev: Clients, clientId: string, status: string, siblingId: Option<string>): Result<Clients> {
    match LaneByKey(prev, status)
    case None => Err(LaneNotIterable(status))
    case Some(lane) =>
      match RearrangedLane(lane, clientId, siblingId)
      case None => Err(UndefinedRecord)
      case Some(clients) => Ok(WithLane(prev, status, clients))
  }

  // ---------------------------------------------------------------------------
  // The two halves

  /** A client that is in the lane is taken out at its first index. */
  lemma RemovalTakesClient(lane: seq<Client>, clientId: string, i: nat, siblingId: Option<string>)
    requires i < |lane| && lane[i].id == clientId
    requires forall k :: 0 <= k < i ==> lane[k].id != clientId
    ensures RearrangedLane(lane, clientId, siblingId) == Some(Placed(lane[..i] + lane[i + 1..], lane[i], siblingId))
  {
    FirstIndex(lane, clientId, i);
    JsArray.SpliceRemovesAt(lane, i);
    var removal := JsArray.Splice(lane, i, 1, []);
    assert removal.removed == [lane[i]];
  }

  /** The first index that has the id is the one `findIndex` answers. */
  lemma FirstIndex(cs: seq<Client>, id: string, i: nat)
    requires i < |cs| && cs[i].id == id
    requires forall k :: 0 <= k < i ==> cs[k].id != id
    ensures FindIndex(cs, id) == i
  {
    var r := FindIndex(cs, id);
    assert r != -1;
  }

  /**
    A client that is not in a non-empty lane makes `splice(-1, 1)` take out the
    LAST record, which is then put back; without a sibling the lane is unchanged.
   */
  lemma RemovalOfAbsentClientTakesLast(lane: seq<Client>, clientId: string, siblingId: Option<string>)
    requires lane != []
    requires forall k :: 0 <= k < |lane| ==> lane[k].id != clientId
    ensures RearrangedLane(lane, clientId, siblingId) == Some(Placed(lane[..|lane| - 1], lane[|lane| - 1], siblingId))
    ensures siblingId == None ==> RearrangedLane(lane, clientId, siblingId) == Some(lane)
  {
    JsArray.SpliceMinusOneRemovesLast(lane);
    assert lane[..|lane| - 1] + [lane[|lane| - 1]] == lane;
  }

  /** With a sibling that is in the list, the client goes right in front of it. */
  lemma PlacedBeforeSibling(clients: seq<Client>, client: Client, siblingId: string, j: nat)
    requires j < |clients| && clients[j].id == siblingId
    requires forall k :: 0 <= k < j ==> clients[k].id != siblingId
    ensures Placed(clients, client, Some(siblingId)) == clients[..j] + [client] + clients[j..]
  {
    FirstIndex(clients, siblingId, j);
    JsArray.SpliceInsertsAt(clients, j, client);
  }

  /**
    With a sibling id that is not in the list, `splice(-1, 0, client)` puts the
    client in front of the last record, or alone into an empty list.
   */
  lemma PlacedWhenSiblingAbsent(clients: seq<Client>, client: Client, siblingId: string)
    requires forall k :: 0 <= k < |clients| ==> clients[k].id != siblingId
    ensures Placed(clients, client, Some(siblingId)) ==
      if clients == [] then [client]
      else clients[..|clients| - 1] + [client] + [clients[|clients| - 1]]
  {
    JsArray.SpliceMinusOneInsertsBeforeLast(clients, client);
  }

  // ---------------------------------------------------------------------------
  // Properties of rearrangeClientsWithinSwimlane

  /** Putting the client back adds exactly that client. */
  lemma PlacedAddsClient(clients: seq<Client>, client: Client, siblingId: Option<string>)
    ensures multiset(Placed(clients, client, siblingId)) == multiset(clients) + multiset{client}
  {
    match siblingId
    case Some(sid) =>
      JsArray.SpliceMovesElements(clients, FindIndex(clients, sid), 0, [client]);
    case None =>
  }

  /**
    The updater always yields a lane when the lane is not empty, and that lane is
    a permutation of the old one, whether or not the ids are found.
   */
  lemma RearrangePermutesLane(lane: seq<Client>, clientId: string, siblingId: Option<string>)
    ensures RearrangedLane(lane, clientId, siblingId).Some? <==> lane != []
    ensures RearrangedLane(lane, clientId, siblingId).Some? ==>
      multiset(RearrangedLane(lane, clientId, siblingId).value) == multiset(lane)
  {
    var i := FindIndex(lane, clientId);
    if lane == [] {
      JsArray.SpliceMinusOneRemovesLast(lane);
    } else if i >= 0 {
      PermutedWhenFound(lane, clientId, i, siblingId);
    } else {
      PermutedWhenAbsent(lane, clientId, siblingId);
    }
  }

  lemma PermutedWhenFound(lane: seq<Client>, clientId: string, i: nat, siblingId: Option<string>)
    requires i < |lane| && lane[i].id == clientId
    requires forall k :: 0 <= k < i ==> lane[k].id != clientId
    ensures RearrangedLane(lane, clientId, siblingId).Some?
    ensures multiset(RearrangedLane(lane, clientId, siblingId).value) == multiset(lane)
  {
    RemovalTakesClient(lane, clientId, i, siblingId);
    PlacedAddsClient(lane[..i] + lane[i + 1..], lane[i], siblingId);
    TakingOneOut(lane, i);
  }

  lemma PermutedWhenAbsent(lane: seq<Client>, clientId: string, siblingId: Option<string>)
    requires lane != []
    requires forall k :: 0 <= k < |lane| ==> lane[k].id != clientId
    ensures RearrangedLane(lane, clientId, siblingId).Some?
    ensures multiset(RearrangedLane(lane, clientId, siblingId).value) == multiset(lane)
  {
    var n := |lane|;
    RemovalOfAbsentClientTakesLast(lane, clientId, siblingId);
    PlacedAddsClient(lane[..n - 1], lane[n - 1], siblingId);
    TakingLastOut(lane);
  }

  /** Taking out the last element takes out exactly one copy of it. */
  lemma TakingLastOut<T>(s: seq<T>)
    requires s != []
    ensures multiset(s[..|s| - 1]) + multiset{s[|s| - 1]} == multiset(s)
  {
    assert s == s[..|s| - 1] + [s[|s| - 1]];
  }

  /**
    With the client in the lane and the sibling found after the client is taken
    out, the client sits immediately in front of the sibling, and all other
    records keep their relative order.
   */
  lemma RearrangeBeforeSibling(lane: seq<Client>, clientId: string, i: nat, rest: seq<Client>, siblingId: string, j: nat)
    requires i < |lane| && lane[i].id == clientId
    requires forall k :: 0 <= k < i ==> lane[k].id != clientId
    requires rest == lane[..i] + lane[i + 1..]
    requires j < |rest| && rest[j].id == siblingId
    requires forall k :: 0 <= k < j ==> rest[k].id != siblingId
    ensures RearrangedLane(lane, clientId, Some(siblingId)).Some?
    ensures var r := RearrangedLane(lane, clientId, Some(siblingId)).value;
      && |r| == |lane|
      && r[j] == lane[i]
      && r[j + 1].id == siblingId
      && r[..j] + r[j + 1..] == rest
  {
    RemovalTakesClient(lane, clientId, i, Some(siblingId));
    PlacedBeforeSibling(rest, lane[i], siblingId, j);
    InsertedAt(rest, j, lane[i]);
  }

  /** Inserting `x` at `j` puts it at `j`, shifts the rest by one and keeps their order. */
  lemma InsertedAt<T>(s: seq<T>, j: nat, x: T)
    requires j < |s|
    ensures var r := s[..j] + [x] + s[j..];
      && |r| == |s| + 1 && r[j] == x && r[j + 1] == s[j] && r[..j] + r[j + 1..] == s
  {
    var r := s[..j] + [x] + s[j..];
    assert r[..j] == s[..j];
    assert r[j + 1..] == s[j..];
    assert s == s[..j] + s[j..];
  }

  /**
    With the client in the lane and no sibling, the client ends up last, and all
    other records keep their relative order.
   */
  lemma RearrangeWithoutSibling(lane: seq<Client>, clientId: string, i: nat)
    requires i < |lane| && lane[i].id == clientId
    requires forall k :: 0 <= k < i ==> lane[k].id != clientId
    ensures RearrangedLane(lane, clientId, None) == Some(lane[..i] + lane[i + 1..] + [lane[i]])
  {
    RemovalTakesClient(lane, clientId, i, None);
  }

  /**
    With the client in the lane and a sibling id that is not found, the client
    goes in front of the last remaining record, or alone when none remains.
   */
  lemma RearrangeWithAbsentSibling(lane: seq<Client>, clientId: string, i: nat, rest: seq<Client>, siblingId: string)
    requires i < |lane| && lane[i].id == clientId
    requires forall k :: 0 <= k < i ==> lane[k].id != clientId
    requires rest == lane[..i] + lane[i + 1..]
    requires forall k :: 0 <= k < |rest| ==> rest[k].id != siblingId
    ensures RearrangedLane(lane, clientId, Some(siblingId)) ==
      if rest == [] then Some([lane[i]])
      else Some(rest[..|rest| - 1] + [lane[i]] + [rest[|rest| - 1]])
  {
    RemovalTakesClient(lane, clientId, i, Some(siblingId));
    PlacedWhenSiblingAbsent(rest, lane[i], siblingId);
  }

  /** Rearranging under a key the state does not have fails, whatever the ids. */
  lemma RearrangeUnknownKeyFails(prev: Clients, clientId: string, status: string, siblingId: Option<string>)
    requires !IsLaneKey(status)
    ensures RearrangedClients(prev, clientId, status, siblingId) == Err(LaneNotIterable(status))
  {
  }

  /**
    The in-progress column's status string is not a key of the state, so
    rearranging within that column always fails.
   */
  lemma RearrangeInProgressFails(prev: Clients, clientId: string, siblingId: Option<string>)
    ensures RearrangedClients(prev, clientId, IN_PROGRESS, siblingId) == Err(LaneNotIterable(IN_PROGRESS))
  {
    RearrangeUnknownKeyFails(prev, clientId, IN_PROGRESS, siblingId);
  }

  /**
    The updater succeeds exactly for a key of the state whose lane is not empty;
    it then changes only that lane, and only its order.
   */
  lemma RearrangeKeepsOtherLanes(prev: Clients, clientId: string, status: string, siblingId: Option<string>)
    ensures RearrangedClients(prev, clientId, status, siblingId).Ok? <==>
      IsLaneKey(status) && LaneByKey(prev, status).value != []
    ensures RearrangedClients(prev, clientId, status, siblingId).Ok? ==>
      var next := RearrangedClients(prev, clientId, status, siblingId).value;
      && (forall key :: key != status ==> LaneByKey(next, key) == LaneByKey(prev, key))
      && multiset(LaneByKey(next, status).value) == multiset(LaneByKey(prev, status).value)
  {
    if IsLaneKey(status) {
      RearrangePermutesLane(LaneByKey(prev, status).value, clientId, siblingId);
    }
  }

  lemma PermutedLaneKeepsStatus(a: seq<Client>, b: seq<Client>, status: string)
    requires multiset(a) == multiset(b) && AllHaveStatus(a, status)
    ensures AllHaveStatus(b, status)
  {
    forall k | 0 <= k < |b| ensures b[k].status == status {
      assert b[k] in multiset(a);
      var m :| 0 <= m < |a| && a[m] == b[k];
    }
  }

  /** Reordering records within each lane keeps the board invariant and every id on the board. */
  lemma LanewisePermutationIsConsistent(prev: Clients, next: Clients)
    requires Consistent(prev)
    requires multiset(next.backlog) == multiset(prev.backlog)
    requires multiset(next.inProgress) == multiset(prev.inProgress)
    requires multiset(next.complete) == multiset(prev.complete)
    ensures Consistent(next) && IdBag(next) == IdBag(prev)
  {
    PermutedLaneKeepsStatus(prev.backlog, next.backlog, BACKLOG);
    PermutedLaneKeepsStatus(prev.inProgress, next.inProgress, IN_PROGRESS);
    PermutedLaneKeepsStatus(prev.complete, next.complete, COMPLETE);
    LanewisePermutationKeepsIds(prev, next);
  }

  lemma LanewisePermutationKeepsIds(prev: Clients, next: Clients)
    requires multiset(next.backlog) == multiset(prev.backlog)
    requires multiset(next.inProgress) == multiset(prev.inProgress)
    requires multiset(next.complete) == multiset(prev.complete)
    ensures IdBag(next) == IdBag(prev)
  {
    calc {
      multiset(AllClients(next));
      multiset(next.backlog) + multiset(next.inProgress) + multiset(next.complete);
      multiset(prev.backlog) + multiset(prev.inProgress) + multiset(prev.complete);
      multiset(AllClients(prev));
    }
    PermutedIds(AllClients(prev), AllClients(next));
  }

  /** A successful rearrangement keeps the board invariant and every id on the board. */
  lemma RearrangePreservesConsistency(prev: Clients, clientId: string, status: string, siblingId: Option<string>)
    requires Consistent(prev)
    ensures RearrangedClients(prev, clientId, status, siblingId).Ok? ==>
      Consistent(RearrangedClients(prev, clientId, status, siblingId).value)
      && IdBag(RearrangedClients(prev, clientId, status, siblingId).value) == IdBag(prev)
  {
    var r := RearrangedClients(prev, clientId, status, siblingId);
    if r.Ok? {
      var next := r.value;
      RearrangeKeepsOtherLanes(prev, clientId, status, siblingId);
      assert LaneByKey(next, BACKLOG_KEY) == LaneByKey(prev, BACKLOG_KEY) || status == BACKLOG_KEY;
      assert LaneByKey(next, IN_PROGRESS_KEY) == LaneByKey(prev, IN_PROGRESS_KEY) || status == IN_PROGRESS_KEY;
      assert LaneByKey(next, COMPLETE_KEY) == LaneByKey(prev, COMPLETE_KEY) || status == COMPLETE_KEY;
      LanewisePermutationIsConsistent(prev, next);
    }
  }
}
