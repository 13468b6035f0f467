/**
  `updateClientStatus(clientId, newStatus)` of src/Board.js. Its state updater
  concatenates the three lanes (backlog, then in progress, then complete), gives
  every record whose id is `clientId` the status `newStatus`, and rebuilds the
  three lanes by filtering that list on the three status strings. A moved record
  therefore lands where the concatenation puts it, not at the end of its new lane.
 */
module StatusUpdate {
  import opened BoardState

  /** One step of the `map`: the record with the id gets the new status, others stay. */
  function Retag(c: Client, clientId: string, newStatus: string): Client {
    if c.id == clientId then c.(status := newStatus) else c
  }

  /** `allClients.map(...)`. */
  function Retagged(cs: seq<Client>, clientId: string, newStatus: string): (r: seq<Client>)
    ensures |r| == |cs|
    ensures forall k :: 0 <= k < |cs| ==> r[k] == Retag(cs[k], clientId, newStatus)
  {
    if cs == [] then [] else [Retag(cs[0], clientId, newStatus)] + Retagged(cs[1..], clientId, newStatus)
  }

  /** `clients.filter(client => client.status === status)`. */
  function InLane(cs: seq<Client>, status: string): (r: seq<Client>)
    ensures AllHaveStatus(r, status)
    ensures forall c | c in r :: c in cs
  {
    if cs == [] then []
    else (if cs[0].status == status then [cs[0]] else []) + InLane(cs[1..], status)
  }

  /** The state that the updater of `updateClientStatus` returns. */
  function UpdatedClients(prev: Clients, clientId: string, newStatus: string): (next: Clients)
    ensures LanesMatchStatus(next)
  {
    var all := Retagged(AllClients(prev), clientId, newStatus);
    Clients(InLane(all, BACKLOG), InLane(all, IN_PROGRESS), InLane(all, COMPLETE))
  }

  // ---------------------------------------------------------------------------
  // Vocabulary for the properties

  /** The records with the id, in order. */
  function Matching(cs: seq<Client>, id: string): (r: seq<Client>)
    ensures forall c | c in r :: c in cs && c.id == id
  {
    if cs == [] then []
    else (if cs[0].id == id then [cs[0]] else []) + Matching(cs[1..], id)
  }

  /** The records without the id, in order. */
  function Others(cs: seq<Client>, id: string): (r: seq<Client>)
    ensures forall c | c in r :: c in cs && c.id != id
  {
    if cs == [] then []
    else (if cs[0].id == id then [] else [cs[0]]) + Others(cs[1..], id)
  }

  /** `a` is `b` with some elements left out. */
  ghost predicate IsSubsequence<T>(a: seq<T>, b: seq<T>)
    decreases |b|
  {
    if a == [] then true
    else if b == [] then false
    else (a[0] == b[0] && IsSubsequence(a[1..], b[1..])) || IsSubsequence(a, b[1..])
  }

  /**
    What a lane whose records all carry `laneStatus` contributes to the rebuilt lane
    for `status`: all of it when it is that lane and the record stays; the records
    without the id when it is that lane and the record leaves; the retagged record
    when it arrives from this lane; nothing otherwise.
   */
  ghost function Contribution(lane: seq<Client>, laneStatus: string, clientId: string, newStatus: string, status: string): seq<Client> {
    if status == laneStatus then
      if newStatus == status then lane else Others(lane, clientId)
    else if newStatus == status then Retagged(Matching(lane, clientId), clientId, newStatus)
    else []
  }

  // ---------------------------------------------------------------------------
  // Facts about the list operations

  lemma {:induction false} InLaneOfConcat(a: seq<Client>, b: seq<Client>, status: string)
    ensures InLane(a + b, status) == InLane(a, status) + InLane(b, status)
  {
    if a != [] {
      TailOfConcat(a, b);
      var h := if a[0].status == status then [a[0]] else [];
      InLaneOfConcat(a[1..], b, status);
      assert InLane(a + b, status) == h + InLane(a[1..] + b, status);
      assert InLane(a, status) == h + InLane(a[1..], status);
      Regroup(h, InLane(a[1..], status), InLane(b, status));
    } else {
      assert a + b == b;
    }
  }

  lemma RetaggedOfConcat(a: seq<Client>, b: seq<Client>, clientId: string, newStatus: string)
    ensures Retagged(a + b, clientId, newStatus) == Retagged(a, clientId, newStatus) + Retagged(b, clientId, newStatus)
  {
  }

  lemma {:induction false} OthersOfConcat(a: seq<Client>, b: seq<Client>, id: string)
    ensures Others(a + b, id) == Others(a, id) + Others(b, id)
  {
    if a != [] {
      TailOfConcat(a, b);
      var h := if a[0].id == id then [] else [a[0]];
      OthersOfConcat(a[1..], b, id);
      assert Others(a + b, id) == h + Others(a[1..] + b, id);
      assert Others(a, id) == h + Others(a[1..], id);
      Regroup(h, Others(a[1..], id), Others(b, id));
    } else {
      assert a + b == b;
    }
  }

  lemma {:induction false} OthersOfOthers(cs: seq<Client>, id: string)
    ensures Others(Others(cs, id), id) == Others(cs, id)
  {
    if cs != [] {
      OthersOfOthers(cs[1..], id);
      var o := Others(cs, id);
      if cs[0].id != id {
        assert o == [cs[0]] + Others(cs[1..], id);
        assert o[0] == cs[0] && o[1..] == Others(cs[1..], id);
        assert Others(o, id) == [cs[0]] + Others(o[1..], id);
      } else {
        assert o == Others(cs[1..], id);
      }
    }
  }

  /** A list whose records all carry the id has no other records. */
  lemma {:induction false} OthersOfAllMatching(cs: seq<Client>, id: string)
    requires forall c | c in cs :: c.id == id
    ensures Others(cs, id) == []
  {
    if cs != [] {
      assert cs[0] in cs;
      OthersOfAllMatching(cs[1..], id);
    }
  }

  /** When no record carries the id, filtering it out changes nothing. */
  lemma {:induction false} OthersOfNoneMatching(cs: seq<Client>, id: string)
    requires Matching(cs, id) == []
    ensures Others(cs, id) == cs
  {
    if cs != [] {
      assert cs[0].id != id;
      assert cs == [cs[0]] + cs[1..];
      OthersOfNoneMatching(cs[1..], id);
    }
  }

  lemma {:induction false} NoneMatching(cs: seq<Client>, id: string)
    requires forall c | c in cs :: c.id != id
    ensures Matching(cs, id) == []
  {
    if cs != [] {
      assert cs[0] in cs;
      NoneMatching(cs[1..], id);
    }
  }

  /** A record with the status is kept by the filter for that status. */
  lemma {:induction false} InLaneKeeps(cs: seq<Client>, c: Client, status: string)
    requires c in cs && c.status == status
    ensures c in InLane(cs, status)
  {
    if cs[0] != c {
      InLaneKeeps(cs[1..], c, status);
    }
  }

  lemma {:induction false} InLaneIsSubsequence(cs: seq<Client>, status: string)
    ensures IsSubsequence(InLane(cs, status), cs)
  {
    if cs != [] {
      InLaneIsSubsequence(cs[1..], status);
      var r := InLane(cs, status);
      if cs[0].status == status {
        assert r[0] == cs[0] && r[1..] == InLane(cs[1..], status);
      } else {
        assert r == InLane(cs[1..], status);
      }
    }
  }

  /** Filtering a retagged lane for one status, case by case. */
  lemma {:induction false} LaneOfRetaggedLane(lane: seq<Client>, laneStatus: string, clientId: string, newStatus: string, status: string)
    requires AllHaveStatus(lane, laneStatus)
    ensures InLane(Retagged(lane, clientId, newStatus), status) == Contribution(lane, laneStatus, clientId, newStatus, status)
  {
    if lane != [] {
      var h, t := lane[0], lane[1..];
      assert AllHaveStatus(t, laneStatus) by {
        forall k | 0 <= k < |t| ensures t[k].status == laneStatus {
          assert t[k] == lane[k + 1];
        }
      }
      LaneOfRetaggedLane(t, laneStatus, clientId, newStatus, status);
      var rt := Retagged(lane, clientId, newStatus);
      assert rt == [Retag(h, clientId, newStatus)] + Retagged(t, clientId, newStatus);
      InLaneOfConcat([Retag(h, clientId, newStatus)], Retagged(t, clientId, newStatus), status);
      ContributionCons(lane, laneStatus, clientId, newStatus, status);
    }
  }

  /** What the first record of a lane contributes to the filter for `status`. */
  lemma ContributionCons(lane: seq<Client>, laneStatus: string, clientId: string, newStatus: string, status: string)
    requires lane != [] && lane[0].status == laneStatus
    ensures Contribution(lane, laneStatus, clientId, newStatus, status) ==
      InLane([Retag(lane[0], clientId, newStatus)], status) + Contribution(lane[1..], laneStatus, clientId, newStatus, status)
  {
    var h, t := lane[0], lane[1..];
    var x := Retag(h, clientId, newStatus);
    InLaneSingle(x, status);
    if status == laneStatus && newStatus == status {
      assert x.status == status;
      assert [h] + t == lane;
    } else if status == laneStatus {
      assert Others(lane, clientId) == (if h.id == clientId then [] else [h]) + Others(t, clientId);
    } else if newStatus == status {
      var m := Matching(t, clientId);
      assert Matching(lane, clientId) == (if h.id == clientId then [h] else []) + m;
      if h.id == clientId {
        RetaggedCons(h, m, clientId, newStatus);
      } else {
        assert [] + m == m;
      }
    }
  }

  lemma InLaneSingle(x: Client, status: string)
    ensures InLane([x], status) == if x.status == status then [x] else []
  {
    assert [x][1..] == [];
  }

  lemma RetaggedCons(h: Client, t: seq<Client>, clientId: string, newStatus: string)
    ensures Retagged([h] + t, clientId, newStatus) == [Retag(h, clientId, newStatus)] + Retagged(t, clientId, newStatus)
  {
    assert ([h] + t)[1..] == t;
  }

  /**
    Each lane after the update is put together from the three old lanes in
    concatenation order.
   */
  lemma UpdatedLane(prev: Clients, clientId: string, newStatus: string, status: string)
    requires LanesMatchStatus(prev)
    ensures InLane(Retagged(AllClients(prev), clientId, newStatus), status) ==
      Contribution(prev.backlog, BACKLOG, clientId, newStatus, status)
      + Contribution(prev.inProgress, IN_PROGRESS, clientId, newStatus, status)
      + Contribution(prev.complete, COMPLETE, clientId, newStatus, status)
  {
    var b, i, c := prev.backlog, prev.inProgress, prev.complete;
    RetaggedOfConcat(b + i, c, clientId, newStatus);
    RetaggedOfConcat(b, i, clientId, newStatus);
    var rb, ri, rc := Retagged(b, clientId, newStatus), Retagged(i, clientId, newStatus), Retagged(c, clientId, newStatus);
    InLaneOfConcat(rb + ri, rc, status);
    InLaneOfConcat(rb, ri, status);
    LaneOfRetaggedLane(b, BACKLOG, clientId, newStatus, status);
    LaneOfRetaggedLane(i, IN_PROGRESS, clientId, newStatus, status);
    LaneOfRetaggedLane(c, COMPLETE, clientId, newStatus, status);
  }

  /** The ids of the records that the filter for `status` keeps. */
  ghost function LaneIds(cs: seq<Client>, status: string): multiset<string> {
    multiset(Ids(InLane(cs, status)))
  }

  lemma LaneIdsCons(cs: seq<Client>, status: string)
    requires cs != []
    ensures LaneIds(cs, status) == HeadIds(cs[0], status) + LaneIds(cs[1..], status)
  {
    IdsOfConcat(if cs[0].status == status then [cs[0]] else [], InLane(cs[1..], status));
  }

  /** Splitting a list by status loses no record whose status is known and duplicates none. */
  lemma {:induction false} PartitionByStatus(cs: seq<Client>)
    ensures StatusesKnown(cs) ==>
      multiset(InLane(cs, BACKLOG)) + multiset(InLane(cs, IN_PROGRESS)) + multiset(InLane(cs, COMPLETE)) == multiset(cs)
  {
    if cs != [] {
      var h, t := cs[0], cs[1..];
      assert cs == [h] + t;
      PartitionByStatus(t);
      if StatusesKnown(cs) {
        StatusesKnownTail(cs);
      }
    }
  }

  /** The ids of the first record that the three filters keep: its own id at most once. */
  lemma HeadLaneIds(h: Client)
    ensures HeadIds(h, BACKLOG) + HeadIds(h, IN_PROGRESS) + HeadIds(h, COMPLETE) <= multiset{h.id}
    ensures IsStatus(h.status) ==>
      HeadIds(h, BACKLOG) + HeadIds(h, IN_PROGRESS) + HeadIds(h, COMPLETE) == multiset{h.id}
  {
    if h.status == BACKLOG {
      assert HeadIds(h, IN_PROGRESS) == multiset{} && HeadIds(h, COMPLETE) == multiset{};
    } else if h.status == IN_PROGRESS {
      assert HeadIds(h, BACKLOG) == multiset{} && HeadIds(h, COMPLETE) == multiset{};
    } else if h.status == COMPLETE {
      assert HeadIds(h, BACKLOG) == multiset{} && HeadIds(h, IN_PROGRESS) == multiset{};
    } else {
      assert HeadIds(h, BACKLOG) == multiset{} && HeadIds(h, IN_PROGRESS) == multiset{} && HeadIds(h, COMPLETE) == multiset{};
    }
  }

  ghost function HeadIds(h: Client, status: string): multiset<string> {
    if h.status == status then multiset{h.id} else multiset{}
  }

  lemma SubBagsAdd(a: multiset<string>, b: multiset<string>, c: multiset<string>, d: multiset<string>)
    requires a <= c && b <= d
    ensures a + b <= c + d
  {
  }

  /** A list whose records all carry known statuses: so does every tail of it. */
  lemma StatusesKnownTail(cs: seq<Client>)
    requires cs != [] && StatusesKnown(cs)
    ensures StatusesKnown(cs[1..]) && IsStatus(cs[0].status)
  {
    forall k | 0 <= k < |cs| - 1 ensures IsStatus(cs[1..][k].status) {
      assert cs[1..][k] == cs[k + 1];
    }
  }

  /** The ids that the three filters keep, together. */
  ghost function PartitionIds(cs: seq<Client>): multiset<string> {
    LaneIds(cs, BACKLOG) + LaneIds(cs, IN_PROGRESS) + LaneIds(cs, COMPLETE)
  }

  lemma PartitionIdsCons(cs: seq<Client>)
    requires cs != []
    ensures PartitionIds(cs) ==
      HeadIds(cs[0], BACKLOG) + HeadIds(cs[0], IN_PROGRESS) + HeadIds(cs[0], COMPLETE) + PartitionIds(cs[1..])
    ensures multiset(Ids(cs)) == multiset{cs[0].id} + multiset(Ids(cs[1..]))
  {
    LaneIdsCons(cs, BACKLOG);
    LaneIdsCons(cs, IN_PROGRESS);
    LaneIdsCons(cs, COMPLETE);
    var h1, h2, h3 := HeadIds(cs[0], BACKLOG), HeadIds(cs[0], IN_PROGRESS), HeadIds(cs[0], COMPLETE);
    var t1, t2, t3 := LaneIds(cs[1..], BACKLOG), LaneIds(cs[1..], IN_PROGRESS), LaneIds(cs[1..], COMPLETE);
    SumsRegroup(h1, h2, h3, t1, t2, t3);
    IdsCons(cs);
  }

  lemma SumsRegroup(h1: multiset<string>, h2: multiset<string>, h3: multiset<string>,
                    t1: multiset<string>, t2: multiset<string>, t3: multiset<string>)
    ensures (h1 + t1) + (h2 + t2) + (h3 + t3) == h1 + h2 + h3 + (t1 + t2 + t3)
  {
  }


  /** Splitting a list by status duplicates no id. */
  lemma {:induction false} PartitionIdsByStatus(cs: seq<Client>)
    ensures PartitionIds(cs) <= multiset(Ids(cs))
  {
    if cs != [] {
      PartitionIdsByStatus(cs[1..]);
      PartitionIdsCons(cs);
      HeadLaneIds(cs[0]);
      SubBagsAdd(HeadIds(cs[0], BACKLOG) + HeadIds(cs[0], IN_PROGRESS) + HeadIds(cs[0], COMPLETE),
        PartitionIds(cs[1..]), multiset{cs[0].id}, multiset(Ids(cs[1..])));
    }
  }

  /** Splitting a list whose statuses are all known loses no id. */
  lemma {:induction false} PartitionKnownIdsByStatus(cs: seq<Client>)
    requires StatusesKnown(cs)
    ensures PartitionIds(cs) == multiset(Ids(cs))
  {
    if cs != [] {
      StatusesKnownTail(cs);
      PartitionKnownIdsByStatus(cs[1..]);
      PartitionIdsCons(cs);
      HeadLaneIds(cs[0]);
    }
  }

  lemma {:induction false} MatchingCount(cs: seq<Client>, id: string)
    ensures |Matching(cs, id)| == multiset(Ids(cs))[id]
  {
    if cs != [] {
      MatchingCount(cs[1..], id);
      IdsOfConcat([cs[0]], cs[1..]);
      assert cs == [cs[0]] + cs[1..];
    }
  }

  lemma {:induction false} InMatching(cs: seq<Client>, c: Client)
    requires c in cs
    ensures c in Matching(cs, c.id)
  {
    if cs[0] != c {
      InMatching(cs[1..], c);
    }
  }

  /**
    With unique ids, the record with a given id that one lane holds is the only
    record with that id on the board.
   */
  lemma UniqueRecord(prev: Clients, c: Client)
    requires UniqueIds(prev)
    requires c in AllClients(prev)
    ensures c in prev.backlog ==> Matching(prev.backlog, c.id) == [c]
    ensures c in prev.inProgress ==> Matching(prev.inProgress, c.id) == [c]
    ensures c in prev.complete ==> Matching(prev.complete, c.id) == [c]
    ensures c !in prev.backlog ==> Matching(prev.backlog, c.id) == []
    ensures c !in prev.inProgress ==> Matching(prev.inProgress, c.id) == []
    ensures c !in prev.complete ==> Matching(prev.complete, c.id) == []
  {
    var b, i, cc, id := prev.backlog, prev.inProgress, prev.complete, c.id;
    MatchingCountsIds(prev, id);
    IdOnBoard(prev, c);
    assert |Matching(b, id)| + |Matching(i, id)| + |Matching(cc, id)| == 1;
    if c in b { InMatching(b, c); MatchingSingleton(b, c); }
    if c in i { InMatching(i, c); MatchingSingleton(i, c); }
    if c in cc { InMatching(cc, c); MatchingSingleton(cc, c); }
  }

  /** The records with an id, lane by lane, are as many as its occurrences on the board. */
  lemma MatchingCountsIds(prev: Clients, id: string)
    ensures |Matching(prev.backlog, id)| + |Matching(prev.inProgress, id)| + |Matching(prev.complete, id)|
      == IdBag(prev)[id]
  {
    var b, i, cc := prev.backlog, prev.inProgress, prev.complete;
    IdsOfConcat(b + i, cc);
    IdsOfConcat(b, i);
    assert IdBag(prev) == multiset(Ids(b)) + multiset(Ids(i)) + multiset(Ids(cc));
    MatchingCount(b, id);
    MatchingCount(i, id);
    MatchingCount(cc, id);
  }

  lemma IdOnBoard(prev: Clients, c: Client)
    requires c in AllClients(prev)
    ensures c.id in IdBag(prev)
  {
    var all := AllClients(prev);
    var k :| 0 <= k < |all| && all[k] == c;
    assert Ids(all)[k] == c.id;
  }

  lemma MatchingSingleton(cs: seq<Client>, c: Client)
    requires c in Matching(cs, c.id) && |Matching(cs, c.id)| == 1
    ensures Matching(cs, c.id) == [c]
  {
  }

  // ---------------------------------------------------------------------------
  // Properties of updateClientStatus

  /**
    The lane for the new status is: the records with the id that came from the
    backlog, then the in-progress records, then those that came from complete
    (each old lane of that status contributing whole). A moved record keeps its
    place in the concatenation order.
   */
  lemma UpdateTargetLane(prev: Clients, clientId: string, newStatus: string)
    requires LanesMatchStatus(prev) && IsStatus(newStatus)
    ensures Lane(UpdatedClients(prev, clientId, newStatus), newStatus) ==
      (if newStatus == BACKLOG then prev.backlog else Retagged(Matching(prev.backlog, clientId), clientId, newStatus))
      + (if newStatus == IN_PROGRESS then prev.inProgress else Retagged(Matching(prev.inProgress, clientId), clientId, newStatus))
      + (if newStatus == COMPLETE then prev.complete else Retagged(Matching(prev.complete, clientId), clientId, newStatus))
  {
    UpdatedLane(prev, clientId, newStatus, newStatus);
  }

  /** Every lane other than the new status's loses the records with the id and nothing else. */
  lemma UpdateSourceLanes(prev: Clients, clientId: string, newStatus: string)
    requires LanesMatchStatus(prev)
    ensures newStatus != BACKLOG ==> UpdatedClients(prev, clientId, newStatus).backlog == Others(prev.backlog, clientId)
    ensures newStatus != IN_PROGRESS ==> UpdatedClients(prev, clientId, newStatus).inProgress == Others(prev.inProgress, clientId)
    ensures newStatus != COMPLETE ==> UpdatedClients(prev, clientId, newStatus).complete == Others(prev.complete, clientId)
  {
    UpdatedLane(prev, clientId, newStatus, BACKLOG);
    UpdatedLane(prev, clientId, newStatus, IN_PROGRESS);
    UpdatedLane(prev, clientId, newStatus, COMPLETE);
  }

  /**
    Each record with the id ends up, with the new status, in the lane for that status,
    and no record with the id is left outside it.
   */
  lemma UpdatePlacesRecord(prev: Clients, clientId: string, newStatus: string)
    requires LanesMatchStatus(prev) && IsStatus(newStatus)
    ensures forall c | c in AllClients(prev) && c.id == clientId ::
      c.(status := newStatus) in Lane(UpdatedClients(prev, clientId, newStatus), newStatus)
    ensures forall c | c in AllClients(UpdatedClients(prev, clientId, newStatus)) && c.id == clientId ::
      c.status == newStatus
  {
    var next := UpdatedClients(prev, clientId, newStatus);
    var all := Retagged(AllClients(prev), clientId, newStatus);
    forall c | c in AllClients(prev) && c.id == clientId
      ensures c.(status := newStatus) in Lane(next, newStatus)
    {
      var k :| 0 <= k < |AllClients(prev)| && AllClients(prev)[k] == c;
      assert all[k] == c.(status := newStatus);
      InLaneKeeps(all, c.(status := newStatus), newStatus);
    }
    UpdateSourceLanes(prev, clientId, newStatus);
  }

  /** Every record without the id stays, field for field, in its lane and its order. */
  lemma UpdateKeepsOtherRecords(prev: Clients, clientId: string, newStatus: string)
    requires LanesMatchStatus(prev)
    ensures Others(UpdatedClients(prev, clientId, newStatus).backlog, clientId) == Others(prev.backlog, clientId)
    ensures Others(UpdatedClients(prev, clientId, newStatus).inProgress, clientId) == Others(prev.inProgress, clientId)
    ensures Others(UpdatedClients(prev, clientId, newStatus).complete, clientId) == Others(prev.complete, clientId)
  {
    UpdateSourceLanes(prev, clientId, newStatus);
    OthersOfOthers(prev.backlog, clientId);
    OthersOfOthers(prev.inProgress, clientId);
    OthersOfOthers(prev.complete, clientId);
    if IsStatus(newStatus) {
      OthersOfTargetLane(prev, clientId, newStatus);
    }
  }

  /** The records without the id in the lane for the new status are those it had. */
  lemma OthersOfTargetLane(prev: Clients, clientId: string, newStatus: string)
    requires LanesMatchStatus(prev) && IsStatus(newStatus)
    ensures Others(Lane(UpdatedClients(prev, clientId, newStatus), newStatus), clientId) == Others(Lane(prev, newStatus), clientId)
  {
    UpdateTargetLane(prev, clientId, newStatus);
    var a := Retagged(Matching(prev.backlog, clientId), clientId, newStatus);
    var b := Retagged(Matching(prev.inProgress, clientId), clientId, newStatus);
    var c := Retagged(Matching(prev.complete, clientId), clientId, newStatus);
    if newStatus == BACKLOG {
      OthersOfArrival(prev.inProgress, clientId, newStatus);
      OthersOfArrival(prev.complete, clientId, newStatus);
      OthersOfConcat3(prev.backlog, b, c, clientId);
    } else if newStatus == IN_PROGRESS {
      OthersOfArrival(prev.backlog, clientId, newStatus);
      OthersOfArrival(prev.complete, clientId, newStatus);
      OthersOfConcat3(a, prev.inProgress, c, clientId);
    } else {
      OthersOfArrival(prev.backlog, clientId, newStatus);
      OthersOfArrival(prev.inProgress, clientId, newStatus);
      OthersOfConcat3(a, b, prev.complete, clientId);
    }
  }

  lemma OthersOfConcat3(a: seq<Client>, b: seq<Client>, c: seq<Client>, id: string)
    ensures Others(a + b + c, id) == Others(a, id) + Others(b, id) + Others(c, id)
  {
    OthersOfConcat(a + b, c, id);
    OthersOfConcat(a, b, id);
  }

  /** The records that arrive in a lane all carry the id. */
  lemma OthersOfArrival(lane: seq<Client>, clientId: string, newStatus: string)
    ensures Others(Retagged(Matching(lane, clientId), clientId, newStatus), clientId) == []
  {
    var arrived := Retagged(Matching(lane, clientId), clientId, newStatus);
    forall c | c in arrived ensures c.id == clientId {
      var k :| 0 <= k < |arrived| && arrived[k] == c;
      assert Matching(lane, clientId)[k] in Matching(lane, clientId);
    }
    OthersOfAllMatching(arrived, clientId);
  }

  /** Every lane is the retagged concatenation with some records left out: relative order is kept. */
  lemma UpdatedLanesAreSubsequences(prev: Clients, clientId: string, newStatus: string)
    ensures IsSubsequence(UpdatedClients(prev, clientId, newStatus).backlog, Retagged(AllClients(prev), clientId, newStatus))
    ensures IsSubsequence(UpdatedClients(prev, clientId, newStatus).inProgress, Retagged(AllClients(prev), clientId, newStatus))
    ensures IsSubsequence(UpdatedClients(prev, clientId, newStatus).complete, Retagged(AllClients(prev), clientId, newStatus))
  {
    var all := Retagged(AllClients(prev), clientId, newStatus);
    InLaneIsSubsequence(all, BACKLOG);
    InLaneIsSubsequence(all, IN_PROGRESS);
    InLaneIsSubsequence(all, COMPLETE);
  }

  /** A record moved from the backlog to in progress becomes the FIRST in-progress record. */
  lemma MovedToInProgressComesFirst(prev: Clients, c: Client)
    requires Consistent(prev) && c in prev.backlog
    ensures UpdatedClients(prev, c.id, IN_PROGRESS) ==
      Clients(Others(prev.backlog, c.id), [c.(status := IN_PROGRESS)] + prev.inProgress, prev.complete)
  {
    var next := UpdatedClients(prev, c.id, IN_PROGRESS);
    var moved := c.(status := IN_PROGRESS);
    MemberStatus(prev.backlog, BACKLOG, c);
    NotInLaneOfOtherStatus(prev.inProgress, IN_PROGRESS, c);
    NotInLaneOfOtherStatus(prev.complete, COMPLETE, c);
    UniqueRecord(prev, c);
    assert next.inProgress == [moved] + prev.inProgress by {
      UpdateTargetLane(prev, c.id, IN_PROGRESS);
      SingleArrival(c, IN_PROGRESS);
      ConcatEmpty([moved], prev.inProgress);
    }
    assert next.backlog == Others(prev.backlog, c.id) && next.complete == prev.complete by {
      UpdateSourceLanes(prev, c.id, IN_PROGRESS);
      OthersOfNoneMatching(prev.complete, c.id);
    }
  }

  /** A record moved from complete to the backlog becomes the LAST backlog record. */
  lemma MovedToBacklogComesLast(prev: Clients, c: Client)
    requires Consistent(prev) && c in prev.complete
    ensures UpdatedClients(prev, c.id, BACKLOG) ==
      Clients(prev.backlog + [c.(status := BACKLOG)], prev.inProgress, Others(prev.complete, c.id))
  {
    var next := UpdatedClients(prev, c.id, BACKLOG);
    var moved := c.(status := BACKLOG);
    MemberStatus(prev.complete, COMPLETE, c);
    NotInLaneOfOtherStatus(prev.backlog, BACKLOG, c);
    NotInLaneOfOtherStatus(prev.inProgress, IN_PROGRESS, c);
    UniqueRecord(prev, c);
    assert next.backlog == prev.backlog + [moved] by {
      UpdateTargetLane(prev, c.id, BACKLOG);
      SingleArrival(c, BACKLOG);
      ConcatEmpty(prev.backlog, [moved]);
    }
    assert next.inProgress == prev.inProgress && next.complete == Others(prev.complete, c.id) by {
      UpdateSourceLanes(prev, c.id, BACKLOG);
      OthersOfNoneMatching(prev.inProgress, c.id);
    }
  }

  lemma ConcatEmpty<T>(a: seq<T>, b: seq<T>)
    ensures a + [] + b == a + b && a + b + [] == a + b
    ensures a + [] == a && [] + a == a
  {
  }

  /** The record that arrives, and the nothing that arrives from a lane without the id. */
  lemma SingleArrival(c: Client, newStatus: string)
    ensures Retagged([c], c.id, newStatus) == [c.(status := newStatus)]
    ensures Retagged([], c.id, newStatus) == []
  {
  }

  lemma MemberStatus(lane: seq<Client>, status: string, c: Client)
    requires AllHaveStatus(lane, status) && c in lane
    ensures c.status == status
  {
    var k :| 0 <= k < |lane| && lane[k] == c;
  }

  lemma NotInLaneOfOtherStatus(lane: seq<Client>, status: string, c: Client)
    requires AllHaveStatus(lane, status) && c.status != status
    ensures c !in lane
  {
    if c in lane {
      MemberStatus(lane, status, c);
    }
  }

  /**
    No change when no record with the id carries a status other than the new one:
    an unknown id, or a record that already has the new status.
   */
  lemma UpdateWithoutChangeIsIdentity(prev: Clients, clientId: string, newStatus: string)
    requires LanesMatchStatus(prev)
    requires forall c | c in AllClients(prev) && c.id == clientId :: c.status == newStatus
    ensures UpdatedClients(prev, clientId, newStatus) == prev
  {
    var all := AllClients(prev);
    assert forall d | d in prev.backlog :: d in all;
    assert forall d | d in prev.inProgress :: d in all;
    assert forall d | d in prev.complete :: d in all;
    UntouchedLane(prev.backlog, BACKLOG, clientId, newStatus, all);
    UntouchedLane(prev.inProgress, IN_PROGRESS, clientId, newStatus, all);
    UntouchedLane(prev.complete, COMPLETE, clientId, newStatus, all);
    UpdateSourceLanes(prev, clientId, newStatus);
    if IsStatus(newStatus) {
      TargetLaneWithoutArrivals(prev, clientId, newStatus);
    }
  }

  /** The lane for the new status keeps its records when no other lane holds the id. */
  lemma TargetLaneWithoutArrivals(prev: Clients, clientId: string, newStatus: string)
    requires LanesMatchStatus(prev) && IsStatus(newStatus)
    requires newStatus != BACKLOG ==> Matching(prev.backlog, clientId) == []
    requires newStatus != IN_PROGRESS ==> Matching(prev.inProgress, clientId) == []
    requires newStatus != COMPLETE ==> Matching(prev.complete, clientId) == []
    ensures Lane(UpdatedClients(prev, clientId, newStatus), newStatus) == Lane(prev, newStatus)
  {
    UpdateTargetLane(prev, clientId, newStatus);
    var none := Retagged([], clientId, newStatus);
    assert none == [];
    if newStatus == BACKLOG {
      ConcatEmpty(prev.backlog, []);
    } else if newStatus == IN_PROGRESS {
      ConcatEmpty(prev.inProgress, []);
    } else {
      ConcatEmpty(prev.complete, []);
    }
  }

  /** A lane of another status holds no record with the id when every such record has the new status. */
  lemma UntouchedLane(lane: seq<Client>, laneStatus: string, clientId: string, newStatus: string, all: seq<Client>)
    requires AllHaveStatus(lane, laneStatus)
    requires forall d | d in lane :: d in all
    requires forall d | d in all && d.id == clientId :: d.status == newStatus
    ensures laneStatus != newStatus ==> Matching(lane, clientId) == [] && Others(lane, clientId) == lane
  {
    if laneStatus != newStatus {
      forall d | d in lane ensures d.id != clientId {
        var k :| 0 <= k < |lane| && lane[k] == d;
      }
      NoneMatching(lane, clientId);
      OthersOfNoneMatching(lane, clientId);
    }
  }

  /** An unknown id leaves the state as it was. */
  lemma UpdateUnknownIdIsIdentity(prev: Clients, clientId: string, newStatus: string)
    requires LanesMatchStatus(prev)
    requires forall c | c in AllClients(prev) :: c.id != clientId
    ensures UpdatedClients(prev, clientId, newStatus) == prev
  {
    UpdateWithoutChangeIsIdentity(prev, clientId, newStatus);
  }

  /** A status that is none of the three strings makes the record vanish from every lane. */
  lemma UpdateUnknownStatusDropsRecord(prev: Clients, clientId: string, newStatus: string)
    requires LanesMatchStatus(prev) && !IsStatus(newStatus)
    ensures UpdatedClients(prev, clientId, newStatus) ==
      Clients(Others(prev.backlog, clientId), Others(prev.inProgress, clientId), Others(prev.complete, clientId))
  {
    UpdateSourceLanes(prev, clientId, newStatus);
  }

  /**
    With a known new status and known statuses, the lanes after the update hold
    exactly the retagged records: nothing lost, nothing duplicated.
   */
  lemma UpdatePreservesRecords(prev: Clients, clientId: string, newStatus: string)
    requires IsStatus(newStatus) && StatusesKnown(AllClients(prev))
    ensures multiset(AllClients(UpdatedClients(prev, clientId, newStatus)))
      == multiset(Retagged(AllClients(prev), clientId, newStatus))
  {
    var all := Retagged(AllClients(prev), clientId, newStatus);
    assert StatusesKnown(all) by {
      forall k | 0 <= k < |all| ensures IsStatus(all[k].status) {
        assert all[k] == Retag(AllClients(prev)[k], clientId, newStatus);
      }
    }
    PartitionByStatus(all);
  }

  /**
    The update keeps the board invariant, and with a known new status it keeps
    every id on the board.
   */
  lemma UpdatePreservesConsistency(prev: Clients, clientId: string, newStatus: string)
    requires Consistent(prev)
    ensures Consistent(UpdatedClients(prev, clientId, newStatus))
    ensures IsStatus(newStatus) ==> IdBag(UpdatedClients(prev, clientId, newStatus)) == IdBag(prev)
  {
    var next := UpdatedClients(prev, clientId, newStatus);
    var all := Retagged(AllClients(prev), clientId, newStatus);
    UpdatedIdBag(prev, clientId, newStatus);
    RetaggedKeepsIds(AllClients(prev), clientId, newStatus);
    PartitionIdsByStatus(all);
    SubBagOfUnique(IdBag(next), IdBag(prev));
    if IsStatus(newStatus) {
      RetaggedStatusesKnown(prev, clientId, newStatus);
      PartitionKnownIdsByStatus(all);
    }
  }

  lemma RetaggedKeepsIds(cs: seq<Client>, clientId: string, newStatus: string)
    ensures Ids(Retagged(cs, clientId, newStatus)) == Ids(cs)
  {
  }

  lemma SubBagOfUnique(a: multiset<string>, b: multiset<string>)
    requires a <= b && forall x | x in b :: b[x] == 1
    ensures forall x | x in a :: a[x] == 1
  {
    forall x | x in a ensures a[x] == 1 {
      assert a[x] <= b[x];
    }
  }

  lemma UpdatedIdBag(prev: Clients, clientId: string, newStatus: string)
    ensures IdBag(UpdatedClients(prev, clientId, newStatus)) == PartitionIds(Retagged(AllClients(prev), clientId, newStatus))
  {
    var next := UpdatedClients(prev, clientId, newStatus);
    IdsOfConcat(next.backlog + next.inProgress, next.complete);
    IdsOfConcat(next.backlog, next.inProgress);
  }

  lemma RetaggedStatusesKnown(prev: Clients, clientId: string, newStatus: string)
    requires LanesMatchStatus(prev) && IsStatus(newStatus)
    ensures StatusesKnown(Retagged(AllClients(prev), clientId, newStatus))
  {
    var all := Retagged(AllClients(prev), clientId, newStatus);
    forall k | 0 <= k < |all| ensures IsStatus(all[k].status) {
      assert all[k] == Retag(AllClients(prev)[k], clientId, newStatus);
      assert AllClients(prev)[k] in AllClients(prev);
      StatusOfMember(prev, AllClients(prev)[k]);
    }
  }

  /** A record on a board whose lanes match their statuses carries one of the three statuses. */
  lemma StatusOfMember(prev: Clients, c: Client)
    requires LanesMatchStatus(prev) && c in AllClients(prev)
    ensures IsStatus(c.status)
  {
    if c in prev.backlog {
      var k :| 0 <= k < |prev.backlog| && prev.backlog[k] == c;
    } else if c in prev.inProgress {
      var k :| 0 <= k < |prev.inProgress| && prev.inProgress[k] == c;
    } else {
      var k :| 0 <= k < |prev.complete| && prev.complete[k] == c;
    }
  }
}
