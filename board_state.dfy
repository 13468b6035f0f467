/**
  The state that the Board component of src/Board.js keeps: client records
  split into three ordered swimlanes, the status strings that the page's
  columns carry, the keys under which the component stores the lanes, and the
  seed data the component starts from.
 */
module BoardState {

  // The status strings that the columns carry in their `data-status` attribute
  // and that the records carry in their `status` field.
  const BACKLOG: string := "backlog"
  const IN_PROGRESS: string := "in-progress"
  const COMPLETE: string := "complete"

  // The keys under which the component stores the three lanes. The middle one
  // is spelled differently from the status string of its column.
  const BACKLOG_KEY: string := "backlog"
  const IN_PROGRESS_KEY: string := "inProgress"
  const COMPLETE_KEY: string := "complete"

  predicate IsStatus(s: string) {
    s == BACKLOG || s == IN_PROGRESS || s == COMPLETE
  }

  predicate IsLaneKey(key: string) {
    key == BACKLOG_KEY || key == IN_PROGRESS_KEY || key == COMPLETE_KEY
  }

  datatype Client = Client(id: string, name: string, description: string, status: string)

  /** The component's `clients` state: one ordered list per swimlane, in on-screen order. */
  datatype Clients = Clients(backlog: seq<Client>, inProgress: seq<Client>, complete: seq<Client>)

  datatype Option<T> = None | Some(value: T)

  /** Why a state update cannot complete. */
  datatype Failure =
    | LaneNotIterable(key: string)  // `[...prevState.clients[key]]` on a key the state does not have
    | UndefinedRecord               // the update would store `undefined` in a lane

  datatype Result<T> = Ok(value: T) | Err(failure: Failure)

  /** The three lanes concatenated in the order backlog, in progress, complete. */
  function AllClients(c: Clients): seq<Client> {
    c.backlog + c.inProgress + c.complete
  }

  /** The lane whose records carry `status`. */
  function Lane(c: Clients, status: string): seq<Client>
    requires IsStatus(status)
  {
    if status == BACKLOG then c.backlog
    else if status == IN_PROGRESS then c.inProgress
    else c.complete
  }

  /** `c[key]` on the state object: a lane for the three keys, `undefined` for any other. */
  function LaneByKey(c: Clients, key: string): (r: Option<seq<Client>>)
    ensures r.Some? <==> IsLaneKey(key)
  {
    if key == BACKLOG_KEY then Some(c.backlog)
    else if key == IN_PROGRESS_KEY then Some(c.inProgress)
    else if key == COMPLETE_KEY then Some(c.complete)
    else None
  }

  /** `{ ...c, [key]: lane }` for one of the three keys. */
  function WithLane(c: Clients, key: string, lane: seq<Client>): (r: Clients)
    requires IsLaneKey(key)
    ensures LaneByKey(r, key) == Some(lane)
    ensures forall other :: other != key ==> LaneByKey(r, other) == LaneByKey(c, other)
  {
    if key == BACKLOG_KEY then c.(backlog := lane)
    else if key == IN_PROGRESS_KEY then c.(inProgress := lane)
    else c.(complete := lane)
  }

  ghost predicate AllHaveStatus(cs: seq<Client>, status: string) {
    forall k :: 0 <= k < |cs| ==> cs[k].status == status
  }

  /** Every record's `status` names the lane that holds it. */
  ghost predicate LanesMatchStatus(c: Clients) {
    && AllHaveStatus(c.backlog, BACKLOG)
    && AllHaveStatus(c.inProgress, IN_PROGRESS)
    && AllHaveStatus(c.complete, COMPLETE)
  }

  /** Every record's `status` is one of the three status strings. */
  ghost predicate StatusesKnown(cs: seq<Client>) {
    forall k :: 0 <= k < |cs| ==> IsStatus(cs[k].status)
  }

  function Ids(cs: seq<Client>): (r: seq<string>)
    ensures |r| == |cs|
    ensures forall k :: 0 <= k < |cs| ==> r[k] == cs[k].id
  {
    if cs == [] then [] else [cs[0].id] + Ids(cs[1..])
  }

  /** How often each id occurs on the board. */
  ghost function IdBag(c: Clients): multiset<string> {
    multiset(Ids(AllClients(c)))
  }

  /** No id occurs twice on the board. */
  ghost predicate UniqueIds(c: Clients) {
    forall id | id in IdBag(c) :: IdBag(c)[id] == 1
  }

  /** The board invariant: each record is in exactly one lane, the lane its status names. */
  ghost predicate Consistent(c: Clients) {
    LanesMatchStatus(c) && UniqueIds(c)
  }

  lemma {:induction false} IdsOfConcat(a: seq<Client>, b: seq<Client>)
    ensures Ids(a + b) == Ids(a) + Ids(b)
  {
    if a != [] {
      TailOfConcat(a, b);
      IdsOfConcat(a[1..], b);
    }
  }

  /** Reordering records reorders their ids the same way. */
  lemma {:induction false} PermutedIds(a: seq<Client>, b: seq<Client>)
    requires multiset(a) == multiset(b)
    ensures multiset(Ids(a)) == multiset(Ids(b))
    decreases |a|
  {
    if a == [] {
      assert |multiset(b)| == 0;
      assert b == [];
    } else {
      var x := a[0];
      assert x in multiset(b);
      var k :| 0 <= k < |b| && b[k] == x;
      var rest := b[..k] + b[k + 1..];
      TakingOneOut(b, k);
      TakingHeadOut(a);
      var others := multiset(a) - multiset{x};
      assert multiset(a[1..]) == others;
      assert multiset(rest) == others;
      PermutedIds(a[1..], rest);
      calc {
        multiset(Ids(a));
        { IdsCons(a); }
        multiset{x.id} + multiset(Ids(a[1..]));
        multiset{x.id} + multiset(Ids(rest));
        { IdsTakingOneOut(b, k); }
        multiset(Ids(b));
      }
    }
  }

  lemma TakingHeadOut<T>(s: seq<T>)
    requires s != []
    ensures multiset(s[1..]) == multiset(s) - multiset{s[0]}
  {
    assert s == [s[0]] + s[1..];
  }

  lemma IdsCons(cs: seq<Client>)
    requires cs != []
    ensures multiset(Ids(cs)) == multiset{cs[0].id} + multiset(Ids(cs[1..]))
  {
  }

  /** Taking out the element at `i` takes out exactly one copy of it. */
  lemma TakingOneOut<T>(s: seq<T>, i: nat)
    requires i < |s|
    ensures multiset(s[..i] + s[i + 1..]) + multiset{s[i]} == multiset(s)
    ensures multiset(s[..i] + s[i + 1..]) == multiset(s) - multiset{s[i]}
  {
    SplitAround(s, i);
  }

  /** The tail of a concatenation whose first part is not empty. */
  lemma TailOfConcat<T>(a: seq<T>, b: seq<T>)
    requires a != []
    ensures (a + b)[0] == a[0] && (a + b)[1..] == a[1..] + b
  {
  }

  lemma Regroup<T>(x: seq<T>, y: seq<T>, z: seq<T>)
    ensures x + (y + z) == (x + y) + z
  {
  }

  lemma SplitAround<T>(s: seq<T>, i: nat)
    requires i < |s|
    ensures s == s[..i] + [s[i]] + s[i + 1..]
  {
  }

  /** Taking out the record at `i` takes out exactly one copy of its id. */
  lemma IdsTakingOneOut(s: seq<Client>, i: nat)
    requires i < |s|
    ensures multiset{s[i].id} + multiset(Ids(s[..i] + s[i + 1..])) == multiset(Ids(s))
  {
    var front, back := s[..i], s[i + 1..];
    SplitAround(s, i);
    IdsOfConcat(front, back);
    IdsOfConcat(front + [s[i]], back);
    IdsOfConcat(front, [s[i]]);
    assert Ids([s[i]]) == [s[i].id];
  }

  // ---------------------------------------------------------------------------
  // Seed data

  function DigitChar(d: nat): char
    requires d < 10
  {
    (48 + d) as char
  }

  /** The decimal numeral of `n`, without leading zeros. */
  function DecimalString(n: nat): (r: string)
    ensures |r| >= 1
    ensures |r| == 1 <==> n < 10
    decreases n
  {
    if n < 10 then [DigitChar(n)] else DecimalString(n / 10) + [DigitChar(n % 10)]
  }

  /** Different numbers have different numerals. */
  lemma {:induction false} DecimalStringInjective(a: nat, b: nat)
    requires DecimalString(a) == DecimalString(b)
    ensures a == b
    decreases a
  {
    var s := DecimalString(a);
    assert DigitChar(a % 10) == s[|s| - 1] == DigitChar(b % 10);
    if a >= 10 {
      assert DecimalString(a / 10) == s[..|s| - 1] == DecimalString(b / 10);
      DecimalStringInjective(a / 10, b / 10);
    }
  }

  /** The seed table: id, company name and description of each client. */
  const SEED: seq<(string, string, string)> := [
    ("1", "Stark, White and Abbott", "Cloned Optimal Architecture"),
    ("2", "Wiza LLC", "Exclusive Bandwidth-Monitored Implementation"),
    ("3", "Nolan LLC", "Vision-Oriented 4Thgeneration Graphicaluserinterface"),
    ("4", "Thompson PLC", "Streamlined Regional Knowledgeuser"),
    ("5", "Walker-Williamson", "Team-Oriented 6Thgeneration Matrix"),
    ("6", "Boehm and Sons", "Automated Systematic Paradigm"),
    ("7", "Runolfsson, Hegmann and Block", "Integrated Transitional Strategy"),
    ("8", "Schumm-Labadie", "Operative Heuristic Challenge"),
    ("9", "Kohler Group", "Re-Contextualized Multi-Tasking Attitude"),
    ("10", "Romaguera Inc", "Managed Foreground Toolset"),
    ("11", "Reilly-King", "Future-Proofed Interactive Toolset"),
    ("12", "Emard, Champlin and Runolfsdottir", "Devolved Needs-Based Capability"),
    ("13", "Fritsch, Cronin and Wolff", "Open-Source 3Rdgeneration Website"),
    ("14", "Borer LLC", "Profit-Focused Incremental Orchestration"),
    ("15", "Emmerich-Ankunding", "User-Centric Stable Extranet"),
    ("16", "Willms-Abbott", "Progressive Bandwidth-Monitored Access"),
    ("17", "Brekke PLC", "Intuitive User-Facing Customerloyalty"),
    ("18", "Bins, Toy and Klocko", "Integrated Assymetric Software"),
    ("19", "Hodkiewicz-Hayes", "Programmable Systematic Securedline"),
    ("20", "Murphy, Lang and Ferry", "Organized Explicit Access")
  ]

  /** The seed clients: twenty records with ids "1" to "20", all in the backlog. */
  function GetClients(): (r: seq<Client>)
    ensures |r| == 20
    ensures forall k :: 0 <= k < |r| ==> r[k].id == DecimalString(k + 1) && r[k].status == BACKLOG
  {
    seq(|SEED|, k requires 0 <= k < |SEED| => Client(SEED[k].0, SEED[k].1, SEED[k].2, BACKLOG))
  }

  /** The state the component is constructed with. */
  function InitialClients(): Clients {
    Clients(GetClients(), [], [])
  }

  /** The ids of the seed clients, "1" to "20" by `GetClients`. */
  ghost function SeedIds(): multiset<string> {
    multiset(Ids(GetClients()))
  }

  /**
    The initial state satisfies the board invariant, holds each seed id exactly
    once, and has empty in-progress and complete lanes.
   */
  lemma InitialClientsConsistent()
    ensures Consistent(InitialClients())
    ensures IdBag(InitialClients()) == SeedIds()
    ensures forall id | id in SeedIds() :: SeedIds()[id] == 1
    ensures InitialClients().inProgress == [] && InitialClients().complete == []
  {
    InitialIdBag();
    SeedIdsUnique();
    InitialLanesMatchStatus();
  }

  lemma InitialIdBag()
    ensures IdBag(InitialClients()) == SeedIds()
  {
    BacklogOnly(GetClients());
  }

  /** A state with only a backlog lists the backlog's records, and is consistent when they are. */
  lemma BacklogOnly(backlog: seq<Client>)
    ensures AllClients(Clients(backlog, [], [])) == backlog
    ensures AllHaveStatus(backlog, BACKLOG) ==> LanesMatchStatus(Clients(backlog, [], []))
  {
    assert backlog + [] + [] == backlog;
  }

  lemma SeedIdsUnique()
    ensures forall id | id in SeedIds() :: SeedIds()[id] == 1
  {
    SeedIdsOnce(GetClients());
  }

  lemma InitialLanesMatchStatus()
    ensures LanesMatchStatus(InitialClients())
  {
    BacklogOnly(GetClients());
  }

  /** Records with the ids "1" to "20", in order, hold each id once. */
  lemma SeedIdsOnce(seed: seq<Client>)
    requires |seed| == 20
    requires forall k :: 0 <= k < |seed| ==> seed[k].id == DecimalString(k + 1)
    ensures forall id | id in multiset(Ids(seed)) :: multiset(Ids(seed))[id] == 1
  {
    var numerals := Ids(seed);
    forall id | id in multiset(numerals) ensures multiset(numerals)[id] == 1 {
      var k :| 0 <= k < 20 && numerals[k] == id;
      DistinctNumerals(numerals, k);
    }
  }

  /** An element of a list of distinct numerals occurs in it once. */
  lemma DistinctNumerals(numerals: seq<string>, k: nat)
    requires |numerals| == 20 && k < 20
    requires forall i :: 0 <= i < 20 ==> numerals[i] == DecimalString(i + 1)
    ensures multiset(numerals)[numerals[k]] == 1
  {
    var id := numerals[k];
    assert numerals == numerals[..k] + [id] + numerals[k + 1..];
    forall i | 0 <= i < 20 && i != k ensures numerals[i] != id {
      if numerals[i] == id {
        DecimalStringInjective(i + 1, k + 1);
      }
    }
    assert id !in numerals[..k];
    assert id !in numerals[k + 1..];
  }
}
