/** The scheduler: what waits, where it may go, and the bindings it makes. */
module Scheduler {
  import opened Options
  import opened Decimal
  import opened Orders
  import opened Kube
  import opened Fields
  import opened Controller

  const MANUAL := "manual"
  const AUTO := "auto"
  const SECOND := 1_000_000_000

  datatype Placement = Placement(pod: string, node: string)

  datatype DropError =
    | NoPlacements
    | NotQueued(pod: string)
    | UnknownNode(node: string)
    | ColumnFull(node: string)
    | BindFailed(pod: string)
    | UnknownMode(mode: string)

  /** One state of the API server's Pods, and when it came about. */
  datatype Revision = Revision(at: int, pods: seq<Pod>)

  /** A successful bind, and the revision that shows it. */
  datatype Entry = Entry(name: string, rev: nat)

  /** The scheduler's table of bindings in flight, the API server's history, and how much of it the informer cache has
      seen. */
  datatype State = State(history: seq<Revision>, seen: nat, inflight: map<string, int>, log: seq<Entry>)
  {
    predicate Valid()
    {
      seen < |history|
    }

    function Cache(): seq<Pod>
      requires Valid()
    {
      history[seen].pods
    }

    function Truth(): seq<Pod>
      requires Valid()
    {
      history[|history| - 1].pods
    }
  }

  // ----- What waits

  predicate Offered(p: Pod, schedulerName: string, inflight: map<string, int>)
  {
    p.schedulerName == schedulerName && p.node == "" && !p.deleting && p.name !in inflight
  }

  function Waiting(pods: seq<Pod>, schedulerName: string, inflight: map<string, int>, ojama: bool): seq<Pod>
  {
    if pods == [] then []
    else
      var p := pods[|pods| - 1];
      var rest := Waiting(pods[..|pods| - 1], schedulerName, inflight, ojama);
      if Offered(p, schedulerName, inflight) && p.Ojama() == ojama then rest + [p] else rest
  }

  function QueueOf(pods: seq<Pod>, schedulerName: string, inflight: map<string, int>, ojama: bool): seq<Pod>
  {
    SortBy(CreatedKey, Waiting(pods, schedulerName, inflight, ojama))
  }

  lemma {:induction false} WaitingFacts(pods: seq<Pod>, schedulerName: string, inflight: map<string, int>, ojama: bool)
    ensures forall p :: p in Waiting(pods, schedulerName, inflight, ojama) <==>
      p in pods && Offered(p, schedulerName, inflight) && p.Ojama() == ojama
    ensures UniqueNames(pods) ==> UniqueNames(Waiting(pods, schedulerName, inflight, ojama))
  {
    if pods != [] {
      var init, p := pods[..|pods| - 1], pods[|pods| - 1];
      WaitingFacts(init, schedulerName, inflight, ojama);
      assert pods == init + [p];
      assert UniqueNames(pods) ==> forall q :: q in init ==> q.name != p.name;
    }
  }

  /** The queue holds exactly the Pods on offer, oldest first, each once. */
  lemma QueueFacts(pods: seq<Pod>, schedulerName: string, inflight: map<string, int>, ojama: bool)
    requires UniqueNames(pods)
    ensures var q := QueueOf(pods, schedulerName, inflight, ojama);
      && Ascending(CreatedKey, q) && UniqueNames(q)
      && forall p :: p in q <==> p in pods && Offered(p, schedulerName, inflight) && p.Ojama() == ojama
  {
    var w := Waiting(pods, schedulerName, inflight, ojama);
    var q := QueueOf(pods, schedulerName, inflight, ojama);
    WaitingFacts(pods, schedulerName, inflight, ojama);
    SortBySorts(CreatedKey, w);
    SortedIsAscending(CreatedKey, q, w);
    SameMembers(q, w);
    forall i, j | 0 <= i < j < |q| ensures q[i].name != q[j].name {
      assert q[i] in w && q[j] in w;
      if q[i].name == q[j].name {
        NameDeterminesPod(w, q[i], q[j]);
        LessIrreflexive(CreatedKey(q[i]));
      }
    }
  }

  /** The names a drop may place: the queue, without the garbage. */
  function QueuedNames(s: State, schedulerName: string): set<string>
    requires s.Valid()
  {
    Names(QueueOf(s.Cache(), schedulerName, s.inflight, false))
  }

  // ----- Whether a drop is allowed

  /** Heights by Node name; of columns that share a name the last one counts. */
  function HeightsOf(columns: seq<Column>): map<string, int>
  {
    if columns == [] then map[]
    else HeightsOf(columns[..|columns| - 1])[columns[|columns| - 1].node.name := |columns[|columns| - 1].pods|]
  }

  /** None: every placement is of a queued Pod, to a known Node with room, counting the placements before it. */
  ghost function Validate(queued: set<string>, heights: map<string, int>, limit: int,
                          placements: seq<Placement>): Option<DropError>
  {
    if placements == [] then None
    else
      var p := placements[0];
      if p.pod !in queued then Some(NotQueued(p.pod))
      else if p.node !in heights then Some(UnknownNode(p.node))
      else if heights[p.node] + 1 > limit then Some(ColumnFull(p.node))
      else Validate(queued, heights[p.node := heights[p.node] + 1], limit, placements[1..])
  }

  function CountOn(placements: seq<Placement>, node: string): nat
  {
    if placements == [] then 0 else (if placements[0].node == node then 1 else 0) + CountOn(placements[1..], node)
  }

  /** No column that gets a Pod ends up above the limit. */
  ghost predicate Roomy(heights: map<string, int>, limit: int, placements: seq<Placement>)
  {
    forall node :: node in heights && CountOn(placements, node) > 0 ==>
      heights[node] + CountOn(placements, node) <= limit
  }

  /** The same, without an order. */
  ghost predicate Acceptable(queued: set<string>, heights: map<string, int>, limit: int, placements: seq<Placement>)
  {
    && (forall i :: 0 <= i < |placements| ==> placements[i].pod in queued && placements[i].node in heights)
    && Roomy(heights, limit, placements)
  }

  lemma {:induction false} ValidateIffAcceptable(queued: set<string>, heights: map<string, int>, limit: int,
                                                 placements: seq<Placement>)
    ensures Validate(queued, heights, limit, placements).None? <==> Acceptable(queued, heights, limit, placements)
  {
    if placements != [] {
      var p, rest := placements[0], placements[1..];
      assert placements == [p] + rest;
      assert CountOn(placements, p.node) > 0;
      if p.pod in queued && p.node in heights {
        var heights' := heights[p.node := heights[p.node] + 1];
        ValidateIffAcceptable(queued, heights', limit, rest);
        AcceptableStep(queued, heights, limit, placements);
      }
    }
  }

  lemma AcceptableStep(queued: set<string>, heights: map<string, int>, limit: int, placements: seq<Placement>)
    requires placements != [] && placements[0].pod in queued && placements[0].node in heights
    ensures Acceptable(queued, heights, limit, placements) <==>
      heights[placements[0].node] + 1 <= limit
      && Acceptable(queued, heights[placements[0].node := heights[placements[0].node] + 1], limit, placements[1..])
  {
    var p, rest := placements[0], placements[1..];
    var heights' := heights[p.node := heights[p.node] + 1];
    assert forall node :: node in heights ==>
      heights'[node] + CountOn(rest, node) == heights[node] + CountOn(placements, node);
    if Acceptable(queued, heights', limit, rest) && heights[p.node] + 1 <= limit {
      forall node | node in heights && CountOn(placements, node) > 0
        ensures heights[node] + CountOn(placements, node) <= limit
      {
        if CountOn(rest, node) > 0 {
          assert node in heights';
        }
      }
    }
    if Acceptable(queued, heights, limit, placements) {
      assert forall i :: 0 <= i < |rest| ==> rest[i] == placements[i + 1];
      forall node | node in heights' && CountOn(rest, node) > 0 ensures heights'[node] + CountOn(rest, node) <= limit {
        assert node in heights;
      }
    }
  }

  // ----- Binding

  /** `seq` is added to the clock reading to make the drop order. */
  datatype Request = Request(pod: string, node: string, offset: nat)

  /** What the clock reads when the Pod is stamped, bound and entered in the table, and whether the two calls get
      through. */
  datatype Call = Call(stampAt: int, boundAt: int, markAt: int, patchOk: bool, bindOk: bool)

  predicate HasPod(pods: seq<Pod>, name: string)
  {
    exists p :: p in pods && p.name == name
  }

  predicate CanBind(pods: seq<Pod>, name: string)
  {
    exists i :: 0 <= i < |pods| && pods[i].name == name && Bindable(pods[i])
  }

  function OrderOf(r: Request, c: Call): int
  {
    WrapInt64(c.stampAt + r.offset)
  }

  function AfterPatch(s: State, r: Request, c: Call): State
    requires s.Valid()
  {
    s.(history := s.history + [Revision(c.stampAt, Stamped(s.Truth(), r.pod, OrderOf(r, c)))])
  }

  function AfterBind(s: State, r: Request, c: Call): State
    requires s.Valid()
  {
    s.(history := s.history + [Revision(c.boundAt, Bound(s.Truth(), r.pod, r.node))],
       inflight := s.inflight[r.pod := c.markAt],
       log := s.log + [Entry(r.pod, |s.history|)])
  }

  /** Stamp, bind, enter in the table; a failed call ends it there. */
  function BindOne(s: State, r: Request, c: Call): (t: (State, bool))
    requires s.Valid()
    ensures t.0.Valid()
  {
    if !c.patchOk || !HasPod(s.Truth(), r.pod) then (s, false)
    else
      var stamped := AfterPatch(s, r, c);
      if !c.bindOk || !CanBind(stamped.Truth(), r.pod) then (stamped, false)
      else (AfterBind(stamped, r, c), true)
  }

  /** A bind succeeds if and only if both calls get through and the API server's Pod of that name has no Node and is not
      being deleted. */
  lemma BindSucceedsIff(s: State, r: Request, c: Call)
    requires s.Valid()
    ensures BindOne(s, r, c).1 <==>
      c.patchOk && c.bindOk && exists p :: p in s.Truth() && p.name == r.pod && p.node == "" && !p.deleting
  {
    var pods, stamped := s.Truth(), Stamped(s.Truth(), r.pod, OrderOf(r, c));
    assert |stamped| == |pods| && forall i :: 0 <= i < |pods| ==>
      stamped[i].name == pods[i].name && stamped[i].node == pods[i].node && stamped[i].deleting == pods[i].deleting;
    if p :| p in pods && p.name == r.pod && p.node == "" && !p.deleting {
      var i :| 0 <= i < |pods| && pods[i] == p;
      assert stamped[i].name == r.pod && Bindable(stamped[i]);
    }
    if CanBind(stamped, r.pod) {
      var i :| 0 <= i < |stamped| && stamped[i].name == r.pod && Bindable(stamped[i]);
      assert pods[i] in pods;
    }
  }

  /** Binds in order; the first failure ends it. Calls beyond those listed fail. */
  function BindAll(s: State, requests: seq<Request>, calls: seq<Call>): (t: (State, Option<DropError>))
    requires s.Valid()
    ensures t.0.Valid()
    decreases |requests|
  {
    if requests == [] then (s, None)
    else if calls == [] then (s, Some(BindFailed(requests[0].pod)))
    else
      var (s', ok) := BindOne(s, requests[0], calls[0]);
      if !ok then (s', Some(BindFailed(requests[0].pod)))
      else BindAll(s', requests[1..], calls[1..])
  }

  lemma {:induction false} BindAllStep(s: State, requests: seq<Request>, calls: seq<Call>, i: nat)
    requires s.Valid() && i < |requests| && i < |calls|
    ensures var (s', ok) := BindOne(s, requests[i], calls[i]);
      BindAll(s, requests[i..], calls[i..])
      == if ok then BindAll(s', requests[i + 1..], calls[i + 1..]) else (s', Some(BindFailed(requests[i].pod)))
  {
    assert requests[i..][1..] == requests[i + 1..] && calls[i..][1..] == calls[i + 1..];
  }

  function DropRequests(placements: seq<Placement>): seq<Request>
  {
    seq(|placements|, i requires 0 <= i < |placements| => Request(placements[i].pod, placements[i].node, i))
  }

  /** A drop judged on the cache: refused, it changes nothing; accepted, it binds in order. */
  ghost function DropEffect(s: State, queued: set<string>, heights: map<string, int>, limit: int,
                            placements: seq<Placement>, calls: seq<Call>): (State, Option<DropError>)
    requires s.Valid()
  {
    if placements == [] then (s, Some(NoPlacements))
    else
      var verdict := Validate(queued, heights, limit, placements);
      if verdict.Some? then (s, verdict) else BindAll(s, DropRequests(placements), calls)
  }

  function MaxHeightFor(kb: Option<Kbkb>, maxHeight: int): int
  {
    if kb.Some? && kb.value.spec.spawn.Some? && kb.value.spec.spawn.value.maxHeight > 0
    then kb.value.spec.spawn.value.maxHeight else maxHeight
  }

  /** The limit is the resource's own if it sets a positive one, and the scheduler's otherwise. */
  predicate LimitIs(kb: Option<Kbkb>, maxHeight: int, limit: int)
  {
    if kb.Some? && kb.value.spec.spawn.Some? && 1 <= kb.value.spec.spawn.value.maxHeight
    then kb.value.spec.spawn.value.maxHeight == limit
    else maxHeight == limit
  }

  lemma LimitIsFor(kb: Option<Kbkb>, maxHeight: int, limit: int)
    ensures LimitIs(kb, maxHeight, limit) <==> MaxHeightFor(kb, maxHeight) == limit
  {
  }

  /** The Nodes that are columns: those the Kbkb resource selects, or all if there is none. */
  function ColumnNodes(kb: Option<Kbkb>, nodes: seq<Node>): seq<Node>
  {
    if kb.Some? then Columns(kb.value.spec, nodes) else nodes
  }

  lemma ColumnNodesUnique(kb: Option<Kbkb>, nodes: seq<Node>)
    requires UniqueNodes(nodes)
    ensures UniqueNodes(ColumnNodes(kb, nodes))
  {
    if kb.Some? {
      SelectedNodesUnique(nodes, kb.value.spec.nodeSelector, kb.value.spec.excludeControlPlane);
    }
  }

  function BoardFor(kb: Option<Kbkb>, pods: seq<Pod>, nodes: seq<Node>): Field
  {
    FieldOf(Scheduled(pods), ColumnNodes(kb, nodes), AnnotationColor)
  }

  /** A whole drop, from what it read to what it leaves behind. */
  ghost function DropResult(s: State, schedulerName: string, maxHeight: int, kb: Option<Kbkb>, nodes: seq<Node>,
                            placements: seq<Placement>, calls: seq<Call>): (State, Option<DropError>)
    requires s.Valid()
  {
    DropEffect(s, QueuedNames(s, schedulerName), HeightsOf(BoardFor(kb, s.Cache(), nodes).columns),
               MaxHeightFor(kb, maxHeight), placements, calls)
  }

  lemma {:induction false} BoardForIsField(kb: Option<Kbkb>, pods: seq<Pod>, nodes: seq<Node>)
    requires UniqueNames(pods) && UniqueNodes(nodes)
    ensures UniqueNodes(ColumnNodes(kb, nodes)) && UniqueNames(Scheduled(pods))
    ensures IsField(BoardFor(kb, pods, nodes), Scheduled(pods), ColumnNodes(kb, nodes), AnnotationColor)
  {
    ColumnNodesUnique(kb, nodes);
    ScheduledUnique(pods);
    FieldOfIsField(Scheduled(pods), ColumnNodes(kb, nodes), AnnotationColor);
  }

  type Positive = n: nat | n >= 1 witness 1

  /** A random in-range index: any function of the draw's number. */
  type Draws = nat -> nat

  function Pick(draw: Draws, turn: nat, n: nat): (i: nat)
    requires n > 0
    ensures i < n
  {
    draw(turn) % n
  }

  /** The Nodes a Pod may be put on: all of them when forced, else those with room. */
  function Candidates(columns: seq<Column>, limit: int, force: bool): seq<string>
  {
    if columns == [] then []
    else
      var col := columns[|columns| - 1];
      var rest := Candidates(columns[..|columns| - 1], limit, force);
      if force || |col.pods| < limit then rest + [col.node.name] else rest
  }

  lemma {:induction false} CandidateFacts(columns: seq<Column>, limit: int, force: bool, i: nat)
    requires i < |Candidates(columns, limit, force)|
    ensures exists x :: 0 <= x < |columns| && columns[x].node.name == Candidates(columns, limit, force)[i]
  {
    var init := columns[..|columns| - 1];
    if i < |Candidates(init, limit, force)| {
      CandidateFacts(init, limit, force, i);
      var x :| 0 <= x < |init| && init[x].node.name == Candidates(init, limit, force)[i];
      assert columns[x].node.name == Candidates(columns, limit, force)[i];
    } else {
      assert columns[|columns| - 1].node.name == Candidates(columns, limit, force)[i];
    }
  }

  function OjamaRequests(ojama: seq<Pod>, candidates: seq<string>, draw: Draws): seq<Request>
  {
    if candidates == [] then []
    else seq(|ojama|, i requires 0 <= i < |ojama| => Request(ojama[i].name, candidates[Pick(draw, i, |candidates|)], 0))
  }

  /** What a shower asks for. */
  ghost function ShowerRequests(s: State, schedulerName: string, kb: Option<Kbkb>, nodes: seq<Node>, maxHeight: int,
                                draw: Draws): seq<Request>
    requires s.Valid()
  {
    OjamaRequests(QueueOf(s.Cache(), schedulerName, s.inflight, true),
                  Candidates(BoardFor(kb, s.Cache(), nodes).columns, MaxHeightFor(kb, maxHeight), true), draw)
  }

  /** The request made for the i-th queued garbage pod, where every column has a name. */
  lemma OjamaRequestAt(ojama: seq<Pod>, candidates: seq<string>, draw: Draws, i: nat) returns (node: string)
    requires i < |ojama|
    ensures node == if candidates == [] then "" else candidates[Pick(draw, i, |candidates|)]
    ensures node == "" && "" !in candidates ==> OjamaRequests(ojama, candidates, draw) == []
    ensures node != "" ==> i < |OjamaRequests(ojama, candidates, draw)|
    ensures node != "" ==> OjamaRequests(ojama, candidates, draw)[i] == Request(ojama[i].name, node, 0)
  {
    node := if candidates == [] then "" else candidates[Pick(draw, i, |candidates|)];
  }

  predicate DistinctColumns(columns: seq<Column>)
  {
    forall x, x' :: 0 <= x < x' < |columns| ==> columns[x].node.name != columns[x'].node.name
  }

  lemma {:induction false} HeightsOfColumn(columns: seq<Column>, x: nat)
    requires DistinctColumns(columns) && x < |columns|
    ensures columns[x].node.name in HeightsOf(columns) && HeightsOf(columns)[columns[x].node.name] == |columns[x].pods|
  {
    if x < |columns| - 1 {
      HeightsOfColumn(columns[..|columns| - 1], x);
    }
  }

  lemma {:induction false} CountOnAppend(a: seq<Placement>, p: Placement, node: string)
    ensures CountOn(a + [p], node) == CountOn(a, node) + (if p.node == node then 1 else 0)
  {
    if a == [] {
      assert [p][1..] == [];
      assert a + [p] == [p];
    } else {
      CountOnAppend(a[1..], p, node);
      assert (a + [p])[1..] == a[1..] + [p];
    }
  }

  /** The column is the Node's, and not full with the Pods planned for it. */
  predicate HasRoom(col: Column, node: string, heights: map<string, int>, limit: int)
  {
    col.node.name == node && |col.pods| + (if node in heights then heights[node] else 0) < limit
  }

  /** Columns and counts as they stand after some placements. */
  ghost predicate PlannedSoFar(columns: seq<Column>, limit: int, placements: seq<Placement>, heights: map<string, int>)
  {
    && (forall node :: CountOn(placements, node) == if node in heights then heights[node] else 0)
    && (forall i :: 0 <= i < |placements| ==> placements[i].node in HeightsOf(columns))
    && forall node :: node in HeightsOf(columns) && CountOn(placements, node) > 0 ==>
      HeightsOf(columns)[node] + CountOn(placements, node) <= limit
  }

  lemma PlanStep(columns: seq<Column>, limit: int, placements: seq<Placement>, heights: map<string, int>,
                 p: Placement, x: nat)
    requires PlannedSoFar(columns, limit, placements, heights) && DistinctColumns(columns)
    requires x < |columns| && columns[x].node.name == p.node
    requires |columns[x].pods| + (if p.node in heights then heights[p.node] else 0) < limit
    ensures PlannedSoFar(columns, limit, placements + [p],
                         heights[p.node := (if p.node in heights then heights[p.node] else 0) + 1])
  {
    HeightsOfColumn(columns, x);
    forall node
      ensures CountOn(placements + [p], node) == CountOn(placements, node) + (if p.node == node then 1 else 0)
    {
      CountOnAppend(placements, p, node);
    }
  }

  lemma {:induction false} PlanIsAccepted(queue: seq<Pod>, n: nat, heights: map<string, int>, limit: int,
                                          placements: seq<Placement>)
    requires n <= |queue| && Acceptable(Names(queue[..n]), heights, limit, placements)
    ensures Validate(Names(queue), heights, limit, placements) == None
  {
    assert forall p :: p in queue[..n] ==> p in queue;
    ValidateIffAcceptable(Names(queue), heights, limit, placements);
  }

  /** The draw of this number finds no column with room above what is planned. */
  ghost predicate Misses(columns: seq<Column>, heights: map<string, int>, limit: int, draw: Draws, turn: nat)
  {
    var c := Candidates(columns, limit, false);
    c == [] || forall x :: 0 <= x < |columns| ==> !HasRoom(columns[x], c[Pick(draw, turn, |c|)], heights, limit)
  }

  /** Ten draws in a row miss, or every column is full. */
  ghost predicate Stuck(columns: seq<Column>, heights: map<string, int>, limit: int, draw: Draws, from: nat)
  {
    || Candidates(columns, limit, false) == []
    || forall t :: from <= t < from + 10 ==> Misses(columns, heights, limit, draw, t)
  }

  /** Some plan of fewer than n Pods cannot go on. */
  ghost predicate GivesUp(columns: seq<Column>, n: nat, limit: int, draw: Draws)
  {
    exists placements, heights, from: nat ::
      && |placements| < n && PlannedSoFar(columns, limit, placements, heights)
      && Stuck(columns, heights, limit, draw, from)
  }

  /** What an automatic move does: the drop it planned, or nothing, if no whole pair waits, the field moves, or it
      gave up. */
  ghost predicate AutoPlays(s: State, t: State, err: Option<DropError>, schedulerName: string, pairSize: nat,
                            maxHeight: int,
                            kb: Option<Kbkb>, nodes: seq<Node>, draw: Draws, calls: seq<Call>,
                            plan: Option<seq<Placement>>)
    requires s.Valid()
  {
    var queue := QueueOf(s.Cache(), schedulerName, s.inflight, false);
    var f, limit := BoardFor(kb, s.Cache(), nodes), MaxHeightFor(kb, maxHeight);
    match plan
    case None =>
      t == s && err == None && (|queue| < pairSize || !f.Stable() || GivesUp(f.columns, pairSize, limit, draw))
    case Some(placements) =>
      && f.Stable() && |placements| == pairSize && Planned(queue, HeightsOf(f.columns), limit, placements)
      && (t, err) == DropResult(s, schedulerName, maxHeight, kb, nodes, placements, calls)
  }

  /** A drop of the front of the queue that passes validation. */
  ghost predicate Planned(queue: seq<Pod>, heights: map<string, int>, limit: int, plan: seq<Placement>)
  {
    && 0 < |plan| <= |queue| && (forall i :: 0 <= i < |plan| ==> plan[i].pod == queue[i].name)
    && Validate(Names(queue), heights, limit, plan) == None
  }

  lemma BoardColumnsNamed(kb: Option<Kbkb>, pods: seq<Pod>, nodes: seq<Node>)
    requires UniqueNames(pods) && UniqueNodes(nodes)
    ensures forall x :: 0 <= x < |BoardFor(kb, pods, nodes).columns| ==>
      BoardFor(kb, pods, nodes).columns[x].node.name != ""
  {
    var f := BoardFor(kb, pods, nodes);
    var columns := ColumnNodes(kb, nodes);
    BoardForIsField(kb, pods, nodes);
    forall x | 0 <= x < |f.columns| ensures f.columns[x].node.name != "" {
      assert NodesOf(f)[x] in columns;
    }
  }

  lemma BoardColumnsDistinct(kb: Option<Kbkb>, pods: seq<Pod>, nodes: seq<Node>)
    requires UniqueNames(pods) && UniqueNodes(nodes)
    ensures DistinctColumns(BoardFor(kb, pods, nodes).columns)
  {
    var f := BoardFor(kb, pods, nodes);
    var columns := ColumnNodes(kb, nodes);
    BoardForIsField(kb, pods, nodes);
    forall x, x' | 0 <= x < x' < |f.columns| ensures f.columns[x].node.name != f.columns[x'].node.name {
      if f.columns[x].node.name == f.columns[x'].node.name {
        ColumnsApart(f, columns, x, x');
      }
    }
  }

  /** A table entry is dropped once the cache shows the Pod bound or gone, or after thirty seconds. */
  predicate Prunable(cache: seq<Pod>, name: string, since: int, now: int)
  {
    (forall i :: 0 <= i < |cache| && cache[i].name == name ==> cache[i].node != "") || now - since > 30 * SECOND
  }

  /** The clock is read once for each entry. */
  function Pruned(cache: seq<Pod>, inflight: map<string, int>, clock: string -> int): map<string, int>
  {
    map name | name in inflight && !Prunable(cache, name, inflight[name], clock(name)) :: inflight[name]
  }

  class Scheduler {
    const schedulerName: string
    const pairSize: Positive
    const maxHeight: int
    const namespace: string
    const resync: int
    var mode: string
    var inflight: map<string, int>
    var history: seq<Revision>
    var seen: nat
    var log: seq<Entry>
    /** How often the loop and the subscribers were woken. */
    var pokes: nat

    function Now(): State
      reads this
    {
      State(history, seen, inflight, log)
    }

    constructor (schedulerName: string, namespace: string, pairSize: int, maxHeight: int, mode: string, resync: int,
                 history: seq<Revision>, seen: nat)
      requires seen < |history|
      ensures this.pairSize == (if pairSize < 1 then 2 else pairSize)
      ensures this.maxHeight == (if maxHeight < 1 then 12 else maxHeight)
      ensures this.mode == (if mode == "" then MANUAL else mode)
      ensures this.schedulerName == (if schedulerName == "" then DEFAULT_SCHEDULER else schedulerName)
      ensures this.namespace == (if namespace == "" then "default" else namespace)
      ensures this.resync == (if resync == 0 then 30 * SECOND else resync)
      ensures Now() == State(history, seen, map[], []) && pokes == 0
    {
      this.schedulerName := if schedulerName == "" then DEFAULT_SCHEDULER else schedulerName;
      this.pairSize := if pairSize < 1 then 2 else pairSize;
      this.maxHeight := if maxHeight < 1 then 12 else maxHeight;
      this.mode := if mode == "" then MANUAL else mode;
      this.namespace := if namespace == "" then "default" else namespace;
      this.resync := if resync == 0 then 30 * SECOND else resync;
      this.inflight, this.history, this.seen, this.log, this.pokes := map[], history, seen, [], 0;
    }

    method Poke()
      modifies this`pokes
      ensures pokes == old(pokes) + 1
    {
      pokes := pokes + 1;
    }

    method SetMode(mode: string) returns (err: Option<DropError>)
      modifies this`mode, this`pokes
      ensures if mode == MANUAL || mode == AUTO then err == None && this.mode == mode && pokes == old(pokes) + 1
              else err == Some(UnknownMode(mode)) && this.mode == old(this.mode) && pokes == old(pokes)
    {
      if mode != MANUAL && mode != AUTO {
        return Some(UnknownMode(mode));
      }
      this.mode := mode;
      Poke();
      err := None;
    }

    method Pending() returns (queue: seq<Pod>, ojama: seq<Pod>)
      requires Now().Valid()
      ensures queue == QueueOf(Now().Cache(), schedulerName, inflight, false)
      ensures ojama == QueueOf(Now().Cache(), schedulerName, inflight, true)
    {
      var all := history[seen].pods;
      queue, ojama := [], [];
      for i := 0 to |all|
        invariant queue == Waiting(all[..i], schedulerName, inflight, false)
        invariant ojama == Waiting(all[..i], schedulerName, inflight, true)
      {
        assert all[..i + 1][..i] == all[..i];
        var p := all[i];
        if p.schedulerName != schedulerName || p.node != "" || p.deleting {
          continue;
        }
        if p.name in inflight {
          continue;
        }
        if p.Ojama() {
          ojama := ojama + [p];
        } else {
          queue := queue + [p];
        }
      }
      assert all[..|all|] == all;
      queue := SortBy(CreatedKey, queue);
      ojama := SortBy(CreatedKey, ojama);
    }

    method BuildFieldFor(kb: Option<Kbkb>, nodes: seq<Node>) returns (f: Field)
      requires Now().Valid()
      ensures f == BoardFor(kb, Now().Cache(), nodes)
    {
      var columns := nodes;
      if kb.Some? {
        columns := SelectNodes(nodes, kb.value.spec.nodeSelector, kb.value.spec.excludeControlPlane);
      }
      var all := history[seen].pods;
      var scheduled: seq<Pod> := [];
      for i := 0 to |all|
        invariant scheduled == Scheduled(all[..i])
      {
        assert all[..i + 1][..i] == all[..i];
        if all[i].node != "" {
          scheduled := scheduled + [all[i]];
        }
      }
      assert all[..|all|] == all;
      f := New(scheduled, columns, AnnotationColor);
    }

    method Bind(pod: string, node: string, offset: nat, call: Call) returns (ok: bool)
      requires Now().Valid()
      modifies this
      ensures (Now(), ok) == BindOne(old(Now()), Request(pod, node, offset), call)
      ensures mode == old(mode) && pokes == old(pokes)
    {
      var order := WrapInt64(call.stampAt + offset);
      if !call.patchOk || !HasPod(history[|history| - 1].pods, pod) {
        return false;
      }
      history := history + [Revision(call.stampAt, Stamped(history[|history| - 1].pods, pod, order))];
      if !call.bindOk || !CanBind(history[|history| - 1].pods, pod) {
        return false;
      }
      log := log + [Entry(pod, |history|)];
      history := history + [Revision(call.boundAt, Bound(history[|history| - 1].pods, pod, node))];
      inflight := inflight[pod := call.markAt];
      ok := true;
    }

    /** Judges every placement before binding any. */
    method Drop(kb: Option<Kbkb>, nodes: seq<Node>, placements: seq<Placement>, calls: seq<Call>)
      returns (err: Option<DropError>)
      requires Now().Valid()
      modifies this
      ensures (Now(), err) == DropResult(old(Now()), schedulerName, maxHeight, kb, nodes, placements, calls)
      ensures mode == old(mode) && pokes == old(pokes) + (if err == None then 1 else 0)
    {
      if |placements| == 0 {
        return Some(NoPlacements);
      }
      var queue, _ := Pending();
      var f := BuildFieldFor(kb, nodes);
      var limit := MaxHeightFor(kb, maxHeight);
      err := Check(Names(queue), f.columns, limit, placements);
      if err.Some? {
        return;
      }
      err := BindEach(DropRequests(placements), calls);
      if err.Some? {
        return;
      }
      Poke();
    }

    /** The validation loop of a drop. */
    method Check(queued: set<string>, columns: seq<Column>, limit: int, placements: seq<Placement>)
      returns (err: Option<DropError>)
      ensures err == Validate(queued, HeightsOf(columns), limit, placements)
    {
      var heights: map<string, int> := map[];
      for x := 0 to |columns|
        invariant heights == HeightsOf(columns[..x])
      {
        assert columns[..x + 1][..x] == columns[..x];
        heights := heights[columns[x].node.name := |columns[x].pods|];
      }
      assert columns[..|columns|] == columns;
      for i := 0 to |placements|
        invariant Validate(queued, HeightsOf(columns), limit, placements)
          == Validate(queued, heights, limit, placements[i..])
      {
        var p := placements[i];
        assert placements[i..][0] == p && placements[i..][1..] == placements[i + 1..];
        if p.pod !in queued {
          return Some(NotQueued(p.pod));
        }
        if p.node !in heights {
          return Some(UnknownNode(p.node));
        }
        var h := heights[p.node];
        if h + 1 > limit {
          return Some(ColumnFull(p.node));
        }
        heights := heights[p.node := h + 1];
      }
      err := None;
    }

    /** The bind loops: in order, up to the first failure. */
    method BindEach(requests: seq<Request>, calls: seq<Call>) returns (err: Option<DropError>)
      requires Now().Valid()
      modifies this
      ensures (Now(), err) == BindAll(old(Now()), requests, calls)
      ensures mode == old(mode) && pokes == old(pokes)
    {
      for i := 0 to |requests|
        invariant Now().Valid() && i <= |calls| && mode == old(mode) && pokes == old(pokes)
        invariant BindAll(old(Now()), requests, calls) == BindAll(Now(), requests[i..], calls[i..])
      {
        if i >= |calls| {
          return Some(BindFailed(requests[i].pod));
        }
        BindAllStep(Now(), requests, calls, i);
        var ok := Bind(requests[i].pod, requests[i].node, requests[i].offset, calls[i]);
        if !ok {
          return Some(BindFailed(requests[i].pod));
        }
      }
      err := None;
    }

    /** One of the candidates, by the given draw; empty if there are none. */
    method PickColumn(f: Field, limit: int, force: bool, draw: Draws, turn: nat) returns (node: string)
      ensures var c := Candidates(f.columns, limit, force);
        node == if c == [] then "" else c[Pick(draw, turn, |c|)]
    {
      var candidates: seq<string> := [];
      for x := 0 to |f.columns|
        invariant candidates == Candidates(f.columns[..x], limit, force)
      {
        assert f.columns[..x + 1][..x] == f.columns[..x];
        if force || f.Height(x) < limit {
          candidates := candidates + [f.columns[x].node.name];
        }
      }
      assert f.columns[..|f.columns|] == f.columns;
      if |candidates| == 0 {
        return "";
      }
      node := candidates[Pick(draw, turn, |candidates|)];
    }

    /** Garbage goes to random columns at once, full or not; a shower that completes wakes the loop. */
    method DropOjama(kb: Option<Kbkb>, nodes: seq<Node>, draw: Draws, calls: seq<Call>) returns (err: Option<DropError>)
      requires Now().Valid()
      modifies this
      ensures mode == old(mode)
      ensures var ojama := QueueOf(old(Now()).Cache(), schedulerName, old(inflight), true);
        var candidates := Candidates(BoardFor(kb, old(Now()).Cache(), nodes).columns,
                                     MaxHeightFor(kb, maxHeight), true);
        "" !in candidates ==>
          && (Now(), err) == BindAll(old(Now()), OjamaRequests(ojama, candidates, draw), calls)
          && pokes == old(pokes) + (if ojama != [] && candidates != [] && err == None then 1 else 0)
    {
      var _, ojama := Pending();
      if |ojama| == 0 {
        return None;
      }
      var f := BuildFieldFor(kb, nodes);
      err := Shower(ojama, f, MaxHeightFor(kb, maxHeight), draw, calls);
    }

    method Shower(ojama: seq<Pod>, f: Field, limit: int, draw: Draws, calls: seq<Call>) returns (err: Option<DropError>)
      requires Now().Valid() && ojama != []
      modifies this
      ensures mode == old(mode)
      ensures var candidates := Candidates(f.columns, limit, true);
        "" !in candidates ==>
          && (Now(), err) == BindAll(old(Now()), OjamaRequests(ojama, candidates, draw), calls)
          && pokes == old(pokes) + (if candidates != [] && err == None then 1 else 0)
    {
      ghost var candidates := Candidates(f.columns, limit, true);
      ghost var requests := OjamaRequests(ojama, candidates, draw);
      for i := 0 to |ojama|
        invariant Now().Valid() && i <= |calls| && mode == old(mode) && pokes == old(pokes)
        invariant i <= |requests| && BindAll(old(Now()), requests, calls) == BindAll(Now(), requests[i..], calls[i..])
      {
        var node := PickColumn(f, limit, true, draw, i);
        ghost var drawn := OjamaRequestAt(ojama, candidates, draw, i);
        if node == "" {
          return None;
        }
        if i >= |calls| {
          return Some(BindFailed(ojama[i].name));
        }
        BindAllStep(Now(), requests, calls, i);
        var ok := Bind(ojama[i].name, node, 0, calls[i]);
        if !ok {
          return Some(BindFailed(ojama[i].name));
        }
      }
      Poke();
      err := None;
    }

    method ColumnIndex(f: Field, node: string) returns (x: int)
      ensures x == -1 || (0 <= x < |f.columns| && f.columns[x].node.name == node)
      ensures x == -1 ==> forall j :: 0 <= j < |f.columns| ==> f.columns[j].node.name != node
    {
      for j := 0 to |f.columns|
        invariant forall i :: 0 <= i < j ==> f.columns[i].node.name != node
      {
        if f.columns[j].node.name == node {
          return j;
        }
      }
      x := -1;
    }

    /** Up to ten random columns, until one has room above what is planned; empty if none has. */
    method FindRoom(f: Field, heights: map<string, int>, limit: int, draw: Draws, from: nat)
      returns (node: string, turn: nat)
      requires DistinctColumns(f.columns) && forall x :: 0 <= x < |f.columns| ==> f.columns[x].node.name != ""
      ensures node != "" ==> exists x: nat :: x < |f.columns| && HasRoom(f.columns[x], node, heights, limit)
      ensures node == "" ==> Stuck(f.columns, heights, limit, draw, from)
    {
      node, turn := "", from;
      for t := 0 to 10
        invariant turn == from + t && node == ""
        invariant forall u :: from <= u < turn ==> Misses(f.columns, heights, limit, draw, u)
      {
        var n := PickColumn(f, limit, false, draw, turn);
        ghost var c := Candidates(f.columns, limit, false);
        if |c| > 0 {
          CandidateFacts(f.columns, limit, false, Pick(draw, turn, |c|));
        }
        if n == "" {
          return;
        }
        var i := ColumnIndex(f, n);
        if f.Height(i) + (if n in heights then heights[n] else 0) < limit {
          assert HasRoom(f.columns[i], n, heights, limit);
          return n, turn + 1;
        }
        assert Misses(f.columns, heights, limit, draw, turn);
        turn := turn + 1;
      }
    }

    /** A random column with room for each Pod, counting the Pods already planned; None: give up. */
    method Plan(f: Field, pods: seq<Pod>, limit: int, draw: Draws) returns (plan: Option<seq<Placement>>)
      requires DistinctColumns(f.columns) && forall x :: 0 <= x < |f.columns| ==> f.columns[x].node.name != ""
      ensures plan.Some? ==> |plan.value| == |pods| && forall i :: 0 <= i < |pods| ==> plan.value[i].pod == pods[i].name
      ensures plan.Some? ==> Acceptable(Names(pods), HeightsOf(f.columns), limit, plan.value)
      ensures plan.None? ==> GivesUp(f.columns, |pods|, limit, draw)
    {
      var placements: seq<Placement> := [];
      var heights: map<string, int> := map[];
      var turn := 0;
      for i := 0 to |pods|
        invariant |placements| == i && forall j :: 0 <= j < i ==> placements[j].pod == pods[j].name
        invariant PlannedSoFar(f.columns, limit, placements, heights)
      {
        ghost var from := turn;
        var node;
        node, turn := FindRoom(f, heights, limit, draw, turn);
        if node == "" {
          assert Stuck(f.columns, heights, limit, draw, from);
          return None;
        }
        ghost var x: nat :| x < |f.columns| && HasRoom(f.columns[x], node, heights, limit);
        PlanStep(f.columns, limit, placements, heights, Placement(pods[i].name, node), x);
        heights := heights[node := (if node in heights then heights[node] else 0) + 1];
        placements := placements + [Placement(pods[i].name, node)];
      }
      plan := Some(placements);
    }

    /** An automatic move, if nothing is settling and a whole pair waits; `plan` is the drop it asks for, if any. */
    method AutoDrop(kb: Option<Kbkb>, nodes: seq<Node>, draw: Draws, calls: seq<Call>)
      returns (err: Option<DropError>, ghost plan: Option<seq<Placement>>)
      requires Now().Valid() && UniqueNames(Now().Cache()) && UniqueNodes(nodes)
      modifies this
      ensures mode == old(mode) && pokes == old(pokes) + (if plan.Some? && err == None then 1 else 0)
      ensures AutoPlays(old(Now()), Now(), err, schedulerName, pairSize, maxHeight, kb, nodes, draw, calls, plan)
    {
      plan := None;
      var queue, _ := Pending();
      if |queue| < pairSize {
        return None, None;
      }
      var f := BuildFieldFor(kb, nodes);
      if !f.Stable() {
        return None, None;
      }
      var limit := MaxHeightFor(kb, maxHeight);
      BoardColumnsDistinct(kb, Now().Cache(), nodes);
      BoardColumnsNamed(kb, Now().Cache(), nodes);
      var chosen := Plan(f, queue[..pairSize], limit, draw);
      if chosen.None? {
        return None, None;
      }
      PlanIsAccepted(queue, pairSize, HeightsOf(f.columns), limit, chosen.value);
      plan := chosen;
      err := Drop(kb, nodes, chosen.value, calls);
    }

    method PruneInflight(clock: string -> int)
      requires Now().Valid()
      modifies this`inflight
      ensures inflight == Pruned(Now().Cache(), old(inflight), clock)
    {
      var cache := history[seen].pods;
      var names := inflight.Keys;
      while names != {}
        invariant names <= old(inflight).Keys
        invariant inflight ==
          map n | n in old(inflight) && (n in names || !Prunable(cache, n, old(inflight)[n], clock(n)))
            :: old(inflight)[n]
        decreases |names|
      {
        var name :| name in names;
        if Prunable(cache, name, inflight[name], clock(name)) {
          inflight := inflight - {name};
        }
        names := names - {name};
      }
    }
  }
}
