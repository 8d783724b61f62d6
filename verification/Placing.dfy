/** What the scheduler lists, accepts and binds, in terms of the fields of the Pods, the Nodes and the resource. */
module Placing {
  import opened Options
  import opened Orders
  import opened Kube
  import opened Fields
  import opened FloodFill
  import opened Controller
  import opened Scheduler
  import opened Heights
  import opened Passes

  // ----- What waits

  /** The cache shows the Pod waiting for this scheduler, and the table of bindings does not hold it. */
  ghost predicate IsWaiting(p: Pod, schedulerName: string, inflight: map<string, int>)
  {
    p.schedulerName == schedulerName && p.node == "" && !p.deleting && p.name !in inflight
  }

  ghost predicate Labelled(p: Pod)
  {
    "kbkb.k8s.omakenoyouna.net/ojama" in p.labels && p.labels["kbkb.k8s.omakenoyouna.net/ojama"] == "true"
  }

  /** The queue and the garbage are the Pods that wait, told apart by the label, each listed once, from the oldest to
      the youngest, and by name among those created together. */
  lemma PendingInOrder(pods: seq<Pod>, schedulerName: string, inflight: map<string, int>, ojama: bool)
    returns (q: seq<Pod>)
    requires UniqueNames(pods)
    ensures q == QueueOf(pods, schedulerName, inflight, ojama)
    ensures forall p :: p in q <==> p in pods && IsWaiting(p, schedulerName, inflight) && (Labelled(p) <==> ojama)
    ensures forall i, j :: 0 <= i < j < |q| ==>
      q[i].created < q[j].created || (q[i].created == q[j].created && Before(q[i].name, q[j].name))
  {
    q := QueueOf(pods, schedulerName, inflight, ojama);
    QueueFacts(pods, schedulerName, inflight, ojama);
    assert forall p: Pod :: p.Ojama() <==> Labelled(p);
    forall i, j | 0 <= i < j < |q|
      ensures q[i].created < q[j].created || (q[i].created == q[j].created && Before(q[i].name, q[j].name))
    {
      assert Less(CreatedKey(q[i]), CreatedKey(q[j]));
    }
  }

  /** The Pod may be dropped by hand: it waits, and is not garbage. */
  ghost predicate Droppable(s: State, schedulerName: string, name: string)
    requires s.Valid()
  {
    exists p :: p in s.Cache() && p.name == name && IsWaiting(p, schedulerName, s.inflight) && !Labelled(p)
  }

  lemma DroppableIff(s: State, schedulerName: string, name: string)
    requires s.Valid() && UniqueNames(s.Cache())
    ensures name in QueuedNames(s, schedulerName) <==> Droppable(s, schedulerName, name)
  {
    var q := PendingInOrder(s.Cache(), schedulerName, s.inflight, false);
  }

  // ----- Columns

  /** The Node is a column: the resource selects it, or there is no resource. */
  ghost predicate IsTarget(kb: Option<Kbkb>, nodes: seq<Node>, node: string)
  {
    exists n :: n in nodes && n.name == node && (kb.Some? ==> Counts(kb.value.spec, n))
  }

  lemma TargetIff(kb: Option<Kbkb>, pods: seq<Pod>, nodes: seq<Node>, node: string)
    requires UniqueNames(pods) && UniqueNodes(nodes)
    ensures node in HeightsOf(BoardFor(kb, pods, nodes).columns) <==> IsTarget(kb, nodes, node)
    ensures var columns := BoardFor(kb, pods, nodes).columns;
      (exists x :: 0 <= x < |columns| && columns[x].node.name == node) <==> IsTarget(kb, nodes, node)
  {
    var f := BoardFor(kb, pods, nodes);
    BoardForIsField(kb, pods, nodes);
    BoardColumnsDistinct(kb, pods, nodes);
    forall n ensures n in ColumnNodes(kb, nodes) <==> n in nodes && (kb.Some? ==> Counts(kb.value.spec, n)) {
      if kb.Some? {
        ColumnIff(kb.value.spec, nodes, n);
      }
    }
    if IsTarget(kb, nodes, node) {
      var n :| n in nodes && n.name == node && (kb.Some? ==> Counts(kb.value.spec, n));
      assert n in NodesOf(f);
      var x :| 0 <= x < |f.columns| && NodesOf(f)[x] == n;
      HeightsOfColumn(f.columns, x);
      assert f.columns[x].node.name == node;
    }
    if x :| 0 <= x < |f.columns| && f.columns[x].node.name == node {
      assert NodesOf(f)[x] in ColumnNodes(kb, nodes);
    }
    if node in HeightsOf(f.columns) {
      HeightsOfKey(f.columns, node);
    }
  }

  // ----- A drop

  /** Every Pod is droppable, every Node is a column, and each Node has room for what it gets, counting the Pods the
      cache shows on it. */
  ghost predicate InRules(s: State, schedulerName: string, kb: Option<Kbkb>, nodes: seq<Node>, limit: int,
                          placements: seq<Placement>)
    requires s.Valid()
  {
    && placements != []
    && (forall i :: 0 <= i < |placements| ==>
        Droppable(s, schedulerName, placements[i].pod) && IsTarget(kb, nodes, placements[i].node))
    && forall node :: CountOn(placements, node) > 0 ==> |NamesOn(s.Cache(), node)| + CountOn(placements, node) <= limit
  }

  /** What a refusal says is true of the drop. */
  ghost predicate Blames(s: State, schedulerName: string, kb: Option<Kbkb>, nodes: seq<Node>, limit: int,
                         placements: seq<Placement>, err: DropError)
    requires s.Valid()
  {
    match err
    case NoPlacements => placements == []
    case NotQueued(pod) =>
      !Droppable(s, schedulerName, pod) && exists i :: 0 <= i < |placements| && placements[i].pod == pod
    case UnknownNode(node) =>
      !IsTarget(kb, nodes, node) && exists i :: 0 <= i < |placements| && placements[i].node == node
    case ColumnFull(node) =>
      IsTarget(kb, nodes, node) && |NamesOn(s.Cache(), node)| + CountOn(placements, node) > limit
    case _ => false
  }

  /** The order and the truth of a refusal: it names a placement that is at fault, counting the placements before it. */
  lemma {:induction false} ValidateBlames(queued: set<string>, heights: map<string, int>, limit: int,
                                          placements: seq<Placement>)
    ensures match Validate(queued, heights, limit, placements)
      case None => true
      case Some(NotQueued(pod)) => pod !in queued && exists i :: 0 <= i < |placements| && placements[i].pod == pod
      case Some(UnknownNode(node)) =>
        node !in heights && exists i :: 0 <= i < |placements| && placements[i].node == node
      case Some(ColumnFull(node)) => node in heights && heights[node] + CountOn(placements, node) > limit
      case Some(_) => false
  {
    if placements != [] {
      var p, rest := placements[0], placements[1..];
      assert placements[0].pod == p.pod && placements[0].node == p.node;
      if p.pod in queued && p.node in heights && heights[p.node] + 1 <= limit {
        var heights' := heights[p.node := heights[p.node] + 1];
        ValidateBlames(queued, heights', limit, rest);
        assert forall i :: 0 <= i < |rest| ==> rest[i] == placements[i + 1];
        match Validate(queued, heights', limit, rest)
        case Some(NotQueued(pod)) =>
          var i :| 0 <= i < |rest| && rest[i].pod == pod;
          assert placements[i + 1].pod == pod;
        case Some(UnknownNode(node)) =>
          var i :| 0 <= i < |rest| && rest[i].node == node;
          assert placements[i + 1].node == node;
        case _ =>
      }
    }
  }

  lemma RulesIff(s: State, schedulerName: string, kb: Option<Kbkb>, nodes: seq<Node>, limit: int,
                 placements: seq<Placement>)
    requires s.Valid() && UniqueNames(s.Cache()) && UniqueNodes(nodes) && placements != []
    ensures var heights := HeightsOf(BoardFor(kb, s.Cache(), nodes).columns);
      Acceptable(QueuedNames(s, schedulerName), heights, limit, placements)
      <==> InRules(s, schedulerName, kb, nodes, limit, placements)
  {
    var heights := HeightsOf(BoardFor(kb, s.Cache(), nodes).columns);
    forall name ensures name in QueuedNames(s, schedulerName) <==> Droppable(s, schedulerName, name) {
      DroppableIff(s, schedulerName, name);
    }
    forall node ensures node in heights <==> IsTarget(kb, nodes, node) {
      TargetIff(kb, s.Cache(), nodes, node);
    }
    forall node | node in heights ensures heights[node] == |NamesOn(s.Cache(), node)| {
      BoardHeights(kb, s.Cache(), nodes, node);
    }
    forall node | CountOn(placements, node) > 0
      ensures exists i :: 0 <= i < |placements| && placements[i].node == node
    {
      CountedIsPlaced(placements, node);
    }
  }

  /** A drop that keeps the rules, under the resource's own limit if it sets one and the scheduler's otherwise, has
      its binds made in order; any other is refused for a true reason, and changes nothing. */
  lemma DropRules(s: State, schedulerName: string, maxHeight: int, kb: Option<Kbkb>, nodes: seq<Node>, limit: int,
                  placements: seq<Placement>, calls: seq<Call>) returns (t: State, err: Option<DropError>)
    requires s.Valid() && UniqueNames(s.Cache()) && UniqueNodes(nodes) && LimitIs(kb, maxHeight, limit)
    ensures (t, err) == DropResult(s, schedulerName, maxHeight, kb, nodes, placements, calls)
    ensures InRules(s, schedulerName, kb, nodes, limit, placements) ==>
      (t, err) == BindAll(s, DropRequests(placements), calls)
    ensures !InRules(s, schedulerName, kb, nodes, limit, placements) ==>
      t == s && err.Some? && Blames(s, schedulerName, kb, nodes, limit, placements, err.value)
  {
    var outcome := DropResult(s, schedulerName, maxHeight, kb, nodes, placements, calls);
    t, err := outcome.0, outcome.1;
    LimitIsFor(kb, maxHeight, limit);
    if placements != [] {
      var heights := HeightsOf(BoardFor(kb, s.Cache(), nodes).columns);
      RulesIff(s, schedulerName, kb, nodes, limit, placements);
      ValidateIffAcceptable(QueuedNames(s, schedulerName), heights, limit, placements);
      if err.Some? && !InRules(s, schedulerName, kb, nodes, limit, placements) {
        RefusalBlames(s, schedulerName, kb, nodes, limit, placements);
      }
    }
  }

  lemma {:induction false} RefusalBlames(s: State, schedulerName: string, kb: Option<Kbkb>, nodes: seq<Node>,
                                         limit: int,
                                         placements: seq<Placement>)
    requires s.Valid() && UniqueNames(s.Cache()) && UniqueNodes(nodes)
    ensures var heights := HeightsOf(BoardFor(kb, s.Cache(), nodes).columns);
      var verdict := Validate(QueuedNames(s, schedulerName), heights, limit, placements);
      verdict.Some? ==> Blames(s, schedulerName, kb, nodes, limit, placements, verdict.value)
  {
    var heights := HeightsOf(BoardFor(kb, s.Cache(), nodes).columns);
    ValidateBlames(QueuedNames(s, schedulerName), heights, limit, placements);
    match Validate(QueuedNames(s, schedulerName), heights, limit, placements)
    case Some(NotQueued(pod)) => DroppableIff(s, schedulerName, pod);
    case Some(UnknownNode(node)) => TargetIff(kb, s.Cache(), nodes, node);
    case Some(ColumnFull(node)) =>
      TargetIff(kb, s.Cache(), nodes, node);
      BoardHeights(kb, s.Cache(), nodes, node);
    case _ =>
  }

  /** After a drop that kept the rules on a cache that shows every Pod, no Node it used holds more Pods than the
      resource's limit, or the scheduler's if the resource sets none. */
  lemma DropWithinLimit(s: State, schedulerName: string, maxHeight: int, kb: Option<Kbkb>, nodes: seq<Node>,
                        placements: seq<Placement>, calls: seq<Call>, node: string) returns (t: State)
    requires s.Valid() && UniqueNames(s.Cache()) && UniqueNodes(nodes) && AllShown(s)
    requires CountOn(placements, node) > 0
    ensures t == DropResult(s, schedulerName, maxHeight, kb, nodes, placements, calls).0 && t.Valid()
    ensures var limit := if kb.Some? && kb.value.spec.spawn.Some? && kb.value.spec.spawn.value.maxHeight > 0
                         then kb.value.spec.spawn.value.maxHeight else maxHeight;
      t != s ==> |NamesOn(t.Truth(), node)| <= limit
  {
    var limit := MaxHeightFor(kb, maxHeight);
    LimitIsFor(kb, maxHeight, limit);
    var err;
    t, err := DropRules(s, schedulerName, maxHeight, kb, nodes, limit, placements, calls);
    if InRules(s, schedulerName, kb, nodes, limit, placements) {
      CountedIsPlaced(placements, node);
      TargetNamed(kb, nodes, node);
      BurstAdds(s, DropRequests(placements), calls);
      BurstCount(s, t, DropRequests(placements), node);
      DropAsks(placements);
      SubsetCard(NamesOn(s.Truth(), node), NamesOn(s.Cache(), node));
    }
  }

  lemma TargetNamed(kb: Option<Kbkb>, nodes: seq<Node>, node: string)
    requires UniqueNodes(nodes) && IsTarget(kb, nodes, node)
    ensures node != ""
  {
  }

  // ----- Drawn columns

  /** Any column may be drawn if it must, otherwise those with fewer Pods than the limit. */
  lemma {:induction false} CandidateIff(columns: seq<Column>, limit: int, force: bool, node: string)
    ensures node in Candidates(columns, limit, force) <==>
      exists x :: 0 <= x < |columns| && columns[x].node.name == node && (force || |columns[x].pods| < limit)
  {
    if columns != [] {
      var init, last := columns[..|columns| - 1], columns[|columns| - 1];
      CandidateIff(init, limit, force, node);
      if x :| 0 <= x < |init| && init[x].node.name == node && (force || |init[x].pods| < limit) {
        assert columns[x].node.name == node;
      }
      if x :| 0 <= x < |columns| && columns[x].node.name == node && (force || |columns[x].pods| < limit) {
        assert x < |init| ==> init[x] == columns[x];
      }
      assert last == columns[|columns| - 1];
    }
  }

  lemma {:induction false} CountUpTo(placements: seq<Placement>, node: string)
    ensures CountOn(placements, node) <= |placements|
  {
    if placements != [] {
      CountUpTo(placements[1..], node);
    }
  }

  /** Auto play does not give up where some column has room, and every column with room has room for n Pods. */
  lemma NeverGivesUp(columns: seq<Column>, n: nat, limit: int, draw: Draws)
    requires exists x :: 0 <= x < |columns| && |columns[x].pods| < limit
    requires forall x :: 0 <= x < |columns| && |columns[x].pods| < limit ==> |columns[x].pods| + n <= limit
    ensures !GivesUp(columns, n, limit, draw)
  {
    var c := Candidates(columns, limit, false);
    var some :| 0 <= some < |columns| && |columns[some].pods| < limit;
    CandidateIff(columns, limit, false, columns[some].node.name);
    forall placements, heights, from: nat | |placements| < n && PlannedSoFar(columns, limit, placements, heights)
      ensures !Stuck(columns, heights, limit, draw, from)
    {
      var node := c[Pick(draw, from, |c|)];
      CandidateIff(columns, limit, false, node);
      var x :| 0 <= x < |columns| && columns[x].node.name == node && |columns[x].pods| < limit;
      CountUpTo(placements, node);
      assert HasRoom(columns[x], node, heights, limit);
      assert !Misses(columns, heights, limit, draw, from);
    }
  }

  /** Auto play gives up on n Pods only if every column is full, or ten draws in a row hit columns without room for
      all n. */
  lemma TenMisses(columns: seq<Column>, n: nat, limit: int, draw: Draws) returns (from: nat)
    requires GivesUp(columns, n, limit, draw) && exists x :: 0 <= x < |columns| && |columns[x].pods| < limit
    ensures Candidates(columns, limit, false) != []
    ensures forall t :: from <= t < from + 10 ==>
      TooFull(columns, Candidates(columns, limit, false)[draw(t) % |Candidates(columns, limit, false)|], n, limit)
  {
    var c := Candidates(columns, limit, false);
    var some :| 0 <= some < |columns| && |columns[some].pods| < limit;
    CandidateIff(columns, limit, false, columns[some].node.name);
    var placements, heights, from': nat :|
      && |placements| < n && PlannedSoFar(columns, limit, placements, heights)
      && Stuck(columns, heights, limit, draw, from');
    from := from';
    forall t | from <= t < from + 10 ensures TooFull(columns, c[draw(t) % |c|], n, limit) {
      assert Misses(columns, heights, limit, draw, t);
      var node := c[Pick(draw, t, |c|)];
      CandidateIff(columns, limit, false, node);
      CountUpTo(placements, node);
      var x :| 0 <= x < |columns| && columns[x].node.name == node && |columns[x].pods| < limit;
      assert !HasRoom(columns[x], node, heights, limit);
    }
  }

  ghost predicate TooFull(columns: seq<Column>, node: string, n: nat, limit: int)
  {
    exists x :: 0 <= x < |columns| && columns[x].node.name == node && |columns[x].pods| + n > limit
  }

  /** An automatic move drops the front of the queue, as many Pods as a pair has, by a drop that keeps the rules. */
  lemma {:induction false} AutoRules(s: State, t: State, err: Option<DropError>, schedulerName: string,
                                     pairSize: nat, maxHeight: int,
                                     kb: Option<Kbkb>, nodes: seq<Node>, draw: Draws, calls: seq<Call>,
                                     plan: Option<seq<Placement>>,
                                     limit: int)
    requires s.Valid() && UniqueNames(s.Cache()) && UniqueNodes(nodes) && LimitIs(kb, maxHeight, limit)
    requires AutoPlays(s, t, err, schedulerName, pairSize, maxHeight, kb, nodes, draw, calls, plan)
    ensures var queue := QueueOf(s.Cache(), schedulerName, s.inflight, false);
      var columns := BoardFor(kb, s.Cache(), nodes).columns;
      match plan
      case Some(placements) =>
        && |placements| == pairSize <= |queue| && (forall i :: 0 <= i < pairSize ==> placements[i].pod == queue[i].name)
        && InRules(s, schedulerName, kb, nodes, limit, placements)
        && (t, err) == BindAll(s, DropRequests(placements), calls)
      case None =>
        t == s && err == None
        && (|queue| < pairSize || !BoardFor(kb, s.Cache(), nodes).Stable() || GivesUp(columns, pairSize, limit, draw))
    ensures plan.Some? ==> BoardFor(kb, s.Cache(), nodes).Stable()
  {
    LimitIsFor(kb, maxHeight, limit);
    if plan.Some? {
      var heights := HeightsOf(BoardFor(kb, s.Cache(), nodes).columns);
      var t', err' := DropRules(s, schedulerName, maxHeight, kb, nodes, limit, plan.value, calls);
      RulesIff(s, schedulerName, kb, nodes, limit, plan.value);
      ValidateIffAcceptable(QueuedNames(s, schedulerName), heights, limit, plan.value);
    }
  }

  /** A shower asks for every garbage Pod that waits, in order, each on some column, full or not, stamped by the clock
      alone; if there is no column it asks for none. */
  lemma ShowerRule(s: State, schedulerName: string, kb: Option<Kbkb>, nodes: seq<Node>, maxHeight: int, draw: Draws)
    returns (requests: seq<Request>, garbage: seq<Pod>)
    requires s.Valid() && UniqueNames(s.Cache()) && UniqueNodes(nodes)
    ensures requests == ShowerRequests(s, schedulerName, kb, nodes, maxHeight, draw)
    ensures garbage == QueueOf(s.Cache(), schedulerName, s.inflight, true)
    ensures (exists n :: IsTarget(kb, nodes, n)) ==> |requests| == |garbage|
    ensures (forall n :: !IsTarget(kb, nodes, n)) ==> requests == []
    ensures |requests| <= |garbage| && forall i :: 0 <= i < |requests| ==>
      requests[i].pod == garbage[i].name && requests[i].offset == 0 && IsTarget(kb, nodes, requests[i].node)
  {
    requests := ShowerRequests(s, schedulerName, kb, nodes, maxHeight, draw);
    garbage := QueueOf(s.Cache(), schedulerName, s.inflight, true);
    var columns := BoardFor(kb, s.Cache(), nodes).columns;
    var candidates := Candidates(columns, MaxHeightFor(kb, maxHeight), true);
    forall n ensures n in candidates <==> IsTarget(kb, nodes, n) {
      CandidateIff(columns, MaxHeightFor(kb, maxHeight), true, n);
      TargetIff(kb, s.Cache(), nodes, n);
    }
    assert candidates != [] ==> candidates[0] in candidates;
  }

  // ----- The table of bindings

  /** An entry stays exactly as long as the cache shows its Pod without a Node, up to thirty seconds. */
  lemma PrunedIff(cache: seq<Pod>, inflight: map<string, int>, clock: string -> int, name: string)
    requires UniqueNames(cache)
    ensures name in Pruned(cache, inflight, clock) <==>
      && name in inflight && clock(name) - inflight[name] <= 30_000_000_000
      && exists p :: p in cache && p.name == name && p.node == ""
    ensures name in Pruned(cache, inflight, clock) ==> Pruned(cache, inflight, clock)[name] == inflight[name]
  {
    if p :| p in cache && p.name == name && p.node == "" {
      var i :| 0 <= i < |cache| && cache[i] == p;
      assert cache[i].name == name && cache[i].node == "";
    }
    if i :| 0 <= i < |cache| && cache[i].name == name && cache[i].node == "" {
      assert cache[i] in cache;
    }
  }
}
