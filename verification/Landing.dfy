/** What the player locks is what lands: from the grounded pair, through the drop and its stamps, to the rebuilt
    field. */
module Landing {
  import opened Options
  import opened Decimal
  import opened Orders
  import opened Kube
  import opened Fields
  import opened Controller
  import opened Scheduler
  import opened Inflight
  import opened Drops
  import opened Heights
  import opened FallingPair

  // ----- One bind, seen on the field

  function PodNamed(pods: seq<Pod>, name: string): Pod
    requires HasPod(pods, name)
  {
    if pods[0].name == name then pods[0] else PodNamed(pods[1..], name)
  }

  lemma {:induction false} PodNamedFacts(pods: seq<Pod>, name: string)
    requires HasPod(pods, name)
    ensures PodNamed(pods, name) in pods && PodNamed(pods, name).name == name
  {
    if pods[0].name != name {
      assert HasPod(pods[1..], name) by {
        var i :| 0 <= i < |pods| && pods[i].name == name;
        assert pods[1..][i - 1].name == name;
      }
      PodNamedFacts(pods[1..], name);
    }
  }

  /** A Pod as it is once stamped and bound. */
  function Landed(p: Pod, order: int, node: string): Pod
  {
    Stamp(p, order).(node := node)
  }

  lemma LandedFacts(p: Pod, order: int, node: string)
    requires MIN_INT64 <= order <= MAX_INT64
    ensures StackOrder(Landed(p, order, node)) == order && AnnotationColor(Landed(p, order, node)) == AnnotationColor(p)
  {
    RoundTrip(order);
    AnnotationsApart();
  }

  /** The cell on top of its Node's column. */
  function Topped(f: Field, cell: Cell): Field
  {
    Field(seq(|f.columns|, x requires 0 <= x < |f.columns| =>
      if f.columns[x].node.name == cell.pod.node
      then f.columns[x].(pods := f.columns[x].pods + [cell]) else f.columns[x]))
  }

  /** Every Pod already on a Node stacks at or below `key`. */
  ghost predicate KeysUpTo(pods: seq<Pod>, key: int)
  {
    forall p :: p in pods && p.node != "" ==> StackOrder(p) <= key
  }

  /** The Pods after a stamp and a bind: the one bound, changed, and the others, as they were. */
  lemma BoundPods(pods: seq<Pod>, p: Pod, order: int, node: string)
    requires UniqueNames(pods) && p in pods && Bindable(p)
    ensures var r := Bound(Stamped(pods, p.name, order), p.name, node);
      && UniqueNames(r)
      && forall q :: q in r <==> q == Landed(p, order, node) || (q in pods && q.name != p.name)
  {
    var r := Bound(Stamped(pods, p.name, order), p.name, node);
    var k :| 0 <= k < |pods| && pods[k] == p;
    assert r[k] == Landed(p, order, node);
    forall i | 0 <= i < |pods| && i != k ensures r[i] == pods[i] && pods[i].name != p.name {
      assert pods[i].name != pods[k].name;
    }
    forall q | q in pods && q.name != p.name ensures q in r {
      var i :| 0 <= i < |pods| && pods[i] == q;
      assert r[i] == q;
    }
  }

  lemma {:induction false} ToppedColumn(col: Column, pods: seq<Pod>, pods': seq<Pod>, p: Pod, order: int, node: string)
    requires UniqueNames(pods) && p in pods && Bindable(p) && node != "" && col.node.name != ""
    requires MIN_INT64 <= order <= MAX_INT64
    requires forall q :: q in pods && q.node != "" ==> StackOrder(q) < order
    requires forall q :: q in pods' <==> q == Landed(p, order, node) || (q in pods && q.name != p.name)
    requires IsColumn(col, Scheduled(pods), AnnotationColor)
    ensures var cell := Cell(Landed(p, order, node), AnnotationColor(p));
      IsColumn(if col.node.name == node then col.(pods := col.pods + [cell]) else col,
               Scheduled(pods'), AnnotationColor)
  {
    var cell := Cell(Landed(p, order, node), AnnotationColor(p));
    var cells := if col.node.name == node then col.pods + [cell] else col.pods;
    LandedFacts(p, order, node);
    forall i, j | 0 <= i < j < |cells| ensures Less(CellKey(cells[i]), CellKey(cells[j])) {
      assert cells[i] == col.pods[i] && col.pods[i] in col.pods;
    }
    forall c
      ensures c in cells <==>
        c.pod in Scheduled(pods') && c.pod.node == col.node.name && c.color == AnnotationColor(c.pod)
    {
      assert c in cells <==> c in col.pods || (col.node.name == node && c == cell);
      if c in col.pods && c.pod.name == p.name {
        NameDeterminesPod(pods, c.pod, p);
      }
    }
  }

  lemma {:induction false} BindLands(pods: seq<Pod>, pods': seq<Pod>, nodes: seq<Node>, p: Pod, order: int,
                                     node: string)
    requires UniqueNames(pods) && UniqueNodes(nodes) && p in pods && Bindable(p) && node != ""
    requires MIN_INT64 <= order <= MAX_INT64 && KeysUpTo(pods, order - 1)
    requires pods' == Bound(Stamped(pods, p.name, order), p.name, node)
    ensures FieldOf(Scheduled(pods'), nodes, AnnotationColor)
      == Topped(FieldOf(Scheduled(pods), nodes, AnnotationColor), Cell(Landed(p, order, node), AnnotationColor(p)))
  {
    var f := FieldOf(Scheduled(pods), nodes, AnnotationColor);
    var g := Topped(f, Cell(Landed(p, order, node), AnnotationColor(p)));
    BoundPods(pods, p, order, node);
    ScheduledUnique(pods);
    ScheduledUnique(pods');
    FieldOfIsField(Scheduled(pods), nodes, AnnotationColor);
    FieldOfIsField(Scheduled(pods'), nodes, AnnotationColor);
    assert NodesOf(g) == NodesOf(f);
    forall x | 0 <= x < |g.columns| ensures IsColumn(g.columns[x], Scheduled(pods'), AnnotationColor) {
      assert NodesOf(f)[x] in nodes;
      ToppedColumn(f.columns[x], pods, pods', p, order, node);
    }
    Canonical(FieldOf(Scheduled(pods'), nodes, AnnotationColor), g, Scheduled(pods'), Scheduled(pods'), nodes, nodes,
              AnnotationColor);
  }

  // ----- A burst of binds, seen on the field

  /** The stamps climb, from above `key`, inside the 64-bit range. */
  predicate Climbing(key: int, requests: seq<Request>, calls: seq<Call>)
    requires |requests| <= |calls|
    decreases |requests|
  {
    requests == []
    || (var order := calls[0].stampAt + requests[0].offset;
        key < order && MIN_INT64 <= order <= MAX_INT64 && Climbing(order, requests[1..], calls[1..]))
  }

  /** The cells a burst lands, in order. */
  function Landings(pods: seq<Pod>, requests: seq<Request>, calls: seq<Call>): (cells: seq<Cell>)
    requires |requests| <= |calls| && forall i :: 0 <= i < |requests| ==> HasPod(pods, requests[i].pod)
    ensures |cells| == |requests|
  {
    seq(|requests|, i requires 0 <= i < |requests| =>
      var p := PodNamed(pods, requests[i].pod);
      Cell(Landed(p, calls[i].stampAt + requests[i].offset, requests[i].node), AnnotationColor(p)))
  }

  function AllTopped(f: Field, cells: seq<Cell>): Field
    decreases |cells|
  {
    if cells == [] then f else AllTopped(Topped(f, cells[0]), cells[1..])
  }

  lemma AllBindableHas(pods: seq<Pod>, requests: seq<Request>)
    requires AllBindable(pods, requests)
    ensures forall i :: 0 <= i < |requests| ==> HasPod(pods, requests[i].pod)
  {
    forall i | 0 <= i < |requests| ensures HasPod(pods, requests[i].pod) {
      CanBindHas(pods, requests[i].pod);
    }
  }

  /** Pods other than the one bound keep their names and contents. */
  lemma {:induction false} OthersUnchanged(pods: seq<Pod>, pods': seq<Pod>, p: Pod, order: int, node: string,
                                           name: string)
    requires UniqueNames(pods) && p in pods && Bindable(p)
    requires pods' == Bound(Stamped(pods, p.name, order), p.name, node)
    requires HasPod(pods, name) && name != p.name
    ensures HasPod(pods', name) && PodNamed(pods', name) == PodNamed(pods, name)
  {
    BoundPods(pods, p, order, node);
    PodNamedFacts(pods, name);
    var q := PodNamed(pods, name);
    assert q in pods';
    var i :| 0 <= i < |pods'| && pods'[i] == q;
    PodNamedFacts(pods', name);
    NameDeterminesPod(pods', PodNamed(pods', name), q);
  }

  /** The Pod a request names, when it can be bound. */
  lemma RequestedPod(pods: seq<Pod>, name: string) returns (p: Pod)
    requires UniqueNames(pods) && CanBind(pods, name)
    ensures HasPod(pods, name) && p == PodNamed(pods, name) && p in pods && Bindable(p) && p.name == name
  {
    CanBindHas(pods, name);
    PodNamedFacts(pods, name);
    p := PodNamed(pods, name);
    var k :| 0 <= k < |pods| && pods[k].name == name && Bindable(pods[k]);
    NameDeterminesPod(pods, p, pods[k]);
  }

  lemma KeysAfterBind(pods: seq<Pod>, p: Pod, order: int, node: string, key: int)
    requires UniqueNames(pods) && p in pods && Bindable(p) && KeysUpTo(pods, key)
    requires key < order && MIN_INT64 <= order <= MAX_INT64
    ensures KeysUpTo(Bound(Stamped(pods, p.name, order), p.name, node), order)
  {
    BoundPods(pods, p, order, node);
    LandedFacts(p, order, node);
  }

  /** The first bind of a burst that will go through. */
  lemma FirstBind(s: State, requests: seq<Request>, calls: seq<Call>, key: int) returns (t: State, p: Pod)
    requires s.Valid() && UniqueNames(s.Truth()) && requests != [] && |requests| <= |calls|
    requires AllThrough(calls) && Distinct(requests) && AllBindable(s.Truth(), requests)
    requires KeysUpTo(s.Truth(), key) && Climbing(key, requests, calls)
    ensures t.Valid() && BindOne(s, requests[0], calls[0]) == (t, true)
    ensures HasPod(s.Truth(), requests[0].pod) && p == PodNamed(s.Truth(), requests[0].pod)
    ensures p in s.Truth() && Bindable(p) && p.name == requests[0].pod
    ensures t.Truth()
      == Bound(Stamped(s.Truth(), p.name, calls[0].stampAt + requests[0].offset), p.name, requests[0].node)
    ensures UniqueNames(t.Truth()) && KeysUpTo(t.Truth(), calls[0].stampAt + requests[0].offset)
    ensures AllBindable(t.Truth(), requests[1..])
  {
    var r, c := requests[0], calls[0];
    assert CanBind(s.Truth(), r.pod) && r.node != "";
    BindOneGoesThrough(s, r, c);
    t := BindOne(s, r, c).0;
    p := RequestedPod(s.Truth(), r.pod);
    KeysAfterBind(s.Truth(), p, c.stampAt + r.offset, r.node, key);
    forall i | 0 <= i < |requests[1..]|
      ensures CanBind(t.Truth(), requests[1..][i].pod) && requests[1..][i].node != ""
    {
      assert requests[1..][i] == requests[i + 1] && requests[0].pod != requests[i + 1].pod;
    }
  }

  /** A burst tops the columns with its Pods, in the order they were asked for. */
  lemma {:induction false} BurstLands(s: State, nodes: seq<Node>, requests: seq<Request>, calls: seq<Call>, key: int)
    requires s.Valid() && UniqueNames(s.Truth()) && UniqueNodes(nodes) && |requests| <= |calls|
    requires AllThrough(calls) && Distinct(requests) && AllBindable(s.Truth(), requests)
    requires KeysUpTo(s.Truth(), key) && Climbing(key, requests, calls)
    requires forall i :: 0 <= i < |requests| ==> HasPod(s.Truth(), requests[i].pod)
    ensures FieldOf(Scheduled(BindAll(s, requests, calls).0.Truth()), nodes, AnnotationColor)
      == AllTopped(FieldOf(Scheduled(s.Truth()), nodes, AnnotationColor), Landings(s.Truth(), requests, calls))
    decreases |requests|
  {
    if requests != [] {
      var order := calls[0].stampAt + requests[0].offset;
      var t, p := FirstBind(s, requests, calls, key);
      BindLands(s.Truth(), t.Truth(), nodes, p, order, requests[0].node);
      RestLandings(s, t, requests, calls, p, order);
      BurstLands(t, nodes, requests[1..], calls[1..], order);
    }
  }

  lemma RestLandings(s: State, t: State, requests: seq<Request>, calls: seq<Call>, p: Pod, order: int)
    requires s.Valid() && t.Valid() && UniqueNames(s.Truth()) && requests != [] && |requests| <= |calls|
    requires Distinct(requests)
    requires forall i :: 0 <= i < |requests| ==> HasPod(s.Truth(), requests[i].pod)
    requires p == PodNamed(s.Truth(), requests[0].pod) && p in s.Truth() && p.name == requests[0].pod && Bindable(p)
    requires order == calls[0].stampAt + requests[0].offset
    requires t.Truth() == Bound(Stamped(s.Truth(), p.name, order), p.name, requests[0].node)
    ensures Distinct(requests[1..])
    ensures forall i :: 0 <= i < |requests[1..]| ==> HasPod(t.Truth(), requests[1..][i].pod)
    ensures Landings(s.Truth(), requests, calls)
      == [Cell(Landed(p, order, requests[0].node), AnnotationColor(p))] + Landings(t.Truth(), requests[1..], calls[1..])
  {
    var before, after := s.Truth(), t.Truth();
    forall i | 0 <= i < |requests[1..]|
      ensures HasPod(after, requests[1..][i].pod)
      ensures PodNamed(after, requests[1..][i].pod) == PodNamed(before, requests[i + 1].pod)
    {
      assert requests[0].pod != requests[i + 1].pod;
      OthersUnchanged(before, after, p, order, requests[0].node, requests[i + 1].pod);
    }
    ShiftLandings(before, after, requests, calls);
  }

  lemma {:induction false} ShiftLandings(before: seq<Pod>, after: seq<Pod>, requests: seq<Request>, calls: seq<Call>)
    requires requests != [] && |requests| <= |calls|
    requires forall i :: 0 <= i < |requests| ==> HasPod(before, requests[i].pod)
    requires forall i :: 0 <= i < |requests[1..]| ==> HasPod(after, requests[1..][i].pod)
    requires forall i :: 0 <= i < |requests[1..]| ==>
      PodNamed(after, requests[1..][i].pod) == PodNamed(before, requests[i + 1].pod)
    ensures Landings(before, requests, calls)
      == [Landings(before, requests, calls)[0]] + Landings(after, requests[1..], calls[1..])
  {
    var a, b := Landings(before, requests, calls), Landings(after, requests[1..], calls[1..]);
    forall i | 0 <= i < |b| ensures a[i + 1] == b[i] {
      assert requests[1..][i] == requests[i + 1] && calls[1..][i] == calls[i + 1];
    }
    assert a == [a[0]] + b;
  }

  /** The cells of one Node, in order. */
  function CellsOn(cells: seq<Cell>, node: string): seq<Cell>
  {
    if cells == [] then [] else (if cells[0].pod.node == node then [cells[0]] else []) + CellsOn(cells[1..], node)
  }

  /** Topping a field cell by cell appends to each column its own cells. */
  lemma {:induction false} AllToppedColumns(f: Field, cells: seq<Cell>)
    ensures var g := AllTopped(f, cells);
      && |g.columns| == |f.columns|
      && forall x :: 0 <= x < |f.columns| ==>
        g.columns[x] == f.columns[x].(pods := f.columns[x].pods + CellsOn(cells, f.columns[x].node.name))
    decreases |cells|
  {
    if cells == [] {
      forall x | 0 <= x < |f.columns| ensures f.columns[x].pods + [] == f.columns[x].pods { }
    } else {
      var h := Topped(f, cells[0]);
      AllToppedColumns(h, cells[1..]);
      forall x | 0 <= x < |f.columns|
        ensures h.columns[x].pods + CellsOn(cells[1..], f.columns[x].node.name)
          == f.columns[x].pods + CellsOn(cells, f.columns[x].node.name)
      {
        var pods, node := f.columns[x].pods, f.columns[x].node.name;
        var first := if node == cells[0].pod.node then [cells[0]] else [];
        assert CellsOn(cells, node) == first + CellsOn(cells[1..], node);
        assert (pods + first) + CellsOn(cells[1..], node) == pods + (first + CellsOn(cells[1..], node));
      }
    }
  }

  // ----- A drop's stamps

  lemma {:induction false} StampsClimb(key: int, at: int, offset: nat, requests: seq<Request>, calls: seq<Call>)
    requires |requests| <= |calls| && TimelyCalls(at, calls)
    requires forall i :: 0 <= i < |requests| ==> requests[i].offset == offset + i
    requires key < at + offset && MIN_INT64 <= at
    requires forall i :: 0 <= i < |requests| ==> calls[i].stampAt + offset + i <= MAX_INT64
    ensures Climbing(key, requests, calls)
    decreases |requests|
  {
    if requests != [] {
      var order := calls[0].stampAt + offset;
      assert requests[0].offset == offset;
      TimelyEarlier(calls[0].markAt, calls[0].stampAt, calls[1..]);
      forall i | 0 <= i < |requests[1..]|
        ensures requests[1..][i].offset == offset + 1 + i && calls[1..][i].stampAt + offset + 1 + i <= MAX_INT64
      {
        assert requests[1..][i] == requests[i + 1] && calls[1..][i] == calls[i + 1];
      }
      StampsClimb(order, calls[0].stampAt, offset + 1, requests[1..], calls[1..]);
    }
  }

  /** An accepted placement names a Pod that can be bound and a Node with a name. */
  lemma AcceptedIsBindable(s: State, schedulerName: string, kb: Option<Kbkb>, nodes: seq<Node>, limit: int,
                           placements: seq<Placement>)
    requires s.Valid() && UniqueNames(s.Truth()) && s.Cache() == s.Truth() && UniqueNodes(nodes)
    requires Acceptable(QueuedNames(s, schedulerName),
                        HeightsOf(BoardFor(kb, s.Cache(), nodes).columns), limit, placements)
    ensures AllBindable(s.Truth(), DropRequests(placements))
  {
    var queue := QueueOf(s.Cache(), schedulerName, s.inflight, false);
    QueueFacts(s.Cache(), schedulerName, s.inflight, false);
    forall i | 0 <= i < |placements| ensures CanBind(s.Truth(), placements[i].pod) && placements[i].node != "" {
      assert placements[i].pod in Names(queue);
      var p :| p in queue && p.name == placements[i].pod;
      var k :| 0 <= k < |s.Truth()| && s.Truth()[k] == p;
      BoardHeights(kb, s.Cache(), nodes, placements[i].node);
    }
  }

  /** The columns before, each with its own of the landed cells on top. */
  ghost predicate Stacked(before: Field, after: Field, cells: seq<Cell>)
  {
    && |after.columns| == |before.columns|
    && forall x :: 0 <= x < |before.columns| ==>
      after.columns[x]
        == before.columns[x].(pods := before.columns[x].pods + CellsOn(cells, before.columns[x].node.name))
  }

  /** Cell i is the Pod of placement i, on its Node, in its own colour. */
  ghost predicate Matching(pods: seq<Pod>, placements: seq<Placement>, cells: seq<Cell>)
  {
    |cells| == |placements| && forall i :: 0 <= i < |cells| ==> Matched(pods, placements[i], cells[i])
  }

  ghost predicate Matched(pods: seq<Pod>, placement: Placement, cell: Cell)
  {
    exists p :: p in pods && Matches(p, placement, cell)
  }

  predicate Matches(p: Pod, placement: Placement, cell: Cell)
  {
    p.name == placement.pod == cell.pod.name && cell.pod.node == placement.node && cell.color == AnnotationColor(p)
  }

  lemma LandingsMatch(pods: seq<Pod>, placements: seq<Placement>, calls: seq<Call>)
    requires |placements| <= |calls| && forall i :: 0 <= i < |placements| ==> HasPod(pods, placements[i].pod)
    ensures Matching(pods, placements, Landings(pods, DropRequests(placements), calls))
  {
    var requests := DropRequests(placements);
    var cells := Landings(pods, requests, calls);
    forall i | 0 <= i < |cells| ensures Matched(pods, placements[i], cells[i]) {
      assert requests[i] == Request(placements[i].pod, placements[i].node, i);
      PodNamedFacts(pods, requests[i].pod);
      assert Matches(PodNamed(pods, requests[i].pod), placements[i], cells[i]);
    }
  }

  /** The cache has caught up, and the drop passes its checks. */
  ghost predicate Accepted(s: State, schedulerName: string, kb: Option<Kbkb>, nodes: seq<Node>, limit: int,
                           placements: seq<Placement>)
  {
    && s.Valid() && UniqueNames(s.Truth()) && s.Cache() == s.Truth() && UniqueNodes(nodes)
    && placements != [] && DistinctPods(placements)
    && Acceptable(QueuedNames(s, schedulerName),
                  HeightsOf(BoardFor(kb, s.Cache(), nodes).columns), limit, placements)
  }

  /** Every call gets through, on a clock past every stamp in play that stays inside 64 bits. */
  ghost predicate GoodCalls(s: State, n: nat, calls: seq<Call>)
    requires s.Valid()
  {
    && 0 < n <= |calls| && AllThrough(calls)
    && MIN_INT64 <= calls[0].stampAt && KeysUpTo(s.Truth(), calls[0].stampAt - 1)
    && TimelyCalls(calls[0].stampAt, calls)
    && forall i :: 0 <= i < n ==> calls[i].stampAt + i <= MAX_INT64
  }

  lemma {:induction false} AcceptedGoesThrough(s: State, schedulerName: string, kb: Option<Kbkb>, nodes: seq<Node>,
                                               limit: int,
                                               placements: seq<Placement>, calls: seq<Call>)
    requires Accepted(s, schedulerName, kb, nodes, limit, placements) && GoodCalls(s, |placements|, calls)
    ensures AllBindable(s.Truth(), DropRequests(placements)) && Distinct(DropRequests(placements))
    ensures Climbing(calls[0].stampAt - 1, DropRequests(placements), calls)
    ensures DropEffect(s, QueuedNames(s, schedulerName),
                       HeightsOf(BoardFor(kb, s.Cache(), nodes).columns), limit, placements, calls)
      == (BindAll(s, DropRequests(placements), calls).0, None)
  {
    var requests := DropRequests(placements);
    ValidateIffAcceptable(QueuedNames(s, schedulerName),
                          HeightsOf(BoardFor(kb, s.Cache(), nodes).columns), limit, placements);
    AcceptedIsBindable(s, schedulerName, kb, nodes, limit, placements);
    forall i, j | 0 <= i < j < |requests| ensures requests[i].pod != requests[j].pod {
      assert placements[i].pod != placements[j].pod;
    }
    BurstGoesThrough(s, requests, calls);
    StampsClimb(calls[0].stampAt - 1, calls[0].stampAt, 0, requests, calls);
  }

  /** Any accepted drop of distinct Pods, once every call gets through, puts each Pod on top of its column, in the
      order listed. */
  lemma DropLands(s: State, schedulerName: string, kb: Option<Kbkb>, nodes: seq<Node>, limit: int,
                  placements: seq<Placement>, calls: seq<Call>) returns (t: State, cells: seq<Cell>)
    requires Accepted(s, schedulerName, kb, nodes, limit, placements) && GoodCalls(s, |placements|, calls)
    ensures t.Valid()
    ensures DropEffect(s, QueuedNames(s, schedulerName),
                       HeightsOf(BoardFor(kb, s.Cache(), nodes).columns), limit, placements, calls) == (t, None)
    ensures Matching(s.Truth(), placements, cells)
    ensures Stacked(BoardFor(kb, s.Truth(), nodes), BoardFor(kb, t.Truth(), nodes), cells)
  {
    var requests := DropRequests(placements);
    AcceptedGoesThrough(s, schedulerName, kb, nodes, limit, placements, calls);
    AllBindableHas(s.Truth(), requests);
    forall i | 0 <= i < |placements| ensures HasPod(s.Truth(), placements[i].pod) {
      assert requests[i].pod == placements[i].pod;
    }
    t := BindAll(s, requests, calls).0;
    cells := Landings(s.Truth(), requests, calls);
    LandingsMatch(s.Truth(), placements, calls);
    ColumnNodesUnique(kb, nodes);
    BurstLands(s, ColumnNodes(kb, nodes), requests, calls, calls[0].stampAt - 1);
    AllToppedColumns(BoardFor(kb, s.Truth(), nodes), cells);
  }

  // ----- The pair

  function Items(queue: seq<Pod>, ojama: bool): seq<QueueItem>
  {
    seq(|queue|, i requires 0 <= i < |queue| => QueueItem(queue[i], ojama))
  }

  /** The state the browser is sent: the columns, the queue, then the garbage. */
  function ViewOf(s: State, schedulerName: string, kb: Option<Kbkb>, nodes: seq<Node>, limit: int): View
    requires s.Valid()
  {
    View(BoardFor(kb, s.Cache(), nodes).columns,
         Items(QueueOf(s.Cache(), schedulerName, s.inflight, false), false)
         + Items(QueueOf(s.Cache(), schedulerName, s.inflight, true), true),
         limit)
  }

  lemma {:induction false} PlayableItems(queue: seq<Pod>, rest: seq<QueueItem>)
    ensures Playable(Items(queue, false) + rest) == Items(queue, false) + Playable(rest)
  {
    if queue == [] {
      assert Items(queue, false) + rest == rest;
    } else {
      PlayableItems(queue[1..], rest);
      assert (Items(queue, false) + rest)[1..] == Items(queue[1..], false) + rest;
      assert Items(queue, false) == [QueueItem(queue[0], false)] + Items(queue[1..], false);
    }
  }

  lemma {:induction false} NoPlayableGarbage(ojama: seq<Pod>)
    ensures Playable(Items(ojama, true)) == []
  {
    if ojama != [] {
      NoPlayableGarbage(ojama[1..]);
      assert Items(ojama, true)[1..] == Items(ojama[1..], true);
    }
  }

  /** The pair in play is the front of the scheduler's queue. */
  lemma PairIsQueueFront(s: State, schedulerName: string, kb: Option<Kbkb>, nodes: seq<Node>, limit: int)
    requires s.Valid()
    ensures var queue := QueueOf(s.Cache(), schedulerName, s.inflight, false);
      var pair := CurrentPair(ViewOf(s, schedulerName, kb, nodes, limit).queue);
      && |pair| == (if |queue| < 2 then |queue| else 2)
      && forall i :: 0 <= i < |pair| ==> pair[i].pod == queue[i]
  {
    PlayableItems(QueueOf(s.Cache(), schedulerName, s.inflight, false),
                  Items(QueueOf(s.Cache(), schedulerName, s.inflight, true), true));
    NoPlayableGarbage(QueueOf(s.Cache(), schedulerName, s.inflight, true));
  }

  lemma PairPlacements(v: View, p: Pair, queued: set<string>)
    requires InGrid(v, p) && |CurrentPair(v.queue)| == 2 && DistinctColumns(v.columns)
    requires CurrentPair(v.queue)[0].pod.name in queued && CurrentPair(v.queue)[1].pod.name in queued
    ensures Roomy(HeightsOf(v.columns), v.maxHeight, PlacementsOf(v, p))
      <==> Acceptable(queued, HeightsOf(v.columns), v.maxHeight, PlacementsOf(v, p))
  {
    HeightsOfColumn(v.columns, p.col);
    HeightsOfColumn(v.columns, SatColumn(p));
  }

  /** The browser's height check and the scheduler's agree on the pair in play. */
  lemma {:induction false} HeightChecksAgree(s: State, schedulerName: string, kb: Option<Kbkb>, nodes: seq<Node>,
                                             limit: int, v: View, p: Pair)
    requires s.Valid() && UniqueNames(s.Cache()) && UniqueNodes(nodes)
    requires v == ViewOf(s, schedulerName, kb, nodes, limit) && InGrid(v, p) && |CurrentPair(v.queue)| == 2
    ensures Roomy(HeightsOf(v.columns), v.maxHeight, PlacementsOf(v, p)) <==>
      Validate(QueuedNames(s, schedulerName), HeightsOf(v.columns), limit, PlacementsOf(v, p)) == None
    ensures DistinctPods(PlacementsOf(v, p))
  {
    var queue := QueueOf(s.Cache(), schedulerName, s.inflight, false);
    PairIsQueueFront(s, schedulerName, kb, nodes, limit);
    QueueFacts(s.Cache(), schedulerName, s.inflight, false);
    BoardColumnsDistinct(kb, s.Cache(), nodes);
    assert queue[0] in queue && queue[1] in queue && queue[0].name != queue[1].name;
    PairPlacements(v, p, Names(queue));
    ValidateIffAcceptable(Names(queue), HeightsOf(v.columns), limit, PlacementsOf(v, p));
  }

  /** The row each Pod of a grounded pair lands on: the displayed one when upright, its own column's top when flat. */
  function LandingRow(v: View, c: int, displayed: int, rot: nat): int
    requires 0 <= c < |v.columns|
  {
    if rot == 0 || rot == 2 then displayed else |v.columns[c].pods|
  }

  /** The named Pod, in its own colour, at that cell. */
  ghost predicate ShowsPod(f: Field, x: int, y: int, p: Pod)
  {
    f.At(x, y).Some? && f.At(x, y).value.pod.name == p.name && f.At(x, y).value.color == AnnotationColor(p)
  }

  /** The pair's two Pods are on top of their columns where the player sees them land, and nothing else moved. */
  ghost predicate PairLanded(v: View, p: Pair, after: Field)
    requires InGrid(v, p) && |CurrentPair(v.queue)| == 2
  {
    var q := CurrentPair(v.queue);
    && |after.columns| == |v.columns|
    && (forall x, y :: 0 <= x < |v.columns| && 0 <= y < |v.columns[x].pods| ==>
        after.At(x, y) == Some(v.columns[x].pods[y]))
    && ShowsPod(after, p.col, LandingRow(v, p.col, p.row, p.rot), q[0].pod)
    && ShowsPod(after, SatColumn(p), LandingRow(v, SatColumn(p), SatRow(p), p.rot), q[1].pod)
    && forall x :: 0 <= x < |v.columns| ==>
      |after.columns[x].pods|
        == |v.columns[x].pods| + (if x == p.col then 1 else 0) + (if x == SatColumn(p) then 1 else 0)
  }

  lemma StackedPair(v: View, p: Pair, pods: seq<Pod>, before: Field, after: Field, cells: seq<Cell>)
    requires Fits(v, p) && p.rot < 4 && !Fits(v, Raised(p, -1)) && |CurrentPair(v.queue)| == 2
    requires before.columns == v.columns && DistinctColumns(v.columns) && Stacked(before, after, cells)
    requires UniqueNames(pods) && CurrentPair(v.queue)[0].pod in pods && CurrentPair(v.queue)[1].pod in pods
    requires Matching(pods, PlacementsOf(v, p), cells)
    ensures PairLanded(v, p, after)
  {
    var q := CurrentPair(v.queue);
    var first, second := if p.rot == 2 then q[1].pod else q[0].pod, if p.rot == 2 then q[0].pod else q[1].pod;
    FitsDownToRest(v, p, 1);
    CellMatches(pods, PlacementsOf(v, p), cells, 0, first);
    CellMatches(pods, PlacementsOf(v, p), cells, 1, second);
    forall x | 0 <= x < |v.columns|
      ensures after.columns[x].pods == v.columns[x].pods +
        if x == p.col && x == SatColumn(p) then cells
        else if x == p.col then [cells[0]]
        else if x == SatColumn(p) then [cells[1]]
        else []
    {
      PairCells(v, p, cells, x);
    }
  }

  lemma CellMatches(pods: seq<Pod>, placements: seq<Placement>, cells: seq<Cell>, i: nat, p: Pod)
    requires UniqueNames(pods) && Matching(pods, placements, cells) && i < |cells| && p in pods
    requires p.name == placements[i].pod
    ensures cells[i].pod.name == p.name && cells[i].color == AnnotationColor(p)
    ensures cells[i].pod.node == placements[i].node
  {
    var q :| q in pods && Matches(q, placements[i], cells[i]);
    NameDeterminesPod(pods, p, q);
  }

  /** A grounded pair that passes the browser's check, once locked, is accepted, and lands: upright exactly on the
      displayed cells, flat each on top of its own column. */
  lemma LockedPairLands(s: State, schedulerName: string, kb: Option<Kbkb>, nodes: seq<Node>, limit: int,
                        v: View, p: Pair, calls: seq<Call>) returns (t: State)
    requires s.Valid() && UniqueNames(s.Truth()) && s.Cache() == s.Truth() && UniqueNodes(nodes)
    requires v == ViewOf(s, schedulerName, kb, nodes, limit) && |CurrentPair(v.queue)| == 2
    requires Fits(v, p) && p.rot < 4 && !Fits(v, Raised(p, -1))
    requires Roomy(HeightsOf(v.columns), v.maxHeight, PlacementsOf(v, p)) && GoodCalls(s, 2, calls)
    ensures t.Valid()
    ensures DropEffect(s, QueuedNames(s, schedulerName), HeightsOf(v.columns), limit,
                       PlacementsOf(v, p), calls) == (t, None)
    ensures PairLanded(v, p, BoardFor(kb, t.Truth(), nodes))
  {
    HeightChecksAgree(s, schedulerName, kb, nodes, limit, v, p);
    ValidateIffAcceptable(QueuedNames(s, schedulerName), HeightsOf(v.columns), limit, PlacementsOf(v, p));
    var cells;
    t, cells := DropLands(s, schedulerName, kb, nodes, limit, PlacementsOf(v, p), calls);
    PairIsQueueFront(s, schedulerName, kb, nodes, limit);
    QueueFacts(s.Cache(), schedulerName, s.inflight, false);
    BoardColumnsDistinct(kb, s.Cache(), nodes);
    StackedPair(v, p, s.Truth(), BoardFor(kb, s.Truth(), nodes), BoardFor(kb, t.Truth(), nodes), cells);
  }

  lemma {:induction false} TwoCells(cells: seq<Cell>, node: string)
    requires |cells| == 2
    ensures CellsOn(cells, node)
      == (if cells[0].pod.node == node then [cells[0]] else []) + (if cells[1].pod.node == node then [cells[1]] else [])
  {
    assert CellsOn(cells[1..], node)
      == (if cells[1].pod.node == node then [cells[1]] else []) + CellsOn(cells[2..], node);
  }

  /** Which of the two Pods each column gets. */
  lemma {:induction false} PairCells(v: View, p: Pair, cells: seq<Cell>, x: nat)
    requires InGrid(v, p) && DistinctColumns(v.columns) && |CurrentPair(v.queue)| == 2 && x < |v.columns|
    requires |cells| == 2 && forall i :: 0 <= i < 2 ==> cells[i].pod.node == PlacementsOf(v, p)[i].node
    ensures CellsOn(cells, v.columns[x].node.name) ==
      if x == p.col && x == SatColumn(p) then cells
      else if x == p.col then [cells[0]]
      else if x == SatColumn(p) then [cells[1]]
      else []
  {
    TwoCells(cells, v.columns[x].node.name);
    assert cells == [cells[0]] + [cells[1]];
    assert x != p.col ==> v.columns[x].node.name != v.columns[p.col].node.name;
    assert x != SatColumn(p) ==> v.columns[x].node.name != v.columns[SatColumn(p)].node.name;
  }
}
