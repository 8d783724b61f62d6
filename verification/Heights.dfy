/** How tall the columns get: what bursts add to them, and the limit over whole runs. */
module Heights {
  import opened Options
  import opened Orders
  import opened Kube
  import opened Fields
  import opened FloodFill
  import opened Controller
  import opened Scheduler
  import opened Inflight
  import opened Drops

  ghost function NamesOn(pods: seq<Pod>, node: string): set<string>
  {
    set p | p in pods && p.node == node :: p.name
  }

  ghost predicate Within(pods: seq<Pod>, limit: int)
  {
    forall node :: node != "" ==> |NamesOn(pods, node)| <= limit
  }

  /** The Pods of a Node that are not garbage. */
  ghost function PlayedOn(pods: seq<Pod>, node: string): set<string>
  {
    NamesOn(pods, node) - GarbageNames(pods)
  }

  /** Garbage aside, no column is above the limit. */
  ghost predicate PlayedWithin(pods: seq<Pod>, limit: int)
  {
    forall node :: node != "" ==> |PlayedOn(pods, node)| <= limit
  }

  // ----- Columns are as tall as their Nodes have Pods

  ghost function CellNames(cells: seq<Cell>): set<string>
  {
    set c | c in cells :: c.pod.name
  }

  lemma {:induction false} CellNamesCount(cells: seq<Cell>)
    requires forall i, j :: 0 <= i < j < |cells| ==> cells[i].pod.name != cells[j].pod.name
    ensures |CellNames(cells)| == |cells|
  {
    if cells != [] {
      CellNamesCount(cells[1..]);
      CellNamesTail(cells);
      forall c | c in cells[1..] ensures c.pod.name != cells[0].pod.name {
        var i :| 0 <= i < |cells[1..]| && cells[1..][i] == c;
        assert cells[0].pod.name != cells[i + 1].pod.name;
      }
    }
  }

  lemma CellNamesTail(cells: seq<Cell>)
    requires cells != []
    ensures CellNames(cells) == CellNames(cells[1..]) + {cells[0].pod.name}
  {
    assert cells == [cells[0]] + cells[1..];
    forall n ensures n in CellNames(cells) <==> n in CellNames(cells[1..]) || n == cells[0].pod.name {
    }
  }

  /** A column is as tall as its Node has Pods. */
  lemma {:induction false} ColumnHeight(col: Column, pods: seq<Pod>)
    requires UniqueNames(pods) && IsColumn(col, Scheduled(pods), AnnotationColor) && col.node.name != ""
    ensures |col.pods| == |NamesOn(pods, col.node.name)|
  {
    var names := CellNames(col.pods);
    forall i, j | 0 <= i < j < |col.pods| ensures col.pods[i].pod.name != col.pods[j].pod.name {
      assert col.pods[i] in col.pods && col.pods[j] in col.pods;
      if col.pods[i].pod.name == col.pods[j].pod.name {
        NameDeterminesPod(pods, col.pods[i].pod, col.pods[j].pod);
        LessIrreflexive(CellKey(col.pods[i]));
      }
    }
    CellNamesCount(col.pods);
    forall name ensures name in names <==> name in NamesOn(pods, col.node.name) {
      if name in NamesOn(pods, col.node.name) {
        var p :| p in pods && p.node == col.node.name && p.name == name;
        assert Cell(p, AnnotationColor(p)) in col.pods;
      }
      if name in names {
        var c :| c in col.pods && c.pod.name == name;
        assert c.pod in pods;
      }
    }
    assert names == NamesOn(pods, col.node.name);
  }

  lemma {:induction false} HeightsOfKey(columns: seq<Column>, node: string)
    requires node in HeightsOf(columns)
    ensures exists x ::
      0 <= x < |columns| && columns[x].node.name == node && HeightsOf(columns)[node] == |columns[x].pods|
  {
    var init, last := columns[..|columns| - 1], columns[|columns| - 1];
    if node == last.node.name {
      assert columns[|columns| - 1].node.name == node;
    } else {
      HeightsOfKey(init, node);
      var x :| 0 <= x < |init| && init[x].node.name == node && HeightsOf(init)[node] == |init[x].pods|;
      assert columns[x].node.name == node;
    }
  }

  /** The heights a drop works with are the numbers of Pods on the Nodes. */
  lemma BoardHeights(kb: Option<Kbkb>, pods: seq<Pod>, nodes: seq<Node>, node: string)
    requires UniqueNames(pods) && UniqueNodes(nodes)
    requires node in HeightsOf(BoardFor(kb, pods, nodes).columns)
    ensures node != "" && HeightsOf(BoardFor(kb, pods, nodes).columns)[node] == |NamesOn(pods, node)|
  {
    var f := BoardFor(kb, pods, nodes);
    var columns := ColumnNodes(kb, nodes);
    BoardForIsField(kb, pods, nodes);
    HeightsOfKey(f.columns, node);
    var x :| 0 <= x < |f.columns| && f.columns[x].node.name == node
      && HeightsOf(f.columns)[node] == |f.columns[x].pods|;
    assert NodesOf(f)[x] in columns;
    assert IsColumn(f.columns[x], Scheduled(pods), AnnotationColor);
    ColumnHeight(f.columns[x], pods);
  }

  // ----- What a burst adds

  function Asked(requests: seq<Request>): seq<Placement>
  {
    seq(|requests|, i requires 0 <= i < |requests| => Placement(requests[i].pod, requests[i].node))
  }

  ghost function AskedOn(requests: seq<Request>, node: string): set<string>
  {
    set r | r in requests && r.node == node :: r.pod
  }

  lemma {:induction false} AskedTail(requests: seq<Request>, node: string)
    requires requests != []
    ensures AskedOn(requests, node)
      == AskedOn(requests[1..], node) + (if requests[0].node == node then {requests[0].pod} else {})
    ensures CountOn(Asked(requests), node)
      == CountOn(Asked(requests[1..]), node) + (if requests[0].node == node then 1 else 0)
  {
    assert requests == [requests[0]] + requests[1..];
    assert Asked(requests)[1..] == Asked(requests[1..]);
  }

  lemma {:induction false} AskedCount(requests: seq<Request>, node: string)
    ensures |AskedOn(requests, node)| <= CountOn(Asked(requests), node)
  {
    if requests != [] {
      AskedTail(requests, node);
      AskedCount(requests[1..], node);
    }
  }

  lemma DropAsks(placements: seq<Placement>)
    ensures Asked(DropRequests(placements)) == placements
  {
  }

  lemma StampedNamesOn(pods: seq<Pod>, name: string, order: int, node: string)
    ensures NamesOn(Stamped(pods, name, order), node) == NamesOn(pods, node)
  {
    var r := Stamped(pods, name, order);
    forall n ensures n in NamesOn(r, node) <==> n in NamesOn(pods, node) {
      if n in NamesOn(pods, node) {
        var p :| p in pods && p.node == node && p.name == n;
        var i :| 0 <= i < |pods| && pods[i] == p;
        assert r[i] in r;
      }
      if n in NamesOn(r, node) {
        var p :| p in r && p.node == node && p.name == n;
        var i :| 0 <= i < |r| && r[i] == p;
        assert pods[i] in pods;
      }
    }
  }

  lemma BoundNamesOn(pods: seq<Pod>, name: string, to: string, node: string)
    requires node != ""
    ensures NamesOn(Bound(pods, name, to), node) <= NamesOn(pods, node) + (if to == node then {name} else {})
  {
    var r := Bound(pods, name, to);
    forall n | n in NamesOn(r, node) ensures n in NamesOn(pods, node) || (to == node && n == name) {
      var p :| p in r && p.node == node && p.name == n;
      var i :| 0 <= i < |r| && r[i] == p;
      assert pods[i] in pods;
    }
  }

  /** Names are unique, and a Pod that is garbage once is garbage for good. */
  ghost predicate Lawful(h: seq<Revision>)
  {
    && (forall i :: 0 <= i < |h| ==> UniqueNames(h[i].pods))
    && forall i, j :: 0 <= i <= j < |h| ==> GarbageNames(h[i].pods) * Names(h[j].pods) <= GarbageNames(h[j].pods)
  }

  lemma ExtendLawful(h: seq<Revision>, rev: Revision)
    requires Lawful(h) && h != [] && SameLabels(h[|h| - 1].pods, rev.pods)
    ensures Lawful(h + [rev])
  {
    SameNames(h[|h| - 1].pods, rev.pods);
  }

  lemma BindOneLawful(s: State, r: Request, c: Call)
    requires s.Valid()
    ensures Lawful(s.history) ==> Lawful(BindOne(s, r, c).0.history)
    ensures Names(BindOne(s, r, c).0.Truth()) == Names(s.Truth())
    ensures GarbageNames(BindOne(s, r, c).0.Truth()) == GarbageNames(s.Truth())
  {
    if c.patchOk && HasPod(s.Truth(), r.pod) {
      var mid := AfterPatch(s, r, c);
      if Lawful(s.history) {
        ExtendLawful(s.history, Revision(c.stampAt, mid.Truth()));
      }
      SameNames(s.Truth(), mid.Truth());
      if c.bindOk && CanBind(mid.Truth(), r.pod) {
        var t := AfterBind(mid, r, c);
        if Lawful(s.history) {
          ExtendLawful(mid.history, Revision(c.boundAt, t.Truth()));
        }
        SameNames(mid.Truth(), t.Truth());
      }
    }
  }

  lemma BindOneNamesWithin(s: State, r: Request, c: Call, node: string)
    requires s.Valid() && node != ""
    ensures NamesOn(BindOne(s, r, c).0.Truth(), node)
      <= NamesOn(s.Truth(), node) + (if r.node == node then {r.pod} else {})
  {
    StampedNamesOn(s.Truth(), r.pod, OrderOf(r, c), node);
    BoundNamesOn(AfterPatch(s, r, c).Truth(), r.pod, r.node, node);
  }

  /** A burst adds to a Node only Pods asked onto it, wherever it stops, and makes no garbage of any Pod. */
  ghost predicate Added(s: State, t: State, requests: seq<Request>)
    requires s.Valid() && t.Valid()
  {
    && (Lawful(s.history) ==> Lawful(t.history))
    && Names(t.Truth()) == Names(s.Truth()) && GarbageNames(t.Truth()) == GarbageNames(s.Truth())
    && forall node :: node != "" ==> NamesOn(t.Truth(), node) <= NamesOn(s.Truth(), node) + AskedOn(requests, node)
  }

  lemma {:induction false} BurstAdds(s: State, requests: seq<Request>, calls: seq<Call>)
    requires s.Valid()
    ensures Added(s, BindAll(s, requests, calls).0, requests)
    decreases |requests|
  {
    if requests != [] && calls != [] {
      var (t, ok) := BindOne(s, requests[0], calls[0]);
      BindOneLawful(s, requests[0], calls[0]);
      if ok {
        BurstAdds(t, requests[1..], calls[1..]);
      }
      forall node | node != ""
        ensures NamesOn(BindAll(s, requests, calls).0.Truth(), node)
          <= NamesOn(s.Truth(), node) + AskedOn(requests, node)
      {
        BindOneNamesWithin(s, requests[0], calls[0], node);
        AskedTail(requests, node);
      }
    }
  }

  lemma {:induction false} BurstCount(s: State, t: State, requests: seq<Request>, node: string)
    requires s.Valid() && t.Valid() && Added(s, t, requests) && node != ""
    ensures |NamesOn(t.Truth(), node)| <= |NamesOn(s.Truth(), node)| + CountOn(Asked(requests), node)
    ensures |PlayedOn(t.Truth(), node)| <= |PlayedOn(s.Truth(), node)| + CountOn(Asked(requests), node)
  {
    AskedCount(requests, node);
    SubsetCard(NamesOn(t.Truth(), node), NamesOn(s.Truth(), node) + AskedOn(requests, node));
    SubsetCard(PlayedOn(t.Truth(), node), PlayedOn(s.Truth(), node) + AskedOn(requests, node));
  }

  /** What a bind adds to the Nodes, exactly. */
  lemma BoundNamesOnExact(pods: seq<Pod>, name: string, to: string, node: string)
    requires UniqueNames(pods) && CanBind(pods, name) && node != ""
    ensures name !in NamesOn(pods, node)
    ensures NamesOn(Bound(pods, name, to), node) == NamesOn(pods, node) + (if to == node then {name} else {})
  {
    var r := Bound(pods, name, to);
    BoundNamesOn(pods, name, to, node);
    var k :| 0 <= k < |pods| && pods[k].name == name && Bindable(pods[k]);
    forall n | n in NamesOn(pods, node) ensures n in NamesOn(r, node) && n != name {
      var p :| p in pods && p.node == node && p.name == n;
      var i :| 0 <= i < |pods| && pods[i] == p;
      assert i != k && r[i] == p;
    }
    assert r[k] in r;
  }

  lemma BindOneNamesOn(s: State, r: Request, c: Call, node: string)
    requires s.Valid() && UniqueNames(s.Truth()) && c.patchOk && c.bindOk
    requires r.node != "" && CanBind(s.Truth(), r.pod) && node != ""
    ensures BindOne(s, r, c).1
    ensures |NamesOn(BindOne(s, r, c).0.Truth(), node)|
      == |NamesOn(s.Truth(), node)| + (if r.node == node then 1 else 0)
  {
    BindOneGoesThrough(s, r, c);
    StampedFacts(s.Truth(), r.pod, OrderOf(r, c));
    StampedNamesOn(s.Truth(), r.pod, OrderOf(r, c), node);
    BoundNamesOnExact(AfterPatch(s, r, c).Truth(), r.pod, r.node, node);
  }

  /** A burst that completes raises each column by exactly what was put on it, whatever the cache showed. */
  lemma {:induction false} CompleteBurstHeights(s: State, requests: seq<Request>, calls: seq<Call>, node: string)
    requires s.Valid() && UniqueNames(s.Truth()) && node != "" && |requests| <= |calls|
    requires Distinct(requests) && AllBindable(s.Truth(), requests) && AllThrough(calls)
    ensures BindAll(s, requests, calls).1 == None
    ensures |NamesOn(BindAll(s, requests, calls).0.Truth(), node)|
      == |NamesOn(s.Truth(), node)| + CountOn(Asked(requests), node)
    decreases |requests|
  {
    if requests != [] {
      var t := BindOne(s, requests[0], calls[0]).0;
      assert CanBind(s.Truth(), requests[0].pod) && requests[0].node != "";
      BindOneGoesThrough(s, requests[0], calls[0]);
      BindOneNamesOn(s, requests[0], calls[0], node);
      AskedTail(requests, node);
      forall i | 0 <= i < |requests[1..]|
        ensures CanBind(t.Truth(), requests[1..][i].pod) && requests[1..][i].node != ""
      {
        assert requests[1..][i] == requests[i + 1] && requests[0].pod != requests[i + 1].pod;
      }
      CompleteBurstHeights(t, requests[1..], calls[1..], node);
    }
  }

  /** Every Node that gets Pods has that much room under the limit, counting all the Pods really there. */
  ghost predicate RoomFor(s: State, requests: seq<Request>, limit: int)
    requires s.Valid()
  {
    forall node :: node != "" && CountOn(Asked(requests), node) > 0 ==>
      |NamesOn(s.Truth(), node)| + CountOn(Asked(requests), node) <= limit
  }

  /** A burst that completes, be it a drop or a shower, keeps every column within the limit if and only if the Pods
      really there, which a drop's cache may not show and a shower does not ask about, leave that much room. */
  lemma {:induction false} BurstWithinIff(s: State, requests: seq<Request>, calls: seq<Call>, limit: int)
    requires s.Valid() && UniqueNames(s.Truth()) && Within(s.Truth(), limit) && |requests| <= |calls|
    requires Distinct(requests) && AllBindable(s.Truth(), requests) && AllThrough(calls)
    ensures Within(BindAll(s, requests, calls).0.Truth(), limit) <==> RoomFor(s, requests, limit)
  {
    forall node | node != ""
      ensures |NamesOn(BindAll(s, requests, calls).0.Truth(), node)|
        == |NamesOn(s.Truth(), node)| + CountOn(Asked(requests), node)
    {
      CompleteBurstHeights(s, requests, calls, node);
    }
  }

  /** Garbage does not ask whether a column is full: a shower keeps the limit if and only if the drawn Nodes have the
      room. */
  lemma {:induction false} ShowerWithinIff(s: State, schedulerName: string, kb: Option<Kbkb>, nodes: seq<Node>,
                                           maxHeight: int,
                                           draw: Draws, calls: seq<Call>)
    requires s.Valid() && s.Cache() == s.Truth() && UniqueNames(s.Truth()) && UniqueNodes(nodes)
    requires Within(s.Truth(), MaxHeightFor(kb, maxHeight)) && AllThrough(calls)
    requires |ShowerRequests(s, schedulerName, kb, nodes, maxHeight, draw)| <= |calls|
    ensures var requests := ShowerRequests(s, schedulerName, kb, nodes, maxHeight, draw);
      && BindAll(s, requests, calls).1 == None
      && (Within(BindAll(s, requests, calls).0.Truth(), MaxHeightFor(kb, maxHeight))
          <==> RoomFor(s, requests, MaxHeightFor(kb, maxHeight)))
  {
    var requests := ShowerRequests(s, schedulerName, kb, nodes, maxHeight, draw);
    ShowerBindable(s, schedulerName, kb, nodes, maxHeight, draw);
    CompleteBurstHeights(s, requests, calls, "n");
    BurstWithinIff(s, requests, calls, MaxHeightFor(kb, maxHeight));
  }

  lemma ShowerBindable(s: State, schedulerName: string, kb: Option<Kbkb>, nodes: seq<Node>, maxHeight: int, draw: Draws)
    requires s.Valid() && s.Cache() == s.Truth() && UniqueNames(s.Truth()) && UniqueNodes(nodes)
    ensures var requests := ShowerRequests(s, schedulerName, kb, nodes, maxHeight, draw);
      Distinct(requests) && AllBindable(s.Truth(), requests)
  {
    var requests := ShowerRequests(s, schedulerName, kb, nodes, maxHeight, draw);
    var ojama := QueueOf(s.Cache(), schedulerName, s.inflight, true);
    var columns := BoardFor(kb, s.Cache(), nodes).columns;
    QueueFacts(s.Cache(), schedulerName, s.inflight, true);
    BoardColumnsNamed(kb, s.Cache(), nodes);
    CandidatesNamed(columns, MaxHeightFor(kb, maxHeight), true);
    forall i | 0 <= i < |requests| ensures CanBind(s.Truth(), requests[i].pod) && requests[i].node != "" {
      assert ojama[i] in ojama;
      var k :| 0 <= k < |s.Truth()| && s.Truth()[k] == ojama[i];
      assert s.Truth()[k].name == requests[i].pod && Bindable(s.Truth()[k]);
    }
  }

  /** However far the cache lags, a drop overshoots by no more than the Pods the cache has not shown yet. */
  lemma {:induction false} OvershootBounded(s: State, schedulerName: string, kb: Option<Kbkb>, nodes: seq<Node>,
                                            limit: int,
                                            placements: seq<Placement>, calls: seq<Call>, node: string)
    requires s.Valid() && UniqueNames(s.Cache()) && UniqueNodes(nodes) && node != "" && CountOn(placements, node) > 0
    requires Acceptable(QueuedNames(s, schedulerName),
                        HeightsOf(BoardFor(kb, s.Cache(), nodes).columns), limit, placements)
    ensures |NamesOn(BindAll(s, DropRequests(placements), calls).0.Truth(), node)|
      <= limit + |NamesOn(s.Truth(), node) - NamesOn(s.Cache(), node)|
  {
    var shown, truly := NamesOn(s.Cache(), node), NamesOn(s.Truth(), node);
    BurstAdds(s, DropRequests(placements), calls);
    BurstCount(s, BindAll(s, DropRequests(placements), calls).0, DropRequests(placements), node);
    DropAsks(placements);
    AcceptedHasRoom(s, schedulerName, kb, nodes, limit, placements, node);
    SubsetCard(truly, shown + (truly - shown));
  }

  lemma {:induction false} CountedIsPlaced(placements: seq<Placement>, node: string)
    requires CountOn(placements, node) > 0
    ensures exists i :: 0 <= i < |placements| && placements[i].node == node
  {
    if placements[0].node != node {
      CountedIsPlaced(placements[1..], node);
      var i :| 0 <= i < |placements[1..]| && placements[1..][i].node == node;
      assert placements[i + 1].node == node;
    }
  }

  /** An accepted drop: on each Node it uses, the Pods the cache shows leave room for those it adds. */
  lemma {:induction false} AcceptedHasRoom(s: State, schedulerName: string, kb: Option<Kbkb>, nodes: seq<Node>,
                                           limit: int,
                                           placements: seq<Placement>, node: string)
    requires s.Valid() && UniqueNames(s.Cache()) && UniqueNodes(nodes) && node != "" && CountOn(placements, node) > 0
    requires Acceptable(QueuedNames(s, schedulerName), HeightsOf(BoardFor(kb, s.Cache(), nodes).columns),
                        limit, placements)
    ensures |NamesOn(s.Cache(), node)| + CountOn(placements, node) <= limit
  {
    CountedIsPlaced(placements, node);
    BoardHeights(kb, s.Cache(), nodes, node);
  }

  // ----- Whole runs of drops and showers

  /** A drop, by hand or planned by auto play; a shower of garbage; or anything else but a bind. */
  datatype Event =
    | Dropping(kb: Option<Kbkb>, nodes: seq<Node>, placements: seq<Placement>, calls: seq<Call>)
    | Raining(kb: Option<Kbkb>, nodes: seq<Node>, draw: Draws, calls: seq<Call>)
    | Other(move: Move)

  /** The cache shows every Pod on its Node, garbage aside. */
  ghost predicate PlayedShown(s: State)
    requires s.Valid()
  {
    forall node :: node != "" ==> PlayedOn(s.Truth(), node) <= NamesOn(s.Cache(), node)
  }

  /** The cache shows every Pod on its Node. */
  ghost predicate AllShown(s: State)
    requires s.Valid()
  {
    forall node :: node != "" ==> NamesOn(s.Truth(), node) <= NamesOn(s.Cache(), node)
  }

  /** Drops happen under one limit, be it the resource's own or the scheduler's, and see every Pod but garbage;
      showers may come at any time; nothing else binds. */
  ghost predicate Allowed(s: State, e: Event, maxHeight: int, limit: int)
    requires s.Valid()
  {
    match e
    case Dropping(kb, nodes, _, _) => UniqueNodes(nodes) && LimitIs(kb, maxHeight, limit) && PlayedShown(s)
    case Raining(_, nodes, _, _) => UniqueNodes(nodes)
    case Other(m) => Quiet(s, m)
  }

  /** Nothing goes onto a Node. */
  ghost predicate Quiet(s: State, m: Move)
    requires s.Valid()
  {
    match m
    case Prune(_) => true
    case Deliver(seen) => seen < |s.history|
    case Change(rev) =>
      Lawful(s.history + [rev]) && forall node :: node != "" ==> NamesOn(rev.pods, node) <= NamesOn(s.Truth(), node)
  }

  ghost function Happen(s: State, e: Event, schedulerName: string, maxHeight: int): (t: State)
    requires s.Valid() && (e.Other? && e.move.Deliver? ==> e.move.seen < |s.history|)
  {
    match e
    case Dropping(kb, nodes, placements, calls) =>
      DropResult(s, schedulerName, maxHeight, kb, nodes, placements, calls).0
    case Raining(kb, nodes, draw, calls) =>
      BindAll(s, ShowerRequests(s, schedulerName, kb, nodes, maxHeight, draw), calls).0
    case Other(m) => Step(s, m)
  }

  ghost predicate IsGame(states: seq<State>, events: seq<Event>, schedulerName: string, maxHeight: int, limit: int)
  {
    && |states| == |events| + 1 && states[0].Valid() && Lawful(states[0].history)
    && forall i :: 0 <= i < |events| ==>
      states[i].Valid() && Allowed(states[i], events[i], maxHeight, limit)
      && states[i + 1] == Happen(states[i], events[i], schedulerName, maxHeight)
  }

  /** A drop whose cache shows all Pods, garbage aside, keeps all Pods, garbage aside, within the limit, even if it
      stops half way; one whose cache shows garbage too keeps every column within it. */
  lemma DropKeepsWithin(s: State, schedulerName: string, kb: Option<Kbkb>, nodes: seq<Node>, limit: int,
                        placements: seq<Placement>, calls: seq<Call>) returns (t: State)
    requires s.Valid() && Lawful(s.history) && UniqueNodes(nodes)
    ensures var heights := HeightsOf(BoardFor(kb, s.Cache(), nodes).columns);
      t == DropEffect(s, QueuedNames(s, schedulerName), heights, limit, placements, calls).0
    ensures t.Valid() && Lawful(t.history)
    ensures PlayedShown(s) && PlayedWithin(s.Truth(), limit) ==> PlayedWithin(t.Truth(), limit)
    ensures AllShown(s) && Within(s.Truth(), limit) ==> Within(t.Truth(), limit)
  {
    var queued := QueuedNames(s, schedulerName);
    var heights := HeightsOf(BoardFor(kb, s.Cache(), nodes).columns);
    t := DropEffect(s, queued, heights, limit, placements, calls).0;
    ValidateIffAcceptable(queued, heights, limit, placements);
    if placements != [] && Acceptable(queued, heights, limit, placements) {
      BurstAdds(s, DropRequests(placements), calls);
      DropAsks(placements);
      forall node | node != ""
        ensures PlayedShown(s) && PlayedWithin(s.Truth(), limit) ==> |PlayedOn(t.Truth(), node)| <= limit
        ensures AllShown(s) && Within(s.Truth(), limit) ==> |NamesOn(t.Truth(), node)| <= limit
      {
        BurstCount(s, t, DropRequests(placements), node);
        if CountOn(placements, node) > 0 {
          AcceptedHasRoom(s, schedulerName, kb, nodes, limit, placements, node);
          if PlayedShown(s) {
            SubsetCard(PlayedOn(s.Truth(), node), NamesOn(s.Cache(), node));
          }
          if AllShown(s) {
            SubsetCard(NamesOn(s.Truth(), node), NamesOn(s.Cache(), node));
          }
        }
      }
    }
  }

  /** A shower adds nothing but garbage to any Node, on however old a cache. */
  lemma ShowerAddsGarbage(s: State, schedulerName: string, kb: Option<Kbkb>, nodes: seq<Node>, maxHeight: int,
                          draw: Draws, calls: seq<Call>) returns (t: State)
    requires s.Valid() && Lawful(s.history)
    ensures t == BindAll(s, ShowerRequests(s, schedulerName, kb, nodes, maxHeight, draw), calls).0
    ensures t.Valid() && Lawful(t.history)
    ensures forall node :: node != "" ==> PlayedOn(t.Truth(), node) <= PlayedOn(s.Truth(), node)
  {
    var requests := ShowerRequests(s, schedulerName, kb, nodes, maxHeight, draw);
    t := BindAll(s, requests, calls).0;
    BurstAdds(s, requests, calls);
    QueueFacts(s.Cache(), schedulerName, s.inflight, true);
    forall node | node != "" ensures PlayedOn(t.Truth(), node) <= PlayedOn(s.Truth(), node) {
      forall n | n in NamesOn(t.Truth(), node) ensures n in NamesOn(s.Truth(), node) || n in GarbageNames(s.Truth()) {
        if n !in NamesOn(s.Truth(), node) {
          assert n in AskedOn(requests, node) && n in Names(t.Truth());
          assert n in GarbageNames(s.history[s.seen].pods);
        }
      }
    }
  }

  lemma HappenKeepsPlayed(s: State, e: Event, schedulerName: string, maxHeight: int, limit: int) returns (t: State)
    requires s.Valid() && Lawful(s.history) && Allowed(s, e, maxHeight, limit) && PlayedWithin(s.Truth(), limit)
    ensures t == Happen(s, e, schedulerName, maxHeight)
    ensures t.Valid() && Lawful(t.history) && PlayedWithin(t.Truth(), limit)
  {
    match e
    case Dropping(kb, nodes, placements, calls) =>
      LimitIsFor(kb, maxHeight, limit);
      t := DropKeepsWithin(s, schedulerName, kb, nodes, limit, placements, calls);
    case Raining(kb, nodes, draw, calls) =>
      t := ShowerAddsGarbage(s, schedulerName, kb, nodes, maxHeight, draw, calls);
      FewerWithin(s.Truth(), t.Truth(), limit);
    case Other(m) =>
      t := OtherKeeps(s, m);
      if m.Change? {
        ChangeKeeps(s, m.rev, limit);
      }
  }

  lemma OtherKeeps(s: State, m: Move) returns (t: State)
    requires s.Valid() && Lawful(s.history) && Quiet(s, m)
    ensures t == Step(s, m) && t.Valid() && Lawful(t.history)
    ensures t.Truth() == if m.Change? then m.rev.pods else s.Truth()
  {
    match m
    case Prune(clock) => t := s.(inflight := Pruned(s.Cache(), s.inflight, clock));
    case Deliver(seen) => t := s.(seen := seen);
    case Change(rev) =>
      t := s.(history := s.history + [rev]);
  }

  ghost predicate BothKept(a: seq<Pod>, b: seq<Pod>, limit: int)
  {
    (PlayedWithin(a, limit) ==> PlayedWithin(b, limit)) && (Within(a, limit) ==> Within(b, limit))
  }

  lemma ChangeKeeps(s: State, rev: Revision, limit: int)
    requires s.Valid() && Lawful(s.history + [rev])
    requires forall node :: node != "" ==> NamesOn(rev.pods, node) <= NamesOn(s.Truth(), node)
    ensures BothKept(s.Truth(), rev.pods, limit)
  {
    forall node | node != ""
      ensures PlayedOn(rev.pods, node) <= PlayedOn(s.Truth(), node)
      ensures |NamesOn(rev.pods, node)| <= |NamesOn(s.Truth(), node)|
    {
      ChangeAddsNone(s, rev, node);
      SubsetCard(NamesOn(rev.pods, node), NamesOn(s.Truth(), node));
    }
    if PlayedWithin(s.Truth(), limit) {
      FewerWithin(s.Truth(), rev.pods, limit);
    }
  }

  lemma FewerWithin(a: seq<Pod>, b: seq<Pod>, limit: int)
    requires PlayedWithin(a, limit) && forall node :: node != "" ==> PlayedOn(b, node) <= PlayedOn(a, node)
    ensures PlayedWithin(b, limit)
  {
    forall node | node != "" ensures |PlayedOn(b, node)| <= limit {
      SubsetCard(PlayedOn(b, node), PlayedOn(a, node));
    }
  }

  lemma ChangeAddsNone(s: State, rev: Revision, node: string)
    requires s.Valid() && Lawful(s.history + [rev]) && NamesOn(rev.pods, node) <= NamesOn(s.Truth(), node)
    ensures PlayedOn(rev.pods, node) <= PlayedOn(s.Truth(), node)
  {
    var h := s.history + [rev];
    assert h[|h| - 2] == s.history[|s.history| - 1] && h[|h| - 1] == rev;
    assert GarbageNames(s.Truth()) * Names(rev.pods) <= GarbageNames(rev.pods);
    assert NamesOn(rev.pods, node) <= Names(rev.pods);
  }

  /** No column is above the limit by more than the garbage on it. */
  ghost predicate WithinPlusGarbage(pods: seq<Pod>, limit: int)
  {
    forall node :: node != "" ==> |NamesOn(pods, node)| <= limit + |NamesOn(pods, node) * GarbageNames(pods)|
  }

  lemma PlayedPlusGarbage(pods: seq<Pod>, limit: int)
    requires PlayedWithin(pods, limit)
    ensures WithinPlusGarbage(pods, limit)
  {
    forall node | node != "" ensures |NamesOn(pods, node)| <= limit + |NamesOn(pods, node) * GarbageNames(pods)| {
      var on, garbage := NamesOn(pods, node), GarbageNames(pods);
      assert on == PlayedOn(pods, node) + on * garbage;
      assert |PlayedOn(pods, node)| <= limit;
    }
  }

  /** In every run of drops, by hand or by auto play, and showers, each column holds at most `limit` Pods that are not
      garbage: it overshoots by no more than the garbage on it. */
  lemma {:induction false} HeightBound(states: seq<State>, events: seq<Event>, schedulerName: string, maxHeight: int,
                                       limit: int, n: nat)
    requires IsGame(states, events, schedulerName, maxHeight, limit) && PlayedWithin(states[0].Truth(), limit)
    requires n < |states|
    ensures states[n].Valid() && Lawful(states[n].history)
    ensures PlayedWithin(states[n].Truth(), limit) && WithinPlusGarbage(states[n].Truth(), limit)
  {
    if n > 0 {
      HeightBound(states, events, schedulerName, maxHeight, limit, n - 1);
      var t := HappenKeepsPlayed(states[n - 1], events[n - 1], schedulerName, maxHeight, limit);
    }
    PlayedPlusGarbage(states[n].Truth(), limit);
  }

  /** A drop sees garbage too, and a shower finds room on the Nodes it draws. */
  ghost predicate Sheltered(s: State, e: Event, schedulerName: string, maxHeight: int, limit: int)
    requires s.Valid()
  {
    match e
    case Dropping(_, _, _, _) => AllShown(s)
    case Raining(kb, nodes, draw, _) => RoomFor(s, ShowerRequests(s, schedulerName, kb, nodes, maxHeight, draw), limit)
    case Other(_) => true
  }

  lemma HappenKeepsWithin(s: State, e: Event, schedulerName: string, maxHeight: int, limit: int) returns (t: State)
    requires s.Valid() && Lawful(s.history) && Allowed(s, e, maxHeight, limit) && Within(s.Truth(), limit)
    requires Sheltered(s, e, schedulerName, maxHeight, limit)
    ensures t == Happen(s, e, schedulerName, maxHeight)
    ensures t.Valid() && Lawful(t.history) && Within(t.Truth(), limit)
  {
    match e
    case Dropping(kb, nodes, placements, calls) =>
      LimitIsFor(kb, maxHeight, limit);
      t := DropKeepsWithin(s, schedulerName, kb, nodes, limit, placements, calls);
    case Raining(kb, nodes, draw, calls) =>
      var requests := ShowerRequests(s, schedulerName, kb, nodes, maxHeight, draw);
      t := ShowerAddsGarbage(s, schedulerName, kb, nodes, maxHeight, draw, calls);
      BurstAdds(s, requests, calls);
      forall node | node != "" ensures |NamesOn(t.Truth(), node)| <= limit {
        BurstCount(s, t, requests, node);
      }
    case Other(m) =>
      t := OtherKeeps(s, m);
      if m.Change? {
        ChangeKeeps(s, m.rev, limit);
      }
  }

  /** While drops see all Pods and showers find room, no column ever passes the limit, garbage included. */
  lemma {:induction false} ShelteredBound(states: seq<State>, events: seq<Event>, schedulerName: string, maxHeight: int,
                                          limit: int, n: nat)
    requires IsGame(states, events, schedulerName, maxHeight, limit) && Within(states[0].Truth(), limit) && n < |states|
    requires forall i :: 0 <= i < |events| ==>
      states[i].Valid() && Sheltered(states[i], events[i], schedulerName, maxHeight, limit)
    ensures states[n].Valid() && Lawful(states[n].history) && Within(states[n].Truth(), limit)
  {
    if n > 0 {
      ShelteredBound(states, events, schedulerName, maxHeight, limit, n - 1);
      var t := HappenKeepsWithin(states[n - 1], events[n - 1], schedulerName, maxHeight, limit);
    }
  }
}
