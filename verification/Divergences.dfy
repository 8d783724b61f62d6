/** Where the code and its documentation part: for each place an input the code can receive. */
module Divergences {
  import opened Options
  import opened Kube
  import opened Fields
  import opened FloodFill
  import opened Controller
  import Counters
  import Versus
  import opened Cascade
  import opened Scheduler
  import opened Inflight
  import opened Drops
  import opened Heights

  const NODE := Node("n", 0, map[])
  const NODES := [NODE]

  function Red(name: string, node: string): Pod
  {
    Pod(name, node, 0, map[], map[COLOR_ANNOTATION := "red"], DEFAULT_SCHEDULER, false, RUNNING, [])
  }

  const GARBAGE := Pod("g", "", 0, map[OJAMA_LABEL := "true"], map[COLOR_ANNOTATION := WHITE], DEFAULT_SCHEDULER, false,
                       "Pending", [])

  /** Running red Pods of the given names, all on one Node, or all waiting. */
  function Reds(names: seq<string>, node: string): seq<Pod>
  {
    seq(|names|, i requires 0 <= i < |names| => Red(names[i], node))
  }

  const FOUR := ["a", "b", "c", "d"]

  /** All defaults, and the game ends at height one. */
  const SPEC := Spec(0, map[], false, Some(SpawnSpec(true, 0, "", 1, false)), None)

  function Resource(status: Status): Kbkb
  {
    Kbkb("", SPEC, status, 1)
  }

  // ----- A field of one column

  /** Running red Pods on the one Node: one column of as many red cells. */
  lemma OneColumn(pods: seq<Pod>) returns (f: Field)
    requires UniqueNames(pods) && forall p :: p in pods ==> p.node == "n" && AnnotationColor(p) == "red" && p.Stable()
    ensures f == Board(SPEC, pods, NODES) && f.Stable() && Unscheduled(pods) == []
    ensures |f.columns| == 1 && |f.columns[0].pods| == |Names(pods)|
    ensures forall y :: 0 <= y < |f.columns[0].pods| ==> f.columns[0].pods[y].color == "red"
  {
    f := Board(SPEC, pods, NODES);
    BoardIsField(SPEC, pods, NODES);
    assert NODES[0] in Columns(SPEC, NODES);
    OneNode(f, Columns(SPEC, NODES));
    var col := f.columns[0];
    assert IsColumn(col, Scheduled(pods), AnnotationColor);
    ColumnHeight(col, pods);
    assert NamesOn(pods, "n") == Names(pods);
    forall y | 0 <= y < |col.pods| ensures col.pods[y].color == "red" && col.pods[y].pod.Stable() {
      assert col.pods[y] in col.pods;
    }
    AllScheduled(pods);
  }

  lemma {:induction false} AllScheduled(pods: seq<Pod>)
    requires forall p :: p in pods ==> p.node != ""
    ensures Unscheduled(pods) == []
  {
    if pods != [] {
      AllScheduled(pods[..|pods| - 1]);
    }
  }

  lemma OneNode(f: Field, nodes: seq<Node>)
    requires Orders.Ascending(NodeKey, NodesOf(f)) && forall n :: n in NodesOf(f) <==> n in nodes
    requires NODE in nodes && forall n :: n in nodes ==> n == NODE
    ensures |f.columns| == 1 && f.columns[0].node == NODE
  {
    var ns := NodesOf(f);
    assert |ns| == |f.columns| && NODE in ns;
    var first, last := ns[0], ns[|ns| - 1];
    assert first in ns && last in ns;
    Orders.LessIrreflexive(NodeKey(NODE));
    assert |ns| == 1;
  }

  lemma RedFacts(names: seq<string>, node: string) returns (pods: seq<Pod>)
    requires forall i, j :: 0 <= i < j < |names| ==> names[i] != names[j]
    ensures pods == Reds(names, node) && UniqueNames(pods) && Names(pods) == set name | name in names
    ensures forall p :: p in pods ==> p.node == node && AnnotationColor(p) == "red" && p.Stable() && !p.Ojama()
  {
    pods := Reds(names, node);
    forall name ensures name in Names(pods) <==> name in names {
      if name in names {
        var i :| 0 <= i < |names| && names[i] == name;
        assert pods[i] in pods;
      }
    }
  }

  lemma FourNames()
    ensures forall i, j :: 0 <= i < j < 4 ==> FOUR[i] != FOUR[j]
    ensures (set name | name in FOUR) == {"a", "b", "c", "d"} && |{"a", "b", "c", "d"}| == 4
  {
    assert "a"[0] == 'a' && "b"[0] == 'b' && "c"[0] == 'c' && "d"[0] == 'd';
    assert FOUR[0] == "a" && FOUR[1] == "b" && FOUR[2] == "c" && FOUR[3] == "d";
  }

  lemma {:induction false} RedColumnConnected(f: Field, y: nat)
    requires |f.columns| == 1 && y < |f.columns[0].pods|
    requires forall i :: 0 <= i < |f.columns[0].pods| ==> f.columns[0].pods[i].color == "red"
    ensures InField(f, Pos(0, y)) && Connected(f, Pos(0, 0), Pos(0, y))
  {
    if y == 0 {
      ConnectedRefl(f, Pos(0, 0));
    } else {
      RedColumnConnected(f, y - 1);
      ConnectedStep(f, Pos(0, 0), Pos(0, y - 1), Pos(0, y));
    }
  }

  /** A column of four red cells is one group. */
  lemma FourInGroup(f: Field)
    requires |f.columns| == 1 && |f.columns[0].pods| == 4
    requires forall y :: 0 <= y < 4 ==> f.columns[0].pods[y].color == "red"
    ensures Pos(0, 0) in ErasableCells(f, 4)
  {
    var group := set y | 0 <= y < 4 :: Pos(0, y);
    assert group == {Pos(0, 0), Pos(0, 1), Pos(0, 2), Pos(0, 3)};
    forall p | p in group ensures p in Component(f, Pos(0, 0)) {
      RedColumnConnected(f, p.y);
    }
    SubsetCard(group, Component(f, Pos(0, 0)));
  }

  lemma FourErased(pods: seq<Pod>, names: set<string>)
    requires UniqueNames(pods) && forall p :: p in pods ==> p.node == "n" && AnnotationColor(p) == "red" && p.Stable()
    requires names == Names(pods) && |names| == 4
    ensures Judge(SPEC, pods, NODES) == Erases(names, 4)
  {
    var f := OneColumn(pods);
    FourInGroup(f);
    var v := Judge(SPEC, pods, NODES);
    FoundNames(Namespace(Resource(Status(Fresh, 0, 0, 0, 0)), pods), NODES);
    ErasesEnough(SPEC, pods, NODES);
    forall name | name in v.names ensures name in names {
      var p, n := DoomedListed(SPEC, pods, NODES, name);
    }
    AllOfThem(v.names, names);
  }

  /** Four equal neighbours are erased. */
  lemma FourAreErased() returns (pods: seq<Pod>)
    ensures pods == Reds(FOUR, "n") && UniqueNames(pods) && Judge(SPEC, pods, NODES) == Erases({"a", "b", "c", "d"}, 4)
  {
    FourNames();
    pods := RedFacts(FOUR, "n");
    FourErased(pods, {"a", "b", "c", "d"});
  }

  lemma AllOfThem(a: set<string>, b: set<string>)
    requires a <= b && |a| >= |b|
    ensures a == b
  {
    if a != b {
      SmallerCard(a, b);
    }
  }

  // ----- A game over that does not last, and one in mid-chain

  /** A resource of one version, and a first pass over it. */
  lemma FirstPass(kbkb: Kbkb, pods: seq<Pod>) returns (h: Counters.History)
    requires kbkb.spec == SPEC && Counters.Consistent(kbkb.status, 4)
    ensures h == [kbkb] && Counters.Sound(h, 4) && Counters.Current(h) == kbkb
    ensures Counters.After(h, Counters.EraseMove(0, pods, NODES)) == EraseWrite(kbkb, kbkb, Judge(SPEC, pods, NODES))
    ensures Counters.After(h, Counters.SpawnMove(0, pods, NODES))
      == SpawnWrite(kbkb, kbkb, JudgeSpawn(kbkb, pods, NODES))
  {
    h := [kbkb];
  }

  /** A game over is left by an erasure: `Counters.GameOverExits` says when. */
  lemma GameOverIsLeft() returns (h: Counters.History, m: Counters.Move)
    ensures Counters.Sound(h, 4) && Counters.Current(h).status.phase == GameOver
    ensures Counters.After(h, m).status.phase == Erasing
  {
    var pods := FourAreErased();
    h := FirstPass(Resource(Status(GameOver, 0, 0, 0, 0)), pods);
    m := Counters.EraseMove(0, pods, NODES);
  }

  /** At most one red Pod: a stable column with nothing to erase. */
  lemma FewSettle(pods: seq<Pod>) returns (f: Field)
    requires UniqueNames(pods) && |Names(pods)| <= 1
    requires forall p :: p in pods ==> p.node == "n" && AnnotationColor(p) == "red" && p.Stable()
    ensures f == Board(SPEC, pods, NODES) && f.Stable() && ErasableCells(f, 4) == {} && Unscheduled(pods) == []
    ensures |f.columns| == 1 && f.Height(0) == |Names(pods)|
  {
    f := OneColumn(pods);
    forall p ensures p !in ErasableCells(f, 4) {
      assert Cells(f) <= {Pos(0, 0)};
      SubsetCard(Component(f, p), {Pos(0, 0)});
    }
  }

  /** One red Pod, which is as high as the limit allows. */
  lemma LoneRedEndsGame(kbkb: Kbkb, pods: seq<Pod>)
    requires kbkb.spec == SPEC && kbkb.status.phase != GameOver && |Names(pods)| == 1
    requires UniqueNames(pods) && forall p :: p in pods ==> p.node == "n" && AnnotationColor(p) == "red" && p.Stable()
    ensures JudgeSpawn(kbkb, pods, NODES) == EndsGame
  {
    var f := FewSettle(pods);
    assert f.Height(0) >= 1;
  }

  lemma LoneRedSettles(pods: seq<Pod>)
    requires UniqueNames(pods) && |Names(pods)| == 1
    requires forall p :: p in pods ==> p.node == "n" && AnnotationColor(p) == "red" && p.Stable()
    ensures Judge(SPEC, pods, NODES).Settles?
  {
    var f := FewSettle(pods);
  }

  lemma EmptySpawns(kbkb: Kbkb)
    requires kbkb.spec == SPEC && kbkb.status.phase != GameOver
    ensures JudgeSpawn(kbkb, [], NODES) == Spawns
  {
    assert Names([]) == {};
    var f := FewSettle([]);
  }

  /** A spawn pass that read the resource before a game over was declared, and an empty field: it creates a pair, and
      the game stays over. `Versus.SpawnsInGameOverIff` says when. */
  lemma StaleSpawnInGameOver() returns (p: Versus.Player, act: Versus.Act)
    ensures Versus.Inv(p) && p.kbkb.status.phase == GameOver && act.SpawnAct? && p.pods == []
    ensures |Versus.Outcome(p, act).pods| == 2 && Versus.Outcome(p, act).kbkb == p.kbkb
  {
    var before := Resource(Status(Idle, 0, 0, 0, 0));
    var over := before.(status := before.status.(phase := GameOver), version := 2);
    p := Versus.Player(over, [], [before], []);
    act := Versus.SpawnAct(0, 0, NODES, [Grant("x", 0, None), Grant("y", 0, None)]);
    EmptySpawns(before);
  }

  /** A game over is declared in mid-chain: `Counters.GameOverMidChain` says when. */
  lemma GameOverKeepsChain() returns (h: Counters.History, m: Counters.Move)
    ensures Counters.Sound(h, 4) && Counters.Current(h).status.phase == Erasing
    ensures Counters.After(h, m).status.phase == GameOver && Counters.After(h, m).status.chain > 0
  {
    var pods := RedFacts(["a"], "n");
    assert Names(pods) == {"a"};
    h := FirstPass(Resource(Status(Erasing, 1, 1, 4, 0)), pods);
    m := Counters.SpawnMove(0, pods, NODES);
    LoneRedEndsGame(h[0], pods);
  }

  // ----- Scores that do not match

  /** One delete fails: four are counted, but four do not go. */
  lemma FailedDeleteMiscounts(kbkb: Kbkb) returns (pods: seq<Pod>, e: Effect)
    requires kbkb.spec == SPEC
    ensures pods == Reds(FOUR, "n") && e == EraseEffect(kbkb, pods, kbkb, Judge(SPEC, pods, NODES), {"a"}, [])
    ensures e.kbkb.status.totalErased == kbkb.status.totalErased + 4 && |Live(pods)| - |Live(e.pods)| != 4
  {
    pods := FourAreErased();
    e := FailedDelete(kbkb, pods, {"a", "b", "c", "d"}, "a");
  }

  lemma FailedDelete(kbkb: Kbkb, pods: seq<Pod>, names: set<string>, name: string) returns (e: Effect)
    requires kbkb.spec == SPEC && UniqueNames(pods) && Judge(SPEC, pods, NODES) == Erases(names, 4) && name in names
    ensures e == EraseEffect(kbkb, pods, kbkb, Judge(SPEC, pods, NODES), {name}, [])
    ensures e.kbkb.status.totalErased == kbkb.status.totalErased + 4 && |Live(pods)| - |Live(e.pods)| != 4
  {
    var v := CountMatchesIff(kbkb, pods, pods, NODES, {name}, []);
    e := EraseEffect(kbkb, pods, kbkb, v, {name}, []);
  }

  /** No delete fails, but a list read again after the erasure still shows the four: they are counted twice. */
  lemma StaleListMiscounts(kbkb: Kbkb) returns (pods: seq<Pod>, first: Effect, second: Effect)
    requires kbkb.spec == SPEC
    ensures pods == Reds(FOUR, "n") && first == EraseEffect(kbkb, pods, kbkb, Judge(SPEC, pods, NODES), {}, [])
    ensures second == EraseEffect(first.kbkb, first.pods, first.kbkb, Judge(SPEC, pods, NODES), {}, [])
    ensures second.kbkb.status.totalErased >= first.kbkb.status.totalErased + 4 && Live(second.pods) == Live(first.pods)
  {
    pods := FourAreErased();
    first, second := StaleListCountsAgain(kbkb, pods, NODES);
  }

  // ----- Chains that are not

  /** The list read again after the erasure makes a chain of two of it. */
  lemma StaleListLengthensChain() returns (pods: seq<Pod>, first: Effect, second: Effect)
    ensures pods == Reds(FOUR, "n")
    ensures var kbkb := Resource(Status(Idle, 0, 0, 0, 0));
      first == EraseEffect(kbkb, pods, kbkb, Judge(SPEC, pods, NODES), {}, [])
    ensures second == EraseEffect(first.kbkb, first.pods, first.kbkb, Judge(SPEC, pods, NODES), {}, [])
    ensures Live(second.pods) == Live(first.pods) && second.kbkb.status.chain == second.kbkb.status.maxChain == 2
  {
    pods := FourAreErased();
    first, second := StaleListCountsAgain(Resource(Status(Idle, 0, 0, 0, 0)), pods, NODES);
  }

  /** A list from before the four were complete closes the chain in progress; the next pass starts another. */
  lemma StaleListCutsChain() returns (kbkb: Kbkb, shown: seq<Pod>, pods: seq<Pod>, closed: Kbkb, next: Kbkb)
    ensures kbkb == Resource(Status(Erasing, 1, 1, 4, 0)) && shown == Reds(["a"], "n") && pods == Reds(FOUR, "n")
    ensures closed == EraseWrite(kbkb, kbkb, Judge(kbkb.spec, shown, NODES))
    ensures next == EraseWrite(closed, closed, Judge(closed.spec, pods, NODES))
    ensures closed.status.chain == 0 && next.status.phase == Erasing && next.status.chain == 1
  {
    pods := FourAreErased();
    shown := RedFacts(["a"], "n");
    assert Names(shown) == {"a"};
    LoneRedSettles(shown);
    kbkb := Resource(Status(Erasing, 1, 1, 4, 0));
    closed, next := ChainClosesEarlyIff(kbkb, pods, shown, NODES);
  }

  // ----- Full columns

  function Start(pods: seq<Pod>): State
  {
    State([Revision(0, pods)], 0, map[], [])
  }

  function CallAt(t: int): Call
  {
    Call(t, t, t, true, true)
  }

  lemma NodeIsKnown(pods: seq<Pod>) returns (columns: seq<Column>)
    requires UniqueNames(pods)
    ensures columns == BoardFor(None, pods, NODES).columns
    ensures |columns| == 1 && columns[0].node == NODE
    ensures "n" in HeightsOf(columns) && HeightsOf(columns)["n"] == |NamesOn(pods, "n")|
  {
    var f := BoardFor(None, pods, NODES);
    columns := f.columns;
    BoardForIsField(None, pods, NODES);
    assert NODES[0] in NODES;
    OneNode(f, NODES);
    HeightsOfColumn(columns, 0);
    BoardHeights(None, pods, NODES, "n");
  }

  /** One red Pod on the Node, and garbage waiting. */
  lemma FullAndGarbage() returns (pods: seq<Pod>)
    ensures pods == [Red("a", "n"), GARBAGE] && UniqueNames(pods) && Within(pods, 1) && |NamesOn(pods, "n")| == 1
    ensures forall p :: p in pods && p.Ojama() ==> p == GARBAGE
  {
    pods := [Red("a", "n"), GARBAGE];
    assert pods[0].name[0] != pods[1].name[0];
    assert pods[0] in pods;
    assert NamesOn(pods, "n") == {"a"};
    forall node | node != "" ensures |NamesOn(pods, node)| <= 1 {
      SubsetCard(NamesOn(pods, node), {"a"});
    }
  }

  /** Garbage falls onto a full column, though the cache shows everything: `Heights.ShowerWithinIff` says when. */
  lemma GarbageOverfills(draw: Draws) returns (s: State, t: State, calls: seq<Call>)
    ensures Sound(s) && s.Cache() == s.Truth() && TimelyCalls(0, calls) && |NamesOn(s.Truth(), "n")| == 1
    ensures (t, None) == BindAll(s, ShowerRequests(s, DEFAULT_SCHEDULER, None, NODES, 1, draw), calls)
    ensures t.Valid() && |NamesOn(t.Truth(), "n")| > 1
  {
    var pods := FullAndGarbage();
    s, calls := Start(pods), [CallAt(1)];
    FreshIsSound(s.history[0]);
    var requests := ShowerRequests(s, DEFAULT_SCHEDULER, None, NODES, 1, draw);
    OneShower(s, pods, draw, requests);
    ShowerBindable(s, DEFAULT_SCHEDULER, None, NODES, 1, draw);
    CompleteBurstHeights(s, requests, calls, "n");
    t := BindAll(s, requests, calls).0;
  }

  lemma OnlyOne(pods: seq<Pod>, p: Pod)
    requires UniqueNames(pods) && p in pods && forall q :: q in pods ==> q == p
    ensures pods == [p]
  {
    var first, last := pods[0], pods[|pods| - 1];
    assert first in pods && last in pods;
    assert |pods| == 1;
  }

  lemma OneShower(s: State, pods: seq<Pod>, draw: Draws, requests: seq<Request>)
    requires s == Start(pods) && UniqueNames(pods) && GARBAGE in pods
    requires forall p :: p in pods && p.Ojama() ==> p == GARBAGE
    requires requests == ShowerRequests(s, DEFAULT_SCHEDULER, None, NODES, 1, draw)
    ensures |requests| == 1 && CountOn(Asked(requests), "n") == 1
  {
    var columns := NodeIsKnown(pods);
    var queue := QueueOf(pods, DEFAULT_SCHEDULER, map[], true);
    QueueFacts(pods, DEFAULT_SCHEDULER, map[], true);
    assert GARBAGE in queue;
    forall p | p in queue ensures p == GARBAGE {
    }
    OnlyOne(queue, GARBAGE);
    var candidates := Candidates(columns, 1, true);
    assert columns[..0] == [] && Candidates([], 1, true) == [];
    assert candidates == [NODE.name];
    assert |requests| == 1 && requests[0].node == "n";
    AskedTail(requests, "n");
    assert requests[1..] == [];
  }

  const TWO := ["a", "b"]

  lemma TwoWaiting(s: State) returns (pods: seq<Pod>)
    requires s.Valid() && s.Cache() == Reds(TWO, "")
    ensures pods == Reds(TWO, "") && "a" != "b" && ShownWaiting(s, pods)
    ensures CanBind(pods, "a") && CanBind(pods, "b")
    ensures forall name :: name in {"a", "b"} && name !in s.inflight ==> name in QueuedNames(s, DEFAULT_SCHEDULER)
  {
    assert TWO[0] == "a" && TWO[1] == "b" && "a"[0] != "b"[0];
    pods := RedFacts(TWO, "");
    QueueFacts(pods, DEFAULT_SCHEDULER, s.inflight, false);
    assert pods[0] in pods && pods[1] in pods;
    assert Bindable(pods[0]) && Bindable(pods[1]);
  }

  /** The cache shows the Node empty. */
  ghost predicate ShownWaiting(s: State, pods: seq<Pod>)
  {
    s.Valid() && s.Cache() == pods && UniqueNames(pods) && NamesOn(pods, "n") == {}
  }

  /** What becomes of a drop on the one Node. */
  ghost function Dropped(s: State, limit: int, placements: seq<Placement>, calls: seq<Call>): (State, Option<DropError>)
    requires s.Valid()
  {
    DropEffect(s, QueuedNames(s, DEFAULT_SCHEDULER), HeightsOf(BoardFor(None, s.Cache(), NODES).columns),
               limit, placements,
               calls)
  }

  /** On a cache that shows the Node empty, a drop of waiting Pods is accepted up to the limit, whatever is really
      there. */
  lemma {:induction false} EmptyNodeAccepts(s: State, pods: seq<Pod>, limit: int, placements: seq<Placement>,
                                            calls: seq<Call>)
    requires ShownWaiting(s, pods) && 0 < |placements| <= limit
    requires forall i :: 0 <= i < |placements| ==>
      placements[i].node == "n" && placements[i].pod in QueuedNames(s, DEFAULT_SCHEDULER)
    ensures Dropped(s, limit, placements, calls) == BindAll(s, DropRequests(placements), calls)
  {
    var columns := NodeIsKnown(pods);
    OnlyOnNode(placements);
    ValidateIffAcceptable(QueuedNames(s, DEFAULT_SCHEDULER), HeightsOf(columns), limit, placements);
  }

  lemma {:induction false} OnlyOnNode(placements: seq<Placement>)
    requires forall i :: 0 <= i < |placements| ==> placements[i].node == "n"
    ensures forall node :: CountOn(placements, node) == if node == "n" then |placements| else 0
  {
    if placements != [] {
      OnlyOnNode(placements[1..]);
    }
  }

  lemma BindsOne(s: State, name: string, c: Call) returns (t: State)
    requires s.Valid() && UniqueNames(s.Truth()) && CanBind(s.Truth(), name) && c.patchOk && c.bindOk
    ensures (t, None) == BindAll(s, DropRequests([Placement(name, "n")]), [c]) && t.Valid() && t.Cache() == s.Cache()
    ensures t.inflight == s.inflight[name := c.markAt] && UniqueNames(t.Truth())
    ensures |NamesOn(t.Truth(), "n")| == |NamesOn(s.Truth(), "n")| + 1
    ensures forall other :: CanBind(t.Truth(), other) <==> other != name && CanBind(s.Truth(), other)
  {
    var r := Request(name, "n", 0);
    BindOneGoesThrough(s, r, c);
    BindOneNamesOn(s, r, c, "n");
    t := BindOne(s, r, c).0;
    assert DropRequests([Placement(name, "n")]) == [r] && [r][1..] == [] && [c][1..] == [];
  }

  /** Two drops in a row, the second before the cache shows the first: both are accepted, and the Node ends above the
      limit. */
  lemma LaggingDropsOverfill() returns (s: State, t: State, u: State)
    ensures Sound(s) && s.Cache() == s.Truth() && s.log == []
    ensures (t, None) == Dropped(s, 1, [Placement("b", "n")], [CallAt(1)])
    ensures t.Valid() && (u, None) == Dropped(t, 1, [Placement("a", "n")], [CallAt(2)])
    ensures u.Valid() && |NamesOn(u.Truth(), "n")| == 2
  {
    s := Start(Reds(TWO, ""));
    var pods := TwoWaiting(s);
    FreshIsSound(s.history[0]);
    EmptyNodeAccepts(s, pods, 1, [Placement("b", "n")], [CallAt(1)]);
    t := BindsOne(s, "b", CallAt(1));
    pods := TwoWaiting(t);
    EmptyNodeAccepts(t, pods, 1, [Placement("a", "n")], [CallAt(2)]);
    u := BindsOne(t, "a", CallAt(2));
  }

  // ----- A Pod listed twice

  lemma SecondBindFails(s: State, name: string, c: Call, c': Call) returns (t: State)
    requires s.Valid() && UniqueNames(s.Truth()) && CanBind(s.Truth(), name) && c.patchOk && c.bindOk && c'.patchOk
    ensures (t, Some(BindFailed(name)))
      == BindAll(s, DropRequests([Placement(name, "n"), Placement(name, "n")]), [c, c'])
    ensures t.Valid() && |NamesOn(t.Truth(), "n")| == |NamesOn(s.Truth(), "n")| + 1
  {
    var r, r' := Request(name, "n", 0), Request(name, "n", 1);
    assert DropRequests([Placement(name, "n"), Placement(name, "n")]) == [r, r'];
    BindOneGoesThrough(s, r, c);
    BindOneNamesOn(s, r, c, "n");
    var mid := BindOne(s, r, c).0;
    assert [r, r'][1..] == [r'] && [c, c'][1..] == [c'];
    StampedFacts(mid.Truth(), name, OrderOf(r', c'));
    StampedNamesOn(mid.Truth(), name, OrderOf(r', c'), "n");
    assert !BindOne(mid, r', c').1;
    t := BindOne(mid, r', c').0;
  }

  /** A drop that lists one Pod twice is accepted and binds it; then it fails, though every call gets through. */
  lemma RepeatedPodStopsHalfway() returns (s: State, t: State)
    ensures Sound(s) && s.Cache() == s.Truth()
    ensures (t, Some(BindFailed("a")))
      == Dropped(s, 2, [Placement("a", "n"), Placement("a", "n")], [CallAt(1), CallAt(2)])
    ensures t.Valid() && |NamesOn(t.Truth(), "n")| == 1
  {
    s := Start(Reds(TWO, ""));
    var pods := TwoWaiting(s);
    FreshIsSound(s.history[0]);
    EmptyNodeAccepts(s, pods, 2, [Placement("a", "n"), Placement("a", "n")], [CallAt(1), CallAt(2)]);
    t := SecondBindFails(s, "a", CallAt(1), CallAt(2));
  }
}
