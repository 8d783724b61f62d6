/** Chain reactions: erase, wait for the kubelet, rebuild, erase again, until the field settles. */
module Cascade {
  import opened Orders
  import opened Kube
  import opened Fields
  import opened FloodFill
  import opened Controller

  /** One namespace while a chain runs; the Nodes stay the same. */
  datatype Namespace = Namespace(kbkb: Kbkb, pods: seq<Pod>)

  /** An erase pass, or the kubelet: a terminated Pod disappears, a Pod's status changes. */
  datatype Move = Pass | Vanish(name: string) | Report(name: string, phase: string, ready: seq<bool>)

  function Gone(pods: seq<Pod>, name: string): (r: seq<Pod>)
    ensures forall p :: p in r <==> p in pods && !(p.name == name && p.deleting)
  {
    if pods == [] then []
    else if pods[0].name == name && pods[0].deleting then Gone(pods[1..], name)
    else [pods[0]] + Gone(pods[1..], name)
  }

  function Reported(pods: seq<Pod>, name: string, phase: string, ready: seq<bool>): (r: seq<Pod>)
    ensures |r| == |pods|
  {
    seq(|pods|, i requires 0 <= i < |pods| =>
      if pods[i].name == name then pods[i].(phase := phase, ready := ready) else pods[i])
  }

  ghost function Found(s: Namespace, nodes: seq<Node>): Verdict
  {
    Judge(s.kbkb.spec, s.pods, nodes)
  }

  /** An erase pass with a fresh read whose deletes all succeed. */
  function Passed(s: Namespace, v: Verdict): Namespace
  {
    var e := EraseEffect(s.kbkb, s.pods, s.kbkb, v, {}, []);
    Namespace(e.kbkb, e.pods)
  }

  ghost function Next(s: Namespace, nodes: seq<Node>, m: Move): Namespace
  {
    match m
    case Pass => Passed(s, Found(s, nodes))
    case Vanish(name) => s.(pods := Gone(s.pods, name))
    case Report(name, phase, ready) => s.(pods := Reported(s.pods, name, phase, ready))
  }

  ghost function Run(s: Namespace, nodes: seq<Node>, moves: seq<Move>): Namespace
    decreases |moves|
  {
    if moves == [] then s else Run(Next(s, nodes, moves[0]), nodes, moves[1..])
  }

  ghost predicate ErasesHere(s: Namespace, nodes: seq<Node>, m: Move)
  {
    m == Pass && Found(s, nodes).Erases?
  }

  ghost function Erasures(s: Namespace, nodes: seq<Node>, moves: seq<Move>): nat
    decreases |moves|
  {
    if moves == [] then 0
    else (if ErasesHere(s, nodes, moves[0]) then 1 else 0) + Erasures(Next(s, nodes, moves[0]), nodes, moves[1..])
  }

  /** No pass of the run settles: it is all one chain. */
  ghost predicate OneChain(s: Namespace, nodes: seq<Node>, moves: seq<Move>)
    decreases |moves|
  {
    moves == [] ||
      (!(moves[0] == Pass && Found(s, nodes).Settles?) && OneChain(Next(s, nodes, moves[0]), nodes, moves[1..]))
  }

  // ----- The Pods that count, without their running state

  function Strip(p: Pod): Pod
  {
    p.(deleting := false, phase := "", ready := [])
  }

  function Live(pods: seq<Pod>): (r: seq<Pod>)
    ensures forall p :: p in r ==> exists q :: q in pods && !q.deleting && p == Strip(q)
  {
    if pods == [] then []
    else if pods[0].deleting then Live(pods[1..])
    else [Strip(pods[0])] + Live(pods[1..])
  }

  lemma {:induction false} LiveUnique(pods: seq<Pod>)
    requires UniqueNames(pods)
    ensures UniqueNames(Live(pods))
  {
    if pods != [] {
      LiveUnique(pods[1..]);
      forall p | p in Live(pods[1..]) ensures p.name != pods[0].name {
        var q :| q in pods[1..] && !q.deleting && p == Strip(q);
        var i :| 0 <= i < |pods[1..]| && pods[1..][i] == q;
        assert pods[0].name != pods[i + 1].name;
      }
    }
  }

  lemma {:induction false} LiveTerminated(pods: seq<Pod>, names: set<string>)
    ensures Live(Terminated(pods, names)) == Without(Live(pods), names)
  {
    if pods != [] {
      LiveTerminated(pods[1..], names);
      assert Terminated(pods, names)[1..] == Terminated(pods[1..], names);
    }
  }

  lemma {:induction false} LiveGone(pods: seq<Pod>, name: string)
    ensures Live(Gone(pods, name)) == Live(pods)
  {
    if pods != [] {
      LiveGone(pods[1..], name);
      if !(pods[0].name == name && pods[0].deleting) {
        assert Gone(pods, name)[1..] == Gone(pods[1..], name);
      }
    }
  }

  lemma {:induction false} LiveReported(pods: seq<Pod>, name: string, phase: string, ready: seq<bool>)
    ensures Live(Reported(pods, name, phase, ready)) == Live(pods)
  {
    if pods != [] {
      LiveReported(pods[1..], name, phase, ready);
      assert Reported(pods, name, phase, ready)[1..] == Reported(pods[1..], name, phase, ready);
    }
  }

  lemma {:induction false} GoneUnique(pods: seq<Pod>, name: string)
    requires UniqueNames(pods)
    ensures UniqueNames(Gone(pods, name))
  {
    if pods != [] {
      GoneUnique(pods[1..], name);
      forall p | p in Gone(pods[1..], name) ensures p.name != pods[0].name {
        var i :| 0 <= i < |pods[1..]| && pods[1..][i] == p;
        assert pods[0].name != pods[i + 1].name;
      }
    }
  }

  // ----- A field without its running state has the same groups

  function StripCell(c: Cell): Cell
  {
    Cell(Strip(c.pod), c.color)
  }

  function StripCells(cells: seq<Cell>): seq<Cell>
  {
    seq(|cells|, y requires 0 <= y < |cells| => StripCell(cells[y]))
  }

  function StripField(f: Field): Field
  {
    Field(seq(|f.columns|, x requires 0 <= x < |f.columns| => Column(f.columns[x].node, StripCells(f.columns[x].pods))))
  }

  lemma StripLinked(f: Field)
    ensures forall p, q :: Linked(StripField(f), p, q) <==> Linked(f, p, q)
    ensures forall p :: InField(StripField(f), p) <==> InField(f, p)
    ensures forall p :: InField(f, p) ==> CellAt(StripField(f), p) == StripCell(CellAt(f, p))
  {
  }

  lemma StripConnected(f: Field, p: Pos, q: Pos)
    ensures Connected(StripField(f), p, q) <==> Connected(f, p, q)
  {
    StripLinked(f);
    if Connected(f, p, q) {
      var ps :| IsPath(f, ps) && ps[0] == p && ps[|ps| - 1] == q;
      assert IsPath(StripField(f), ps);
    }
    if Connected(StripField(f), p, q) {
      var ps :| IsPath(StripField(f), ps) && ps[0] == p && ps[|ps| - 1] == q;
      assert IsPath(f, ps);
    }
  }

  lemma StripErasable(f: Field, threshold: int)
    ensures ErasableCells(StripField(f), threshold) == ErasableCells(f, threshold)
    ensures ErasableNames(StripField(f), threshold) == ErasableNames(f, threshold)
  {
    var g := StripField(f);
    StripLinked(f);
    forall p ensures p in ErasableCells(g, threshold) <==> p in ErasableCells(f, threshold) {
      forall q ensures q in Component(g, p) <==> q in Component(f, p) {
        StripConnected(f, p, q);
      }
      assert Component(g, p) == Component(f, p);
    }
    forall name ensures name in ErasableNames(g, threshold) <==> name in ErasableNames(f, threshold) {
      if name in ErasableNames(f, threshold) {
        var p :| p in ErasableCells(f, threshold) && CellAt(f, p).pod.name == name;
        assert CellAt(g, p).pod.name == name;
      }
      if name in ErasableNames(g, threshold) {
        var p :| p in ErasableCells(g, threshold) && CellAt(g, p).pod.name == name;
        assert CellAt(f, p).pod.name == name;
      }
    }
  }

  // ----- A stable field is the field of the live Pods

  /** No Pod of the field is being deleted; a waiting Pod, or one on another Node, may be. */
  ghost predicate NoneDying(spec: Spec, pods: seq<Pod>, nodes: seq<Node>)
  {
    forall p, n :: p in pods && n in Columns(spec, nodes) && n.name == p.node ==> !p.deleting
  }

  lemma ColumnsUnique(spec: Spec, nodes: seq<Node>)
    requires UniqueNodes(nodes)
    ensures UniqueNodes(Columns(spec, nodes))
  {
    SelectedNodesUnique(nodes, spec.nodeSelector, spec.excludeControlPlane);
  }

  lemma {:induction false} BoardIsField(spec: Spec, pods: seq<Pod>, nodes: seq<Node>)
    requires UniqueNames(pods) && UniqueNodes(nodes)
    ensures UniqueNames(Scheduled(pods)) && UniqueNodes(Columns(spec, nodes))
    ensures IsField(Board(spec, pods, nodes), Scheduled(pods), Columns(spec, nodes), AnnotationColor)
  {
    ColumnsUnique(spec, nodes);
    ScheduledUnique(pods);
    FieldOfIsField(Scheduled(pods), Columns(spec, nodes), AnnotationColor);
  }

  lemma StableMeansNoneDying(spec: Spec, pods: seq<Pod>, nodes: seq<Node>)
    requires UniqueNames(pods) && UniqueNodes(nodes) && Board(spec, pods, nodes).Stable()
    ensures NoneDying(spec, pods, nodes)
  {
    var f := Board(spec, pods, nodes);
    BoardIsField(spec, pods, nodes);
    forall p, n | p in pods && n in Columns(spec, nodes) && n.name == p.node ensures !p.deleting {
      var x, y := CellOf(f, Scheduled(pods), Columns(spec, nodes), AnnotationColor, p, n);
    }
  }

  lemma {:induction false} LiveHolds(pods: seq<Pod>)
    ensures forall p :: p in pods && !p.deleting ==> Strip(p) in Live(pods)
  {
    if pods != [] {
      LiveHolds(pods[1..]);
    }
  }

  lemma StripColumn(col: Column, pods: seq<Pod>, live: seq<Pod>)
    requires IsColumn(col, pods, AnnotationColor)
    requires forall q :: q in live ==> exists p :: p in pods && q == Strip(p)
    requires forall p :: p in pods && p.node == col.node.name ==> Strip(p) in live
    ensures IsColumn(Column(col.node, StripCells(col.pods)), live, AnnotationColor)
  {
    var cells := StripCells(col.pods);
    forall i, j | 0 <= i < j < |cells| ensures Less(CellKey(cells[i]), CellKey(cells[j])) {
      assert CellKey(cells[i]) == CellKey(col.pods[i]) && CellKey(cells[j]) == CellKey(col.pods[j]);
    }
    forall c ensures c in cells <==> c.pod in live && c.pod.node == col.node.name && c.color == AnnotationColor(c.pod) {
      if c in cells {
        var y :| 0 <= y < |cells| && cells[y] == c;
        assert col.pods[y] in col.pods;
      }
      if c.pod in live && c.pod.node == col.node.name && c.color == AnnotationColor(c.pod) {
        var p :| p in pods && c.pod == Strip(p);
        assert Cell(p, AnnotationColor(p)) in col.pods;
        var y :| 0 <= y < |col.pods| && col.pods[y] == Cell(p, AnnotationColor(p));
        assert cells[y] == c;
      }
    }
  }

  lemma StripIsField(f: Field, pods: seq<Pod>, live: seq<Pod>, nodes: seq<Node>)
    requires IsField(f, pods, nodes, AnnotationColor)
    requires forall q :: q in live ==> exists p :: p in pods && q == Strip(p)
    requires forall p, x :: p in pods && 0 <= x < |f.columns| && p.node == f.columns[x].node.name ==> Strip(p) in live
    ensures IsField(StripField(f), live, nodes, AnnotationColor)
  {
    var g := StripField(f);
    assert NodesOf(g) == NodesOf(f);
    forall x | 0 <= x < |g.columns| ensures IsColumn(g.columns[x], live, AnnotationColor) {
      StripColumn(f.columns[x], pods, live);
    }
  }

  /** With nothing on the field being deleted, the live Pods build the same field, running state aside. */
  lemma {:induction false} LiveBoard(spec: Spec, pods: seq<Pod>, nodes: seq<Node>)
    requires UniqueNames(pods) && UniqueNodes(nodes) && NoneDying(spec, pods, nodes)
    ensures Board(spec, Live(pods), nodes) == StripField(Board(spec, pods, nodes))
  {
    var f, g := Board(spec, pods, nodes), Board(spec, Live(pods), nodes);
    LiveUnique(pods);
    LiveHolds(pods);
    BoardIsField(spec, pods, nodes);
    BoardIsField(spec, Live(pods), nodes);
    forall p, x | p in Scheduled(pods) && 0 <= x < |f.columns| && p.node == f.columns[x].node.name
      ensures Strip(p) in Scheduled(Live(pods))
    {
      assert NodesOf(f)[x] in Columns(spec, nodes);
    }
    StripIsField(f, Scheduled(pods), Scheduled(Live(pods)), Columns(spec, nodes));
    Canonical(g, StripField(f), Scheduled(Live(pods)), Scheduled(Live(pods)),
              Columns(spec, nodes), Columns(spec, nodes), AnnotationColor);
  }

  // ----- The chain reaction as a function of the live Pods

  ghost function Doomed(spec: Spec, live: seq<Pod>, nodes: seq<Node>): set<string>
  {
    ErasableNames(Board(spec, live, nodes), Kokeshi(spec))
  }

  lemma NamesTail(pods: seq<Pod>)
    requires UniqueNames(pods) && pods != []
    ensures forall p :: p in pods[1..] ==> p.name != pods[0].name
    ensures Names(pods) == Names(pods[1..]) + {pods[0].name}
  {
    forall p | p in pods[1..] ensures p.name != pods[0].name {
      var i :| 0 <= i < |pods[1..]| && pods[1..][i] == p;
      assert pods[0].name != pods[i + 1].name;
    }
    assert pods == [pods[0]] + pods[1..];
  }

  lemma {:induction false} WithoutCount(pods: seq<Pod>, gone: set<string>)
    requires UniqueNames(pods) && gone <= Names(pods)
    ensures |Without(pods, gone)| == |pods| - |gone|
  {
    if pods != [] {
      NamesTail(pods);
      var name := pods[0].name;
      WithoutAbsent(pods[1..], gone, name);
      WithoutCount(pods[1..], gone - {name});
    }
  }

  lemma {:induction false} WithoutAbsent(pods: seq<Pod>, gone: set<string>, name: string)
    requires forall p :: p in pods ==> p.name != name
    ensures Without(pods, gone) == Without(pods, gone - {name})
  {
    if pods != [] {
      WithoutAbsent(pods[1..], gone, name);
    }
  }

  /** An erasure names Pods of the field. */
  lemma DoomedListed(spec: Spec, live: seq<Pod>, nodes: seq<Node>, name: string) returns (p: Pod, n: Node)
    requires UniqueNames(live) && UniqueNodes(nodes) && name in Doomed(spec, live, nodes)
    ensures p in live && p.name == name && AnnotationColor(p) != WHITE && n in Columns(spec, nodes) && n.name == p.node
  {
    var f := Board(spec, live, nodes);
    BoardIsField(spec, live, nodes);
    var at := ErasableNameIsListed(Scheduled(live), Columns(spec, nodes), AnnotationColor, Kokeshi(spec), name);
    p := CellAt(f, at).pod;
    n := f.columns[at.x].node;
    assert IsColumn(f.columns[at.x], Scheduled(live), AnnotationColor);
    assert CellAt(f, at) in f.columns[at.x].pods && NodesOf(f)[at.x] in NodesOf(f);
  }

  /** As many Pods are named as cells erased, and at least kokeshi of them if any. */
  lemma DoomedCount(spec: Spec, live: seq<Pod>, nodes: seq<Node>)
    requires UniqueNames(live) && UniqueNodes(nodes)
    ensures |Doomed(spec, live, nodes)| == |ErasableCells(Board(spec, live, nodes), Kokeshi(spec))|
    ensures Doomed(spec, live, nodes) != {} ==> |Doomed(spec, live, nodes)| >= Kokeshi(spec)
  {
    var f := Board(spec, live, nodes);
    BoardIsField(spec, live, nodes);
    ErasableNamesCount(Scheduled(live), Columns(spec, nodes), AnnotationColor, Kokeshi(spec));
    if Doomed(spec, live, nodes) != {} {
      var name :| name in Doomed(spec, live, nodes);
      var p :| p in ErasableCells(f, Kokeshi(spec)) && CellAt(f, p).pod.name == name;
      ErasableIsWholeGroups(f, Kokeshi(spec), p);
    }
  }

  lemma {:induction false} DoomedLeave(spec: Spec, live: seq<Pod>, nodes: seq<Node>)
    requires UniqueNames(live) && UniqueNodes(nodes)
    ensures |Without(live, Doomed(spec, live, nodes))| == |live| - |Doomed(spec, live, nodes)|
    ensures UniqueNames(Without(live, Doomed(spec, live, nodes)))
  {
    forall name | name in Doomed(spec, live, nodes) ensures name in Names(live) {
      var p, n := DoomedListed(spec, live, nodes, name);
    }
    WithoutCount(live, Doomed(spec, live, nodes));
    WithoutUnique(live, Doomed(spec, live, nodes));
  }

  /** How many erasures a set of live Pods sets off. */
  ghost function Rounds(spec: Spec, live: seq<Pod>, nodes: seq<Node>): nat
    requires UniqueNames(live) && UniqueNodes(nodes)
    decreases |live|
  {
    if Doomed(spec, live, nodes) == {} then 0
    else
      DoomedLeave(spec, live, nodes);
      1 + Rounds(spec, Without(live, Doomed(spec, live, nodes)), nodes)
  }

  /** What is left when they are over. */
  ghost function Rest(spec: Spec, live: seq<Pod>, nodes: seq<Node>): seq<Pod>
    requires UniqueNames(live) && UniqueNodes(nodes)
    decreases |live|
  {
    if Doomed(spec, live, nodes) == {} then live
    else
      DoomedLeave(spec, live, nodes);
      Rest(spec, Without(live, Doomed(spec, live, nodes)), nodes)
  }

  /** What is left after the first m of them. */
  ghost function AfterRounds(spec: Spec, live: seq<Pod>, nodes: seq<Node>, m: nat): seq<Pod>
    requires UniqueNames(live) && UniqueNodes(nodes)
    decreases m
  {
    if m == 0 then live
    else
      DoomedLeave(spec, live, nodes);
      AfterRounds(spec, Without(live, Doomed(spec, live, nodes)), nodes, m - 1)
  }

  // ----- Every run of one chain

  /** The chain an erasure would extend. */
  function ChainSoFar(s: Status): int
  {
    if s.phase == Erasing then s.chain else 0
  }

  lemma StableFacts(s: Namespace, nodes: seq<Node>)
    requires UniqueNames(s.pods) && UniqueNodes(nodes) && !Found(s, nodes).Waits?
    ensures UniqueNames(Live(s.pods))
    ensures Doomed(s.kbkb.spec, s.pods, nodes) == Doomed(s.kbkb.spec, Live(s.pods), nodes)
  {
    StableMeansNoneDying(s.kbkb.spec, s.pods, nodes);
    LiveUnique(s.pods);
    LiveBoard(s.kbkb.spec, s.pods, nodes);
    StripErasable(Board(s.kbkb.spec, s.pods, nodes), Kokeshi(s.kbkb.spec));
  }

  lemma FoundNames(s: Namespace, nodes: seq<Node>)
    requires UniqueNames(s.pods) && UniqueNodes(nodes)
    ensures Found(s, nodes).Erases? ==>
      Found(s, nodes).names == Doomed(s.kbkb.spec, s.pods, nodes) != {}
      && Found(s, nodes).count == |Found(s, nodes).names|
    ensures Found(s, nodes).Settles? ==> Doomed(s.kbkb.spec, s.pods, nodes) == {}
  {
    DoomedCount(s.kbkb.spec, s.pods, nodes);
  }

  lemma PassedErases(s: Namespace, v: Verdict)
    requires v.Erases?
    ensures var t := Passed(s, v);
      && (UniqueNames(s.pods) ==> UniqueNames(t.pods))
      && t.pods == Terminated(s.pods, v.names) && Live(t.pods) == Without(Live(s.pods), v.names)
      && t.kbkb.spec == s.kbkb.spec && t.kbkb.status == EraseStatus(s.kbkb.status, v.count)
  {
    assert v.names - {} == v.names;
    LiveTerminated(s.pods, v.names);
  }

  lemma PassErases(s: Namespace, nodes: seq<Node>) returns (doomed: set<string>)
    requires UniqueNames(s.pods) && UniqueNodes(nodes) && Found(s, nodes).Erases?
    ensures UniqueNames(Live(s.pods)) && doomed == Doomed(s.kbkb.spec, Live(s.pods), nodes) != {}
    ensures var t := Next(s, nodes, Pass);
      && UniqueNames(t.pods) && t.kbkb.spec == s.kbkb.spec
      && Live(t.pods) == Without(Live(s.pods), doomed)
      && t.kbkb.status == EraseStatus(s.kbkb.status, |doomed|)
  {
    StableFacts(s, nodes);
    FoundNames(s, nodes);
    var v := Found(s, nodes);
    doomed := v.names;
    PassedErases(s, v);
    assert Next(s, nodes, Pass) == Passed(s, v);
  }

  lemma {:induction false} CountedIffGone(kbkb: Kbkb, pods: seq<Pod>, v: Verdict, failing: set<string>,
                                          grants: seq<Grant>)
    requires UniqueNames(pods) && v.Erases? && v.count == |v.names|
    ensures var e := EraseEffect(kbkb, pods, kbkb, v, failing, grants);
      e.kbkb.status.totalErased - kbkb.status.totalErased == |Live(pods)| - |Live(e.pods)|
      <==> failing !! v.names && v.names <= Names(Live(pods))
  {
    LiveTerminated(pods, v.names - failing);
    LiveUnique(pods);
    LostCount(Live(pods), v.names, failing);
  }

  /** Taking out `names`, save the failing ones, loses as many Pods as there are names exactly when each finds its
      Pod. */
  lemma {:induction false} LostCount(live: seq<Pod>, names: set<string>, failing: set<string>)
    requires UniqueNames(live)
    ensures |live| - |Without(live, names - failing)| == |names| <==> failing !! names && names <= Names(live)
  {
    var hit := (names - failing) * Names(live);
    WithoutOthers(live, names - failing);
    WithoutCount(live, hit);
    if hit != names {
      SmallerCard(hit, names);
    }
  }

  /** Whatever Pods are there when it writes, and whatever it read: the score grows by exactly the live Pods lost if
      and only if no delete fails and every named Pod is still live. */
  lemma CountMatchesIff(kbkb: Kbkb, pods: seq<Pod>, podList: seq<Pod>, nodes: seq<Node>, failing: set<string>,
                        grants: seq<Grant>) returns (v: Verdict)
    requires UniqueNames(podList) && UniqueNodes(nodes) && UniqueNames(pods)
    requires Judge(kbkb.spec, podList, nodes).Erases?
    ensures v == Judge(kbkb.spec, podList, nodes)
    ensures var e := EraseEffect(kbkb, pods, kbkb, v, failing, grants);
      e.kbkb.status.totalErased - kbkb.status.totalErased == |Live(pods)| - |Live(e.pods)|
      <==> failing !! v.names && v.names <= Names(Live(pods))
  {
    v := Judge(kbkb.spec, podList, nodes);
    FoundNames(Namespace(kbkb, podList), nodes);
    CountedIffGone(kbkb, pods, v, failing, grants);
  }

  lemma SmallerCard(a: set<string>, b: set<string>)
    requires a < b
    ensures |a| < |b|
  {
    assert b == a + (b - a) && b - a != {};
  }

  /** Names of other Pods do not matter. */
  lemma {:induction false} WithoutOthers(pods: seq<Pod>, gone: set<string>)
    ensures Without(pods, gone) == Without(pods, gone * Names(pods))
  {
    if pods != [] {
      WithoutOthers(pods[1..], gone);
      WithoutOthers(pods[1..], gone * Names(pods));
      assert pods == [pods[0]] + pods[1..];
      assert gone * Names(pods) * Names(pods[1..]) == gone * Names(pods[1..]);
    }
  }

  /** On a current list that leaves failed deletes alone. */
  lemma CountMatchesIffNoDeleteFails(s: Namespace, nodes: seq<Node>, failing: set<string>)
    requires UniqueNames(s.pods) && UniqueNodes(nodes) && Found(s, nodes).Erases?
    ensures var e := EraseEffect(s.kbkb, s.pods, s.kbkb, Found(s, nodes), failing, []);
      e.kbkb.status.totalErased - s.kbkb.status.totalErased == |Live(s.pods)| - |Live(e.pods)|
      <==> failing !! Found(s, nodes).names
  {
    var v := CountMatchesIff(s.kbkb, s.pods, s.pods, nodes, failing, []);
    StableFacts(s, nodes);
    FoundNames(s, nodes);
    forall name | name in v.names ensures name in Names(Live(s.pods)) {
      var p, n := DoomedListed(s.kbkb.spec, Live(s.pods), nodes, name);
    }
  }

  /** An erase pass lengthens the chain whatever it takes: it takes a live Pod if and only if it names one whose delete
      does not fail. */
  lemma ChainTakesPodsIff(kbkb: Kbkb, pods: seq<Pod>, podList: seq<Pod>, nodes: seq<Node>, failing: set<string>,
                          grants: seq<Grant>) returns (v: Verdict)
    requires Judge(kbkb.spec, podList, nodes).Erases?
    ensures v == Judge(kbkb.spec, podList, nodes)
    ensures var e := EraseEffect(kbkb, pods, kbkb, v, failing, grants);
      && e.kbkb.status.phase == Erasing && e.kbkb.status.chain == ChainSoFar(kbkb.status) + 1
      && (Live(e.pods) != Live(pods) <==> (v.names - failing) * Names(Live(pods)) != {})
  {
    v := Judge(kbkb.spec, podList, nodes);
    TakesIff(pods, v.names - failing);
  }

  lemma {:induction false} TakesIff(pods: seq<Pod>, gone: set<string>)
    ensures Live(Terminated(pods, gone)) != Live(pods) <==> gone * Names(Live(pods)) != {}
  {
    LiveTerminated(pods, gone);
    if gone * Names(Live(pods)) == {} {
      WithoutOthers(Live(pods), gone);
      WithoutNone(Live(pods));
    } else {
      var name :| name in gone * Names(Live(pods));
      var p :| p in Live(pods) && p.name == name;
      assert p !in Without(Live(pods), gone);
    }
  }

  /** A pass that settles closes the chain, whatever there is to erase: a fresh pass right after it starts a chain of
      one, instead of going on with the old one, if and only if the Pods now there are stable and have something to
      erase. */
  lemma ChainClosesEarlyIff(kbkb: Kbkb, pods: seq<Pod>, podList: seq<Pod>, nodes: seq<Node>)
    returns (closed: Kbkb, next: Kbkb)
    requires kbkb.status.phase == Erasing && Judge(kbkb.spec, podList, nodes).Settles?
    ensures closed == EraseWrite(kbkb, kbkb, Judge(kbkb.spec, podList, nodes))
    ensures next == EraseWrite(closed, closed, Judge(closed.spec, pods, nodes))
    ensures closed.status.chain == 0
    ensures next.status.phase == Erasing && next.status.chain == 1 <==> Judge(kbkb.spec, pods, nodes).Erases?
  {
    closed := EraseWrite(kbkb, kbkb, Judge(kbkb.spec, podList, nodes));
    next := EraseWrite(closed, closed, Judge(kbkb.spec, pods, nodes));
  }

  lemma {:induction false} WithoutNone(pods: seq<Pod>)
    ensures Without(pods, {}) == pods
  {
    if pods != [] {
      WithoutNone(pods[1..]);
    }
  }

  /** A list that still shows erased Pods counts them again, and as a longer chain, though no delete fails and no live
      Pod goes. */
  lemma StaleListCountsAgain(kbkb: Kbkb, pods: seq<Pod>, nodes: seq<Node>) returns (first: Effect, second: Effect)
    requires UniqueNames(pods) && UniqueNodes(nodes) && Judge(kbkb.spec, pods, nodes).Erases?
    ensures first == EraseEffect(kbkb, pods, kbkb, Judge(kbkb.spec, pods, nodes), {}, [])
    ensures second == EraseEffect(first.kbkb, first.pods, first.kbkb, Judge(first.kbkb.spec, pods, nodes), {}, [])
    ensures second.kbkb.status.totalErased >= first.kbkb.status.totalErased + Kokeshi(kbkb.spec)
    ensures second.kbkb.status.chain == first.kbkb.status.chain + 1
    ensures Live(second.pods) == Live(first.pods)
  {
    var v := Judge(kbkb.spec, pods, nodes);
    first := EraseEffect(kbkb, pods, kbkb, v, {}, []);
    second := EraseEffect(first.kbkb, first.pods, first.kbkb, v, {}, []);
    ErasesEnough(kbkb.spec, pods, nodes);
    assert v.names - {} == v.names;
    LiveTerminated(pods, v.names);
    LiveTerminated(first.pods, v.names);
    WithoutAgain(Live(pods), v.names);
  }

  lemma {:induction false} WithoutAgain(pods: seq<Pod>, gone: set<string>)
    ensures Without(Without(pods, gone), gone) == Without(pods, gone)
  {
    if pods != [] {
      WithoutAgain(pods[1..], gone);
    }
  }

  lemma OtherMove(s: Namespace, nodes: seq<Node>, m: Move)
    requires UniqueNames(s.pods) && (m == Pass ==> Found(s, nodes).Waits?)
    ensures var t := Next(s, nodes, m);
      UniqueNames(t.pods) && t.kbkb == s.kbkb && Live(t.pods) == Live(s.pods)
  {
    match m
    case Pass =>
      assert Next(s, nodes, m) == Passed(s, Waits);
    case Vanish(name) =>
      GoneUnique(s.pods, name);
      LiveGone(s.pods, name);
    case Report(name, phase, ready) =>
      LiveReported(s.pods, name, phase, ready);
  }

  /** The score after m erasures of `erased` Pods in all, without settling. */
  predicate Scored(a: Status, b: Status, k: int, erased: int, m: nat)
  {
    match m
    case 0 => b == a && erased == 0
    case _ =>
      && b.phase == Erasing && b.chain == ChainSoFar(a) + m
      && b.maxChain == (if a.maxChain < b.chain then b.chain else a.maxChain)
      && b.totalErased == a.totalErased + erased && erased >= k * m
      && b.allClears == a.allClears
  }

  lemma ScoredStep(a: Status, mid: Status, b: Status, k: int, now: nat, later: int, m: nat)
    requires 0 <= a.chain && mid == EraseStatus(a, now) && now >= k && Scored(mid, b, k, later, m)
    ensures Scored(a, b, k, now + later, m + 1)
  {
    assert k * (m + 1) == k * m + k;
  }

  /** `after` is what m rounds leave of `before`, and those were rounds that erased. */
  ghost predicate Played(spec: Spec, before: seq<Pod>, after: seq<Pod>, nodes: seq<Node>, m: nat)
    requires UniqueNames(before) && UniqueNames(after) && UniqueNodes(nodes)
  {
    && after == AfterRounds(spec, before, nodes, m)
    && Rounds(spec, before, nodes) == m + Rounds(spec, after, nodes)
    && Rest(spec, before, nodes) == Rest(spec, after, nodes)
  }

  lemma {:induction false} PlayedStep(spec: Spec, before: seq<Pod>, nodes: seq<Node>, doomed: set<string>)
    requires UniqueNames(before) && UniqueNodes(nodes)
    requires doomed == Doomed(spec, before, nodes) != {}
    ensures UniqueNames(Without(before, doomed)) && |Without(before, doomed)| == |before| - |doomed|
    ensures |doomed| >= Kokeshi(spec)
    ensures Played(spec, before, Without(before, doomed), nodes, 1)
  {
    DoomedLeave(spec, before, nodes);
    DoomedCount(spec, before, nodes);
  }

  /** A chain is never longer than the Pods it erases allow, and leaves nothing to erase. */
  lemma {:induction false} RoundsBound(spec: Spec, live: seq<Pod>, nodes: seq<Node>)
    returns (rounds: nat, rest: seq<Pod>)
    requires UniqueNames(live) && UniqueNodes(nodes)
    ensures rounds == Rounds(spec, live, nodes) && rest == Rest(spec, live, nodes)
    ensures UniqueNames(rest) && Doomed(spec, rest, nodes) == {}
    ensures Kokeshi(spec) * rounds <= |live| - |rest|
    decreases |live|
  {
    var doomed := Doomed(spec, live, nodes);
    if doomed == {} {
      rounds, rest := 0, live;
    } else {
      PlayedStep(spec, live, nodes, doomed);
      var later;
      later, rest := RoundsBound(spec, Without(live, doomed), nodes);
      rounds := 1 + later;
      Distribute(Kokeshi(spec), later, rounds);
    }
  }

  lemma Distribute(k: int, later: nat, rounds: nat)
    requires rounds == 1 + later
    ensures k * rounds == k + k * later
  {
  }

  /** What a run of one chain from s to t, with m erasures, has done. */
  ghost predicate Chained(s: Namespace, t: Namespace, nodes: seq<Node>, m: nat)
    requires UniqueNodes(nodes)
  {
    match t
    case Namespace(kbkb, pods) =>
      && UniqueNames(Live(s.pods)) && UniqueNames(Live(pods))
      && UniqueNames(t.pods) && kbkb.spec == s.kbkb.spec
      && Played(s.kbkb.spec, Live(s.pods), Live(pods), nodes, m)
      && Scored(s.kbkb.status, kbkb.status, Kokeshi(s.kbkb.spec), |Live(s.pods)| - |Live(pods)|, m)
  }

  lemma FirstErase(s: Namespace, nodes: seq<Node>) returns (now: nat)
    requires UniqueNames(s.pods) && UniqueNodes(nodes) && Found(s, nodes).Erases?
    ensures UniqueNames(Next(s, nodes, Pass).pods)
    ensures Erased(s, Next(s, nodes, Pass), nodes, now)
  {
    var doomed := PassErases(s, nodes);
    PlayedStep(s.kbkb.spec, Live(s.pods), nodes, doomed);
    now := |doomed|;
  }

  ghost predicate Erased(s: Namespace, t: Namespace, nodes: seq<Node>, now: nat)
    requires UniqueNodes(nodes)
  {
    && UniqueNames(Live(s.pods)) && UniqueNames(Live(t.pods)) && t.kbkb.spec == s.kbkb.spec
    && Played(s.kbkb.spec, Live(s.pods), Live(t.pods), nodes, 1)
    && t.kbkb.status == EraseStatus(s.kbkb.status, now)
    && now == |Live(s.pods)| - |Live(t.pods)| && now >= Kokeshi(s.kbkb.spec)
  }

  lemma Compose(s: Namespace, mid: Namespace, t: Namespace, nodes: seq<Node>, now: nat, rest: nat, m: nat)
    requires UniqueNodes(nodes) && 0 <= s.kbkb.status.chain
    requires Erased(s, mid, nodes, now) && Chained(mid, t, nodes, rest) && m == rest + 1
    ensures Chained(s, t, nodes, m)
  {
    ScoredStep(s.kbkb.status, mid.kbkb.status, t.kbkb.status, Kokeshi(s.kbkb.spec), now,
               |Live(mid.pods)| - |Live(t.pods)|, rest);
  }

  lemma ComposeOther(s: Namespace, mid: Namespace, t: Namespace, nodes: seq<Node>, m: nat)
    requires UniqueNodes(nodes) && mid.kbkb == s.kbkb && Live(mid.pods) == Live(s.pods)
    requires Chained(mid, t, nodes, m)
    ensures Chained(s, t, nodes, m)
  {
  }

  lemma {:induction false} Unfold(s: Namespace, nodes: seq<Node>, moves: seq<Move>)
    requires moves != [] && OneChain(s, nodes, moves)
    ensures var t := Next(s, nodes, moves[0]);
      && Run(s, nodes, moves) == Run(t, nodes, moves[1..]) && OneChain(t, nodes, moves[1..])
      && Erasures(s, nodes, moves) == (if ErasesHere(s, nodes, moves[0]) then 1 else 0) + Erasures(t, nodes, moves[1..])
  {
  }

  /** Whatever the kubelet does in between, and however often the reconciler looks at an unsettled field,
      m erasures of one chain are the first m rounds of its starting Pods, scored as a chain of m. */
  lemma {:induction false} ChainRun(s: Namespace, nodes: seq<Node>, moves: seq<Move>) returns (t: Namespace, m: nat)
    requires UniqueNames(s.pods) && UniqueNodes(nodes) && OneChain(s, nodes, moves)
    requires 0 <= s.kbkb.status.chain
    ensures t == Run(s, nodes, moves) && m == Erasures(s, nodes, moves)
    ensures Chained(s, t, nodes, m)
    decreases |moves|, 1
  {
    if moves == [] {
      ChainedRefl(s, nodes);
      t, m := s, 0;
    } else if ErasesHere(s, nodes, moves[0]) {
      t, m := ChainErase(s, nodes, moves);
    } else {
      t, m := ChainOther(s, nodes, moves);
    }
  }

  lemma {:induction false} ChainErase(s: Namespace, nodes: seq<Node>, moves: seq<Move>) returns (t: Namespace, m: nat)
    requires UniqueNames(s.pods) && UniqueNodes(nodes) && OneChain(s, nodes, moves)
    requires 0 <= s.kbkb.status.chain
    requires moves != [] && ErasesHere(s, nodes, moves[0])
    ensures t == Run(s, nodes, moves) && m == Erasures(s, nodes, moves)
    ensures Chained(s, t, nodes, m)
    decreases |moves|, 0
  {
    Unfold(s, nodes, moves);
    var mid := Next(s, nodes, Pass);
    assert UniqueNames(mid.pods) && 0 <= mid.kbkb.status.chain by {
      var now := FirstErase(s, nodes);
    }
    var rest;
    t, rest := ChainRun(mid, nodes, moves[1..]);
    m := rest + 1;
    EraseThenChain(s, mid, t, nodes, rest, m);
  }

  lemma EraseThenChain(s: Namespace, mid: Namespace, t: Namespace, nodes: seq<Node>, rest: nat, m: nat)
    requires UniqueNames(s.pods) && UniqueNodes(nodes) && Found(s, nodes).Erases? && 0 <= s.kbkb.status.chain
    requires mid == Next(s, nodes, Pass) && Chained(mid, t, nodes, rest) && m == rest + 1
    ensures Chained(s, t, nodes, m)
  {
    var now := FirstErase(s, nodes);
    Compose(s, mid, t, nodes, now, rest, m);
  }

  lemma {:induction false} ChainOther(s: Namespace, nodes: seq<Node>, moves: seq<Move>) returns (t: Namespace, m: nat)
    requires UniqueNames(s.pods) && UniqueNodes(nodes) && OneChain(s, nodes, moves)
    requires 0 <= s.kbkb.status.chain
    requires moves != [] && !ErasesHere(s, nodes, moves[0])
    ensures t == Run(s, nodes, moves) && m == Erasures(s, nodes, moves)
    ensures Chained(s, t, nodes, m)
    decreases |moves|, 0
  {
    Unfold(s, nodes, moves);
    OtherMove(s, nodes, moves[0]);
    t, m := ChainRun(Next(s, nodes, moves[0]), nodes, moves[1..]);
    ComposeOther(s, Next(s, nodes, moves[0]), t, nodes, m);
  }

  lemma ChainedRefl(s: Namespace, nodes: seq<Node>)
    requires UniqueNames(s.pods) && UniqueNodes(nodes)
    ensures Chained(s, s, nodes, 0)
  {
    LiveUnique(s.pods);
  }

  function Settled(s: Status, empty: bool): Status
  {
    s.(phase := Idle, chain := 0, allClears := s.allClears + if empty then 1 else 0)
  }

  lemma PassedSettles(s: Namespace, empty: bool)
    requires s.kbkb.status.phase == Erasing
    ensures Passed(s, Settles(empty)).pods == s.pods
    ensures Passed(s, Settles(empty)).kbkb.status == Settled(s.kbkb.status, empty)
  {
  }

  /** When a chain settles, its length, what it erased and what it left depend only on the Pods it started from. */
  lemma ChainOutcome(s: Namespace, nodes: seq<Node>, moves: seq<Move>) returns (t: Namespace, m: nat)
    requires UniqueNames(s.pods) && UniqueNodes(nodes) && OneChain(s, nodes, moves)
    requires 0 <= s.kbkb.status.chain && s.kbkb.status.phase != Erasing
    requires Found(Run(s, nodes, moves), nodes).Settles?
    ensures t == Run(s, nodes, moves) && UniqueNames(Live(s.pods))
    ensures m == Erasures(s, nodes, moves) == Rounds(s.kbkb.spec, Live(s.pods), nodes)
    ensures Live(t.pods) == Rest(s.kbkb.spec, Live(s.pods), nodes)
    ensures Doomed(s.kbkb.spec, Live(t.pods), nodes) == {}
    ensures Scored(s.kbkb.status, t.kbkb.status, Kokeshi(s.kbkb.spec), |Live(s.pods)| - |Live(t.pods)|, m)
    ensures m > 0 ==> t.kbkb.status.chain == m
    ensures m > 0 ==> Next(t, nodes, Pass).kbkb.status == Settled(t.kbkb.status, Found(t, nodes).empty)
  {
    t, m := ChainRun(s, nodes, moves);
    StableFacts(t, nodes);
    FoundNames(t, nodes);
    if m > 0 {
      PassedSettles(t, Found(t, nodes).empty);
    }
  }

  // ----- A chain can always finish

  ghost predicate Healthy(pods: seq<Pod>)
  {
    forall p :: p in pods && !p.deleting ==> p.Stable()
  }

  lemma {:induction false} GoneShrinks(pods: seq<Pod>, name: string)
    ensures |Gone(pods, name)| <= |pods|
    ensures (exists p :: p in pods && p.name == name && p.deleting) ==> |Gone(pods, name)| < |pods|
  {
    if pods != [] {
      GoneShrinks(pods[1..], name);
    }
  }

  lemma HealthyIsStable(spec: Spec, pods: seq<Pod>, nodes: seq<Node>)
    requires UniqueNames(pods) && UniqueNodes(nodes) && forall p :: p in pods ==> p.Stable()
    ensures Board(spec, pods, nodes).Stable()
  {
    var f := Board(spec, pods, nodes);
    BoardIsField(spec, pods, nodes);
    forall x, y | 0 <= x < |f.columns| && 0 <= y < |f.columns[x].pods| ensures f.columns[x].pods[y].pod.Stable() {
      assert IsColumn(f.columns[x], Scheduled(pods), AnnotationColor);
      assert f.columns[x].pods[y] in f.columns[x].pods;
    }
  }

  lemma TerminatedHealthy(pods: seq<Pod>, names: set<string>)
    requires Healthy(pods)
    ensures Healthy(Terminated(pods, names))
  {
    var r := Terminated(pods, names);
    forall p | p in r && !p.deleting ensures p.Stable() {
      var i :| 0 <= i < |r| && r[i] == p;
      assert pods[i] in pods;
    }
  }

  lemma PassHealthy(s: Namespace, nodes: seq<Node>)
    requires Healthy(s.pods) && Found(s, nodes).Erases?
    ensures Healthy(Next(s, nodes, Pass).pods)
  {
    PassedErases(s, Found(s, nodes));
    TerminatedHealthy(s.pods, Found(s, nodes).names);
  }

  lemma {:induction false} FoldMove(s: Namespace, nodes: seq<Node>, m: Move, rest: seq<Move>)
    requires m == Pass ==> !Found(s, nodes).Settles?
    requires OneChain(Next(s, nodes, m), nodes, rest)
    ensures OneChain(s, nodes, [m] + rest) && Run(s, nodes, [m] + rest) == Run(Next(s, nodes, m), nodes, rest)
  {
    assert ([m] + rest)[1..] == rest;
  }

  /** While the live Pods stay healthy, removing the terminated ones and passing again settles the field, whatever is
      on it. */
  lemma {:induction false} ChainCanFinish(s: Namespace, nodes: seq<Node>) returns (moves: seq<Move>)
    requires UniqueNames(s.pods) && UniqueNodes(nodes) && Healthy(s.pods)
    ensures OneChain(s, nodes, moves) && Found(Run(s, nodes, moves), nodes).Settles?
    decreases |Live(s.pods)|, |s.pods|
  {
    if p :| p in s.pods && p.deleting {
      OtherMove(s, nodes, Vanish(p.name));
      GoneShrinks(s.pods, p.name);
      var rest := ChainCanFinish(Next(s, nodes, Vanish(p.name)), nodes);
      FoldMove(s, nodes, Vanish(p.name), rest);
      moves := [Vanish(p.name)] + rest;
    } else {
      HealthyIsStable(s.kbkb.spec, s.pods, nodes);
      assert !Found(s, nodes).Waits?;
      if Found(s, nodes).Settles? {
        moves := [];
      } else {
        var now := FirstErase(s, nodes);
        PassHealthy(s, nodes);
        var rest := ChainCanFinish(Next(s, nodes, Pass), nodes);
        FoldMove(s, nodes, Pass, rest);
        moves := [Pass] + rest;
      }
    }
  }
}
