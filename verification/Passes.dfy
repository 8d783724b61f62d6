/** What the two reconcilers do, in terms of the fields of the Pods and Nodes they listed. */
module Passes {
  import opened Options
  import opened Kube
  import opened Fields
  import opened FloodFill
  import opened Controller
  import opened Cascade
  import opened Heights

  // ----- The field, in terms of the lists

  /** The Node is a column: it carries every label asked for, and is no control plane if those are excluded. */
  ghost predicate Counts(spec: Spec, n: Node)
  {
    && (forall k :: k in spec.nodeSelector ==> (if k in n.labels then n.labels[k] else "") == spec.nodeSelector[k])
    && (spec.excludeControlPlane ==>
        "node-role.kubernetes.io/control-plane" !in n.labels && "node-role.kubernetes.io/master" !in n.labels)
  }

  /** The Pod is bound to such a Node. */
  ghost predicate OnField(spec: Spec, p: Pod, nodes: seq<Node>)
  {
    exists n :: n in nodes && Counts(spec, n) && n.name == p.node
  }

  /** Every Pod of the field runs, with all its containers ready, and is not being deleted. */
  ghost predicate Calm(spec: Spec, pods: seq<Pod>, nodes: seq<Node>)
  {
    forall p :: p in pods && OnField(spec, p, nodes) ==>
      p.phase == "Running" && !p.deleting && forall i :: 0 <= i < |p.ready| ==> p.ready[i]
  }

  /** No Pod waits, and none is on the field. */
  ghost predicate Cleared(spec: Spec, pods: seq<Pod>, nodes: seq<Node>)
  {
    forall p :: p in pods ==> p.node != "" && !OnField(spec, p, nodes)
  }

  lemma ColumnIff(spec: Spec, nodes: seq<Node>, n: Node)
    ensures n in Columns(spec, nodes) <==> n in nodes && Counts(spec, n)
  {
    assert Selected(n, spec.nodeSelector, spec.excludeControlPlane) <==> Counts(spec, n);
  }

  /** A Pod on the field has a cell. */
  lemma CellFor(spec: Spec, pods: seq<Pod>, nodes: seq<Node>, p: Pod) returns (x: int, y: int)
    requires UniqueNames(pods) && UniqueNodes(nodes) && p in pods && OnField(spec, p, nodes)
    ensures var f := Board(spec, pods, nodes); f.At(x, y) == Some(Cell(p, AnnotationColor(p)))
  {
    var f := Board(spec, pods, nodes);
    BoardIsField(spec, pods, nodes);
    var n :| n in nodes && Counts(spec, n) && n.name == p.node;
    ColumnIff(spec, nodes, n);
    x, y := CellOf(f, Scheduled(pods), Columns(spec, nodes), AnnotationColor, p, n);
  }

  /** And every cell is such a Pod's. */
  lemma CellIsFor(spec: Spec, pods: seq<Pod>, nodes: seq<Node>, x: int, y: int) returns (p: Pod)
    requires UniqueNames(pods) && UniqueNodes(nodes) && Board(spec, pods, nodes).At(x, y).Some?
    ensures Board(spec, pods, nodes).At(x, y) == Some(Cell(p, AnnotationColor(p)))
    ensures p in pods && p.node != "" && OnField(spec, p, nodes)
  {
    var f := Board(spec, pods, nodes);
    BoardIsField(spec, pods, nodes);
    p := f.columns[x].pods[y].pod;
    assert f.columns[x].pods[y] in f.columns[x].pods && NodesOf(f)[x] in NodesOf(f);
    ColumnIff(spec, nodes, f.columns[x].node);
  }

  lemma StableIffCalm(spec: Spec, pods: seq<Pod>, nodes: seq<Node>)
    requires UniqueNames(pods) && UniqueNodes(nodes)
    ensures Board(spec, pods, nodes).Stable() <==> Calm(spec, pods, nodes)
  {
    var f := Board(spec, pods, nodes);
    if f.Stable() {
      forall p | p in pods && OnField(spec, p, nodes)
        ensures p.phase == "Running" && !p.deleting && forall i :: 0 <= i < |p.ready| ==> p.ready[i]
      {
        var x, y := CellFor(spec, pods, nodes, p);
        assert f.columns[x].pods[y].pod.Stable();
      }
    }
    if Calm(spec, pods, nodes) {
      forall x, y | 0 <= x < |f.columns| && 0 <= y < |f.columns[x].pods| ensures f.columns[x].pods[y].pod.Stable() {
        var p := CellIsFor(spec, pods, nodes, x, y);
      }
    }
  }

  lemma EmptyIffNoneOn(spec: Spec, pods: seq<Pod>, nodes: seq<Node>)
    requires UniqueNames(pods) && UniqueNodes(nodes)
    ensures Board(spec, pods, nodes).Empty() <==> forall p :: p in pods ==> !OnField(spec, p, nodes)
  {
    var f := Board(spec, pods, nodes);
    if f.Empty() {
      forall p | p in pods ensures !OnField(spec, p, nodes) {
        if OnField(spec, p, nodes) {
          var x, y := CellFor(spec, pods, nodes, p);
        }
      }
    }
    if !f.Empty() {
      var x :| 0 <= x < |f.columns| && f.columns[x].pods != [];
      var p := CellIsFor(spec, pods, nodes, x, 0);
    }
  }

  lemma {:induction false} NoneWaitsIff(pods: seq<Pod>)
    ensures Unscheduled(pods) == [] <==> forall p :: p in pods ==> p.node != ""
  {
    if pods != [] {
      NoneWaitsIff(pods[..|pods| - 1]);
      assert pods == pods[..|pods| - 1] + [pods[|pods| - 1]];
    }
  }

  /** Some column holds at least `limit` Pods. */
  lemma OverflowsIff(spec: Spec, pods: seq<Pod>, nodes: seq<Node>, limit: int)
    requires UniqueNames(pods) && UniqueNodes(nodes)
    ensures Overflows(Board(spec, pods, nodes), limit) <==>
      exists n :: n in nodes && Counts(spec, n) && |NamesOn(pods, n.name)| >= limit
  {
    var f := Board(spec, pods, nodes);
    BoardIsField(spec, pods, nodes);
    forall x | 0 <= x < |f.columns|
      ensures f.columns[x].node in nodes && Counts(spec, f.columns[x].node)
      ensures f.Height(x) == |NamesOn(pods, f.columns[x].node.name)|
    {
      assert NodesOf(f)[x] in NodesOf(f);
      ColumnIff(spec, nodes, f.columns[x].node);
      ColumnHeight(f.columns[x], pods);
    }
    if n :| n in nodes && Counts(spec, n) && |NamesOn(pods, n.name)| >= limit {
      ColumnIff(spec, nodes, n);
      var x :| 0 <= x < |f.columns| && NodesOf(f)[x] == n;
      assert f.Height(x) >= limit;
    }
  }

  /** Only a colour annotation that is neither empty nor white makes a Pod erasable. */
  lemma ErasedAreColored(spec: Spec, pods: seq<Pod>, nodes: seq<Node>, threshold: int, name: string) returns (p: Pod)
    requires UniqueNames(pods) && UniqueNodes(nodes)
    requires name in ErasableNames(Board(spec, pods, nodes), threshold)
    ensures p in pods && p.name == name && OnField(spec, p, nodes)
    ensures var key := "kbkb.k8s.omakenoyouna.net/color"; key in p.annotations && p.annotations[key] !in {"", "white"}
  {
    var f := Board(spec, pods, nodes);
    var at :| at in ErasableCells(f, threshold) && CellAt(f, at).pod.name == name;
    p := CellIsFor(spec, pods, nodes, at.x, at.y);
  }

  /** Two neighbouring cells are of one group exactly if their Pods carry the same such annotation. */
  lemma LinkedIff(spec: Spec, pods: seq<Pod>, nodes: seq<Node>, a: Pos, b: Pos)
    requires UniqueNames(pods) && UniqueNodes(nodes)
    requires InField(Board(spec, pods, nodes), a) && InField(Board(spec, pods, nodes), b)
    ensures var f := Board(spec, pods, nodes);
      var p, q := CellAt(f, a).pod.annotations, CellAt(f, b).pod.annotations;
      Linked(f, a, b) <==>
        && (if a.x < b.x then b.x - a.x else a.x - b.x) + (if a.y < b.y then b.y - a.y else a.y - b.y) == 1
        && COLOR_ANNOTATION in p && COLOR_ANNOTATION in q && p[COLOR_ANNOTATION] == q[COLOR_ANNOTATION]
        && p[COLOR_ANNOTATION] !in {"", "white"}
  {
    var p := CellIsFor(spec, pods, nodes, a.x, a.y);
    var q := CellIsFor(spec, pods, nodes, b.x, b.y);
  }

  // ----- The erase pass

  /** What the pass finds erasable: the groups of at least `kokeshi` cells, or 4 if that is below 2. */
  ghost function Popping(read: Kbkb, pods: seq<Pod>, nodes: seq<Node>): set<Pos>
  {
    ErasableCells(Board(read.spec, pods, nodes), if read.spec.kokeshi < 2 then 4 else read.spec.kokeshi)
  }

  /** While a Pod of the field has not settled, nothing happens. */
  lemma PassWaits(kbkb: Kbkb, pods: seq<Pod>, read: Kbkb, podList: seq<Pod>, nodes: seq<Node>, failing: set<string>,
                  grants: seq<Grant>)
    requires UniqueNames(podList) && UniqueNodes(nodes) && !Calm(read.spec, podList, nodes)
    ensures Reconciled(kbkb, pods, read, podList, nodes, failing, grants) == Effect(kbkb, pods, [])
  {
    StableIffCalm(read.spec, podList, nodes);
  }

  /** If the resource has moved on, nothing happens either. */
  lemma PassConflicts(kbkb: Kbkb, pods: seq<Pod>, read: Kbkb, podList: seq<Pod>, nodes: seq<Node>,
                      failing: set<string>, grants: seq<Grant>)
    requires read.version != kbkb.version
    ensures Reconciled(kbkb, pods, read, podList, nodes, failing, grants) == Effect(kbkb, pods, [])
  {
  }

  /** With nothing to erase, the pass closes the chain of an erasing game, and counts an all-clear if and only if no
      listed Pod waits or is on the field; exactly then it starts a finished game again; it leaves an idle game
      alone. */
  lemma PassSettles(kbkb: Kbkb, pods: seq<Pod>, podList: seq<Pod>, nodes: seq<Node>, failing: set<string>,
                    grants: seq<Grant>) returns (e: Effect)
    requires UniqueNames(podList) && UniqueNodes(nodes)
    requires Calm(kbkb.spec, podList, nodes) && Popping(kbkb, podList, nodes) == {}
    ensures e == Reconciled(kbkb, pods, kbkb, podList, nodes, failing, grants) && e.pods == pods && e.garbage == []
    ensures var was, cleared := kbkb.status, Cleared(kbkb.spec, podList, nodes);
      e.kbkb.status == match was.phase
        case Erasing => Status(Idle, 0, was.maxChain, was.totalErased, was.allClears + if cleared then 1 else 0)
        case GameOver => if cleared then Status(Idle, 0, 0, 0, 0) else was
        case Fresh => Status(Idle, 0, was.maxChain, was.totalErased, was.allClears)
        case Idle => was
  {
    e := Reconciled(kbkb, pods, kbkb, podList, nodes, failing, grants);
    StableIffCalm(kbkb.spec, podList, nodes);
    EmptyIffNoneOn(kbkb.spec, podList, nodes);
    NoneWaitsIff(podList);
  }

  /** The Pod the API server makes of a garbage request: labelled, white, waiting for its scheduler. */
  ghost predicate IsGarbageFor(p: Pod, grant: Grant, schedulerName: string)
  {
    && p.name == grant.name && p.created == grant.created && p.node == "" && !p.deleting
    && OJAMA_LABEL in p.labels && p.labels[OJAMA_LABEL] == "true"
    && MANAGED_LABEL in p.labels && p.labels[MANAGED_LABEL] == "true"
    && COLOR_ANNOTATION in p.annotations && p.annotations[COLOR_ANNOTATION] == "white"
    && p.schedulerName == if schedulerName == "" then "kbkb-scheduler" else schedulerName
  }

  /** How many garbage Pods an erasure of n asks for: a whole number of rates, for an opponent that is someone else. */
  function Wanted(read: Kbkb, n: nat): nat
  {
    match read.spec.versus
    case None => 0
    case Some(v) =>
      if v.opponentNamespace in {"", read.namespace} then 0 else if v.garbageRate < 1 then n / 2 else n / v.garbageRate
  }

  lemma GarbagePods(read: Kbkb, n: nat, grants: seq<Grant>) returns (made: seq<Pod>)
    ensures made == Created(GarbageCount(read, n), grants, SpawnScheduler(read.spec), true)
    ensures |made| == (if Wanted(read, n) < |grants| then Wanted(read, n) else |grants|)
    ensures forall i :: 0 <= i < |made| ==>
      IsGarbageFor(made[i], grants[i], if read.spec.spawn.Some? then read.spec.spawn.value.schedulerName else "")
  {
    made := Created(GarbageCount(read, n), grants, SpawnScheduler(read.spec), true);
    AnnotationsApart();
  }

  /** The score after erasing n cells: the chain goes on, or starts at one. */
  predicate Scores(was: Status, now: Status, n: nat)
  {
    && now.phase == Erasing && now.chain == (if was.phase == Erasing then was.chain + 1 else 1)
    && now.maxChain == (if was.maxChain < now.chain then now.chain else was.maxChain)
    && now.totalErased == was.totalErased + n && now.allClears == was.allClears
  }

  /** The Pods of these names terminate; the others stay as they are. */
  predicate Terminate(pods: seq<Pod>, pods': seq<Pod>, names: set<string>)
  {
    |pods'| == |pods| && forall i :: 0 <= i < |pods| ==>
      pods'[i] == pods[i].(deleting := pods[i].deleting || pods[i].name in names)
  }

  /** With something to erase, the erasure is scored, its Pods terminate, save failed deletes, and its garbage is
      made, up to the first refused create. */
  lemma PassErases(kbkb: Kbkb, pods: seq<Pod>, podList: seq<Pod>, nodes: seq<Node>, failing: set<string>,
                   grants: seq<Grant>) returns (e: Effect, names: set<string>)
    requires UniqueNames(podList) && UniqueNodes(nodes)
    requires Calm(kbkb.spec, podList, nodes) && Popping(kbkb, podList, nodes) != {}
    ensures e == Reconciled(kbkb, pods, kbkb, podList, nodes, failing, grants)
    ensures names == set at | at in Popping(kbkb, podList, nodes) ::
      CellAt(Board(kbkb.spec, podList, nodes), at).pod.name
    ensures Scores(kbkb.status, e.kbkb.status, |Popping(kbkb, podList, nodes)|)
    ensures Terminate(pods, e.pods, names - failing)
    ensures var n := Wanted(kbkb, |Popping(kbkb, podList, nodes)|); |e.garbage| == if n < |grants| then n else |grants|
    ensures forall i :: 0 <= i < |e.garbage| ==>
      IsGarbageFor(e.garbage[i], grants[i], if kbkb.spec.spawn.Some? then kbkb.spec.spawn.value.schedulerName else "")
  {
    e := Reconciled(kbkb, pods, kbkb, podList, nodes, failing, grants);
    names := ErasableNames(Board(kbkb.spec, podList, nodes), Kokeshi(kbkb.spec));
    StableIffCalm(kbkb.spec, podList, nodes);
    var v := Judge(kbkb.spec, podList, nodes);
    assert v == Erases(names, |Popping(kbkb, podList, nodes)|);
    var made := GarbagePods(kbkb, v.count, grants);
    assert Terminate(pods, Terminated(pods, names - failing), names - failing);
  }

  // ----- The spawn pass

  /** Spawning is on, the game is not over, nothing waits, the field is calm and has nothing to erase. */
  ghost predicate MayAct(read: Kbkb, pods: seq<Pod>, nodes: seq<Node>)
  {
    && read.spec.spawn.Some? && read.spec.spawn.value.enabled && read.status.phase != GameOver
    && (forall p :: p in pods ==> p.node != "")
    && Calm(read.spec, pods, nodes) && Popping(read, pods, nodes) == {}
  }

  /** Game overs are on, and some column holds at least `maxHeight` Pods, or 12 if that is below 1. */
  ghost predicate IsOver(read: Kbkb, pods: seq<Pod>, nodes: seq<Node>)
    requires read.spec.spawn.Some?
  {
    var spawn := read.spec.spawn.value;
    !spawn.disableGameOver
    && exists n :: n in nodes && Counts(read.spec, n)
                   && |NamesOn(pods, n.name)| >= if spawn.maxHeight < 1 then 12 else spawn.maxHeight
  }

  /** The Pod the API server makes of a spawn request: waiting for its scheduler, and not garbage. */
  ghost predicate IsSpawnedFor(p: Pod, grant: Grant, schedulerName: string)
  {
    && p.name == grant.name && p.created == grant.created && p.node == "" && !p.deleting && OJAMA_LABEL !in p.labels
    && MANAGED_LABEL in p.labels && p.labels[MANAGED_LABEL] == "true"
    && (grant.hook.Some? ==> COLOR_ANNOTATION in p.annotations
                             && p.annotations[COLOR_ANNOTATION] in {"red", "green", "yellow", "blue", "purple"})
    && p.schedulerName == if schedulerName == "" then "kbkb-scheduler" else schedulerName
  }

  lemma SpawnVerdictIff(read: Kbkb, podList: seq<Pod>, nodes: seq<Node>)
    requires UniqueNames(podList) && UniqueNodes(nodes)
    ensures JudgeSpawn(read, podList, nodes) ==
      if !MayAct(read, podList, nodes) then Holds else if IsOver(read, podList, nodes) then EndsGame else Spawns
  {
    StableIffCalm(read.spec, podList, nodes);
    NoneWaitsIff(podList);
    if read.spec.spawn.Some? {
      OverflowsIff(read.spec, podList, nodes, MaxHeightOf(read.spec.spawn.value));
    }
  }

  /** A spawn pass declares the game over if and only if it read the current version, may act, and the game is over. */
  lemma PassEndsGameIff(kbkb: Kbkb, pods: seq<Pod>, read: Kbkb, podList: seq<Pod>, nodes: seq<Node>, grants: seq<Grant>)
    returns (e: Effect)
    requires UniqueNames(podList) && UniqueNodes(nodes) && kbkb.status.phase != GameOver
    requires kbkb.version == read.version ==> kbkb == read
    ensures e == SpawnReconciled(kbkb, pods, read, podList, nodes, grants)
    ensures e.kbkb.status.phase == GameOver <==>
      kbkb.version == read.version && MayAct(read, podList, nodes) && IsOver(read, podList, nodes)
    ensures e.kbkb.status == kbkb.status.(phase := e.kbkb.status.phase)
    ensures e.kbkb.status.phase != GameOver ==> e.kbkb == kbkb
  {
    e := SpawnReconciled(kbkb, pods, read, podList, nodes, grants);
    SpawnVerdictIff(read, podList, nodes);
  }

  /** It creates `pair` Pods, or 2 if that is below 1, up to the first refused create, if it may act and the game is not
      over, whatever is current; otherwise none. */
  lemma PassSpawns(kbkb: Kbkb, pods: seq<Pod>, read: Kbkb, podList: seq<Pod>, nodes: seq<Node>, grants: seq<Grant>)
    returns (e: Effect, made: seq<Pod>)
    requires UniqueNames(podList) && UniqueNodes(nodes)
    ensures e == SpawnReconciled(kbkb, pods, read, podList, nodes, grants) && e.pods == pods + made
    ensures !(MayAct(read, podList, nodes) && !IsOver(read, podList, nodes)) ==> made == []
    ensures MayAct(read, podList, nodes) && !IsOver(read, podList, nodes) ==>
      var spawn := read.spec.spawn.value;
      var pair := if spawn.pair < 1 then 2 else spawn.pair;
      && |made| == (if pair < |grants| then pair else |grants|)
      && forall i :: 0 <= i < |made| ==> IsSpawnedFor(made[i], grants[i], spawn.schedulerName)
  {
    e := SpawnReconciled(kbkb, pods, read, podList, nodes, grants);
    SpawnVerdictIff(read, podList, nodes);
    made := e.pods[|pods|..];
    if JudgeSpawn(read, podList, nodes) == Spawns {
      var spawn := read.spec.spawn.value;
      made := Created(PairOf(spawn), grants, spawn.schedulerName, false);
      forall i | 0 <= i < |made| ensures IsSpawnedFor(made[i], grants[i], spawn.schedulerName) {
        SpawnedPod(grants[i], spawn.schedulerName);
      }
    } else {
      made := [];
    }
  }

  lemma SpawnedPod(grant: Grant, schedulerName: string)
    ensures IsSpawnedFor(Admitted(KbkbPod(grant, schedulerName, false), grant.hook), grant, schedulerName)
  {
    AnnotationsApart();
    if grant.hook.Some? {
      AdmissionColors(grant, schedulerName, grant.hook.value);
    }
  }
}
