/** Two players: the feed of pairs, and the garbage that erasures send across. */
module Versus {
  import opened Kube
  import opened FloodFill
  import opened Controller
  import opened Cascade

  /** A player's resource and Pods, every version of the resource before, and every list of Pods before. */
  datatype Player = Player(kbkb: Kbkb, pods: seq<Pod>, versions: seq<Kbkb>, past: seq<seq<Pod>>)
  {
    /** The version of the resource a reconcile may read: an old one by its index, or the current one. */
    function Version(read: nat): Kbkb
    {
      if read < |versions| then versions[read] else kbkb
    }

    /** The list it may read, likewise. */
    function Listed(at: nat): seq<Pod>
    {
      if at < |past| then past[at] else pods
    }
  }

  datatype Game = Game(a: Player, b: Player)

  /** One step in a player's namespace: a reconcile, a spec edit, a Pod deleted by hand, the scheduler, or the kubelet.
      A reconcile may have read any version of the resource, any list of Pods and any Nodes, current or not. */
  datatype Act =
    | EraseAct(read: nat, at: nat, nodes: seq<Node>, failing: set<string>, grants: seq<Grant>)
    | SpawnAct(read: nat, at: nat, nodes: seq<Node>, grants: seq<Grant>)
    | SpecAct(spec: Spec)
    | DeleteAct(name: string)
    | StampAct(name: string, order: int)
    | BindAct(name: string, node: string)
    | VanishAct(name: string)
    | ReportAct(name: string, phase: string, ready: seq<bool>)

  datatype Turn = Turn(first: bool, act: Act)

  /** The version of the resource an act goes by. */
  function ReadBy(p: Player, act: Act): Kbkb
  {
    if act.EraseAct? || act.SpawnAct? then p.Version(act.read) else p.kbkb
  }

  /** What the erase reconciler finds, if it is an erase pass. */
  ghost function Sees(p: Player, act: Act): Verdict
  {
    if act.EraseAct? then Judge(p.Version(act.read).spec, p.Listed(act.at), act.nodes) else Waits
  }

  /** What the spawn reconciler finds, if it is a spawn pass. */
  ghost function SeesSpawn(p: Player, act: Act): SpawnVerdict
  {
    if act.SpawnAct? then JudgeSpawn(p.Version(act.read), p.Listed(act.at), act.nodes) else Holds
  }

  /** The effect of an act, given what the reconcilers would find. */
  function Acted(p: Player, act: Act, v: Verdict, w: SpawnVerdict): Effect
  {
    match act
    case EraseAct(read, _, _, failing, grants) => EraseEffect(p.kbkb, p.pods, p.Version(read), v, failing, grants)
    case SpawnAct(read, _, _, grants) => SpawnEffect(p.kbkb, p.pods, p.Version(read), w, grants)
    case SpecAct(spec) => Effect(p.kbkb.(spec := spec, version := p.kbkb.version + 1), p.pods, [])
    case DeleteAct(name) => Effect(p.kbkb, Terminated(p.pods, {name}), [])
    case StampAct(name, order) => Effect(p.kbkb, Stamped(p.pods, name, order), [])
    case BindAct(name, node) => Effect(p.kbkb, Bound(p.pods, name, node), [])
    case VanishAct(name) => Effect(p.kbkb, Gone(p.pods, name), [])
    case ReportAct(name, phase, ready) => Effect(p.kbkb, Reported(p.pods, name, phase, ready), [])
  }

  ghost function Outcome(p: Player, act: Act): Effect
  {
    Acted(p, act, Sees(p, act), SeesSpawn(p, act))
  }

  /** Whose namespace a version of the resource sends its garbage to. */
  predicate Targets(from: Kbkb, to: Player)
  {
    from.spec.versus.Some? && from.spec.versus.value.opponentNamespace == to.kbkb.namespace
  }

  /** The player with a new resource and new Pods; the old ones join the past. */
  function Moved(p: Player, kbkb: Kbkb, pods: seq<Pod>): Player
  {
    Player(kbkb, pods, p.versions + [p.kbkb], p.past + [p.pods])
  }

  function Receives(to: Player, from: Kbkb, garbage: seq<Pod>): Player
  {
    if Targets(from, to) then Moved(to, to.kbkb, to.pods + garbage) else to
  }

  ghost function Step(g: Game, t: Turn): Game
  {
    if t.first then
      var e := Outcome(g.a, t.act);
      Game(Moved(g.a, e.kbkb, e.pods), Receives(g.b, ReadBy(g.a, t.act), e.garbage))
    else
      var e := Outcome(g.b, t.act);
      Game(Receives(g.a, ReadBy(g.b, t.act), e.garbage), Moved(g.b, e.kbkb, e.pods))
  }

  ghost function Run(g: Game, turns: seq<Turn>): Game
    decreases |turns|
  {
    if turns == [] then g else Run(Step(g, turns[0]), turns[1..])
  }

  /** Names no Pod of the list has. */
  ghost predicate Unused(grants: seq<Grant>, pods: seq<Pod>)
  {
    forall i :: 0 <= i < |grants| ==> grants[i].name !in Names(pods)
  }

  /** The API server hands out names no Pod of the namespace has or ever had. */
  ghost predicate FreshNames(grants: seq<Grant>, p: Player)
  {
    && (forall i, j :: 0 <= i < j < |grants| ==> grants[i].name != grants[j].name)
    && Unused(grants, p.pods) && forall k :: 0 <= k < |p.past| ==> Unused(grants, p.past[k])
  }

  /** Node names are unique, created Pods get new names, and nobody deletes garbage by hand. */
  ghost predicate Legal(act: Act, own: Player, other: Player)
  {
    match act
    case EraseAct(read, _, nodes, _, grants) =>
      UniqueNodes(nodes) && (Targets(own.Version(read), other) ==> FreshNames(grants, other))
    case SpawnAct(_, _, nodes, grants) => UniqueNodes(nodes) && FreshNames(grants, own)
    case DeleteAct(name) => name !in GarbageNames(own.pods)
    case _ => true
  }

  ghost predicate LegalTurn(g: Game, t: Turn)
  {
    if t.first then Legal(t.act, g.a, g.b) else Legal(t.act, g.b, g.a)
  }

  ghost predicate LegalRun(g: Game, turns: seq<Turn>)
    decreases |turns|
  {
    turns == [] || (LegalTurn(g, turns[0]) && LegalRun(Step(g, turns[0]), turns[1..]))
  }

  // ----- Counting Pods

  function Count(pods: seq<Pod>, want: Pod -> bool): nat
  {
    if pods == [] then 0 else (if want(pods[0]) then 1 else 0) + Count(pods[1..], want)
  }

  predicate IsGarbage(p: Pod)
  {
    p.Ojama()
  }

  /** A spawned Pod that waits for its Node. */
  predicate IsFed(p: Pod)
  {
    p.node == "" && !p.Ojama()
  }

  lemma {:induction false} CountAppend(a: seq<Pod>, b: seq<Pod>, want: Pod -> bool)
    ensures Count(a + b, want) == Count(a, want) + Count(b, want)
  {
    if a == [] {
      assert a + b == b;
    } else {
      CountAppend(a[1..], b, want);
      assert (a + b)[1..] == a[1..] + b;
    }
  }

  lemma {:induction false} CountSame(a: seq<Pod>, b: seq<Pod>, want: Pod -> bool)
    requires |a| == |b| && forall i :: 0 <= i < |a| ==> want(a[i]) == want(b[i])
    ensures Count(a, want) == Count(b, want)
  {
    if a != [] {
      CountSame(a[1..], b[1..], want);
    }
  }

  lemma {:induction false} CountLess(a: seq<Pod>, b: seq<Pod>, want: Pod -> bool)
    requires |a| == |b| && forall i :: 0 <= i < |a| && want(b[i]) ==> want(a[i])
    ensures Count(b, want) <= Count(a, want)
  {
    if a != [] {
      CountLess(a[1..], b[1..], want);
    }
  }

  lemma {:induction false} CountGone(pods: seq<Pod>, name: string, want: Pod -> bool)
    ensures Count(Gone(pods, name), want) <= Count(pods, want)
    ensures (forall p :: p in pods && p.deleting ==> !want(p)) ==> Count(Gone(pods, name), want) == Count(pods, want)
  {
    if pods != [] {
      CountGone(pods[1..], name, want);
    }
  }

  lemma {:induction false} CountAll(pods: seq<Pod>, want: Pod -> bool)
    ensures (forall p :: p in pods ==> want(p)) ==> Count(pods, want) == |pods|
    ensures (forall p :: p in pods ==> !want(p)) ==> Count(pods, want) == 0
    ensures Count(pods, want) <= |pods|
  {
    if pods != [] {
      CountAll(pods[1..], want);
    }
  }

  // ----- What every step keeps

  ghost predicate GarbageSafe(pods: seq<Pod>)
  {
    forall p :: p in pods && p.Ojama() ==> AnnotationColor(p) == WHITE && !p.deleting
  }

  function FeedLimit(spec: Spec): nat
  {
    if spec.spawn.Some? then PairOf(spec.spawn.value) else 0
  }

  /** Names are unique, garbage is white and not being deleted, and what is garbage now was white in every past list;
      an old version of the resource that is not the current one has a lower number. */
  ghost predicate Inv(p: Player)
  {
    && UniqueNames(p.pods) && GarbageSafe(p.pods) && Numbered(p.kbkb, p.versions)
    && forall k :: 0 <= k < |p.past| ==> UniqueNames(p.past[k]) && WasWhite(p.past[k], GarbageNames(p.pods))
  }

  ghost predicate WasWhite(list: seq<Pod>, names: set<string>)
  {
    forall q :: q in list && q.name in names ==> AnnotationColor(q) == WHITE
  }

  ghost predicate Numbered(kbkb: Kbkb, versions: seq<Kbkb>)
  {
    forall k :: 0 <= k < |versions| ==> versions[k] == kbkb || versions[k].version < kbkb.version
  }

  /** A write advances the version; otherwise the resource stays as it is. */
  predicate GoesOn(kbkb: Kbkb, kbkb': Kbkb)
  {
    kbkb' == kbkb || kbkb'.version == kbkb.version + 1
  }

  /** At most `limit` Pods wait, and no version of the resource asks for a larger pair. */
  ghost predicate FedInv(p: Player, limit: nat)
  {
    && Count(p.pods, IsFed) <= limit && FeedLimit(p.kbkb.spec) <= limit
    && forall k :: 0 <= k < |p.versions| ==> FeedLimit(p.versions[k].spec) <= limit
  }

  lemma CreatedPods(count: nat, grants: seq<Grant>, schedulerName: string, ojama: bool)
    ensures forall i :: 0 <= i < |Created(count, grants, schedulerName, ojama)| ==>
      var p := Created(count, grants, schedulerName, ojama)[i];
      p.name == grants[i].name && p.Ojama() == ojama && !p.deleting && p.node == ""
      && (ojama ==> AnnotationColor(p) == WHITE)
  {
    AnnotationsApart();
  }

  lemma {:induction false} AppendCreated(pods: seq<Pod>, count: nat, grants: seq<Grant>, schedulerName: string,
                                         ojama: bool)
    requires UniqueNames(pods) && GarbageSafe(pods) && Unused(grants, pods)
    requires forall i, j :: 0 <= i < j < |grants| ==> grants[i].name != grants[j].name
    ensures var made := Created(count, grants, schedulerName, ojama);
      && UniqueNames(pods + made) && GarbageSafe(pods + made)
      && GarbageNames(pods + made) == GarbageNames(pods) + (if ojama then Names(made) else {})
      && (forall n :: n in Names(made) ==> exists i :: 0 <= i < |grants| && grants[i].name == n)
      && Count(pods + made, IsGarbage) == Count(pods, IsGarbage) + (if ojama then |made| else 0)
      && Count(pods + made, IsFed) == Count(pods, IsFed) + (if ojama then 0 else |made|)
  {
    var made := Created(count, grants, schedulerName, ojama);
    CreatedPods(count, grants, schedulerName, ojama);
    CountAppend(pods, made, IsGarbage);
    CountAppend(pods, made, IsFed);
    CountAll(made, IsGarbage);
    CountAll(made, IsFed);
    assert forall p :: p in pods ==> p.name in Names(pods);
    CreatedNames(pods, made, ojama);
  }

  lemma CreatedNames(pods: seq<Pod>, made: seq<Pod>, ojama: bool)
    requires forall i :: 0 <= i < |made| ==> made[i].Ojama() == ojama
    ensures GarbageNames(pods + made) == GarbageNames(pods) + (if ojama then Names(made) else {})
  {
    forall n ensures n in GarbageNames(pods + made) <==> n in GarbageNames(pods) || (ojama && n in Names(made)) {
      if n in GarbageNames(pods) {
        var p :| p in pods && p.Ojama() && p.name == n;
        assert p in pods + made;
      } else if ojama && n in Names(made) {
        var p :| p in made && p.name == n;
        assert p in pods + made;
      }
    }
  }

  /** A change of Pods in place that touches neither names, labels nor colours. */
  lemma InPlace(a: seq<Pod>, b: seq<Pod>)
    requires UniqueNames(a) && GarbageSafe(a) && |a| == |b|
    requires forall i :: 0 <= i < |a| ==> b[i].name == a[i].name && b[i].labels == a[i].labels
    requires forall i :: 0 <= i < |a| ==> AnnotationColor(b[i]) == AnnotationColor(a[i])
    requires forall i :: 0 <= i < |a| ==> (b[i].node == "" ==> a[i].node == "")
    requires forall i :: 0 <= i < |a| && a[i].Ojama() ==> b[i].deleting == a[i].deleting
    ensures PodsKept(a, b)
  {
    CountSame(a, b, IsGarbage);
    CountLess(a, b, IsFed);
    forall p | p in b && p.Ojama() ensures AnnotationColor(p) == WHITE && !p.deleting {
      var i :| 0 <= i < |b| && b[i] == p;
      assert a[i] in a;
    }
    SameNames(a, b);
  }

  /** The same garbage, no more Pods waiting; names and garbage in order. */
  ghost predicate PodsKept(a: seq<Pod>, b: seq<Pod>)
  {
    && UniqueNames(b) && GarbageSafe(b) && GarbageNames(b) == GarbageNames(a)
    && Count(b, IsGarbage) == Count(a, IsGarbage) && Count(b, IsFed) <= Count(a, IsFed)
  }

  lemma {:induction false} VanishKeeps(pods: seq<Pod>, name: string)
    requires UniqueNames(pods) && GarbageSafe(pods)
    ensures PodsKept(pods, Gone(pods, name))
  {
    GoneUnique(pods, name);
    CountGone(pods, name, IsGarbage);
    CountGone(pods, name, IsFed);
  }

  /** An erase pass names no Pod that is white in the list it reads: white Pods are in no group. */
  lemma GarbageNotNamed(spec: Spec, list: seq<Pod>, nodes: seq<Node>, q: Pod)
    requires UniqueNames(list) && UniqueNodes(nodes) && Judge(spec, list, nodes).Erases?
    requires q in list && AnnotationColor(q) == WHITE
    ensures q.name !in Judge(spec, list, nodes).names
  {
    if q.name in Judge(spec, list, nodes).names {
      var r, n := DoomedListed(spec, list, nodes, q.name);
      NameDeterminesPod(list, q, r);
    }
  }

  /** Garbage was white in every list there is to read. */
  lemma ListedWhite(p: Player, at: nat)
    requires Inv(p)
    ensures UniqueNames(p.Listed(at)) && WasWhite(p.Listed(at), GarbageNames(p.pods))
  {
    if at >= |p.past| {
      forall q | q in p.pods && q.name in GarbageNames(p.pods) ensures AnnotationColor(q) == WHITE {
        var g :| g in p.pods && g.Ojama() && g.name == q.name;
        NameDeterminesPod(p.pods, q, g);
      }
    }
  }

  /** Nor, whatever spec and list it reads, any Pod that is garbage now. */
  lemma NowGarbageNotNamed(p: Player, spec: Spec, at: nat, nodes: seq<Node>, name: string)
    requires Inv(p) && UniqueNodes(nodes) && Judge(spec, p.Listed(at), nodes).Erases? && name in GarbageNames(p.pods)
    ensures name !in Judge(spec, p.Listed(at), nodes).names
  {
    ListedWhite(p, at);
    if name in Judge(spec, p.Listed(at), nodes).names {
      var q, n := DoomedListed(spec, p.Listed(at), nodes, name);
    }
  }

  lemma TerminateKeeps(pods: seq<Pod>, names: set<string>)
    requires UniqueNames(pods) && GarbageSafe(pods) && GarbageNames(pods) !! names
    ensures PodsKept(pods, Terminated(pods, names))
  {
    forall i | 0 <= i < |pods| && pods[i].Ojama() ensures pods[i].name !in names {
      assert pods[i] in pods;
    }
    InPlace(pods, Terminated(pods, names));
  }

  lemma StampKeeps(pods: seq<Pod>, name: string, order: int)
    requires UniqueNames(pods) && GarbageSafe(pods)
    ensures PodsKept(pods, Stamped(pods, name, order))
  {
    AnnotationsApart();
    InPlace(pods, Stamped(pods, name, order));
  }

  lemma {:induction false} NoneWaiting(pods: seq<Pod>)
    requires Unscheduled(pods) == []
    ensures Count(pods, IsFed) == 0
  {
    forall p | p in pods ensures !IsFed(p) {
      assert p.node == "" ==> p in Unscheduled(pods);
    }
    CountAll(pods, IsFed);
  }

  /** The past lists of a player whose Pods change: what is garbage afterwards was white, or was not there, all
      along. */
  lemma PastKeeps(p: Player, kbkb: Kbkb, pods: seq<Pod>, added: set<string>)
    requires Inv(p) && UniqueNames(pods) && GarbageSafe(pods) && GoesOn(p.kbkb, kbkb)
    requires GarbageNames(pods) <= GarbageNames(p.pods) + added && added !! Names(p.pods)
    requires forall k :: 0 <= k < |p.past| ==> added !! Names(p.past[k])
    ensures Inv(Moved(p, kbkb, pods))
  {
    var t := Moved(p, kbkb, pods);
    forall k | 0 <= k < |t.past| ensures UniqueNames(t.past[k]) && WasWhite(t.past[k], GarbageNames(pods)) {
      forall q | q in t.past[k] && q.name in GarbageNames(pods) ensures AnnotationColor(q) == WHITE {
        assert q.name in Names(t.past[k]);
        if k == |p.past| {
          var g :| g in p.pods && g.Ojama() && g.name == q.name;
          NameDeterminesPod(p.pods, q, g);
        } else {
          assert t.past[k] == p.past[k];
        }
      }
    }
    forall k | 0 <= k < |t.versions| ensures t.versions[k] == kbkb || t.versions[k].version < kbkb.version {
      assert k < |p.versions| ==> t.versions[k] == p.versions[k];
    }
  }

  /** What one act does to its own namespace: all garbage stays, and none is added; the spec changes only by an edit. */
  ghost predicate Kept(p: Player, act: Act, e: Effect)
  {
    && Inv(Moved(p, e.kbkb, e.pods)) && e.kbkb.namespace == p.kbkb.namespace
    && e.kbkb.spec == (if act.SpecAct? then act.spec else p.kbkb.spec)
    && GarbageNames(e.pods) == GarbageNames(p.pods) && Count(e.pods, IsGarbage) == Count(p.pods, IsGarbage)
  }

  /** What the reconcilers found names no garbage, and spawning found it enabled. */
  ghost predicate Fair(p: Player, act: Act, v: Verdict, w: SpawnVerdict)
  {
    && (v.Erases? ==> GarbageNames(p.pods) !! v.names)
    && (w == Spawns ==> act.SpawnAct? && p.Version(act.read).spec.spawn.Some?)
  }

  lemma FindsFair(p: Player, act: Act, other: Player)
    requires Inv(p) && Legal(act, p, other)
    ensures Fair(p, act, Sees(p, act), SeesSpawn(p, act))
  {
    if Sees(p, act).Erases? {
      forall name | name in GarbageNames(p.pods) ensures name !in Sees(p, act).names {
        NowGarbageNotNamed(p, p.Version(act.read).spec, act.at, act.nodes, name);
      }
    }
  }

  lemma PodsKeptKept(p: Player, act: Act, kbkb: Kbkb, pods: seq<Pod>, garbage: seq<Pod>)
    requires Inv(p) && PodsKept(p.pods, pods) && GoesOn(p.kbkb, kbkb) && kbkb.namespace == p.kbkb.namespace
    requires kbkb.spec == (if act.SpecAct? then act.spec else p.kbkb.spec)
    ensures Kept(p, act, Effect(kbkb, pods, garbage))
  {
    PastKeeps(p, kbkb, pods, {});
  }

  /** A feed grows by a pair at most, and only by a spawn pass. */
  ghost predicate FeedKept(before: seq<Pod>, after: seq<Pod>, read: Kbkb, w: SpawnVerdict)
  {
    Count(after, IsFed) <= Count(before, IsFed) + (if w == Spawns then FeedLimit(read.spec) else 0)
  }

  lemma EraseKeeps(p: Player, act: Act, v: Verdict) returns (e: Effect)
    requires Inv(p) && act.EraseAct? && Fair(p, act, v, Holds)
    ensures e == EraseEffect(p.kbkb, p.pods, p.Version(act.read), v, act.failing, act.grants)
    ensures Kept(p, act, e) && Count(e.pods, IsFed) <= Count(p.pods, IsFed)
  {
    e := EraseEffect(p.kbkb, p.pods, p.Version(act.read), v, act.failing, act.grants);
    if v.Erases? {
      TerminateKeeps(p.pods, v.names - act.failing);
    }
    PodsKeptKept(p, act, e.kbkb, e.pods, e.garbage);
  }

  lemma SpawnKeeps(p: Player, act: Act, w: SpawnVerdict) returns (e: Effect)
    requires Inv(p) && act.SpawnAct? && FreshNames(act.grants, p) && Fair(p, act, Waits, w)
    ensures e == SpawnEffect(p.kbkb, p.pods, p.Version(act.read), w, act.grants)
    ensures Kept(p, act, e) && FeedKept(p.pods, e.pods, p.Version(act.read), w)
  {
    e := SpawnEffect(p.kbkb, p.pods, p.Version(act.read), w, act.grants);
    if w == Spawns {
      var spawn := p.Version(act.read).spec.spawn.value;
      AppendCreated(p.pods, PairOf(spawn), act.grants, spawn.schedulerName, false);
    }
    PastKeeps(p, e.kbkb, e.pods, {});
  }

  lemma ActKeeps(p: Player, act: Act, v: Verdict, w: SpawnVerdict, other: Player) returns (e: Effect)
    requires Inv(p) && Fair(p, act, v, w) && Legal(act, p, other)
    ensures e == Acted(p, act, v, w) && Kept(p, act, e) && FeedKept(p.pods, e.pods, ReadBy(p, act), w)
  {
    match act
    case EraseAct(_, _, _, _, _) => e := EraseKeeps(p, act, v);
    case SpawnAct(_, _, _, _) => e := SpawnKeeps(p, act, w);
    case _ =>
      e := Acted(p, act, v, w);
      var pods := ClusterKeeps(p, act, v, w);
      PodsKeptKept(p, act, e.kbkb, pods, []);
  }

  /** Spec edits, deletions by hand, the scheduler's and the kubelet's acts. */
  lemma ClusterKeeps(p: Player, act: Act, v: Verdict, w: SpawnVerdict) returns (pods: seq<Pod>)
    requires Inv(p) && !act.EraseAct? && !act.SpawnAct? && (act.DeleteAct? ==> act.name !in GarbageNames(p.pods))
    ensures PodsKept(p.pods, pods) && Acted(p, act, v, w).pods == pods && Acted(p, act, v, w).garbage == []
  {
    match act
    case SpecAct(_) => pods := p.pods;
    case DeleteAct(name) =>
      TerminateKeeps(p.pods, {name});
      pods := Terminated(p.pods, {name});
    case StampAct(name, order) =>
      StampKeeps(p.pods, name, order);
      pods := Stamped(p.pods, name, order);
    case BindAct(name, node) =>
      pods := Bound(p.pods, name, node);
      InPlace(p.pods, pods);
    case VanishAct(name) =>
      VanishKeeps(p.pods, name);
      pods := Gone(p.pods, name);
    case ReportAct(name, phase, ready) =>
      pods := Reported(p.pods, name, phase, ready);
      InPlace(p.pods, pods);
  }

  // ----- Receiving garbage

  /** An erase pass goes through if it found something and read the current version. */
  ghost predicate Strikes(p: Player, act: Act, v: Verdict)
  {
    act.EraseAct? && v.Erases? && p.Version(act.read).version == p.kbkb.version
  }

  /** How much garbage an act makes. */
  ghost function Sent(p: Player, act: Act, v: Verdict): nat
  {
    if Strikes(p, act, v)
    then |Created(GarbageCount(ReadBy(p, act), v.count), act.grants, SpawnScheduler(ReadBy(p, act).spec), true)| else 0
  }

  /** What an act does to the other namespace: garbage may come, none goes. */
  ghost predicate Given(to: Player, to': Player, sent: nat)
  {
    && Inv(to') && to'.kbkb == to.kbkb && (to'.versions == to.versions || to'.versions == to.versions + [to.kbkb])
    && GarbageNames(to.pods) <= GarbageNames(to'.pods)
    && Count(to'.pods, IsGarbage) == Count(to.pods, IsGarbage) + sent
    && Count(to'.pods, IsFed) == Count(to.pods, IsFed)
  }

  lemma ReceiveKeeps(from: Player, to: Player, act: Act, v: Verdict, w: SpawnVerdict) returns (to': Player)
    requires Inv(to) && Legal(act, from, to)
    ensures to' == Receives(to, ReadBy(from, act), Acted(from, act, v, w).garbage)
    ensures Given(to, to', if Targets(ReadBy(from, act), to) then Sent(from, act, v) else 0)
  {
    var read := ReadBy(from, act);
    to' := Receives(to, read, Acted(from, act, v, w).garbage);
    if Targets(read, to) {
      if Strikes(from, act, v) {
        GarbageArrives(to, GarbageCount(read, v.count), act.grants, SpawnScheduler(read.spec));
      } else {
        assert to.pods + [] == to.pods;
        PastKeeps(to, to.kbkb, to.pods, {});
      }
    }
  }

  lemma GarbageArrives(to: Player, count: nat, grants: seq<Grant>, schedulerName: string)
    requires Inv(to) && FreshNames(grants, to)
    ensures var made := Created(count, grants, schedulerName, true);
      Given(to, Moved(to, to.kbkb, to.pods + made), |made|)
  {
    var made := Created(count, grants, schedulerName, true);
    AppendCreated(to.pods, count, grants, schedulerName, true);
    PastKeeps(to, to.kbkb, to.pods + made, Names(made));
  }

  // ----- Whole runs

  ghost predicate BothInv(g: Game)
  {
    Inv(g.a) && Inv(g.b)
  }

  /** Garbage stays on either side, and what the first player's opponent holds grows by what is sent. */
  ghost predicate StepKeeps(g: Game, h: Game, sent: nat)
  {
    && BothInv(h) && h.a.kbkb.namespace == g.a.kbkb.namespace && h.b.kbkb.namespace == g.b.kbkb.namespace
    && GarbageNames(g.a.pods) <= GarbageNames(h.a.pods) && GarbageNames(g.b.pods) <= GarbageNames(h.b.pods)
    && Count(h.b.pods, IsGarbage) == Count(g.b.pods, IsGarbage) + sent
  }

  /** What the first player's turn sends to the second. */
  ghost function SentAcross(g: Game, t: Turn): nat
  {
    if t.first && Targets(ReadBy(g.a, t.act), g.b) then Sent(g.a, t.act, Sees(g.a, t.act)) else 0
  }

  /** What a turn does to the feed: its own player's may grow by a pair, the other's stays. */
  ghost predicate TurnFeeds(own: Player, own': Player, other: Player, other': Player, act: Act)
  {
    && FeedKept(own.pods, own'.pods, ReadBy(own, act), SeesSpawn(own, act))
    && own'.versions == own.versions + [own.kbkb]
    && own'.kbkb.spec == (if act.SpecAct? then act.spec else own.kbkb.spec)
    && Count(other'.pods, IsFed) == Count(other.pods, IsFed) && other'.kbkb == other.kbkb
    && (other'.versions == other.versions || other'.versions == other.versions + [other.kbkb])
  }

  lemma StepInv(g: Game, t: Turn) returns (h: Game)
    requires BothInv(g) && LegalTurn(g, t)
    ensures h == Step(g, t) && StepKeeps(g, h, SentAcross(g, t))
    ensures t.first ==> TurnFeeds(g.a, h.a, g.b, h.b, t.act)
    ensures !t.first ==> TurnFeeds(g.b, h.b, g.a, h.a, t.act)
  {
    var own, other := if t.first then g.a else g.b, if t.first then g.b else g.a;
    var v, w := Sees(own, t.act), SeesSpawn(own, t.act);
    FindsFair(own, t.act, other);
    var e := ActKeeps(own, t.act, v, w, other);
    var other' := ReceiveKeeps(own, other, t.act, v, w);
    var own' := Moved(own, e.kbkb, e.pods);
    h := if t.first then Game(own', other') else Game(other', own');
  }

  /** In every run, whatever the reconcilers read, both namespaces keep names unique and garbage white and undeleted;
      whatever garbage lands on a field is there for good. */
  lemma {:induction false} RunKeeps(g: Game, turns: seq<Turn>) returns (h: Game)
    requires BothInv(g) && LegalRun(g, turns)
    ensures h == Run(g, turns) && BothInv(h)
    ensures GarbageNames(g.a.pods) <= GarbageNames(h.a.pods) && GarbageNames(g.b.pods) <= GarbageNames(h.b.pods)
    decreases |turns|
  {
    if turns == [] {
      h := g;
    } else {
      var next := StepInv(g, turns[0]);
      h := RunKeeps(next, turns[1..]);
    }
  }

  /** After every run, no erase pass of any spec, on any list there has been, names garbage. */
  lemma {:induction false} NoEraseActNamesGarbage(g: Game, turns: seq<Turn>, spec: Spec, at: nat, nodes: seq<Node>)
    returns (h: Game)
    requires BothInv(g) && LegalRun(g, turns) && UniqueNodes(nodes)
    ensures h == Run(g, turns) && NamesNone(h.a, spec, at, nodes) && NamesNone(h.b, spec, at, nodes)
  {
    h := RunKeeps(g, turns);
    ErasesNoGarbage(h.a, spec, at, nodes);
    ErasesNoGarbage(h.b, spec, at, nodes);
  }

  ghost predicate NamesNone(p: Player, spec: Spec, at: nat, nodes: seq<Node>)
  {
    var v := Judge(spec, p.Listed(at), nodes);
    v.Erases? ==> v.names !! GarbageNames(p.pods)
  }

  lemma ErasesNoGarbage(p: Player, spec: Spec, at: nat, nodes: seq<Node>)
    requires Inv(p) && UniqueNodes(nodes)
    ensures NamesNone(p, spec, at, nodes)
  {
    var v := Judge(spec, p.Listed(at), nodes);
    if v.Erases? {
      forall name | name in GarbageNames(p.pods) ensures name !in v.names {
        NowGarbageNotNamed(p, spec, at, nodes, name);
      }
    }
  }

  // ----- The feed

  /** The spawn reconciler reads the current list, though perhaps an old version of the resource. */
  ghost predicate FreshSpawn(g: Game, t: Turn)
  {
    t.act.SpawnAct? ==> t.act.at >= |(if t.first then g.a else g.b).past|
  }

  ghost predicate FreshSpawns(g: Game, turns: seq<Turn>)
    decreases |turns|
  {
    turns == [] || (FreshSpawn(g, turns[0]) && FreshSpawns(Step(g, turns[0]), turns[1..]))
  }

  /** No spec edit asks for a pair of more than `limit`. */
  predicate PairsUpTo(turns: seq<Turn>, limit: nat)
  {
    forall i :: 0 <= i < |turns| && turns[i].act.SpecAct? ==> FeedLimit(turns[i].act.spec) <= limit
  }

  lemma TurnKeepsFed(own: Player, own': Player, other: Player, other': Player, act: Act, limit: nat)
    requires FedInv(own, limit) && FedInv(other, limit) && TurnFeeds(own, own', other, other', act)
    requires act.SpawnAct? ==> act.at >= |own.past|
    requires act.SpecAct? ==> FeedLimit(act.spec) <= limit
    ensures FedInv(own', limit) && FedInv(other', limit)
  {
    if SeesSpawn(own, act) == Spawns {
      NoneWaiting(own.pods);
    }
  }

  /** In every run whose spawn passes read current Pods, whatever version of the resource they read and whatever erase
      passes read, no more Pods wait than the largest pair any spec has asked for. */
  lemma {:induction false} FeedBound(g: Game, turns: seq<Turn>, limit: nat) returns (h: Game)
    requires BothInv(g) && LegalRun(g, turns) && FreshSpawns(g, turns) && PairsUpTo(turns, limit)
    requires FedInv(g.a, limit) && FedInv(g.b, limit)
    ensures h == Run(g, turns) && FedInv(h.a, limit) && FedInv(h.b, limit)
    decreases |turns|
  {
    if turns == [] {
      h := g;
    } else {
      var t := turns[0];
      var next := StepInv(g, t);
      if t.first {
        TurnKeepsFed(g.a, next.a, g.b, next.b, t.act, limit);
      } else {
        TurnKeepsFed(g.b, next.b, g.a, next.a, t.act, limit);
      }
      h := FeedBound(next, turns[1..], limit);
    }
  }

  // ----- Conservation

  ghost predicate IsErasure(g: Game, t: Turn)
  {
    t.first && Strikes(g.a, t.act, Sees(g.a, t.act))
  }

  /** How many Pods the first player's turn erases. */
  ghost function ErasedBy(g: Game, t: Turn): nat
  {
    if IsErasure(g, t) then Sees(g.a, t.act).count else 0
  }

  ghost function TotalErased(g: Game, turns: seq<Turn>): nat
    decreases |turns|
  {
    if turns == [] then 0 else ErasedBy(g, turns[0]) + TotalErased(Step(g, turns[0]), turns[1..])
  }

  ghost function ErasureCount(g: Game, turns: seq<Turn>): nat
    decreases |turns|
  {
    if turns == [] then 0
    else (if IsErasure(g, turns[0]) then 1 else 0) + ErasureCount(Step(g, turns[0]), turns[1..])
  }

  /** The resource is set against the other player, who is not oneself, at this rate. */
  predicate Opposed(read: Kbkb, to: Player, rate: int)
  {
    && Targets(read, to) && RateOf(read.spec.versus.value) == rate
    && to.kbkb.namespace != "" && to.kbkb.namespace != read.namespace
  }

  /** Every erasure of the first player read such a resource, and all its creates succeed. */
  ghost predicate Ample(g: Game, turns: seq<Turn>, rate: int)
    decreases |turns|
  {
    turns == [] || (AmpleTurn(g, turns[0], rate) && Ample(Step(g, turns[0]), turns[1..], rate))
  }

  ghost predicate AmpleTurn(g: Game, t: Turn, rate: int)
  {
    IsErasure(g, t) ==>
      && Opposed(ReadBy(g.a, t.act), g.b, rate)
      && GarbageCount(ReadBy(g.a, t.act), Sees(g.a, t.act).count) <= |t.act.grants|
  }

  /** Garbage goes to a named opponent other than oneself, and only once a whole rate's worth is erased. */
  lemma GarbageOnlyToOpponent(kbkb: Kbkb, n: nat)
    ensures GarbageCount(kbkb, n) > 0 <==>
      && kbkb.spec.versus.Some? && kbkb.spec.versus.value.opponentNamespace !in {"", kbkb.namespace}
      && n >= RateOf(kbkb.spec.versus.value)
  {
    if kbkb.spec.versus.Some? {
      var r := RateOf(kbkb.spec.versus.value);
      assert n == r * (n / r) + n % r;
    }
  }

  lemma OneErasure(kbkb: Kbkb, n: nat, rate: int)
    requires kbkb.spec.versus.Some? && rate == RateOf(kbkb.spec.versus.value)
    requires kbkb.spec.versus.value.opponentNamespace !in {"", kbkb.namespace}
    ensures rate * GarbageCount(kbkb, n) <= n <= rate * GarbageCount(kbkb, n) + rate - 1
  {
  }

  /** Each garbage Pod stands for `rate` erased ones; each erasure may leave up to `rate - 1` over. */
  predicate Balanced(rate: int, erased: int, erasures: int, garbage: int)
  {
    rate * garbage <= erased <= rate * garbage + (rate - 1) * erasures
  }

  lemma BalancedSum(rate: int, e: int, m: int, n: int, e': int, m': int, n': int, erased: int, erasures: int,
                    garbage: int)
    requires Balanced(rate, e, m, n) && Balanced(rate, e', m', n')
    requires erased == e + e' && erasures == m + m' && garbage == n + n'
    ensures Balanced(rate, erased, erasures, garbage)
  {
    assert rate * (n + n') == rate * n + rate * n';
    assert (rate - 1) * (m + m') == (rate - 1) * m + (rate - 1) * m';
  }

  lemma StepBalanced(g: Game, t: Turn, rate: int)
    requires AmpleTurn(g, t, rate) && rate >= 1
    ensures Balanced(rate, ErasedBy(g, t), if IsErasure(g, t) then 1 else 0, SentAcross(g, t))
  {
    if IsErasure(g, t) {
      OneErasure(ReadBy(g.a, t.act), Sees(g.a, t.act).count, rate);
    }
  }

  /** One turn's share: erased Pods, erasures, garbage gained. */
  ghost predicate Share(g: Game, h: Game, t: Turn, e: nat, m: nat, n: nat)
  {
    && h == Step(g, t) && e == ErasedBy(g, t) && m == (if IsErasure(g, t) then 1 else 0)
    && Count(h.b.pods, IsGarbage) == Count(g.b.pods, IsGarbage) + n
  }

  lemma TurnShare(g: Game, t: Turn, rate: int) returns (h: Game, e: nat, m: nat, n: nat)
    requires BothInv(g) && LegalTurn(g, t) && AmpleTurn(g, t, rate) && rate >= 1
    ensures Share(g, h, t, e, m, n) && Balanced(rate, e, m, n) && BothInv(h)
  {
    h := StepInv(g, t);
    e, m, n := ErasedBy(g, t), if IsErasure(g, t) then 1 else 0, SentAcross(g, t);
    StepBalanced(g, t, rate);
  }

  /** The garbage on the opponent's field accounts for what was erased, up to the remainder lost at each erasure. */
  lemma {:induction false} GarbageConserved(g: Game, turns: seq<Turn>, rate: int)
    returns (h: Game, erased: nat, erasures: nat, gained: int)
    requires BothInv(g) && LegalRun(g, turns) && Ample(g, turns, rate) && rate >= 1
    ensures h == Run(g, turns) && erased == TotalErased(g, turns) && erasures == ErasureCount(g, turns)
    ensures gained == Count(h.b.pods, IsGarbage) - Count(g.b.pods, IsGarbage)
    ensures Balanced(rate, erased, erasures, gained)
    decreases |turns|
  {
    if turns == [] {
      h, erased, erasures, gained := g, 0, 0, 0;
    } else {
      var next, e, m, n := TurnShare(g, turns[0], rate);
      var e', m', n';
      h, e', m', n' := GarbageConserved(next, turns[1..], rate);
      erased, erasures, gained := e + e', m + m', n + n';
      BalancedSum(rate, e, m, n, e', m', n', erased, erasures, gained);
    }
  }

  // ----- The gate

  /** More Pods wait after an act only if it was a spawn that passed every gate, on the version and the list it read. */
  lemma PairsPassTheGate(p: Player, act: Act, other: Player) returns (read: Kbkb, list: seq<Pod>)
    requires Inv(p) && Legal(act, p, other)
    requires Count(Outcome(p, act).pods, IsFed) > Count(p.pods, IsFed)
    ensures act.SpawnAct? && read == p.Version(act.read) && list == p.Listed(act.at) && read.status.phase != GameOver
    ensures var f := Board(read.spec, list, act.nodes);
      && f.Stable() && ErasableCells(f, Kokeshi(read.spec)) == {} && Unscheduled(list) == []
      && read.spec.spawn.Some? && read.spec.spawn.value.enabled
      && (read.spec.spawn.value.disableGameOver || !Overflows(f, MaxHeightOf(read.spec.spawn.value)))
  {
    FindsFair(p, act, other);
    var e := ActKeeps(p, act, Sees(p, act), SeesSpawn(p, act), other);
    read, list := p.Version(act.read), p.Listed(act.at);
  }

  /** The creates of a spawn pass check no version: in a game over it adds Pods if and only if it read another
      version, and passed every gate on that one. */
  lemma SpawnsInGameOverIff(p: Player, act: Act)
    requires Inv(p) && act.SpawnAct? && act.grants != [] && p.kbkb.status.phase == GameOver
    ensures Outcome(p, act).pods != p.pods
      <==> p.Version(act.read).version != p.kbkb.version && SeesSpawn(p, act) == Spawns
  {
    var read := p.Version(act.read);
    if SeesSpawn(p, act) == Spawns {
      assert read.version == p.kbkb.version ==> read == p.kbkb;
      var spawn := read.spec.spawn.value;
      assert |Outcome(p, act).pods| == |p.pods| + |Created(PairOf(spawn), act.grants, spawn.schedulerName, false)|;
    }
  }
}
