/** The two reconcilers of the game loop, and the API server they write to. */
module Controller {
  import opened Options
  import opened Kube
  import opened Fields
  import opened FloodFill

  // ----- The Kbkb resource

  /** `Fresh` is the empty phase of a new object. */
  datatype Phase = Fresh | Idle | Erasing | GameOver

  datatype Status = Status(phase: Phase, chain: int, maxChain: int, totalErased: int, allClears: int)

  datatype SpawnSpec = SpawnSpec(enabled: bool, pair: int, schedulerName: string, maxHeight: int, disableGameOver: bool)

  datatype VersusSpec = VersusSpec(opponentNamespace: string, garbageRate: int)

  datatype Spec = Spec(kokeshi: int, nodeSelector: map<string, string>, excludeControlPlane: bool,
                       spawn: Option<SpawnSpec>, versus: Option<VersusSpec>)

  /** `version` is the resource version every write advances. */
  datatype Kbkb = Kbkb(namespace: string, spec: Spec, status: Status, version: nat)

  const DEFAULT_SCHEDULER := "kbkb-scheduler"

  function Kokeshi(spec: Spec): (k: int)
    ensures k >= 2
  {
    if spec.kokeshi < 2 then 4 else spec.kokeshi
  }

  function MaxHeightOf(spawn: SpawnSpec): (h: int)
    ensures h >= 1
  {
    if spawn.maxHeight < 1 then 12 else spawn.maxHeight
  }

  function PairOf(spawn: SpawnSpec): (n: nat)
    ensures n >= 1
  {
    if spawn.pair < 1 then 2 else spawn.pair
  }

  function RateOf(versus: VersusSpec): (r: int)
    ensures r >= 1
  {
    if versus.garbageRate < 1 then 2 else versus.garbageRate
  }

  // ----- Creating Pods

  /** What the API server adds to a created Pod; `hook` is the webhook's random pick, or None if the webhook was
      skipped. */
  datatype Grant = Grant(name: string, created: int, hook: Option<nat>)

  /** A new, unscheduled Pod as the reconcilers ask for it. */
  function KbkbPod(grant: Grant, schedulerName: string, ojama: bool): Pod
  {
    Pod(grant.name, "", grant.created,
        if ojama then map[MANAGED_LABEL := "true", OJAMA_LABEL := "true"] else map[MANAGED_LABEL := "true"],
        if ojama then map[COLOR_ANNOTATION := WHITE] else map[],
        if schedulerName == "" then DEFAULT_SCHEDULER else schedulerName,
        false, "Pending", [])
  }

  method NewKbkbPod(grant: Grant, schedulerName: string, ojama: bool) returns (pod: Pod)
    ensures pod == KbkbPod(grant, schedulerName, ojama)
  {
    var scheduler := schedulerName;
    if scheduler == "" {
      scheduler := DEFAULT_SCHEDULER;
    }
    pod := Pod(grant.name, "", grant.created, map[MANAGED_LABEL := "true"], map[], scheduler, false, "Pending", []);
    if ojama {
      pod := pod.(labels := pod.labels[OJAMA_LABEL := "true"]);
      pod := pod.(annotations := map[COLOR_ANNOTATION := WHITE]);
    }
  }

  /** The colour webhook: a managed Pod without a colour gets a random one. */
  function Admitted(pod: Pod, hook: Option<nat>): Pod
  {
    if hook.None? || !(MANAGED_LABEL in pod.labels && pod.labels[MANAGED_LABEL] == "true") then pod
    else if COLOR_ANNOTATION in pod.annotations && pod.annotations[COLOR_ANNOTATION] != "" then pod
    else pod.(annotations := pod.annotations[COLOR_ANNOTATION := COLORS[hook.value % |COLORS|]])
  }

  method Default(pod: Pod, pick: nat) returns (admitted: Pod)
    ensures admitted == Admitted(pod, Some(pick))
  {
    admitted := pod;
    if !(MANAGED_LABEL in pod.labels && pod.labels[MANAGED_LABEL] == "true") {
      return;
    }
    if COLOR_ANNOTATION in pod.annotations && pod.annotations[COLOR_ANNOTATION] != "" {
      return;
    }
    var color := COLORS[pick % |COLORS|];
    admitted := admitted.(annotations := admitted.annotations[COLOR_ANNOTATION := color]);
  }

  /** The webhook touches a Pod if and only if it is managed and has no colour, and then only its colour, which is
      from the palette. */
  lemma AdmissionTouches(pod: Pod, pick: nat) returns (admitted: Pod)
    ensures admitted == Admitted(pod, Some(pick))
    ensures admitted != pod <==>
      && "kbkb.k8s.omakenoyouna.net/managed" in pod.labels && pod.labels["kbkb.k8s.omakenoyouna.net/managed"] == "true"
      && (COLOR_ANNOTATION !in pod.annotations || pod.annotations[COLOR_ANNOTATION] == "")
    ensures admitted != pod ==>
      && COLOR_ANNOTATION in admitted.annotations
      && admitted.annotations[COLOR_ANNOTATION] in {"red", "green", "yellow", "blue", "purple"}
      && admitted == pod.(annotations := pod.annotations[COLOR_ANNOTATION := admitted.annotations[COLOR_ANNOTATION]])
  {
    admitted := Admitted(pod, Some(pick));
    var color := COLORS[pick % |COLORS|];
    assert color in COLORS && color != "";
    assert COLOR_ANNOTATION in pod.annotations && pod.annotations[COLOR_ANNOTATION] == "" ==>
      admitted.annotations[COLOR_ANNOTATION] != pod.annotations[COLOR_ANNOTATION] || admitted == pod;
  }

  /** The first `count` Pods granted; the first create the API server refuses ends the list. */
  function Created(count: nat, grants: seq<Grant>, schedulerName: string, ojama: bool): seq<Pod>
  {
    seq(if count < |grants| then count else |grants|, i requires 0 <= i < |grants| =>
      Admitted(KbkbPod(grants[i], schedulerName, ojama), grants[i].hook))
  }

  /** The webhook colours a spawned Pod from the palette, so it can be erased; it leaves garbage, and any chosen
      colour, alone. */
  lemma AdmissionColors(grant: Grant, schedulerName: string, pick: nat)
    ensures AnnotationColor(Admitted(KbkbPod(grant, schedulerName, false), Some(pick))) in COLORS
    ensures WHITE !in COLORS
    ensures Admitted(KbkbPod(grant, schedulerName, true), Some(pick)) == KbkbPod(grant, schedulerName, true)
    ensures AnnotationColor(KbkbPod(grant, schedulerName, true)) == WHITE
    ensures AnnotationColor(Admitted(KbkbPod(grant, schedulerName, false), None)) == WHITE
  {
    var color := COLORS[pick % |COLORS|];
    assert color in COLORS && color != "";
  }

  // ----- The API server

  function Terminated(pods: seq<Pod>, names: set<string>): (r: seq<Pod>)
    ensures |r| == |pods|
  {
    seq(|pods|, i requires 0 <= i < |pods| => if pods[i].name in names then pods[i].(deleting := true) else pods[i])
  }

  /** A status write takes effect only on the version it read. */
  function Written(current: Kbkb, read: Kbkb, status: Status): Kbkb
  {
    if current.version == read.version then current.(status := status, version := current.version + 1) else current
  }

  class Api {
    var kbkb: Kbkb
    var pods: seq<Pod>

    constructor (kbkb: Kbkb, pods: seq<Pod>)
      ensures this.kbkb == kbkb && this.pods == pods
    {
      this.kbkb, this.pods := kbkb, pods;
    }

    method UpdateStatus(written: Kbkb) returns (ok: bool)
      modifies this`kbkb
      ensures ok == (old(kbkb).version == written.version)
      ensures kbkb == Written(old(kbkb), written, written.status)
    {
      ok := kbkb.version == written.version;
      if ok {
        kbkb := kbkb.(status := written.status, version := kbkb.version + 1);
      }
    }

    /** A graceful delete: the Pod stays, terminating, until the kubelet is done. A missing Pod is no error. */
    method Delete(name: string)
      modifies this`pods
      ensures pods == Terminated(old(pods), {name})
    {
      var ps := pods;
      pods := seq(|ps|, i requires 0 <= i < |ps| => if ps[i].name == name then ps[i].(deleting := true) else ps[i]);
    }
  }

  // ----- buildField

  function Scheduled(pods: seq<Pod>): (r: seq<Pod>)
    ensures forall p :: p in r <==> p in pods && p.node != ""
  {
    if pods == [] then []
    else
      var p := pods[|pods| - 1];
      assert pods == pods[..|pods| - 1] + [p];
      if p.node == "" then Scheduled(pods[..|pods| - 1]) else Scheduled(pods[..|pods| - 1]) + [p]
  }

  function Unscheduled(pods: seq<Pod>): (r: seq<Pod>)
    ensures forall p :: p in r <==> p in pods && p.node == ""
  {
    if pods == [] then []
    else
      var p := pods[|pods| - 1];
      assert pods == pods[..|pods| - 1] + [p];
      if p.node == "" then Unscheduled(pods[..|pods| - 1]) + [p] else Unscheduled(pods[..|pods| - 1])
  }

  lemma {:induction false} ScheduledUnique(pods: seq<Pod>)
    requires UniqueNames(pods)
    ensures UniqueNames(Scheduled(pods))
  {
    if pods != [] {
      var init, last := pods[..|pods| - 1], pods[|pods| - 1];
      ScheduledUnique(init);
      forall p | p in Scheduled(init) ensures p.name != last.name {
        assert p in init;
      }
    }
  }

  function Columns(spec: Spec, nodes: seq<Node>): seq<Node>
  {
    SelectedNodes(nodes, spec.nodeSelector, spec.excludeControlPlane)
  }

  function Board(spec: Spec, pods: seq<Pod>, nodes: seq<Node>): Field
  {
    FieldOf(Scheduled(pods), Columns(spec, nodes), AnnotationColor)
  }

  method BuildField(spec: Spec, podList: seq<Pod>, nodeList: seq<Node>) returns (f: Field, unscheduled: seq<Pod>)
    ensures f == Board(spec, podList, nodeList) && unscheduled == Unscheduled(podList)
  {
    var pods: seq<Pod> := [];
    unscheduled := [];
    for i := 0 to |podList|
      invariant pods == Scheduled(podList[..i]) && unscheduled == Unscheduled(podList[..i])
    {
      assert podList[..i + 1][..i] == podList[..i];
      if podList[i].node == "" {
        unscheduled := unscheduled + [podList[i]];
        continue;
      }
      pods := pods + [podList[i]];
    }
    assert podList[..|podList|] == podList;
    var nodes := SelectNodes(nodeList, spec.nodeSelector, spec.excludeControlPlane);
    f := New(pods, nodes, AnnotationColor);
  }

  // ----- The erase reconciler

  function EraseStatus(s: Status, erased: nat): Status
  {
    var chain := if s.phase == Erasing then s.chain + 1 else 1;
    s.(phase := Erasing, chain := chain, maxChain := if s.maxChain < chain then chain else s.maxChain,
       totalErased := s.totalErased + erased)
  }

  /** None: nothing to write. */
  function SettleStatus(s: Status, empty: bool): Option<Status>
  {
    match s.phase
    case Fresh => Some(s.(phase := Idle, chain := 0))
    case Erasing => Some(s.(phase := Idle, chain := 0, allClears := if empty then s.allClears + 1 else s.allClears))
    case GameOver => if empty then Some(Status(Idle, 0, 0, 0, 0)) else None
    case Idle => None
  }

  function GarbageCount(kbkb: Kbkb, erased: nat): (n: nat)
  {
    if kbkb.spec.versus.None? || kbkb.spec.versus.value.opponentNamespace == ""
       || kbkb.spec.versus.value.opponentNamespace == kbkb.namespace then 0
    else erased / RateOf(kbkb.spec.versus.value)
  }

  function SpawnScheduler(spec: Spec): string
  {
    if spec.spawn.Some? then spec.spawn.value.schedulerName else ""
  }

  /** What the erase reconciler makes of the Pods and Nodes it listed. */
  datatype Verdict = Waits | Settles(empty: bool) | Erases(names: set<string>, count: nat)

  ghost function Judge(spec: Spec, podList: seq<Pod>, nodeList: seq<Node>): Verdict
  {
    var f := Board(spec, podList, nodeList);
    if !f.Stable() then Waits
    else if ErasableCells(f, Kokeshi(spec)) == {} then Settles(f.Empty() && Unscheduled(podList) == [])
    else Erases(ErasableNames(f, Kokeshi(spec)), |ErasableCells(f, Kokeshi(spec))|)
  }

  /** Groups are erased whole, so an erasure counts at least kokeshi Pods. */
  lemma ErasesEnough(spec: Spec, podList: seq<Pod>, nodeList: seq<Node>)
    ensures Judge(spec, podList, nodeList).Erases? ==> Judge(spec, podList, nodeList).count >= Kokeshi(spec)
  {
    var cells := ErasableCells(Board(spec, podList, nodeList), Kokeshi(spec));
    if cells != {} {
      var p :| p in cells;
      ErasableIsWholeGroups(Board(spec, podList, nodeList), Kokeshi(spec), p);
    }
  }

  /** The resource after a reconcile that read `read` and found `v`, when `kbkb` is current. */
  function EraseWrite(kbkb: Kbkb, read: Kbkb, v: Verdict): Kbkb
  {
    match v
    case Waits => kbkb
    case Settles(empty) =>
      (match SettleStatus(read.status, empty)
       case None => kbkb
       case Some(status) => Written(kbkb, read, status))
    case Erases(_, count) => Written(kbkb, read, EraseStatus(read.status, count))
  }

  /** What a reconcile leaves behind: the resource, the namespace's Pods, the garbage created at the opponent's. */
  datatype Effect = Effect(kbkb: Kbkb, pods: seq<Pod>, garbage: seq<Pod>)

  /** `read` and `v` are what this reconcile read and found, `kbkb` and `pods` what is there when it writes;
      deletes of `failing` names fail and are only logged. */
  function EraseEffect(kbkb: Kbkb, pods: seq<Pod>, read: Kbkb, v: Verdict, failing: set<string>,
                       grants: seq<Grant>): Effect
  {
    if v.Erases? && kbkb.version == read.version then
      Effect(EraseWrite(kbkb, read, v), Terminated(pods, v.names - failing),
             Created(GarbageCount(read, v.count), grants, SpawnScheduler(read.spec), true))
    else Effect(EraseWrite(kbkb, read, v), pods, [])
  }

  /** A whole reconcile, from the lists it read to what it leaves behind. */
  ghost function Reconciled(kbkb: Kbkb, pods: seq<Pod>, read: Kbkb, podList: seq<Pod>, nodeList: seq<Node>,
                            failing: set<string>, grants: seq<Grant>): Effect
  {
    EraseEffect(kbkb, pods, read, Judge(read.spec, podList, nodeList), failing, grants)
  }

  method Settle(api: Api, read: Kbkb, f: Field, unscheduled: nat)
    modifies api
    ensures api.pods == old(api.pods)
    ensures api.kbkb == EraseWrite(old(api.kbkb), read, Settles(f.Empty() && unscheduled == 0))
  {
    var kbkb := read;
    var height := f.MaxHeight();
    var empty := height == 0 && unscheduled == 0;
    assert f.Empty() <==> height == 0 by {
      forall x | 0 <= x < |f.columns| ensures f.Height(x) == |f.columns[x].pods| { }
    }
    match kbkb.status.phase {
      case Erasing =>
        if empty {
          kbkb := kbkb.(status := kbkb.status.(allClears := kbkb.status.allClears + 1));
        }
      case GameOver =>
        if !empty {
          return;
        }
        kbkb := kbkb.(status := kbkb.status.(maxChain := 0));
        kbkb := kbkb.(status := kbkb.status.(totalErased := 0));
        kbkb := kbkb.(status := kbkb.status.(allClears := 0));
      case Idle =>
        return;
      case Fresh =>
    }
    kbkb := kbkb.(status := kbkb.status.(phase := Idle));
    kbkb := kbkb.(status := kbkb.status.(chain := 0));
    var _ := api.UpdateStatus(kbkb);
  }

  method SendOjama(kbkb: Kbkb, erased: nat, grants: seq<Grant>) returns (garbage: seq<Pod>)
    ensures garbage == Created(GarbageCount(kbkb, erased), grants, SpawnScheduler(kbkb.spec), true)
  {
    garbage := [];
    if kbkb.spec.versus.None? || kbkb.spec.versus.value.opponentNamespace == ""
       || kbkb.spec.versus.value.opponentNamespace == kbkb.namespace {
      return;
    }
    var rate := kbkb.spec.versus.value.garbageRate;
    if rate < 1 {
      rate := 2;
    }
    var count := erased / rate;
    var schedulerName := "";
    if kbkb.spec.spawn.Some? {
      schedulerName := kbkb.spec.spawn.value.schedulerName;
    }
    garbage := CreatePods(count, grants, schedulerName, true);
  }

  /** The create loop of both reconcilers: the first refused create ends it. */
  method CreatePods(count: nat, grants: seq<Grant>, schedulerName: string, ojama: bool) returns (made: seq<Pod>)
    ensures made == Created(count, grants, schedulerName, ojama)
  {
    made := [];
    for i := 0 to count
      invariant i <= |grants| && made == Created(i, grants, schedulerName, ojama)
    {
      if i >= |grants| {
        return;
      }
      var pod := NewKbkbPod(grants[i], schedulerName, ojama);
      if grants[i].hook.Some? {
        pod := Default(pod, grants[i].hook.value);
      }
      made := made + [pod];
    }
  }

  /** The status is written first; only then are the Pods deleted and the garbage sent. */
  method Erase(api: Api, read: Kbkb, erasable: seq<Cell>, failing: set<string>, grants: seq<Grant>)
    returns (garbage: seq<Pod>)
    modifies api
    ensures Effect(api.kbkb, api.pods, garbage)
      == EraseEffect(old(api.kbkb), old(api.pods), read, Erases(set c | c in erasable :: c.pod.name, |erasable|),
                     failing, grants)
  {
    var kbkb := read;
    if kbkb.status.phase == Erasing {
      kbkb := kbkb.(status := kbkb.status.(chain := kbkb.status.chain + 1));
    } else {
      kbkb := kbkb.(status := kbkb.status.(chain := 1));
    }
    kbkb := kbkb.(status := kbkb.status.(phase := Erasing));
    if kbkb.status.maxChain < kbkb.status.chain {
      kbkb := kbkb.(status := kbkb.status.(maxChain := kbkb.status.chain));
    }
    kbkb := kbkb.(status := kbkb.status.(totalErased := kbkb.status.totalErased + |erasable|));
    var ok := api.UpdateStatus(kbkb);
    if !ok {
      return [];
    }
    for i := 0 to |erasable|
      invariant api.kbkb == Written(old(api.kbkb), read, EraseStatus(read.status, |erasable|))
      invariant api.pods == Terminated(old(api.pods), (set c | c in erasable[..i] :: c.pod.name) - failing)
    {
      assert erasable[..i + 1] == erasable[..i] + [erasable[i]];
      if erasable[i].pod.name !in failing {
        api.Delete(erasable[i].pod.name);
      }
    }
    assert erasable[..|erasable|] == erasable;
    garbage := SendOjama(kbkb, |erasable|, grants);
  }

  lemma ListedNames(f: Field, threshold: int, erasable: seq<Cell>, at: seq<Pos>)
    requires Lists(f, erasable, at) && Members(at) == ErasableCells(f, threshold)
    ensures (set c | c in erasable :: c.pod.name) == ErasableNames(f, threshold)
  {
    var names := set c | c in erasable :: c.pod.name;
    forall name | name in names ensures name in ErasableNames(f, threshold) {
      var i :| 0 <= i < |erasable| && erasable[i].pod.name == name;
      assert at[i] in Members(at);
    }
    forall name | name in ErasableNames(f, threshold) ensures name in names {
      var p :| p in ErasableCells(f, threshold) && CellAt(f, p).pod.name == name;
      assert p in Members(at);
      var i :| 0 <= i < |at| && at[i] == p;
      assert erasable[i] in erasable;
    }
  }

  method Reconcile(api: Api, read: Kbkb, podList: seq<Pod>, nodeList: seq<Node>, failing: set<string>,
                   grants: seq<Grant>)
    returns (garbage: seq<Pod>)
    modifies api
    ensures Effect(api.kbkb, api.pods, garbage)
      == Reconciled(old(api.kbkb), old(api.pods), read, podList, nodeList, failing, grants)
  {
    garbage := [];
    var f, unscheduled := BuildField(read.spec, podList, nodeList);
    if !f.Stable() {
      return;
    }
    var kokeshi := read.spec.kokeshi;
    if kokeshi < 2 {
      kokeshi := 4;
    }
    ghost var v := Judge(read.spec, podList, nodeList);
    var erasable; ghost var at;
    erasable, at := Erasable(f, kokeshi);
    if |erasable| == 0 {
      assert v == Settles(f.Empty() && |unscheduled| == 0);
      Settle(api, read, f, |unscheduled|);
      return;
    }
    ListedNames(f, kokeshi, erasable, at);
    assert v == Erases(set c | c in erasable :: c.pod.name, |erasable|);
    garbage := Erase(api, read, erasable, failing, grants);
  }

  // ----- The spawn reconciler

  ghost predicate Overflows(f: Field, limit: int)
  {
    exists x :: 0 <= x < |f.columns| && f.Height(x) >= limit
  }

  /** What the spawn reconciler makes of what it read. */
  datatype SpawnVerdict = Holds | EndsGame | Spawns

  ghost function JudgeSpawn(read: Kbkb, podList: seq<Pod>, nodeList: seq<Node>): SpawnVerdict
  {
    var f := Board(read.spec, podList, nodeList);
    if read.spec.spawn.None? || !read.spec.spawn.value.enabled || read.status.phase == GameOver then Holds
    else if Unscheduled(podList) != [] || !f.Stable() || ErasableCells(f, Kokeshi(read.spec)) != {} then Holds
    else if !read.spec.spawn.value.disableGameOver && Overflows(f, MaxHeightOf(read.spec.spawn.value)) then EndsGame
    else Spawns
  }

  function SpawnWrite(kbkb: Kbkb, read: Kbkb, v: SpawnVerdict): Kbkb
  {
    if v == EndsGame then Written(kbkb, read, read.status.(phase := GameOver)) else kbkb
  }

  function SpawnEffect(kbkb: Kbkb, pods: seq<Pod>, read: Kbkb, v: SpawnVerdict, grants: seq<Grant>): Effect
  {
    Effect(SpawnWrite(kbkb, read, v),
           if v == Spawns && read.spec.spawn.Some?
           then pods + Created(PairOf(read.spec.spawn.value), grants, read.spec.spawn.value.schedulerName, false)
           else pods,
           [])
  }

  /** A whole spawn pass, likewise. */
  ghost function SpawnReconciled(kbkb: Kbkb, pods: seq<Pod>, read: Kbkb, podList: seq<Pod>, nodeList: seq<Node>,
                                 grants: seq<Grant>): Effect
  {
    SpawnEffect(kbkb, pods, read, JudgeSpawn(read, podList, nodeList), grants)
  }

  method SpawnReconcile(api: Api, read: Kbkb, podList: seq<Pod>, nodeList: seq<Node>, grants: seq<Grant>)
    modifies api
    ensures Effect(api.kbkb, api.pods, [])
      == SpawnReconciled(old(api.kbkb), old(api.pods), read, podList, nodeList, grants)
  {
    if read.spec.spawn.None? || !read.spec.spawn.value.enabled || read.status.phase == GameOver {
      return;
    }
    var spawn := read.spec.spawn.value;
    var f, unscheduled := BuildField(read.spec, podList, nodeList);
    if |unscheduled| > 0 || !f.Stable() {
      return;
    }
    var kokeshi := read.spec.kokeshi;
    if kokeshi < 2 {
      kokeshi := 4;
    }
    var erasable; ghost var at;
    erasable, at := Erasable(f, kokeshi);
    if |erasable| > 0 {
      return;
    }
    var maxHeight := spawn.maxHeight;
    if maxHeight < 1 {
      maxHeight := 12;
    }
    var height := f.MaxHeight();
    assert height >= maxHeight <==> Overflows(f, maxHeight);
    if !spawn.disableGameOver && height >= maxHeight {
      var kbkb := read.(status := read.status.(phase := GameOver));
      var _ := api.UpdateStatus(kbkb);
      return;
    }
    var pair := spawn.pair;
    if pair < 1 {
      pair := 2;
    }
    var made := CreatePods(pair, grants, spawn.schedulerName, false);
    api.pods := api.pods + made;
  }
}
