/** The Kubernetes objects the game reads, cut down to the fields it reads. */
module Kube {
  import opened Decimal
  import opened Orders

  const COLOR_ANNOTATION := "kbkb.k8s.omakenoyouna.net/color"
  const MANAGED_LABEL := "kbkb.k8s.omakenoyouna.net/managed"
  const OJAMA_LABEL := "kbkb.k8s.omakenoyouna.net/ojama"
  const DROP_ORDER_ANNOTATION := "kbkb.k8s.omakenoyouna.net/drop-order"
  const CONTROL_PLANE_LABEL := "node-role.kubernetes.io/control-plane"
  const LEGACY_CONTROL_PLANE_LABEL := "node-role.kubernetes.io/master"
  const WHITE := "white"
  const COLORS := ["red", "green", "yellow", "blue", "purple"]
  const RUNNING := "Running"

  /** `node` is empty until the Pod is bound; `created` is in nanoseconds. */
  datatype Pod = Pod(
    name: string,
    node: string,
    created: int,
    labels: map<string, string>,
    annotations: map<string, string>,
    schedulerName: string,
    deleting: bool,
    phase: string,
    ready: seq<bool>)
  {
    /** Running, every container ready, not terminating. */
    predicate Stable()
    {
      !deleting && phase == RUNNING && forall i :: 0 <= i < |ready| ==> ready[i]
    }

    predicate Ojama()
    {
      OJAMA_LABEL in labels && labels[OJAMA_LABEL] == "true"
    }
  }

  datatype Node = Node(name: string, created: int, labels: map<string, string>)

  function AnnotationColor(p: Pod): string
  {
    if COLOR_ANNOTATION in p.annotations && p.annotations[COLOR_ANNOTATION] != ""
    then p.annotations[COLOR_ANNOTATION] else WHITE
  }

  /** What a stack is sorted on: the drop order if it is a readable number, else the creation time. */
  function StackOrder(p: Pod): int
  {
    if DROP_ORDER_ANNOTATION in p.annotations then
      match ParseInt64(p.annotations[DROP_ORDER_ANNOTATION])
      case Some(n) => n
      case None => p.created
    else p.created
  }

  function PodKey(p: Pod): Key
  {
    Key(StackOrder(p), p.name)
  }

  /** Queues and columns are ordered by creation instead. */
  function CreatedKey(p: Pod): Key
  {
    Key(p.created, p.name)
  }

  function NodeKey(n: Node): Key
  {
    Key(n.created, n.name)
  }

  /** Names are unique within a namespace. */
  ghost predicate UniqueNames(pods: seq<Pod>)
  {
    forall i, j :: 0 <= i < j < |pods| ==> pods[i].name != pods[j].name
  }

  /** Node names are unique in the cluster, and never empty. */
  ghost predicate UniqueNodes(nodes: seq<Node>)
  {
    && (forall i, j :: 0 <= i < j < |nodes| ==> nodes[i].name != nodes[j].name)
    && forall n :: n in nodes ==> n.name != ""
  }

  lemma NameDeterminesPod(pods: seq<Pod>, p: Pod, q: Pod)
    requires UniqueNames(pods) && p in pods && q in pods && p.name == q.name
    ensures p == q
  {
    var i :| 0 <= i < |pods| && pods[i] == p;
    var j :| 0 <= j < |pods| && pods[j] == q;
    assert !(i < j) && !(j < i);
  }

  function Names(pods: seq<Pod>): set<string>
  {
    set p | p in pods :: p.name
  }

  function GarbageNames(pods: seq<Pod>): set<string>
  {
    set p | p in pods && p.Ojama() :: p.name
  }

  /** Lists that agree in place on name and labels. */
  predicate SameLabels(a: seq<Pod>, b: seq<Pod>)
  {
    |a| == |b| && forall i :: 0 <= i < |a| ==> b[i].name == a[i].name && b[i].labels == a[i].labels
  }

  lemma SameNames(a: seq<Pod>, b: seq<Pod>)
    requires SameLabels(a, b)
    ensures Names(a) == Names(b) && GarbageNames(a) == GarbageNames(b)
  {
    forall n ensures (n in Names(a) <==> n in Names(b)) && (n in GarbageNames(a) <==> n in GarbageNames(b)) {
      forall i | 0 <= i < |a| ensures a[i] in a && b[i] in b && a[i].Ojama() == b[i].Ojama() {
      }
    }
  }

  /** The list without the Pods of the given names. */
  function Without(pods: seq<Pod>, gone: set<string>): (r: seq<Pod>)
    ensures forall p :: p in r <==> p in pods && p.name !in gone
  {
    if pods == [] then []
    else if pods[0].name in gone then Without(pods[1..], gone)
    else [pods[0]] + Without(pods[1..], gone)
  }

  lemma {:induction false} WithoutUnique(pods: seq<Pod>, gone: set<string>)
    requires UniqueNames(pods)
    ensures UniqueNames(Without(pods, gone))
  {
    if pods != [] {
      WithoutUnique(pods[1..], gone);
      forall p | p in Without(pods[1..], gone) ensures p.name != pods[0].name {
        var i :| 0 <= i < |pods[1..]| && pods[1..][i] == p;
        assert pods[0].name != pods[i + 1].name;
      }
    }
  }

  // ----- Binding

  function Stamp(p: Pod, order: int): Pod
  {
    p.(annotations := p.annotations[DROP_ORDER_ANNOTATION := Print(order)])
  }

  /** The drop-order patch. */
  function Stamped(pods: seq<Pod>, name: string, order: int): seq<Pod>
  {
    seq(|pods|, i requires 0 <= i < |pods| => if pods[i].name == name then Stamp(pods[i], order) else pods[i])
  }

  /** The API server binds a Pod that is waiting, and refuses any other. */
  predicate Bindable(p: Pod)
  {
    p.node == "" && !p.deleting
  }

  function Bound(pods: seq<Pod>, name: string, node: string): seq<Pod>
  {
    seq(|pods|, i requires 0 <= i < |pods| =>
      if pods[i].name == name && Bindable(pods[i]) then pods[i].(node := node) else pods[i])
  }

  lemma AnnotationsApart()
    ensures COLOR_ANNOTATION != DROP_ORDER_ANNOTATION
    ensures OJAMA_LABEL != MANAGED_LABEL
  {
    assert |COLOR_ANNOTATION| != |DROP_ORDER_ANNOTATION|;
    assert |OJAMA_LABEL| != |MANAGED_LABEL|;
  }
}
