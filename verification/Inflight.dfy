/** No Pod is bound twice, however far the informer cache lags behind, up to thirty seconds. */
module Inflight {
  import opened Kube
  import opened Scheduler

  ghost predicate BoundIn(pods: seq<Pod>, name: string)
  {
    exists p :: p in pods && p.name == name && p.node != ""
  }

  ghost predicate WaitingIn(pods: seq<Pod>, name: string)
  {
    exists p :: p in pods && p.name == name && p.node == ""
  }

  /** The API server's rules: names are unique and never used again, a binding is for life, time passes. */
  ghost predicate Life(h: seq<Revision>)
  {
    && (forall i :: 0 <= i < |h| ==> UniqueNames(h[i].pods))
    && (forall i, j, name :: 0 <= i <= j < |h| && BoundIn(h[i].pods, name) ==> !WaitingIn(h[j].pods, name))
    && (forall i, j, k, name ::
          0 <= i < j < k < |h| && HasPod(h[i].pods, name) && !HasPod(h[j].pods, name) ==> !HasPod(h[k].pods, name))
    && forall i, j :: 0 <= i < j < |h| ==> h[i].at <= h[j].at
  }

  /** The cache once showed the Pod. */
  ghost predicate WasSeen(s: State, name: string)
  {
    exists o :: 0 <= o <= s.seen && o < |s.history| && HasPod(s.history[o].pods, name)
  }

  /** A bound Pod is in the table, or the cache shows it bound, or the cache shows it gone. */
  ghost predicate Covered(s: State, e: Entry)
    requires s.Valid() && e.rev < |s.history|
  {
    || (e.name in s.inflight && s.inflight[e.name] >= s.history[e.rev].at)
    || s.seen >= e.rev
    || !HasPod(s.Cache(), e.name)
  }

  ghost predicate EntryOk(s: State, e: Entry)
    requires s.Valid()
  {
    && e.rev < |s.history| && BoundIn(s.history[e.rev].pods, e.name)
    && (forall i :: 0 <= i < e.rev ==> !BoundIn(s.history[i].pods, e.name))
    && WasSeen(s, e.name) && Covered(s, e)
  }

  ghost predicate Sound(s: State)
  {
    && s.Valid() && Life(s.history)
    && (forall i, j :: 0 <= i < j < |s.log| ==> s.log[i].name != s.log[j].name)
    && forall i :: 0 <= i < |s.log| ==> EntryOk(s, s.log[i])
  }

  /** A scheduler that has just started is sound. */
  lemma FreshIsSound(rev: Revision)
    requires UniqueNames(rev.pods)
    ensures Sound(State([rev], 0, map[], [])) && InOrder(Scheduling(State([rev], 0, map[], []), []))
  {
    forall name | BoundIn(rev.pods, name) ensures !WaitingIn(rev.pods, name) {
      BoundNotWaiting(rev.pods, name);
    }
  }

  /** The cache shows the Pod waiting, and it is not in the table. */
  ghost predicate OnOffer(s: State, name: string)
    requires s.Valid()
  {
    WaitingIn(s.Cache(), name) && name !in s.inflight
  }

  ghost predicate Logged(s: State, name: string)
  {
    exists i :: 0 <= i < |s.log| && s.log[i].name == name
  }

  /** A Pod that was bound is not on offer again. */
  lemma BoundNotOffered(s: State, name: string)
    requires Sound(s) && Logged(s, name)
    ensures !OnOffer(s, name)
  {
    var i :| 0 <= i < |s.log| && s.log[i].name == name;
    assert EntryOk(s, s.log[i]);
    if s.seen >= s.log[i].rev {
      assert BoundIn(s.history[s.log[i].rev].pods, name);
      assert !WaitingIn(s.history[s.seen].pods, name);
    }
  }

  /** What `pending` lists, queue and garbage alike, is on offer. */
  lemma PendingIsOnOffer(s: State, schedulerName: string, ojama: bool, p: Pod)
    requires Sound(s) && p in QueueOf(s.Cache(), schedulerName, s.inflight, ojama)
    ensures OnOffer(s, p.name) && !Logged(s, p.name)
  {
    assert UniqueNames(s.history[s.seen].pods);
    QueueFacts(s.Cache(), schedulerName, s.inflight, ojama);
    assert WaitingIn(s.Cache(), p.name);
    if Logged(s, p.name) {
      BoundNotOffered(s, p.name);
    }
  }

  // ----- One bind

  lemma ExtendLife(h: seq<Revision>, rev: Revision)
    requires Life(h) && h != [] && UniqueNames(rev.pods) && h[|h| - 1].at <= rev.at
    requires forall name :: WaitingIn(rev.pods, name) ==> WaitingIn(h[|h| - 1].pods, name)
    requires forall name :: HasPod(rev.pods, name) ==> HasPod(h[|h| - 1].pods, name)
    ensures Life(h + [rev])
  {
    var g := h + [rev];
    forall i, j, name | 0 <= i <= j < |g| && BoundIn(g[i].pods, name) ensures !WaitingIn(g[j].pods, name) {
      if i == |h| {
        BoundNotWaiting(rev.pods, name);
      } else if j == |h| {
        assert !WaitingIn(h[|h| - 1].pods, name);
      }
    }
    forall i, j, k, name | 0 <= i < j < k < |g| && HasPod(g[i].pods, name) && !HasPod(g[j].pods, name)
      ensures !HasPod(g[k].pods, name)
    {
      if k == |h| {
        assert !HasPod(h[|h| - 1].pods, name);
      }
    }
  }

  lemma BoundNotWaiting(pods: seq<Pod>, name: string)
    requires UniqueNames(pods) && BoundIn(pods, name)
    ensures !WaitingIn(pods, name)
  {
    var p :| p in pods && p.name == name && p.node != "";
    forall q | q in pods && q.name == name ensures q == p {
      NameDeterminesPod(pods, p, q);
    }
  }

  lemma StampedFacts(pods: seq<Pod>, name: string, order: int)
    requires UniqueNames(pods)
    ensures var r := Stamped(pods, name, order);
      && UniqueNames(r)
      && (forall n :: HasPod(r, n) <==> HasPod(pods, n)) && (forall n :: WaitingIn(r, n) <==> WaitingIn(pods, n))
      && (forall n :: BoundIn(r, n) <==> BoundIn(pods, n)) && (forall n :: CanBind(r, n) <==> CanBind(pods, n))
  {
    var r := Stamped(pods, name, order);
    SameLife(pods, r, {});
    SameLife(r, pods, {});
  }

  /** Lists that agree in place on name, and on node except at `moved`. */
  lemma SameLife(a: seq<Pod>, b: seq<Pod>, moved: set<string>)
    requires |a| == |b|
    requires forall i :: 0 <= i < |a| ==> b[i].name == a[i].name && b[i].deleting == a[i].deleting
    requires forall i :: 0 <= i < |a| ==> a[i].name in moved || b[i].node == a[i].node
    ensures forall n :: HasPod(a, n) ==> HasPod(b, n)
    ensures forall n :: n !in moved && WaitingIn(a, n) ==> WaitingIn(b, n)
    ensures forall n :: n !in moved && BoundIn(a, n) ==> BoundIn(b, n)
    ensures forall n :: n !in moved && CanBind(a, n) ==> CanBind(b, n)
  {
    forall n | HasPod(a, n) ensures HasPod(b, n) {
      var i :| 0 <= i < |a| && a[i].name == n;
      assert b[i] in b;
    }
    forall n | n !in moved && WaitingIn(a, n) ensures WaitingIn(b, n) {
      var p :| p in a && p.name == n && p.node == "";
      var i :| 0 <= i < |a| && a[i] == p;
      assert b[i] in b;
    }
    forall n | n !in moved && BoundIn(a, n) ensures BoundIn(b, n) {
      var p :| p in a && p.name == n && p.node != "";
      var i :| 0 <= i < |a| && a[i] == p;
      assert b[i] in b;
    }
    forall n | n !in moved && CanBind(a, n) ensures CanBind(b, n) {
      var i :| 0 <= i < |a| && a[i].name == n && Bindable(a[i]);
      assert b[i].name == n && Bindable(b[i]);
    }
  }

  lemma BoundFacts(pods: seq<Pod>, name: string, node: string)
    requires UniqueNames(pods) && CanBind(pods, name) && node != ""
    ensures var r := Bound(pods, name, node);
      && UniqueNames(r) && BoundIn(r, name) && !WaitingIn(r, name) && !CanBind(r, name)
      && (forall n :: HasPod(r, n) <==> HasPod(pods, n)) && (forall n :: WaitingIn(r, n) ==> WaitingIn(pods, n))
      && (forall n :: n != name ==> (CanBind(r, n) <==> CanBind(pods, n)))
  {
    var r := Bound(pods, name, node);
    SameLife(pods, r, {name});
    SameLife(r, pods, {name});
    var i :| 0 <= i < |pods| && pods[i].name == name && Bindable(pods[i]);
    assert r[i] in r;
    BoundNotWaiting(r, name);
    assert WaitingIn(pods, name) by { assert pods[i] in pods; }
    forall j | 0 <= j < |r| && r[j].name == name ensures !Bindable(r[j]) {
      assert j == i;
    }
  }

  /** Clock readings never go back. */
  predicate Timely(s: State, c: Call)
    requires s.Valid()
  {
    s.history[|s.history| - 1].at <= c.stampAt <= c.boundAt <= c.markAt
  }

  /** Everything but the log and the table stays sound when a revision is added. */
  lemma ExtendSound(s: State, rev: Revision)
    requires Sound(s) && Life(s.history + [rev])
    ensures Sound(s.(history := s.history + [rev]))
  {
    var t := s.(history := s.history + [rev]);
    forall i | 0 <= i < |t.log| ensures EntryOk(t, t.log[i]) {
      assert EntryOk(s, s.log[i]);
      assert t.history[t.log[i].rev] == s.history[s.log[i].rev];
      SeenStays(s, t, s.log[i].name);
    }
  }

  lemma SeenStays(s: State, t: State, name: string)
    requires WasSeen(s, name) && s.history <= t.history && s.seen <= t.seen
    ensures WasSeen(t, name)
  {
    var o :| 0 <= o <= s.seen && o < |s.history| && HasPod(s.history[o].pods, name);
    assert HasPod(t.history[o].pods, name);
  }

  lemma PatchSound(s: State, r: Request, c: Call)
    requires Sound(s) && Timely(s, c)
    ensures Sound(AfterPatch(s, r, c))
    ensures forall n :: CanBind(AfterPatch(s, r, c).Truth(), n) <==> CanBind(s.Truth(), n)
  {
    assert UniqueNames(s.history[|s.history| - 1].pods);
    StampedFacts(s.Truth(), r.pod, OrderOf(r, c));
    ExtendLife(s.history, Revision(c.stampAt, Stamped(s.Truth(), r.pod, OrderOf(r, c))));
    ExtendSound(s, Revision(c.stampAt, Stamped(s.Truth(), r.pod, OrderOf(r, c))));
  }

  lemma BindSound(s: State, r: Request, c: Call)
    requires Sound(s) && s.history[|s.history| - 1].at <= c.boundAt <= c.markAt
    requires CanBind(s.Truth(), r.pod) && r.node != "" && !Logged(s, r.pod) && WasSeen(s, r.pod)
    ensures Sound(AfterBind(s, r, c))
    ensures forall n :: CanBind(AfterBind(s, r, c).Truth(), n) <==> n != r.pod && CanBind(s.Truth(), n)
  {
    var rev := Revision(c.boundAt, Bound(s.Truth(), r.pod, r.node));
    assert UniqueNames(s.history[|s.history| - 1].pods);
    BoundFacts(s.Truth(), r.pod, r.node);
    ExtendLife(s.history, rev);
    ExtendSound(s, rev);
    FirstBound(s, r.pod);
    EnterSound(s, rev, r.pod, c.markAt);
  }

  /** Logging and tabling a bind that the newest revision shows for the first time. */
  lemma EnterSound(s: State, rev: Revision, name: string, markAt: int)
    requires Sound(s) && !Logged(s, name) && WasSeen(s, name)
    requires Sound(s.(history := s.history + [rev]))
    requires BoundIn(rev.pods, name) && (forall i :: 0 <= i < |s.history| ==> !BoundIn(s.history[i].pods, name))
    requires rev.at <= markAt
    ensures Sound(State(s.history + [rev], s.seen, s.inflight[name := markAt], s.log + [Entry(name, |s.history|)]))
  {
    var u := s.(history := s.history + [rev]);
    var t := State(s.history + [rev], s.seen, s.inflight[name := markAt], s.log + [Entry(name, |s.history|)]);
    forall i | 0 <= i < |t.log| ensures EntryOk(t, t.log[i]) {
      if i < |s.log| {
        assert EntryOk(u, u.log[i]);
        OldEntryOk(u, t, u.log[i], name);
      } else {
        NewEntryOk(s, t, rev, name);
      }
    }
  }

  lemma OldEntryOk(u: State, t: State, e: Entry, name: string)
    requires u.Valid() && EntryOk(u, e) && e.name != name
    requires t.history == u.history && t.seen == u.seen
    requires name in t.inflight && t.inflight == u.inflight[name := t.inflight[name]]
    ensures EntryOk(t, e)
  {
    SeenStays(u, t, e.name);
  }

  lemma NewEntryOk(s: State, t: State, rev: Revision, name: string)
    requires s.Valid() && WasSeen(s, name) && t.history == s.history + [rev] && t.seen == s.seen
    requires BoundIn(rev.pods, name) && (forall i :: 0 <= i < |s.history| ==> !BoundIn(s.history[i].pods, name))
    requires name in t.inflight && t.inflight[name] >= rev.at
    ensures EntryOk(t, Entry(name, |s.history|))
  {
    SeenStays(s, t, name);
    assert forall i :: 0 <= i < |s.history| ==> t.history[i] == s.history[i];
  }

  /** A Pod that can be bound never was. */
  lemma FirstBound(s: State, name: string)
    requires Sound(s) && CanBind(s.Truth(), name)
    ensures forall i :: 0 <= i < |s.history| ==> !BoundIn(s.history[i].pods, name)
  {
    var last := s.history[|s.history| - 1].pods;
    var k :| 0 <= k < |last| && last[k].name == name && Bindable(last[k]);
    assert last[k] in last && WaitingIn(last, name);
  }

  // ----- A burst of binds: a drop, an auto drop, a shower of garbage

  predicate TimelyCalls(at: int, calls: seq<Call>)
    decreases |calls|
  {
    calls == []
    || (at <= calls[0].stampAt <= calls[0].boundAt <= calls[0].markAt && TimelyCalls(calls[0].markAt, calls[1..]))
  }

  lemma {:induction false} TimelyEarlier(at: int, at': int, calls: seq<Call>)
    requires TimelyCalls(at, calls) && at' <= at
    ensures TimelyCalls(at', calls)
  {
  }

  /** Every Pod asked for was on offer once, and every Node is a real one. */
  ghost predicate Open(s: State, requests: seq<Request>)
  {
    forall i :: 0 <= i < |requests| ==> WasSeen(s, requests[i].pod) && requests[i].node != ""
  }

  lemma OpenStays(s: State, t: State, requests: seq<Request>)
    requires Open(s, requests) && s.history <= t.history && s.seen <= t.seen
    ensures Open(t, requests)
  {
    forall i | 0 <= i < |requests| ensures WasSeen(t, requests[i].pod) {
      SeenStays(s, t, requests[i].pod);
    }
  }

  /** A Pod that can be bound was not bound before: the API server sees to that. */
  lemma BindableNotLogged(s: State, name: string)
    requires Sound(s) && CanBind(s.Truth(), name)
    ensures !Logged(s, name)
  {
    FirstBound(s, name);
    forall i | 0 <= i < |s.log| ensures s.log[i].name != name {
      assert EntryOk(s, s.log[i]);
      assert BoundIn(s.history[s.log[i].rev].pods, s.log[i].name);
    }
  }

  lemma BindOneSound(s: State, r: Request, c: Call)
    requires Sound(s) && Timely(s, c) && WasSeen(s, r.pod) && r.node != ""
    ensures Sound(BindOne(s, r, c).0)
    ensures BindOne(s, r, c).1 ==> BindOne(s, r, c).0.history[|BindOne(s, r, c).0.history| - 1].at <= c.markAt
  {
    if c.patchOk && HasPod(s.Truth(), r.pod) {
      PatchSound(s, r, c);
      var mid := AfterPatch(s, r, c);
      SeenStays(s, mid, r.pod);
      if c.bindOk && CanBind(mid.Truth(), r.pod) {
        BindableNotLogged(mid, r.pod);
        BindSound(mid, r, c);
      }
    }
  }

  lemma {:induction false} BurstSound(s: State, requests: seq<Request>, calls: seq<Call>)
    requires Sound(s) && Open(s, requests)
    requires TimelyCalls(s.history[|s.history| - 1].at, calls)
    ensures Sound(BindAll(s, requests, calls).0)
    decreases |requests|
  {
    if requests != [] && calls != [] {
      var c := calls[0];
      var (t, ok) := BindOne(s, requests[0], c);
      BindOneSound(s, requests[0], c);
      if ok {
        OpenStays(s, t, requests[1..]);
        TimelyEarlier(c.markAt, t.history[|t.history| - 1].at, calls[1..]);
        BurstSound(t, requests[1..], calls[1..]);
      }
    }
  }

  // ----- The table's housekeeping, and the world's moves

  /** Every revision older than thirty seconds has reached the cache. */
  ghost predicate LagBounded(s: State, now: int)
  {
    forall r :: s.seen < r < |s.history| ==> now - s.history[r].at <= 30 * SECOND
  }

  lemma PruneSound(s: State, clock: string -> int)
    requires Sound(s) && forall name :: name in s.inflight ==> LagBounded(s, clock(name))
    ensures Sound(s.(inflight := Pruned(s.Cache(), s.inflight, clock)))
  {
    var t := s.(inflight := Pruned(s.Cache(), s.inflight, clock));
    forall i | 0 <= i < |t.log| ensures EntryOk(t, t.log[i]) {
      var e := s.log[i];
      assert EntryOk(s, e);
      SeenStays(s, t, e.name);
    }
  }

  lemma DeliverSound(s: State, seen: nat)
    requires Sound(s) && s.seen <= seen < |s.history|
    ensures Sound(s.(seen := seen))
  {
    var t := s.(seen := seen);
    forall i | 0 <= i < |t.log| ensures EntryOk(t, t.log[i]) {
      var e := s.log[i];
      assert EntryOk(s, e);
      SeenStays(s, t, e.name);
      if !HasPod(s.Cache(), e.name) {
        var o :| 0 <= o <= s.seen && o < |s.history| && HasPod(s.history[o].pods, e.name);
        assert !HasPod(s.history[seen].pods, e.name);
      }
    }
  }

  datatype Move =
    | Prune(clock: string -> int)
    | Deliver(seen: nat)
    | Change(rev: Revision)

  function Step(s: State, m: Move): (t: State)
    requires s.Valid() && (m.Deliver? ==> m.seen < |s.history|)
    ensures t.Valid()
  {
    match m
    case Prune(clock) => s.(inflight := Pruned(s.Cache(), s.inflight, clock))
    case Deliver(seen) => s.(seen := seen)
    case Change(rev) => s.(history := s.history + [rev])
  }

  /** The cache only advances, and lags less than thirty seconds; anything may happen to the Pods that the API server
      allows. */
  ghost predicate Legal(s: State, m: Move)
    requires s.Valid()
  {
    match m
    case Prune(clock) => forall name :: name in s.inflight ==> LagBounded(s, clock(name))
    case Deliver(seen) => s.seen <= seen < |s.history|
    case Change(rev) => Life(s.history + [rev])
  }

  lemma StepSound(s: State, m: Move)
    requires Sound(s) && Legal(s, m)
    ensures Sound(Step(s, m))
  {
    match m
    case Prune(clock) => PruneSound(s, clock);
    case Deliver(seen) => DeliverSound(s, seen);
    case Change(rev) => ExtendSound(s, rev);
  }

  // ----- Every run, with the world and other bursts moving between the binds of a burst

  /** A burst may start if it asks for Pods on offer; it may list one twice. */
  ghost predicate MayStart(s: State, requests: seq<Request>)
    requires s.Valid()
  {
    forall i :: 0 <= i < |requests| ==> OnOffer(s, requests[i].pod) && requests[i].node != ""
  }

  lemma OfferedIsOpen(s: State, requests: seq<Request>)
    requires s.Valid() && MayStart(s, requests)
    ensures Open(s, requests)
  {
    forall i | 0 <= i < |requests| ensures WasSeen(s, requests[i].pod) && requests[i].node != "" {
      assert OnOffer(s, requests[i].pod) && HasPod(s.Cache(), requests[i].pod);
    }
  }

  /** The scheduler's state, and for each burst the binds it has listed but not made yet. */
  datatype Scheduling = Scheduling(state: State, todo: seq<seq<Request>>)

  /** A drop, an auto drop or a shower lists its binds; it makes them one by one; anything else happens in between. */
  datatype Act =
    | Begin(requests: seq<Request>)
    | BindNext(burst: nat, call: Call)
    | Meanwhile(move: Move)

  /** Clock readings never go back. */
  ghost predicate Enabled(g: Scheduling, a: Act)
  {
    g.state.Valid() && match a
      case Begin(requests) => MayStart(g.state, requests)
      case BindNext(b, call) => b < |g.todo| && g.todo[b] != [] && Timely(g.state, call)
      case Meanwhile(m) => Legal(g.state, m)
  }

  /** The first bind that fails ends its burst. */
  ghost function After(g: Scheduling, a: Act): Scheduling
    requires Enabled(g, a)
  {
    match a
    case Begin(requests) => g.(todo := g.todo + [requests])
    case BindNext(b, call) =>
      var (t, ok) := BindOne(g.state, g.todo[b][0], call);
      Scheduling(t, g.todo[b := if ok then g.todo[b][1..] else []])
    case Meanwhile(m) => g.(state := Step(g.state, m))
  }

  /** What is still to be bound has been seen waiting. */
  ghost predicate InOrder(g: Scheduling)
  {
    Sound(g.state) && forall b :: 0 <= b < |g.todo| ==> Open(g.state, g.todo[b])
  }

  lemma BindKeepsOrder(g: Scheduling, b: nat, call: Call)
    requires InOrder(g) && b < |g.todo| && g.todo[b] != [] && Timely(g.state, call)
    ensures InOrder(After(g, BindNext(b, call)))
  {
    var t := BindOne(g.state, g.todo[b][0], call).0;
    var h := After(g, BindNext(b, call));
    BindOneSound(g.state, g.todo[b][0], call);
    forall k | 0 <= k < |h.todo| ensures Open(t, h.todo[k]) {
      OpenStays(g.state, t, g.todo[k]);
    }
  }

  lemma MoveKeepsOrder(g: Scheduling, m: Move)
    requires InOrder(g) && Legal(g.state, m)
    ensures InOrder(g.(state := Step(g.state, m)))
  {
    StepSound(g.state, m);
    forall k | 0 <= k < |g.todo| ensures Open(Step(g.state, m), g.todo[k]) {
      OpenStays(g.state, Step(g.state, m), g.todo[k]);
    }
  }

  lemma ActKeepsOrder(g: Scheduling, a: Act)
    requires InOrder(g) && Enabled(g, a)
    ensures InOrder(After(g, a))
  {
    match a
    case Begin(requests) => OfferedIsOpen(g.state, requests);
    case BindNext(b, call) => BindKeepsOrder(g, b, call);
    case Meanwhile(m) => MoveKeepsOrder(g, m);
  }

  /** The states of a run, each after an enabled act from the one before. */
  ghost predicate IsRun(states: seq<Scheduling>, acts: seq<Act>)
  {
    && |states| == |acts| + 1
    && forall i :: 0 <= i < |acts| ==> Enabled(states[i], acts[i]) && states[i + 1] == After(states[i], acts[i])
  }

  lemma {:induction false} RunInOrder(states: seq<Scheduling>, acts: seq<Act>, n: nat)
    requires IsRun(states, acts) && InOrder(states[0]) && n < |states|
    ensures InOrder(states[n])
  {
    if n > 0 {
      RunInOrder(states, acts, n - 1);
      ActKeepsOrder(states[n - 1], acts[n - 1]);
    }
  }

  /** In every run, whatever the cache, the cluster and other bursts do between two binds, each Pod is bound at most
      once, and no bound Pod is ever listed as pending again. */
  lemma AtMostOnce(states: seq<Scheduling>, acts: seq<Act>, n: nat, schedulerName: string, ojama: bool)
    returns (s: State)
    requires IsRun(states, acts) && InOrder(states[0]) && n < |states|
    ensures s == states[n].state && s.Valid()
    ensures forall i, j :: 0 <= i < j < |s.log| ==> s.log[i].name != s.log[j].name
    ensures forall p :: p in QueueOf(s.Cache(), schedulerName, s.inflight, ojama) ==> !Logged(s, p.name)
  {
    RunInOrder(states, acts, n);
    s := states[n].state;
    forall p | p in QueueOf(s.Cache(), schedulerName, s.inflight, ojama) ensures !Logged(s, p.name) {
      PendingIsOnOffer(s, schedulerName, ojama, p);
    }
  }
}
