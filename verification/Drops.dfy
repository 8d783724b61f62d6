/** What a drop does to the columns, and when it goes through. */
module Drops {
  import opened Options
  import opened Kube
  import opened Fields
  import opened Controller
  import opened Scheduler
  import opened Inflight

  // ----- Drops are bursts of the run

  predicate DistinctPods(placements: seq<Placement>)
  {
    forall i, j :: 0 <= i < j < |placements| ==> placements[i].pod != placements[j].pod
  }

  predicate Distinct(requests: seq<Request>)
  {
    forall i, j :: 0 <= i < j < |requests| ==> requests[i].pod != requests[j].pod
  }

  /** A drop that passes its checks asks only for Pods on offer, to real Nodes, though perhaps for one twice. */
  lemma {:induction false} DropMayStart(s: State, schedulerName: string, columns: seq<Column>, limit: int,
                                        placements: seq<Placement>)
    requires Sound(s) && "" !in HeightsOf(columns)
    requires Validate(QueuedNames(s, schedulerName), HeightsOf(columns), limit, placements) == None
    ensures MayStart(s, DropRequests(placements))
  {
    var queue := QueueOf(s.Cache(), schedulerName, s.inflight, false);
    var requests := DropRequests(placements);
    ValidateIffAcceptable(Names(queue), HeightsOf(columns), limit, placements);
    forall i | 0 <= i < |requests| ensures OnOffer(s, requests[i].pod) && requests[i].node != "" {
      assert placements[i].pod in Names(queue);
      var p :| p in queue && p.name == placements[i].pod;
      PendingIsOnOffer(s, schedulerName, false, p);
    }
  }

  /** So does a shower of garbage. */
  lemma {:induction false} ShowerMayStart(s: State, schedulerName: string, candidates: seq<string>, draw: Draws)
    requires Sound(s) && "" !in candidates
    ensures MayStart(s, OjamaRequests(QueueOf(s.Cache(), schedulerName, s.inflight, true), candidates, draw))
  {
    var ojama := QueueOf(s.Cache(), schedulerName, s.inflight, true);
    assert UniqueNames(s.history[s.seen].pods);
    QueueFacts(s.Cache(), schedulerName, s.inflight, true);
    forall i | 0 <= i < |ojama| ensures OnOffer(s, ojama[i].name) {
      PendingIsOnOffer(s, schedulerName, true, ojama[i]);
    }
  }

  // ----- The scheduling loop

  /** The last clock reading a list of calls may take. */
  function LastTime(at: int, calls: seq<Call>): int
    decreases |calls|
  {
    if calls == [] then at else LastTime(calls[0].markAt, calls[1..])
  }

  lemma {:induction false} LastTimeLater(at: int, calls: seq<Call>)
    requires TimelyCalls(at, calls)
    ensures at <= LastTime(at, calls)
    decreases |calls|
  {
    if calls != [] {
      LastTimeLater(calls[0].markAt, calls[1..]);
    }
  }

  /** t goes on from s, up to time `at`, without the cache moving. */
  predicate Continues(s: State, t: State, at: int)
  {
    && s.Valid() && t.Valid() && s.history <= t.history && t.seen == s.seen && t.history[|t.history| - 1].at <= at
  }

  lemma ContinuesOn(s: State, t: State, u: State, at: int, at': int)
    requires Continues(s, t, at) && Continues(t, u, at')
    ensures Continues(s, u, at')
  {
    assert s.history <= u.history by {
      assert u.history[..|s.history|] == t.history[..|s.history|] == s.history;
    }
  }

  lemma BindOneTime(s: State, r: Request, c: Call, at: int)
    requires s.Valid() && s.history[|s.history| - 1].at <= at <= c.stampAt <= c.boundAt <= c.markAt
    ensures Continues(s, BindOne(s, r, c).0, c.markAt)
  {
  }

  /** Binding leaves the history at a time its calls allow. */
  lemma {:induction false} BindAllTime(s: State, requests: seq<Request>, calls: seq<Call>, at: int)
    requires s.Valid() && s.history[|s.history| - 1].at <= at && TimelyCalls(at, calls)
    ensures Continues(s, BindAll(s, requests, calls).0, LastTime(at, calls))
    decreases |requests|
  {
    LastTimeLater(at, calls);
    if requests != [] && calls != [] {
      var (t, ok) := BindOne(s, requests[0], calls[0]);
      BindOneTime(s, requests[0], calls[0], at);
      LastTimeLater(calls[0].markAt, calls[1..]);
      if ok {
        BindAllTime(t, requests[1..], calls[1..], calls[0].markAt);
        ContinuesOn(s, t, BindAll(t, requests[1..], calls[1..]).0,
                    calls[0].markAt, LastTime(calls[0].markAt, calls[1..]));
      }
    }
  }

  lemma {:induction false} CandidatesNamed(columns: seq<Column>, limit: int, force: bool)
    requires forall x :: 0 <= x < |columns| ==> columns[x].node.name != ""
    ensures "" !in Candidates(columns, limit, force) && "" !in HeightsOf(columns)
  {
    if columns != [] {
      CandidatesNamed(columns[..|columns| - 1], limit, force);
    }
  }

  /** One burst on: still sound, at a time its calls allow. */
  ghost predicate Follows(s: State, t: State, at: int)
  {
    Sound(t) && Continues(s, t, at)
  }

  lemma {:induction false} BurstFollows(s: State, requests: seq<Request>, calls: seq<Call>, at: int)
    requires Sound(s) && s.history[|s.history| - 1].at <= at && TimelyCalls(at, calls)
    requires MayStart(s, requests)
    ensures Follows(s, BindAll(s, requests, calls).0, LastTime(at, calls))
  {
    OfferedIsOpen(s, requests);
    TimelyEarlier(at, s.history[|s.history| - 1].at, calls);
    BurstSound(s, requests, calls);
    BindAllTime(s, requests, calls, at);
  }

  lemma ShowerFollows(s: State, schedulerName: string, kb: Option<Kbkb>, nodes: seq<Node>, limit: int,
                      draw: Draws, calls: seq<Call>, at: int)
    returns (candidates: seq<string>)
    requires Sound(s) && UniqueNodes(nodes) && s.history[|s.history| - 1].at <= at && TimelyCalls(at, calls)
    ensures candidates == Candidates(BoardFor(kb, s.Cache(), nodes).columns, limit, true) && "" !in candidates
    ensures var requests := OjamaRequests(QueueOf(s.Cache(), schedulerName, s.inflight, true), candidates, draw);
      Follows(s, BindAll(s, requests, calls).0, LastTime(at, calls))
  {
    candidates := Candidates(BoardFor(kb, s.Cache(), nodes).columns, limit, true);
    NamedColumns(s, kb, nodes, limit);
    ShowerMayStart(s, schedulerName, candidates, draw);
    BurstFollows(s, OjamaRequests(QueueOf(s.Cache(), schedulerName, s.inflight, true), candidates, draw), calls, at);
  }

  lemma {:induction false} NamedColumns(s: State, kb: Option<Kbkb>, nodes: seq<Node>, limit: int)
    requires Sound(s) && UniqueNodes(nodes)
    ensures var columns := BoardFor(kb, s.Cache(), nodes).columns;
      "" !in Candidates(columns, limit, true) && "" !in HeightsOf(columns)
  {
    CacheUnique(s);
    BoardColumnsNamed(kb, s.Cache(), nodes);
    CandidatesNamed(BoardFor(kb, s.Cache(), nodes).columns, limit, true);
  }

  /** Any drop, whatever it asks for and however far it gets, leaves a sound state. */
  lemma {:induction false} DropFollows(s: State, schedulerName: string, kb: Option<Kbkb>, nodes: seq<Node>, limit: int,
                                       placements: seq<Placement>, calls: seq<Call>, at: int)
    requires Sound(s) && UniqueNodes(nodes) && s.history[|s.history| - 1].at <= at && TimelyCalls(at, calls)
    ensures var heights := HeightsOf(BoardFor(kb, s.Cache(), nodes).columns);
      Follows(s, DropEffect(s, QueuedNames(s, schedulerName), heights, limit, placements, calls).0, LastTime(at, calls))
  {
    var columns := BoardFor(kb, s.Cache(), nodes).columns;
    LastTimeLater(at, calls);
    if placements != [] && Validate(QueuedNames(s, schedulerName), HeightsOf(columns), limit, placements) == None {
      NamedColumns(s, kb, nodes, limit);
      DropMayStart(s, schedulerName, columns, limit, placements);
      BurstFollows(s, DropRequests(placements), calls, at);
    }
  }

  lemma CacheUnique(s: State)
    requires Sound(s)
    ensures UniqueNames(s.Cache())
  {
    assert UniqueNames(s.history[s.seen].pods);
  }

  /** What a shower leaves behind. */
  ghost function Showered(s: State, schedulerName: string, kb: Option<Kbkb>, nodes: seq<Node>, maxHeight: int,
                          draw: Draws,
                          calls: seq<Call>): (t: State)
    requires s.Valid()
    ensures t.Valid()
  {
    BindAll(s, ShowerRequests(s, schedulerName, kb, nodes, maxHeight, draw), calls).0
  }

  /** The log goes on, and its new entries name only these Pods. */
  ghost predicate LogsOnly(log: seq<Entry>, log': seq<Entry>, names: set<string>)
  {
    log <= log' && forall i :: |log| <= i < |log'| ==> log'[i].name in names
  }

  lemma LogsOn(a: seq<Entry>, b: seq<Entry>, c: seq<Entry>, names: set<string>)
    requires LogsOnly(a, b, names) && LogsOnly(b, c, names)
    ensures LogsOnly(a, c, names)
  {
    assert c[..|a|] == b[..|a|] == a;
    forall i | |a| <= i < |c| ensures c[i].name in names {
      if i < |b| {
        assert c[i] == b[i];
      }
    }
  }

  lemma {:induction false} BurstLogs(s: State, requests: seq<Request>, calls: seq<Call>, names: set<string>)
    requires s.Valid() && forall i :: 0 <= i < |requests| ==> requests[i].pod in names
    ensures LogsOnly(s.log, BindAll(s, requests, calls).0.log, names)
    decreases |requests|
  {
    if requests != [] && calls != [] {
      var (t, ok) := BindOne(s, requests[0], calls[0]);
      if ok {
        BurstLogs(t, requests[1..], calls[1..], names);
        LogsOn(s.log, t.log, BindAll(t, requests[1..], calls[1..]).0.log, names);
      }
    }
  }

  /** A shower binds garbage only. */
  lemma ShowerLogsGarbage(s: State, schedulerName: string, kb: Option<Kbkb>, nodes: seq<Node>, maxHeight: int,
                          draw: Draws, calls: seq<Call>)
    requires Sound(s)
    ensures LogsOnly(s.log, Showered(s, schedulerName, kb, nodes, maxHeight, draw, calls).log, GarbageNames(s.Cache()))
  {
    var garbage := QueueOf(s.Cache(), schedulerName, s.inflight, true);
    CacheUnique(s);
    QueueFacts(s.Cache(), schedulerName, s.inflight, true);
    assert forall i :: 0 <= i < |garbage| ==> garbage[i] in garbage;
    BurstLogs(s, ShowerRequests(s, schedulerName, kb, nodes, maxHeight, draw), calls, GarbageNames(s.Cache()));
  }

  function Tidied(s: State, clock: string -> int): State
    requires s.Valid()
  {
    s.(inflight := Pruned(s.Cache(), s.inflight, clock))
  }

  lemma FollowsOn(s: State, t: State, u: State, at: int, at': int)
    requires Follows(s, t, at) && Follows(t, u, at')
    ensures Follows(s, u, at')
  {
    ContinuesOn(s, t, u, at, at');
  }

  /** Where a plan leads: to its drop, or nowhere. */
  ghost predicate Leads(s: State, t: State, schedulerName: string, maxHeight: int, kb: Option<Kbkb>, nodes: seq<Node>,
                        calls: seq<Call>, plan: Option<seq<Placement>>)
    requires s.Valid()
  {
    t == if plan.None? then s else DropResult(s, schedulerName, maxHeight, kb, nodes, plan.value, calls).0
  }

  lemma PlayLeads(s: State, t: State, err: Option<DropError>, schedulerName: string, pairSize: nat, maxHeight: int,
                  kb: Option<Kbkb>, nodes: seq<Node>, draw: Draws, calls: seq<Call>, plan: Option<seq<Placement>>)
    requires s.Valid()
    requires (t == s && plan == None)
      || AutoPlays(s, t, err, schedulerName, pairSize, maxHeight, kb, nodes, draw, calls, plan)
    ensures Leads(s, t, schedulerName, maxHeight, kb, nodes, calls, plan)
  {
  }

  lemma {:induction false} LeadsOn(s: State, t: State, schedulerName: string, maxHeight: int, kb: Option<Kbkb>,
                                   nodes: seq<Node>,
                                   calls: seq<Call>, plan: Option<seq<Placement>>, at: int)
    requires Sound(s) && UniqueNodes(nodes) && s.history[|s.history| - 1].at <= at && TimelyCalls(at, calls)
    requires Leads(s, t, schedulerName, maxHeight, kb, nodes, calls, plan)
    ensures Follows(s, t, LastTime(at, calls))
  {
    LastTimeLater(at, calls);
    if plan.Some? {
      DropFollows(s, schedulerName, kb, nodes, MaxHeightFor(kb, maxHeight), plan.value, calls, at);
    }
  }

  lemma TidiedFollows(s: State, clock: string -> int)
    requires Sound(s) && forall name :: name in s.inflight ==> LagBounded(s, clock(name))
    ensures Follows(s, Tidied(s, clock), s.history[|s.history| - 1].at)
  {
    PruneSound(s, clock);
  }

  /** One turn of the loop: tidy the table, shower the garbage, and in auto mode play a pair. Errors are only printed.
      `tidied` and `showered` are the states after the first two. */
  method Turn(sched: Scheduler, kb: Option<Kbkb>, nodes: seq<Node>, clock: string -> int, draw: Draws,
              showerCalls: seq<Call>, playDraw: Draws, playCalls: seq<Call>)
    returns (err: Option<DropError>, ghost tidied: State, ghost showered: State, ghost plan: Option<seq<Placement>>)
    requires Sound(sched.Now()) && UniqueNodes(nodes)
    requires forall name :: name in sched.inflight ==> LagBounded(sched.Now(), clock(name))
    modifies sched
    ensures tidied == Tidied(old(sched.Now()), clock)
    ensures showered == Showered(tidied, sched.schedulerName, kb, nodes, sched.maxHeight, draw, showerCalls)
    ensures sched.mode == "auto" ==>
      AutoPlays(showered, sched.Now(), err, sched.schedulerName, sched.pairSize, sched.maxHeight, kb, nodes, playDraw,
                playCalls, plan)
    ensures sched.mode != "auto" ==> sched.Now() == showered && plan == None
    ensures sched.mode == old(sched.mode)
  {
    err, plan := None, None;
    ghost var was := sched.Now();
    TidiedFollows(was, clock);
    sched.PruneInflight(clock);
    tidied := sched.Now();
    assert tidied == Tidied(was, clock);
    NamedColumns(tidied, kb, nodes, MaxHeightFor(kb, sched.maxHeight));
    var _ := sched.DropOjama(kb, nodes, draw, showerCalls);
    showered := sched.Now();
    assert showered == Showered(tidied, sched.schedulerName, kb, nodes, sched.maxHeight, draw, showerCalls);
    if sched.mode == AUTO {
      ShoweredCache(tidied, sched.schedulerName, kb, nodes, sched.maxHeight, draw, showerCalls);
      err, plan := sched.AutoDrop(kb, nodes, playDraw, playCalls);
    }
  }

  /** A turn, with its clock: the binding invariant is kept, the history only grows, and the shower logs garbage
      only. */
  method Tick(sched: Scheduler, kb: Option<Kbkb>, nodes: seq<Node>, clock: string -> int, draw: Draws,
              showerCalls: seq<Call>, playDraw: Draws, playCalls: seq<Call>)
    returns (err: Option<DropError>, ghost tidied: State, ghost showered: State, ghost plan: Option<seq<Placement>>)
    requires Sound(sched.Now()) && UniqueNodes(nodes)
    requires forall name :: name in sched.inflight ==> LagBounded(sched.Now(), clock(name))
    requires TimelyTurn(sched.Now(), showerCalls, playCalls)
    modifies sched
    ensures tidied == Tidied(old(sched.Now()), clock)
    ensures showered == Showered(tidied, sched.schedulerName, kb, nodes, sched.maxHeight, draw, showerCalls)
    ensures sched.mode == "auto" ==>
      AutoPlays(showered, sched.Now(), err, sched.schedulerName, sched.pairSize, sched.maxHeight, kb, nodes, playDraw,
                playCalls, plan)
    ensures sched.mode != "auto" ==> sched.Now() == showered && plan == None
    ensures sched.mode == old(sched.mode)
    ensures LogsOnly(tidied.log, showered.log, GarbageNames(tidied.Cache()))
    ensures GoesOn(old(sched.Now()), sched.Now())
  {
    ghost var was := sched.Now();
    err, tidied, showered, plan := Turn(sched, kb, nodes, clock, draw, showerCalls, playDraw, playCalls);
    PlayLeads(showered, sched.Now(), err, sched.schedulerName, sched.pairSize, sched.maxHeight, kb, nodes, playDraw,
              playCalls, plan);
    ghost var a, b := TurnSound(was, clock, sched.schedulerName, sched.maxHeight, kb, nodes, draw, showerCalls,
                                playCalls,
                                sched.Now(), plan);
  }

  ghost predicate TimelyTurn(s: State, showerCalls: seq<Call>, playCalls: seq<Call>)
    requires s.Valid()
  {
    var at := s.history[|s.history| - 1].at;
    TimelyCalls(at, showerCalls) && TimelyCalls(LastTime(at, showerCalls), playCalls)
  }

  ghost predicate GoesOn(s: State, t: State)
  {
    Sound(t) && s.history <= t.history && t.seen == s.seen
  }

  lemma ShoweredCache(s: State, schedulerName: string, kb: Option<Kbkb>, nodes: seq<Node>, maxHeight: int, draw: Draws,
                      calls: seq<Call>)
    requires Sound(s)
    ensures var t := Showered(s, schedulerName, kb, nodes, maxHeight, draw, calls);
      t.Cache() == s.Cache() && UniqueNames(t.Cache())
  {
    CacheUnique(s);
    BindAllCache(s, ShowerRequests(s, schedulerName, kb, nodes, maxHeight, draw), calls);
  }

  lemma {:induction false} BindAllCache(s: State, requests: seq<Request>, calls: seq<Call>)
    requires s.Valid()
    ensures BindAll(s, requests, calls).0.Cache() == s.Cache()
    decreases |requests|
  {
    if requests != [] && calls != [] {
      BindAllCache(BindOne(s, requests[0], calls[0]).0, requests[1..], calls[1..]);
    }
  }

  lemma ShowerFollowsTidy(s: State, clock: string -> int, schedulerName: string, maxHeight: int, kb: Option<Kbkb>,
                          nodes: seq<Node>, draw: Draws, calls: seq<Call>, at: int)
    returns (tidied: State, showered: State)
    requires Sound(s) && UniqueNodes(nodes) && at == s.history[|s.history| - 1].at && TimelyCalls(at, calls)
    requires forall name :: name in s.inflight ==> LagBounded(s, clock(name))
    ensures tidied == Tidied(s, clock) && Sound(tidied)
    ensures showered == Showered(tidied, schedulerName, kb, nodes, maxHeight, draw, calls)
    ensures Follows(s, showered, LastTime(at, calls))
    ensures LogsOnly(tidied.log, showered.log, GarbageNames(tidied.Cache()))
  {
    tidied := Tidied(s, clock);
    showered := Showered(tidied, schedulerName, kb, nodes, maxHeight, draw, calls);
    TidiedFollows(s, clock);
    var candidates := ShowerFollows(tidied, schedulerName, kb, nodes, MaxHeightFor(kb, maxHeight), draw, calls, at);
    FollowsOn(s, tidied, showered, at, LastTime(at, calls));
    ShowerLogsGarbage(tidied, schedulerName, kb, nodes, maxHeight, draw, calls);
  }

  lemma {:induction false} TurnFollows(s: State, showered: State, t: State, schedulerName: string, maxHeight: int,
                                       kb: Option<Kbkb>,
                                       nodes: seq<Node>, calls: seq<Call>, plan: Option<seq<Placement>>, at: int)
    requires Follows(s, showered, at) && UniqueNodes(nodes) && TimelyCalls(at, calls)
    requires Leads(showered, t, schedulerName, maxHeight, kb, nodes, calls, plan)
    ensures GoesOn(s, t)
  {
    LeadsOn(showered, t, schedulerName, maxHeight, kb, nodes, calls, plan, at);
    FollowsOn(s, showered, t, at, LastTime(at, calls));
  }

  lemma TurnSound(s: State, clock: string -> int, schedulerName: string, maxHeight: int, kb: Option<Kbkb>,
                  nodes: seq<Node>, draw: Draws, showerCalls: seq<Call>, playCalls: seq<Call>, t: State,
                  plan: Option<seq<Placement>>) returns (tidied: State, showered: State)
    requires Sound(s) && UniqueNodes(nodes) && TimelyTurn(s, showerCalls, playCalls)
    requires forall name :: name in s.inflight ==> LagBounded(s, clock(name))
    requires Leads(Showered(Tidied(s, clock), schedulerName, kb, nodes, maxHeight, draw, showerCalls), t, schedulerName,
                   maxHeight, kb, nodes, playCalls, plan)
    ensures tidied == Tidied(s, clock)
    ensures showered == Showered(tidied, schedulerName, kb, nodes, maxHeight, draw, showerCalls)
    ensures LogsOnly(tidied.log, showered.log, GarbageNames(tidied.Cache())) && GoesOn(s, t)
  {
    var at := s.history[|s.history| - 1].at;
    tidied, showered := ShowerFollowsTidy(s, clock, schedulerName, maxHeight, kb, nodes, draw, showerCalls, at);
    TurnFollows(s, showered, t, schedulerName, maxHeight, kb, nodes, playCalls, plan, LastTime(at, showerCalls));
  }

  // ----- When a drop goes through

  /** Every call gets through. */
  predicate AllThrough(calls: seq<Call>)
  {
    forall i :: 0 <= i < |calls| ==> calls[i].patchOk && calls[i].bindOk
  }

  ghost predicate AllBindable(pods: seq<Pod>, requests: seq<Request>)
  {
    forall i :: 0 <= i < |requests| ==> CanBind(pods, requests[i].pod) && requests[i].node != ""
  }

  lemma CanBindHas(pods: seq<Pod>, name: string)
    requires CanBind(pods, name)
    ensures HasPod(pods, name)
  {
    var i :| 0 <= i < |pods| && pods[i].name == name && Bindable(pods[i]);
    assert pods[i] in pods;
  }

  /** With every call getting through, a bind succeeds, and takes exactly that Pod off the bindable ones. */
  lemma BindOneGoesThrough(s: State, r: Request, c: Call)
    requires s.Valid() && UniqueNames(s.Truth()) && c.patchOk && c.bindOk && r.node != "" && CanBind(s.Truth(), r.pod)
    ensures BindOne(s, r, c).1
    ensures var t := BindOne(s, r, c).0;
      UniqueNames(t.Truth()) && forall n :: CanBind(t.Truth(), n) <==> n != r.pod && CanBind(s.Truth(), n)
  {
    CanBindHas(s.Truth(), r.pod);
    StampedFacts(s.Truth(), r.pod, OrderOf(r, c));
    var mid := AfterPatch(s, r, c);
    BoundFacts(mid.Truth(), r.pod, r.node);
  }

  lemma {:induction false} BurstGoesThrough(s: State, requests: seq<Request>, calls: seq<Call>)
    requires s.Valid() && UniqueNames(s.Truth()) && AllBindable(s.Truth(), requests)
    requires |calls| >= |requests| && AllThrough(calls)
    ensures BindAll(s, requests, calls).1 == None <==> Distinct(requests)
    decreases |requests|
  {
    if requests != [] {
      var r, rest := requests[0], requests[1..];
      var (t, ok) := BindOne(s, r, calls[0]);
      BindOneGoesThrough(s, r, calls[0]);
      if exists i :: 0 <= i < |rest| && rest[i].pod == r.pod {
        var i :| 0 <= i < |rest| && rest[i].pod == r.pod;
        assert requests[0].pod == requests[i + 1].pod;
        RepeatFails(t, rest, calls[1..], i);
      } else {
        assert AllBindable(t.Truth(), rest);
        BurstGoesThrough(t, rest, calls[1..]);
        DistinctTail(requests);
      }
    }
  }

  lemma DistinctTail(requests: seq<Request>)
    requires requests != [] && forall i :: 0 <= i < |requests[1..]| ==> requests[1..][i].pod != requests[0].pod
    ensures Distinct(requests) <==> Distinct(requests[1..])
  {
    var rest := requests[1..];
    if Distinct(rest) {
      forall i, j | 0 <= i < j < |requests| ensures requests[i].pod != requests[j].pod {
        assert requests[j] == rest[j - 1];
        if i > 0 {
          assert requests[i] == rest[i - 1];
        }
      }
    }
  }

  /** A burst that asks for a Pod that cannot be bound fails. */
  lemma {:induction false} RepeatFails(s: State, requests: seq<Request>, calls: seq<Call>, i: nat)
    requires s.Valid() && UniqueNames(s.Truth()) && i < |requests| && !CanBind(s.Truth(), requests[i].pod)
    requires forall j :: 0 <= j < |requests| ==> requests[j].node != ""
    ensures BindAll(s, requests, calls).1.Some?
    decreases |requests|
  {
    if calls != [] {
      var r, c := requests[0], calls[0];
      var (t, ok) := BindOne(s, r, c);
      if ok {
        StampedFacts(s.Truth(), r.pod, OrderOf(r, c));
        var mid := AfterPatch(s, r, c);
        BoundFacts(mid.Truth(), r.pod, r.node);
        if i > 0 {
          RepeatFails(t, requests[1..], calls[1..], i - 1);
        }
      }
    }
  }

  /** A drop does not check that its Pods differ: accepted, with the cache caught up and every call getting through,
      it completes if and only if they do. */
  lemma {:induction false} DropCompletesIffDistinct(s: State, schedulerName: string, columns: seq<Column>, limit: int,
                                                    placements: seq<Placement>, calls: seq<Call>)
    requires s.Valid() && UniqueNames(s.Truth()) && s.Cache() == s.Truth() && placements != []
    requires "" !in HeightsOf(columns)
    requires |calls| >= |placements| && AllThrough(calls)
    requires Validate(QueuedNames(s, schedulerName), HeightsOf(columns), limit, placements) == None
    ensures var queued := QueuedNames(s, schedulerName);
      DropEffect(s, queued, HeightsOf(columns), limit, placements, calls).1 == None <==> DistinctPods(placements)
  {
    var queue := QueueOf(s.Cache(), schedulerName, s.inflight, false);
    var requests := DropRequests(placements);
    ValidateIffAcceptable(Names(queue), HeightsOf(columns), limit, placements);
    QueueFacts(s.Cache(), schedulerName, s.inflight, false);
    forall i | 0 <= i < |requests| ensures CanBind(s.Truth(), requests[i].pod) && requests[i].node != "" {
      assert placements[i].pod in Names(queue);
      var p :| p in queue && p.name == placements[i].pod;
      var k :| 0 <= k < |s.Truth()| && s.Truth()[k] == p;
    }
    BurstGoesThrough(s, requests, calls);
    if Distinct(requests) {
      forall i, j | 0 <= i < j < |placements| ensures placements[i].pod != placements[j].pod {
        assert requests[i].pod != requests[j].pod;
      }
    }
  }

  /** A refused drop binds nothing. */
  lemma RefusedDropBindsNothing(s: State, queued: set<string>, heights: map<string, int>, limit: int,
                                placements: seq<Placement>, calls: seq<Call>)
    requires s.Valid()
    requires placements == [] || !Acceptable(queued, heights, limit, placements)
    ensures DropEffect(s, queued, heights, limit, placements, calls).0 == s
    ensures DropEffect(s, queued, heights, limit, placements, calls).1.Some?
  {
    ValidateIffAcceptable(queued, heights, limit, placements);
  }
}
