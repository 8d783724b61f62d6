/** No wake-up is lost: channels of capacity one, which drop a second token, still start a tick and a state send after
    every poke. */
module WakeUp {

  datatype LoopStage = Waiting | Woken | Ticking

  /** A subscriber has just subscribed, sends the state, listens, or was woken and will send. */
  datatype SubStage = Subscribed | Sending | Listening | Roused

  /** `sent` is the number of broadcasts begun when its last send started. */
  datatype Subscriber = Subscriber(token: bool, stage: SubStage, sent: nat)

  /** `ticked` is the number of pokes when the last tick started; `owed` are the subscribers a broadcast,
      which holds the lock, still has to offer a token. */
  datatype State = State(
    pokes: nat, notify: bool, loop: LoopStage, ticked: nat,
    casts: nat, locked: bool, owed: set<nat>, subs: map<nat, Subscriber>)

  datatype Step =
    | Poke                    // the non-blocking send on notify
    | TakeNotify              // the loop receives the token
    | Timer                   // the loop's ticker fires instead
    | StartTick
    | EndTick
    | BeginBroadcast          // takes the subscriber lock
    | Offer(id: nat)          // the non-blocking send to one subscriber
    | EndBroadcast
    | Subscribe(id: nat)
    | StartSend(id: nat)
    | EndSend(id: nat)
    | TakeToken(id: nat)
    | Beat(id: nat)           // the stream's heartbeat
    | Cancel(id: nat)

  const INITIAL := State(0, false, Waiting, 0, 0, false, {}, map[])

  predicate Enabled(s: State, step: Step)
  {
    match step
    case Poke => true
    case TakeNotify => s.loop == Waiting && s.notify
    case Timer => s.loop == Waiting
    case StartTick => s.loop == Woken
    case EndTick => s.loop == Ticking
    case BeginBroadcast => !s.locked
    case Offer(id) => s.locked && id in s.owed
    case EndBroadcast => s.locked && s.owed == {}
    case Subscribe(id) => !s.locked && id !in s.subs
    case StartSend(id) => id in s.subs && s.subs[id].stage in {Subscribed, Roused}
    case EndSend(id) => id in s.subs && s.subs[id].stage == Sending
    case TakeToken(id) => id in s.subs && s.subs[id].stage == Listening && s.subs[id].token
    case Beat(id) => id in s.subs && s.subs[id].stage == Listening
    case Cancel(id) => !s.locked && id in s.subs
  }

  function After(s: State, step: Step): State
    requires Enabled(s, step)
  {
    match step
    case Poke => s.(pokes := s.pokes + 1, notify := true)
    case TakeNotify => s.(notify := false, loop := Woken)
    case Timer => s.(loop := Woken)
    case StartTick => s.(loop := Ticking, ticked := s.pokes)
    case EndTick => s.(loop := Waiting)
    case BeginBroadcast => s.(casts := s.casts + 1, locked := true, owed := s.subs.Keys)
    case Offer(id) =>
      s.(owed := s.owed - {id}, subs := if id in s.subs then s.subs[id := s.subs[id].(token := true)] else s.subs)
    case EndBroadcast => s.(locked := false)
    case Subscribe(id) => s.(subs := s.subs[id := Subscriber(false, Subscribed, 0)])
    case StartSend(id) => s.(subs := s.subs[id := s.subs[id].(stage := Sending, sent := s.casts)])
    case EndSend(id) => s.(subs := s.subs[id := s.subs[id].(stage := Listening)])
    case TakeToken(id) => s.(subs := s.subs[id := s.subs[id].(token := false, stage := Roused)])
    case Beat(id) => s
    case Cancel(id) => s.(subs := s.subs - {id})
  }

  /** A tick has started since the last poke, or a token or a woken loop stands for it. */
  predicate TickOwed(s: State)
  {
    s.ticked == s.pokes || s.notify || s.loop == Woken
  }

  /** A send has started since the last broadcast began, or a token, a send about to start, or the broadcast itself
      stands for it. */
  predicate SendOwed(s: State, id: nat)
    requires id in s.subs
  {
    var sub := s.subs[id];
    sub.sent == s.casts || sub.token || sub.stage in {Subscribed, Roused} || id in s.owed
  }

  predicate Inv(s: State)
  {
    && s.ticked <= s.pokes && TickOwed(s)
    && (!s.locked ==> s.owed == {}) && s.owed <= s.subs.Keys
    && forall id :: id in s.subs ==> s.subs[id].sent <= s.casts && SendOwed(s, id)
  }

  lemma StepKeepsInv(s: State, step: Step)
    requires Inv(s) && Enabled(s, step)
    ensures Inv(After(s, step))
  {
  }

  ghost predicate IsRun(states: seq<State>, steps: seq<Step>)
  {
    && |states| == |steps| + 1 && states[0] == INITIAL
    && forall i :: 0 <= i < |steps| ==> Enabled(states[i], steps[i]) && states[i + 1] == After(states[i], steps[i])
  }

  lemma {:induction false} RunKeepsInv(states: seq<State>, steps: seq<Step>, n: nat)
    requires IsRun(states, steps) && n < |states|
    ensures Inv(states[n])
  {
    if n > 0 {
      RunKeepsInv(states, steps, n - 1);
      StepKeepsInv(states[n - 1], steps[n - 1]);
    }
  }

  // ----- What the tokens guarantee

  /** The steps of a run, from the n-th up to the m-th, that are among `own`. */
  ghost function Taken(steps: seq<Step>, own: set<Step>, n: nat, m: nat): nat
    requires n <= m <= |steps|
    decreases m
  {
    if n == m then 0 else Taken(steps, own, n, m - 1) + if steps[m - 1] in own then 1 else 0
  }

  const LOOP_STEPS: set<Step> := {TakeNotify, Timer, StartTick, EndTick}

  /** How many steps of its own the loop is away from having started a tick after poke number `target`. */
  function StepsToTick(s: State, target: nat): nat
  {
    if s.ticked >= target then 0
    else match s.loop
      case Woken => 1
      case Waiting => 2
      case Ticking => 3
  }

  lemma {:induction false} TickNears(states: seq<State>, steps: seq<Step>, n: nat, m: nat)
    requires IsRun(states, steps) && n <= m < |states|
    ensures states[m].pokes >= states[n].pokes
    ensures StepsToTick(states[m], states[n].pokes) + Taken(steps, LOOP_STEPS, n, m) <= 3
      || states[m].ticked >= states[n].pokes
    decreases m
  {
    if n < m {
      TickNears(states, steps, n, m - 1);
      RunKeepsInv(states, steps, m - 1);
      assert Enabled(states[m - 1], steps[m - 1]) && states[m] == After(states[m - 1], steps[m - 1]);
    }
  }

  /** However the steps of a run interleave, any three steps of the loop after a poke start a tick. */
  lemma {:induction false} TickFollowsPoke(states: seq<State>, steps: seq<Step>, n: nat, m: nat)
    requires IsRun(states, steps) && n <= m < |states| && Taken(steps, LOOP_STEPS, n, m) >= 3
    ensures states[m].ticked >= states[n].pokes
  {
    TickNears(states, steps, n, m);
  }

  /** While a tick is owed the loop can take a step other than waiting for its timer. */
  lemma LoopNotStuck(states: seq<State>, steps: seq<Step>, n: nat) returns (step: Step)
    requires IsRun(states, steps) && n < |states| && states[n].ticked < states[n].pokes
    ensures step in LOOP_STEPS - {Timer} && Enabled(states[n], step)
  {
    RunKeepsInv(states, steps, n);
    step := match states[n].loop
      case Woken => StartTick
      case Waiting => TakeNotify
      case Ticking => EndTick;
  }

  function StreamSteps(id: nat): set<Step>
  {
    {StartSend(id), EndSend(id), TakeToken(id)}
  }

  /** How many steps of its own, heartbeats aside, a stream is away from having started a send after broadcast
      `target`. */
  function StepsToSend(sub: Subscriber, target: nat): nat
  {
    if sub.sent >= target then 0
    else match sub.stage
      case Subscribed => 1
      case Roused => 1
      case Listening => 2
      case Sending => 3
  }

  lemma SendStep(s: State, step: Step, id: nat, target: nat)
    requires Inv(s) && Enabled(s, step) && id in s.subs && step != Cancel(id) && target <= s.casts
    ensures var t := After(s, step);
      && t.casts >= s.casts && id in t.subs
      && (t.subs[id].sent >= target
          || StepsToSend(t.subs[id], target) + (if step in StreamSteps(id) then 1 else 0)
             <= StepsToSend(s.subs[id], target))
  {
    if step in StreamSteps(id) {
      match step
      case StartSend(_) =>
      case EndSend(_) =>
      case TakeToken(_) =>
    } else {
      assert After(s, step).subs[id].(token := false) == s.subs[id].(token := false);
    }
  }

  lemma {:induction false} SendNears(states: seq<State>, steps: seq<Step>, n: nat, m: nat, id: nat)
    requires IsRun(states, steps) && n <= m < |states| && id in states[n].subs
    requires forall i :: n <= i < m ==> steps[i] != Cancel(id)
    ensures states[m].casts >= states[n].casts && id in states[m].subs
    ensures StepsToSend(states[m].subs[id], states[n].casts) + Taken(steps, StreamSteps(id), n, m) <= 3
      || states[m].subs[id].sent >= states[n].casts
    decreases m
  {
    if n < m {
      SendNears(states, steps, n, m - 1, id);
      RunKeepsInv(states, steps, m - 1);
      SendStep(states[m - 1], steps[m - 1], id, states[n].casts);
    }
  }

  /** However the steps of a run interleave, any three steps of a stream after a broadcast, heartbeats aside, start a
      send: for every subscriber that stays, including one that has just subscribed. */
  lemma {:induction false} SendFollowsBroadcast(states: seq<State>, steps: seq<Step>, n: nat, m: nat, id: nat)
    requires IsRun(states, steps) && n <= m < |states| && id in states[n].subs
    requires forall i :: n <= i < m ==> steps[i] != Cancel(id)
    requires Taken(steps, StreamSteps(id), n, m) >= 3
    ensures id in states[m].subs && states[m].subs[id].sent >= states[n].casts
  {
    SendNears(states, steps, n, m, id);
  }

  /** While a send is owed the stream can take a step other than its heartbeat, or the broadcast can still offer it a
      token. */
  lemma StreamNotStuck(states: seq<State>, steps: seq<Step>, n: nat, id: nat) returns (step: Step)
    requires IsRun(states, steps) && n < |states| && id in states[n].subs && states[n].subs[id].sent < states[n].casts
    ensures step in StreamSteps(id) + {Offer(id)} && Enabled(states[n], step)
  {
    RunKeepsInv(states, steps, n);
    assert SendOwed(states[n], id);
    var sub := states[n].subs[id];
    step := match sub.stage
      case Subscribed => StartSend(id)
      case Roused => StartSend(id)
      case Listening => if sub.token then TakeToken(id) else Offer(id)
      case Sending => EndSend(id);
  }

  /** With nothing pending and everyone at rest, nothing was missed. */
  lemma QuietMeansCaughtUp(states: seq<State>, steps: seq<Step>, n: nat, id: nat)
    requires IsRun(states, steps) && n < |states|
    ensures var s := states[n];
      && (s.loop == Waiting && !s.notify ==> s.ticked == s.pokes)
      && (id in s.subs && !s.locked && s.subs[id].stage == Listening && !s.subs[id].token ==>
          s.subs[id].sent == s.casts)
  {
    RunKeepsInv(states, steps, n);
  }
}
