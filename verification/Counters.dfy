/** The score over every interleaving of the two reconcilers, spec edits and outside Pod changes. */
module Counters {
  import opened Options
  import opened Kube
  import opened Controller

  /** Every version of the resource so far, oldest first; the last is the current one. */
  type History = h: seq<Kbkb> | h != []
    witness [Kbkb("", Spec(4, map[], false, None, None), Status(Fresh, 0, 0, 0, 0), 0)]

  /** A reconcile may have read any version there has been, and any Pods and Nodes. */
  datatype Move =
    | EraseMove(read: nat, podList: seq<Pod>, nodeList: seq<Node>)
    | SpawnMove(read: nat, podList: seq<Pod>, nodeList: seq<Node>)
    | SpecMove(spec: Spec)

  function Current(h: History): Kbkb
  {
    h[|h| - 1]
  }

  /** The resource after one move; a write on a version that is no longer current changes nothing. */
  ghost function After(h: History, m: Move): Kbkb
  {
    match m
    case EraseMove(read, podList, nodeList) =>
      if read < |h| then EraseWrite(Current(h), h[read], Judge(h[read].spec, podList, nodeList)) else Current(h)
    case SpawnMove(read, podList, nodeList) =>
      if read < |h| then SpawnWrite(Current(h), h[read], JudgeSpawn(h[read], podList, nodeList)) else Current(h)
    case SpecMove(spec) => Current(h).(spec := spec, version := Current(h).version + 1)
  }

  ghost function Step(h: History, m: Move): History
  {
    if After(h, m) == Current(h) then h else h + [After(h, m)]
  }

  ghost function Run(h: History, moves: seq<Move>): History
  {
    if moves == [] then h else Step(Run(h, moves[..|moves| - 1]), moves[|moves| - 1])
  }

  // ----- The invariant

  ghost predicate Consistent(s: Status, k: int)
  {
    && (s.phase == Idle || s.phase == Fresh ==> s.chain == 0)
    && (s.phase == Erasing ==> s.chain >= 1)
    && 0 <= s.chain <= s.maxChain
    && k * s.maxChain <= s.totalErased
    && 0 <= s.allClears
    && k * s.allClears + (if s.phase == Erasing then k else 0) <= s.totalErased
  }

  /** k is at most the effective kokeshi of every spec there has been. */
  ghost predicate Sound(h: History, k: int)
  {
    && (forall i, j :: 0 <= i < j < |h| ==> h[i].version < h[j].version)
    && forall i :: 0 <= i < |h| ==> Consistent(h[i].status, k) && Kokeshi(h[i].spec) >= k
  }

  lemma EraseConsistent(s: Status, k: int, n: nat)
    requires Consistent(s, k) && n >= k >= 2
    ensures Consistent(EraseStatus(s, n), k)
  {
    var t := EraseStatus(s, n);
    assert t.maxChain == s.maxChain || t.maxChain <= s.maxChain + 1;
    assert k * (s.maxChain + 1) == k * s.maxChain + k;
  }

  lemma SettleConsistent(s: Status, k: int, empty: bool)
    requires Consistent(s, k) && k >= 2 && SettleStatus(s, empty).Some?
    ensures Consistent(SettleStatus(s, empty).value, k)
  {
    assert k * (s.allClears + 1) == k * s.allClears + k;
  }

  lemma EraseWriteConsistent(kbkb: Kbkb, read: Kbkb, v: Verdict, k: int)
    requires k >= 2 && Kokeshi(read.spec) >= k && Consistent(kbkb.status, k) && Consistent(read.status, k)
    requires v.Erases? ==> v.count >= Kokeshi(read.spec)
    ensures Consistent(EraseWrite(kbkb, read, v).status, k)
  {
    match v
    case Waits =>
    case Settles(empty) =>
      if SettleStatus(read.status, empty).Some? {
        SettleConsistent(read.status, k, empty);
      }
    case Erases(_, count) =>
      EraseConsistent(read.status, k, count);
  }

  /** Any write by a reconciler replaces the status of the version it read. */
  lemma AfterSound(h: History, m: Move, k: int)
    requires k >= 2 && Sound(h, k) && (m.SpecMove? ==> Kokeshi(m.spec) >= k)
    ensures Consistent(After(h, m).status, k) && Kokeshi(After(h, m).spec) >= k
    ensures After(h, m) == Current(h) || After(h, m).version == Current(h).version + 1
  {
    match m
    case EraseMove(read, podList, nodeList) =>
      if read < |h| {
        ErasesEnough(h[read].spec, podList, nodeList);
        EraseWriteConsistent(Current(h), h[read], Judge(h[read].spec, podList, nodeList), k);
      }
    case SpawnMove(read, podList, nodeList) =>
    case SpecMove(_) =>
  }

  lemma StepSound(h: History, m: Move, k: int)
    requires k >= 2 && Sound(h, k) && (m.SpecMove? ==> Kokeshi(m.spec) >= k)
    ensures Sound(Step(h, m), k)
  {
    AfterSound(h, m, k);
    var next := After(h, m);
    if next != Current(h) {
      Extend(h, next, k);
    }
  }

  lemma Extend(h: History, next: Kbkb, k: int)
    requires Sound(h, k) && Consistent(next.status, k) && Kokeshi(next.spec) >= k
    requires next.version == Current(h).version + 1
    ensures Sound(h + [next], k)
  {
  }

  /** Chain, best chain, total and all-clears stay consistent in every version any run ever writes. */
  lemma {:induction false} CountersHold(h: History, moves: seq<Move>, k: int)
    requires k >= 2 && Sound(h, k)
    requires forall i :: 0 <= i < |moves| && moves[i].SpecMove? ==> Kokeshi(moves[i].spec) >= k
    ensures Sound(Run(h, moves), k)
  {
    if moves != [] {
      var init := moves[..|moves| - 1];
      CountersHold(h, init, k);
      StepSound(Run(h, init), moves[|moves| - 1], k);
    }
  }

  /** A fresh resource starts every run; since no effective kokeshi is below 2, k = 2 always works. */
  lemma FreshIsSound(kbkb: Kbkb)
    requires kbkb.status == Status(Fresh, 0, 0, 0, 0)
    ensures Sound([kbkb], 2) && Sound([kbkb], Kokeshi(kbkb.spec))
  {
  }

  // ----- When counters fall, and how a game over ends

  ghost predicate NoneFell(s: Status, t: Status)
  {
    t.maxChain >= s.maxChain && t.totalErased >= s.totalErased && t.allClears >= s.allClears
  }

  lemma EraseWriteFalls(kbkb: Kbkb, read: Kbkb, v: Verdict)
    requires kbkb.version == read.version ==> kbkb == read
    ensures NoneFell(kbkb.status, EraseWrite(kbkb, read, v).status)
      || (v == Settles(true) && kbkb.status.phase == GameOver
          && EraseWrite(kbkb, read, v).status == Status(Idle, 0, 0, 0, 0))
    ensures kbkb.status.phase == GameOver ==>
      (EraseWrite(kbkb, read, v).status.phase != GameOver <==> kbkb == read && (v == Settles(true) || v.Erases?))
  {
  }

  lemma ReadIsCurrent(h: History, k: int, read: nat)
    requires Sound(h, k) && read < |h|
    ensures h[read].version == Current(h).version <==> read == |h| - 1
  {
    assert read == |h| - 1 || h[read].version < h[|h| - 1].version;
  }

  /** An erase pass on the current version found nothing left, neither on the field nor waiting, after a game over. */
  ghost predicate Resets(h: History, m: Move)
  {
    && m.EraseMove? && m.read == |h| - 1 && Current(h).status.phase == GameOver
    && Judge(Current(h).spec, m.podList, m.nodeList) == Settles(true)
  }

  /** Scores only ever rise, except that a cleaned-up game over starts again from zero. */
  lemma CountersFallOnlyOnReset(h: History, m: Move, k: int)
    requires k >= 2 && Sound(h, k)
    ensures NoneFell(Current(h).status, After(h, m).status) || Resets(h, m)
    ensures Resets(h, m) ==> After(h, m).status == Status(Idle, 0, 0, 0, 0)
  {
    match m
    case EraseMove(read, podList, nodeList) =>
      if read < |h| {
        ReadIsCurrent(h, k, read);
        var v := Judge(h[read].spec, podList, nodeList);
        assert After(h, m) == EraseWrite(Current(h), h[read], v);
        EraseWriteFalls(Current(h), h[read], v);
      }
    case SpawnMove(read, podList, nodeList) =>
      if read < |h| {
        ReadIsCurrent(h, k, read);
        var v := JudgeSpawn(h[read], podList, nodeList);
        assert After(h, m) == SpawnWrite(Current(h), h[read], v);
      }
    case SpecMove(_) =>
  }

  /** A game over is left in two ways only: by the reset, or by an erasure, which does not look at the phase. */
  lemma GameOverExits(h: History, m: Move, k: int)
    requires k >= 2 && Sound(h, k) && Current(h).status.phase == GameOver
    ensures After(h, m).status.phase != GameOver <==>
      m.EraseMove? && m.read == |h| - 1
      && (var v := Judge(Current(h).spec, m.podList, m.nodeList); v == Settles(true) || v.Erases?)
  {
    match m
    case EraseMove(read, podList, nodeList) =>
      if read < |h| {
        ReadIsCurrent(h, k, read);
        EraseWriteFalls(Current(h), h[read], Judge(h[read].spec, podList, nodeList));
      }
    case SpawnMove(read, podList, nodeList) =>
      if read < |h| {
        ReadIsCurrent(h, k, read);
      }
    case SpecMove(_) =>
  }

  /** A game over is declared with the chain still counting exactly when it interrupts an unsettled erasure. */
  lemma GameOverMidChain(h: History, m: Move, k: int)
    requires k >= 2 && Sound(h, k)
    requires Current(h).status.phase != GameOver && After(h, m).status.phase == GameOver
    ensures m.SpawnMove? && (After(h, m).status.chain > 0 <==> Current(h).status.phase == Erasing)
  {
    match m
    case EraseMove(read, podList, nodeList) =>
      if read < |h| {
        ReadIsCurrent(h, k, read);
      }
    case SpawnMove(read, podList, nodeList) =>
      ReadIsCurrent(h, k, read);
    case SpecMove(_) =>
  }
}
