/** The pair the player steers in the browser, from its spawn above the field to the drop it asks for. */
module FallingPair {
  import opened Options
  import opened Kube
  import opened Fields
  import opened Scheduler

  const SKY_ROWS := 2

  datatype QueueItem = QueueItem(pod: Pod, ojama: bool)

  /** The game state as the browser last received it. */
  datatype View = View(columns: seq<Column>, queue: seq<QueueItem>, maxHeight: int)
  {
    function Rows(): int
    {
      maxHeight + SKY_ROWS
    }
  }

  /** The pivot's cell, the side the satellite is on (0 above, 1 right, 2 below, 3 left), and whose pair it is. */
  datatype Pair = Pair(col: int, row: int, rot: nat, key: string)

  function SatColumn(p: Pair): int
  {
    p.col + if p.rot == 1 then 1 else if p.rot == 3 then -1 else 0
  }

  function SatRow(p: Pair): int
  {
    p.row + if p.rot == 0 then 1 else if p.rot == 2 then -1 else 0
  }

  predicate CellFree(v: View, c: int, r: int)
  {
    0 <= c < |v.columns| && 0 <= r < v.Rows() && r >= |v.columns[c].pods|
  }

  predicate Fits(v: View, p: Pair)
  {
    CellFree(v, p.col, p.row) && CellFree(v, SatColumn(p), SatRow(p))
  }

  function Raised(p: Pair, k: int): Pair
  {
    p.(row := p.row + k)
  }

  // ----- Well-behaved views and pairs

  /** At least one column, none taller than the limit. */
  ghost predicate Tame(v: View)
  {
    v.columns != [] && v.maxHeight >= 0 && forall c :: 0 <= c < |v.columns| ==> |v.columns[c].pods| <= v.maxHeight
  }

  predicate InGrid(v: View, p: Pair)
  {
    && p.rot < 4
    && 0 <= p.col < |v.columns| && 0 <= p.row < v.Rows()
    && 0 <= SatColumn(p) < |v.columns| && 0 <= SatRow(p) < v.Rows()
  }

  /** Lifting a pair that is inside the grid clears the stacks before it hits the ceiling. */
  lemma LiftClears(v: View, p: Pair) returns (k: nat)
    requires Tame(v) && InGrid(v, p)
    ensures k < v.Rows() && Fits(v, Raised(p, k))
  {
    k := (if p.rot == 0 then v.maxHeight else v.maxHeight + 1) - p.row;
  }

  // ----- Dropping straight down

  /** The lowest row the pivot can reach over its column and the satellite's. */
  function RestRow(v: View, p: Pair): int
    requires InGrid(v, p)
  {
    var under := |v.columns[p.col].pods|;
    var beside := |v.columns[SatColumn(p)].pods|;
    if p.rot == 2 then under + 1 else if under < beside then beside else under
  }

  /** From a fitting place, the rows below that also fit are exactly those down to the rest row. */
  lemma FitsDownToRest(v: View, p: Pair, k: int)
    requires Fits(v, p) && p.rot < 4 && k >= 0
    ensures Fits(v, Raised(p, -k)) <==> p.row - k >= RestRow(v, p)
    ensures 0 <= RestRow(v, p) <= p.row < v.Rows()
  {
  }

  /** Straight down until the next row does not fit. */
  function Fallen(v: View, p: Pair): (q: Pair)
    ensures !Fits(v, Raised(q, -1))
    decreases if p.row < 0 then 0 else p.row
  {
    if Fits(v, Raised(p, -1)) then Fallen(v, Raised(p, -1)) else p
  }

  /** A fitting pair falls to its rest row. */
  lemma {:induction false} FallenRests(v: View, p: Pair)
    requires Fits(v, p) && p.rot < 4
    ensures Fallen(v, p) == p.(row := RestRow(v, p)) && Fits(v, Fallen(v, p))
    decreases p.row
  {
    FitsDownToRest(v, p, 1);
    if Fits(v, Raised(p, -1)) {
      FallenRests(v, Raised(p, -1));
    } else {
      FitsDownToRest(v, p, 0);
    }
  }

  // ----- Rotation

  function Turned(p: Pair, dir: int): Pair
  {
    p.(rot := (p.rot + if dir > 0 then 1 else 3) % 4)
  }

  /** The turn with its kicks: a one-step ledge, the other side, one up off the floor, one down from the ceiling. */
  function Rotated(v: View, p: Pair, dir: int): Pair
  {
    var np := Turned(p, dir);
    var sc := SatColumn(np);
    var up, kick, down := Raised(np, 1), np.(col := np.col - (sc - np.col)), Raised(np, -1);
    if Fits(v, np) then np
    else if np.rot == 1 || np.rot == 3 then
      if 0 <= sc < |v.columns| && |v.columns[sc].pods| == np.row + 1 && Fits(v, up) then up
      else if Fits(v, kick) then kick
      else p
    else if np.rot == 2 then if Fits(v, up) then up else p
    else if Fits(v, down) then down else p
  }

  /** Any turn or kick leaves a fitting pair fitting, of the same key, with its pivot at most one cell away. */
  lemma RotationFits(v: View, p: Pair, dir: int)
    requires Fits(v, p)
    ensures var q := Rotated(v, p, dir);
      && Fits(v, q) && q.key == p.key
      && (q == p || q.rot == Turned(p, dir).rot)
      && -1 <= (q.col - p.col) + (q.row - p.row) <= 1 && (q.col == p.col || q.row == p.row)
  {
  }

  /** Turning upright always works on a tame field: the ceiling and the floor each give way by one row. */
  lemma UprightNeverBlocked(v: View, p: Pair, dir: int)
    requires Tame(v) && Fits(v, p) && p.rot in {1, 3}
    ensures Rotated(v, p, dir).rot == Turned(p, dir).rot
  {
  }

  /** Turning flat fails exactly when the pair is hemmed in on both sides and there is no ledge one step up to climb. */
  lemma FlatBlockedIff(v: View, p: Pair, dir: int)
    requires Fits(v, p) && p.rot in {0, 2}
    ensures var side := SatColumn(Turned(p, dir)) - p.col;
      Rotated(v, p, dir) == p <==>
        && !CellFree(v, p.col + side, p.row) && !CellFree(v, p.col - side, p.row)
        && !(CellFree(v, p.col + side, p.row + 1) && |v.columns[p.col + side].pods| == p.row + 1)
  {
    var np := Turned(p, dir);
    assert np.rot != p.rot;
  }

  // ----- The browser's pair

  function CurrentPair(queue: seq<QueueItem>): (r: seq<QueueItem>)
    ensures |r| <= 2
  {
    var q := Playable(queue);
    if |q| < 2 then q else q[..2]
  }

  function Playable(queue: seq<QueueItem>): seq<QueueItem>
  {
    if queue == [] then []
    else if queue[0].ojama then Playable(queue[1..])
    else [queue[0]] + Playable(queue[1..])
  }

  function SpawnedPair(v: View, key: string): Pair
  {
    Pair(FloorHalf(|v.columns| - 1), v.maxHeight, 0, key)
  }

  function FloorHalf(n: int): (h: int)
    ensures 2 * h <= n < 2 * h + 2
  {
    n / 2
  }

  /** Raised by the least number of rows that makes it fit, within `guard` tries. */
  function Lifted(v: View, p: Pair, guard: int): Pair
    decreases guard
  {
    if Fits(v, p) || guard <= 0 then p else Lifted(v, Raised(p, 1), guard - 1)
  }

  function Synced(v: View, p: Pair): Pair
  {
    var q := CurrentPair(v.queue);
    if |q| < 2 then p
    else Lifted(v, if p.key != q[0].pod.name then SpawnedPair(v, q[0].pod.name) else p, v.Rows())
  }

  ghost predicate LeastLift(v: View, p: Pair, k: nat)
  {
    Fits(v, Raised(p, k)) && forall i: nat :: i < k ==> !Fits(v, Raised(p, i))
  }

  lemma {:induction false} LiftedLeast(v: View, p: Pair, guard: int, k: nat)
    requires k <= guard && Fits(v, Raised(p, k))
    ensures exists j: nat :: j <= k && Lifted(v, p, guard) == Raised(p, j) && LeastLift(v, p, j)
    decreases k
  {
    if Fits(v, p) {
      assert Lifted(v, p, guard) == Raised(p, 0) && LeastLift(v, p, 0);
    } else {
      var up := Raised(p, 1);
      assert Raised(up, k - 1) == Raised(p, k);
      LiftedLeast(v, up, guard - 1, k - 1);
      var j: nat :| j <= k - 1 && Lifted(v, up, guard - 1) == Raised(up, j) && LeastLift(v, up, j);
      assert Raised(up, j) == Raised(p, j + 1);
      forall i: nat | i < j + 1 ensures !Fits(v, Raised(p, i)) {
        if i > 0 {
          assert Raised(up, i - 1) == Raised(p, i);
        }
      }
      assert LeastLift(v, p, j + 1);
    }
  }

  /** On a tame view, a pair inside the grid (or a new one) ends up fitting, lifted by the least number of rows that
      helps. */
  lemma SyncFits(v: View, p: Pair)
    requires Tame(v) && InGrid(v, p) && |CurrentPair(v.queue)| == 2
    ensures Fits(v, Synced(v, p)) && Synced(v, p).rot < 4 && Synced(v, p).key == CurrentPair(v.queue)[0].pod.name
    ensures p.key == CurrentPair(v.queue)[0].pod.name ==>
      exists j: nat :: Synced(v, p) == Raised(p, j) && LeastLift(v, p, j)
  {
    var key := CurrentPair(v.queue)[0].pod.name;
    var start := if p.key != key then SpawnedPair(v, key) else p;
    var k := LiftClears(v, start);
    LiftedLeast(v, start, v.Rows(), k);
  }

  datatype KeyPress = NoKey | Left | Right | TurnLeft | TurnRight | Soft | Hard

  /** A new state or a key press, with the state as it then is; while the game is not operable it leaves the pair
      alone. */
  datatype Event = Event(view: View, operable: bool, key: KeyPress)

  predicate InPlay(e: Event)
  {
    e.operable && |CurrentPair(e.view.queue)| == 2
  }

  /** The pair is synced first, then the key acts on it. */
  function Handled(p: Pair, e: Event): Pair
  {
    var v, q := e.view, Synced(e.view, p);
    if !InPlay(e) then p
    else match e.key
      case NoKey => q
      case Left => if Fits(v, q.(col := q.col - 1)) then q.(col := q.col - 1) else q
      case Right => if Fits(v, q.(col := q.col + 1)) then q.(col := q.col + 1) else q
      case TurnLeft => Rotated(v, q, -1)
      case TurnRight => Rotated(v, q, 1)
      case Soft => if Fits(v, Raised(q, -1)) then Raised(q, -1) else q
      case Hard => Fallen(v, q)
  }

  class Browser {
    var view: View
    var pair: Pair

    constructor (view: View)
      ensures this.view == view && pair == Pair(0, 0, 0, "")
    {
      this.view, pair := view, Pair(0, 0, 0, "");
    }

    /** A new pair starts above the middle; a pair the stacks have grown into is lifted. */
    method SyncPair()
      modifies this`pair
      ensures pair == Synced(view, old(pair))
    {
      var q := CurrentPair(view.queue);
      if |q| < 2 {
        return;
      }
      if pair.key != q[0].pod.name {
        pair := SpawnedPair(view, q[0].pod.name);
      }
      ghost var start := pair;
      var guard := 0;
      while !Fits(view, pair) && guard < view.Rows()
        invariant guard >= 0 && Lifted(view, start, view.Rows()) == Lifted(view, pair, view.Rows() - guard)
        decreases view.Rows() - guard
      {
        guard := guard + 1;
        pair := pair.(row := pair.row + 1);
      }
    }

    method TryMove(dx: int, dy: int) returns (ok: bool)
      modifies this`pair
      ensures ok == Fits(view, old(pair).(col := old(pair).col + dx, row := old(pair).row + dy))
      ensures pair == if ok then old(pair).(col := old(pair).col + dx, row := old(pair).row + dy) else old(pair)
    {
      var np := pair.(col := pair.col + dx, row := pair.row + dy);
      ok := Fits(view, np);
      if ok {
        pair := np;
      }
    }

    method TryRotate(dir: int)
      modifies this`pair
      ensures pair == Rotated(view, old(pair), dir)
    {
      var np := Turned(pair, dir);
      if Fits(view, np) {
        pair := np;
        return;
      }
      var sc := SatColumn(np);
      if np.rot == 1 || np.rot == 3 {
        var up := np.(row := np.row + 1);
        if 0 <= sc < |view.columns| && |view.columns[sc].pods| == np.row + 1 && Fits(view, up) {
          pair := up;
          return;
        }
        var kick := np.(col := np.col - (sc - np.col));
        if Fits(view, kick) {
          pair := kick;
          return;
        }
      } else if np.rot == 2 {
        var up := np.(row := np.row + 1);
        if Fits(view, up) {
          pair := up;
          return;
        }
      } else if np.rot == 0 {
        var down := np.(row := np.row - 1);
        if Fits(view, down) {
          pair := down;
          return;
        }
      }
    }

    /** Falls until it is grounded, from wherever it is; the guard never cuts the fall short. */
    method HardDrop()
      modifies this`pair
      ensures pair == Fallen(view, old(pair))
    {
      var guard := 0;
      var falling := true;
      while falling
        invariant guard >= 0 && Fallen(view, old(pair)) == Fallen(view, pair)
        invariant guard > 0 ==> 0 <= pair.row && pair.row + guard <= view.Rows()
        invariant !falling ==> pair == Fallen(view, pair)
        decreases falling, view.Rows() - guard
      {
        var moved := TryMove(0, -1);
        if moved {
          assert guard < view.Rows();
          falling := guard < view.Rows();
          guard := guard + 1;
        } else {
          falling := false;
        }
      }
    }

    /** One row down; true when the pair was grounded, which locks it. */
    method SoftDrop() returns (locks: bool)
      modifies this`pair
      ensures locks == !Fits(view, Raised(old(pair), -1))
      ensures pair == if locks then old(pair) else Raised(old(pair), -1)
    {
      var moved := TryMove(0, -1);
      locks := !moved;
    }

    /** The key handler; true when the key locks the pair, which is then grounded. */
    method KeyDown(operable: bool, key: KeyPress) returns (locks: bool)
      modifies this`pair
      ensures pair == Handled(old(pair), Event(view, operable, key))
      ensures locks == (InPlay(Event(view, operable, key))
                        && (key == Hard || (key == Soft && !Fits(view, Raised(Synced(view, old(pair)), -1)))))
      ensures locks ==> !Fits(view, Raised(pair, -1))
    {
      locks := false;
      if !operable || |CurrentPair(view.queue)| < 2 {
        return;
      }
      SyncPair();
      match key {
        case Left => var _ := TryMove(-1, 0);
        case Right => var _ := TryMove(1, 0);
        case TurnLeft => TryRotate(-1);
        case TurnRight => TryRotate(1);
        case Soft => locks := SoftDrop();
        case Hard =>
          HardDrop();
          locks := true;
        case NoKey =>
      }
    }

    /** The browser's own height check before it asks for a drop. */
    method ValidDrop(placements: seq<Placement>) returns (ok: bool)
      requires forall i :: 0 <= i < |placements| ==> placements[i].node in HeightsOf(view.columns)
      ensures ok == Roomy(HeightsOf(view.columns), view.maxHeight, placements)
    {
      var heights := HeightsOf(view.columns);
      ghost var all := set i | 0 <= i < |placements| :: placements[i].pod;
      assert forall i :: 0 <= i < |placements| ==> placements[i].pod in all;
      ghost var judged := Validate(all, heights, view.maxHeight, placements);
      ValidateIffAcceptable(all, heights, view.maxHeight, placements);
      assert judged.None? <==> Roomy(heights, view.maxHeight, placements);
      for i := 0 to |placements|
        invariant forall j :: 0 <= j < |placements| ==> placements[j].node in heights
        invariant judged == Validate(all, heights, view.maxHeight, placements[i..])
      {
        var node := placements[i].node;
        assert Validate(all, heights, view.maxHeight, placements[i..])
            == if heights[node] + 1 > view.maxHeight then Some(ColumnFull(node))
               else Validate(all, heights[node := heights[node] + 1], view.maxHeight, placements[i + 1..]) by {
          assert placements[i..][0] == placements[i] && placements[i..][1..] == placements[i + 1..];
        }
        heights := heights[node := heights[node] + 1];
        if heights[node] > view.maxHeight {
          return false;
        }
      }
      ok := true;
    }
  }

  // ----- What the keys do, cell by cell

  /** A cell of the grid, the two rows above the limit included, that no stacked Pod takes. */
  predicate Clear(v: View, c: int, r: int)
  {
    0 <= c < |v.columns| && |v.columns[c].pods| <= r < v.maxHeight + 2
  }

  /** The satellite is above, right, below or left of the pivot. */
  lemma FitsIff(v: View, p: Pair)
    requires p.rot < 4
    ensures Fits(v, p) <==>
      Clear(v, p.col, p.row)
      && (match p.rot
          case 0 => Clear(v, p.col, p.row + 1)
          case 1 => Clear(v, p.col + 1, p.row)
          case 2 => Clear(v, p.col, p.row - 1)
          case _ => Clear(v, p.col - 1, p.row))
  {
  }

  /** Left and right move the synced pair by one column, and down by one row, if both its cells are clear there;
      otherwise it stays. */
  lemma MoveKeys(p: Pair, e: Event) returns (q: Pair)
    requires InPlay(e) && e.key in {Left, Right, Soft} && Synced(e.view, p).rot < 4
    ensures q == Synced(e.view, p)
    ensures var dx := if e.key == Left then -1 else if e.key == Right then 1 else 0;
      var dy := if e.key == Soft then -1 else 0;
      var sx := if q.rot == 1 then 1 else if q.rot == 3 then -1 else 0;
      var sy := if q.rot == 0 then 1 else if q.rot == 2 then -1 else 0;
      Handled(p, e) ==
        if Clear(e.view, q.col + dx, q.row + dy) && Clear(e.view, q.col + sx + dx, q.row + sy + dy)
        then Pair(q.col + dx, q.row + dy, q.rot, q.key) else q
  {
    q := Synced(e.view, p);
  }

  /** Where an upright pair goes when its satellite turns to one side: in place if that cell is clear; else up a step
      of one; else over to the other side; else nowhere. */
  function LaidFlat(v: View, q: Pair, side: int): Pair
    requires side == 1 || side == -1
  {
    var rot := if side == 1 then 1 else 3;
    if Clear(v, q.col + side, q.row) then Pair(q.col, q.row, rot, q.key)
    else if 0 <= q.col + side < |v.columns| && |v.columns[q.col + side].pods| == q.row + 1
            && Clear(v, q.col, q.row + 1) && Clear(v, q.col + side, q.row + 1)
    then Pair(q.col, q.row + 1, rot, q.key)
    else if Clear(v, q.col - side, q.row) then Pair(q.col - side, q.row, rot, q.key)
    else q
  }

  /** Where a flat pair goes when its satellite turns below or above: in place if that cell is clear; else one row the
      other way; else nowhere. */
  function StoodUp(v: View, q: Pair, below: bool): Pair
  {
    var dy, rot := if below then -1 else 1, if below then 2 else 0;
    if Clear(v, q.col, q.row + dy) then Pair(q.col, q.row, rot, q.key)
    else if Clear(v, q.col, q.row - dy) then Pair(q.col, q.row - dy, rot, q.key)
    else q
  }

  lemma RotatedIs(v: View, q: Pair, clockwise: bool)
    requires Fits(v, q) && q.rot < 4
    ensures var dir := if clockwise then 1 else -1;
      Rotated(v, q, dir) == match q.rot
        case 0 => LaidFlat(v, q, if clockwise then 1 else -1)
        case 2 => LaidFlat(v, q, if clockwise then -1 else 1)
        case 1 => StoodUp(v, q, clockwise)
        case _ => StoodUp(v, q, !clockwise)
  {
  }

  /** The turn keys: clockwise from above, the satellite goes to the right, below, to the left, and above again; the
      other key goes the other way round. */
  lemma TurnKeys(p: Pair, e: Event) returns (q: Pair)
    requires InPlay(e) && e.key in {TurnLeft, TurnRight} && Fits(e.view, Synced(e.view, p)) && Synced(e.view, p).rot < 4
    ensures q == Synced(e.view, p)
    ensures var clockwise := e.key == TurnRight;
      Handled(p, e) == match q.rot
        case 0 => LaidFlat(e.view, q, if clockwise then 1 else -1)
        case 2 => LaidFlat(e.view, q, if clockwise then -1 else 1)
        case 1 => StoodUp(e.view, q, clockwise)
        case _ => StoodUp(e.view, q, !clockwise)
  {
    q := Synced(e.view, p);
    RotatedIs(e.view, q, e.key == TurnRight);
  }

  /** A new pair starts upright over the middle column, or left of the middle, in the first row above the limit; a
      known one stays where it is. Either is then raised by the least number of rows that makes it fit, or by the
      whole height of the grid if none does. */
  lemma {:induction false} SyncStarts(v: View, p: Pair) returns (start: Pair)
    requires |CurrentPair(v.queue)| == 2
    ensures var key := CurrentPair(v.queue)[0].pod.name;
      if p.key == key then start == p
      else start.row == v.maxHeight && start.rot == 0 && start.key == key
           && 2 * start.col <= |v.columns| - 1 < 2 * start.col + 2
    ensures forall k: nat :: k <= v.maxHeight + 2 && LeastLift(v, start, k) ==> Synced(v, p) == Raised(start, k)
    ensures v.maxHeight + 2 >= 0 && (forall k: nat :: k <= v.maxHeight + 2 ==> !Fits(v, Raised(start, k))) ==>
      Synced(v, p) == Raised(start, v.maxHeight + 2)
  {
    var key := CurrentPair(v.queue)[0].pod.name;
    start := if p.key != key then SpawnedPair(v, key) else p;
    forall k: nat | k <= v.maxHeight + 2 && LeastLift(v, start, k) ensures Synced(v, p) == Raised(start, k) {
      LiftedLeast(v, start, v.Rows(), k);
    }
    if v.maxHeight + 2 >= 0 && forall k: nat :: k <= v.maxHeight + 2 ==> !Fits(v, Raised(start, k)) {
      LiftedAll(v, start, v.Rows());
    }
  }

  lemma {:induction false} LiftedAll(v: View, p: Pair, guard: nat)
    requires forall k: nat :: k <= guard ==> !Fits(v, Raised(p, k))
    ensures Lifted(v, p, guard) == Raised(p, guard)
    decreases guard
  {
    assert Raised(p, 0) == p;
    if guard > 0 {
      var up := Raised(p, 1);
      forall k: nat | k <= guard - 1 ensures !Fits(v, Raised(up, k)) {
        assert Raised(up, k) == Raised(p, k + 1);
      }
      LiftedAll(v, up, guard - 1);
    }
  }

  /** The pair in play: the first two Pods of the queue that are not garbage. */
  lemma {:induction false} PairInPlay(queue: seq<QueueItem>, i: nat, j: nat)
    requires i < j < |queue| && !queue[i].ojama && !queue[j].ojama
    requires forall k :: 0 <= k < j && k != i ==> queue[k].ojama
    ensures CurrentPair(queue) == [queue[i], queue[j]]
  {
    FirstPlayable(queue, i);
    FirstPlayable(queue[i + 1..], j - i - 1);
  }

  /** Keys act exactly while the game is operable and at least two queued Pods are not garbage. */
  lemma InPlayIff(e: Event)
    ensures InPlay(e) <==>
      e.operable && exists i, j :: 0 <= i < j < |e.view.queue| && !e.view.queue[i].ojama && !e.view.queue[j].ojama
  {
    PlayableTwo(e.view.queue);
  }

  lemma {:induction false} PlayableSome(queue: seq<QueueItem>)
    ensures Playable(queue) != [] <==> exists i :: 0 <= i < |queue| && !queue[i].ojama
  {
    if queue != [] && queue[0].ojama {
      PlayableSome(queue[1..]);
      if i :| 0 <= i < |queue| && !queue[i].ojama {
        assert queue[1..][i - 1] == queue[i];
      }
      if i :| 0 <= i < |queue[1..]| && !queue[1..][i].ojama {
        assert queue[i + 1] == queue[1..][i];
      }
    }
  }

  lemma {:induction false} PlayableTwo(queue: seq<QueueItem>)
    ensures |Playable(queue)| >= 2 <==> exists i, j :: 0 <= i < j < |queue| && !queue[i].ojama && !queue[j].ojama
  {
    if queue != [] {
      var rest := queue[1..];
      assert forall k :: 0 <= k < |rest| ==> rest[k] == queue[k + 1];
      PlayableTwo(rest);
      PlayableSome(rest);
      if i, j :| 0 <= i < j < |queue| && !queue[i].ojama && !queue[j].ojama {
        assert rest[j - 1] == queue[j];
        assert i > 0 ==> rest[i - 1] == queue[i];
      }
    }
  }

  lemma {:induction false} FirstPlayable(queue: seq<QueueItem>, i: nat)
    requires i < |queue| && !queue[i].ojama && forall k :: 0 <= k < i ==> queue[k].ojama
    ensures Playable(queue) == [queue[i]] + Playable(queue[i + 1..])
  {
    if i > 0 {
      FirstPlayable(queue[1..], i - 1);
      assert queue[1..][i..] == queue[i + 1..];
    }
  }

  // ----- Whole sessions

  /** The grid keeps its size, and no column exceeds the limit. */
  ghost predicate Steady(events: seq<Event>, cols: nat, maxHeight: int)
  {
    forall i :: 0 <= i < |events| ==>
      Tame(events[i].view) && |events[i].view.columns| == cols && events[i].view.maxHeight == maxHeight
  }

  lemma SyncInGrid(v: View, p: Pair)
    requires Tame(v) && InGrid(v, p)
    ensures InGrid(v, Synced(v, p))
  {
    if |CurrentPair(v.queue)| == 2 {
      SyncFits(v, p);
    }
  }

  lemma HandledFits(p: Pair, e: Event)
    requires Tame(e.view) && InGrid(e.view, p)
    ensures InGrid(e.view, Synced(e.view, p)) && InGrid(e.view, Handled(p, e))
    ensures InPlay(e) ==> Fits(e.view, Handled(p, e))
  {
    SyncInGrid(e.view, p);
    if InPlay(e) {
      SyncFits(e.view, p);
      var q := Synced(e.view, p);
      match e.key
      case TurnLeft => RotationFits(e.view, q, -1);
      case TurnRight => RotationFits(e.view, q, 1);
      case Hard => FallenRests(e.view, q);
      case _ =>
    }
  }

  /** The pair after the first n events of a session on a steady grid. */
  ghost function After(events: seq<Event>, cols: nat, maxHeight: int, n: nat): (p: Pair)
    requires Steady(events, cols, maxHeight) && n <= |events| && cols > 0 && maxHeight >= 0
    ensures p.rot < 4 && 0 <= p.col < cols && 0 <= p.row < maxHeight + SKY_ROWS
    ensures 0 <= SatColumn(p) < cols && 0 <= SatRow(p) < maxHeight + SKY_ROWS
  {
    if n == 0 then Pair(0, 0, 0, "")
    else
      var p := After(events, cols, maxHeight, n - 1);
      HandledFits(p, events[n - 1]);
      Handled(p, events[n - 1])
  }

  /** In every session on a steady grid, each event with a pair in play leaves it inside the grid and above the
      stacks. */
  lemma {:induction false} SessionFits(events: seq<Event>, cols: nat, maxHeight: int, n: nat)
    requires Steady(events, cols, maxHeight) && n < |events| && cols > 0 && maxHeight >= 0
    ensures InPlay(events[n]) ==> Fits(events[n].view, After(events, cols, maxHeight, n + 1))
  {
    HandledFits(After(events, cols, maxHeight, n), events[n]);
  }

  /** The drop a locked pair asks for: the lower Pod comes first, so that it is stamped first and stays beneath. */
  function PlacementsOf(v: View, p: Pair): seq<Placement>
    requires InGrid(v, p) && |CurrentPair(v.queue)| == 2
  {
    var q := CurrentPair(v.queue);
    var pivot := Placement(q[0].pod.name, v.columns[p.col].node.name);
    var sat := Placement(q[1].pod.name, v.columns[SatColumn(p)].node.name);
    if p.rot == 2 then [sat, pivot] else [pivot, sat]
  }
}
