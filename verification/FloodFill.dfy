/** Which Pods a field erases: connected same-coloured groups, found by an iterative flood fill. */
module FloodFill {
  import opened Kube
  import opened Fields

  datatype Pos = Pos(x: int, y: int)

  // ----- Groups, as paths

  predicate InField(f: Field, p: Pos)
  {
    f.At(p.x, p.y).Some?
  }

  function CellAt(f: Field, p: Pos): Cell
    requires InField(f, p)
  {
    f.At(p.x, p.y).value
  }

  ghost function Cells(f: Field): (r: set<Pos>)
    ensures forall p :: p in r <==> InField(f, p)
  {
    set x: int, y: int | 0 <= x < |f.columns| && 0 <= y < |f.columns[x].pods| :: Pos(x, y)
  }

  predicate Adjacent(p: Pos, q: Pos)
  {
    || (p.x == q.x && (p.y == q.y + 1 || q.y == p.y + 1))
    || (p.y == q.y && (p.x == q.x + 1 || q.x == p.x + 1))
  }

  /** Neighbours of one colour, white excluded. */
  predicate Linked(f: Field, p: Pos, q: Pos)
  {
    && InField(f, p) && InField(f, q) && Adjacent(p, q)
    && CellAt(f, p).color == CellAt(f, q).color != WHITE
  }

  ghost predicate IsPath(f: Field, ps: seq<Pos>)
  {
    && ps != []
    && (forall i :: 0 <= i < |ps| ==> InField(f, ps[i]))
    && forall i :: 0 <= i < |ps| - 1 ==> Linked(f, ps[i], ps[i + 1])
  }

  ghost predicate Connected(f: Field, p: Pos, q: Pos)
  {
    exists ps :: IsPath(f, ps) && ps[0] == p && ps[|ps| - 1] == q
  }

  ghost function Component(f: Field, p: Pos): set<Pos>
  {
    set q | q in Cells(f) && Connected(f, p, q)
  }

  /** The specification: the non-white cells whose group has at least `threshold` members. */
  ghost function ErasableCells(f: Field, threshold: int): set<Pos>
  {
    set p | p in Cells(f) && CellAt(f, p).color != WHITE && |Component(f, p)| >= threshold
  }

  lemma ConnectedRefl(f: Field, p: Pos)
    requires InField(f, p)
    ensures Connected(f, p, p)
  {
    assert IsPath(f, [p]) && [p][0] == p;
  }

  lemma ConnectedStep(f: Field, p: Pos, q: Pos, r: Pos)
    requires Connected(f, p, q) && Linked(f, q, r)
    ensures Connected(f, p, r)
  {
    var ps :| IsPath(f, ps) && ps[0] == p && ps[|ps| - 1] == q;
    var qs := ps + [r];
    assert IsPath(f, qs) && qs[0] == p && qs[|qs| - 1] == r;
  }

  ghost predicate Closed(f: Field, s: set<Pos>)
  {
    forall p, q :: p in s && Linked(f, p, q) ==> q in s
  }

  lemma {:induction false} PathStaysIn(f: Field, ps: seq<Pos>, s: set<Pos>)
    requires Closed(f, s) && IsPath(f, ps) && ps[0] in s
    ensures ps[|ps| - 1] in s
  {
    if |ps| > 1 {
      assert Linked(f, ps[0], ps[1]);
      PathStaysIn(f, ps[1..], s);
    }
  }

  /** A closed set that holds p holds all of p's group. */
  lemma ClosedHoldsComponent(f: Field, p: Pos, s: set<Pos>)
    requires Closed(f, s) && p in s
    ensures Component(f, p) <= s
  {
    forall q | q in Component(f, p) ensures q in s {
      var ps :| IsPath(f, ps) && ps[0] == p && ps[|ps| - 1] == q;
      PathStaysIn(f, ps, s);
    }
  }

  lemma ComponentClosed(f: Field, p: Pos)
    ensures Closed(f, Component(f, p))
  {
    forall q, r | q in Component(f, p) && Linked(f, q, r) ensures r in Component(f, p) {
      ConnectedStep(f, p, q, r);
    }
  }

  lemma ConnectedSymmetric(f: Field, p: Pos, q: Pos)
    requires Connected(f, p, q)
    ensures Connected(f, q, p)
  {
    var ps :| IsPath(f, ps) && ps[0] == p && ps[|ps| - 1] == q;
    var rs := seq(|ps|, i requires 0 <= i < |ps| => ps[|ps| - 1 - i]);
    forall i | 0 <= i < |rs| - 1 ensures Linked(f, rs[i], rs[i + 1]) {
      assert Linked(f, ps[|ps| - 2 - i], ps[|ps| - 2 - i + 1]);
    }
    assert IsPath(f, rs) && rs[0] == q && rs[|rs| - 1] == p;
  }

  /** Groups partition the field: the members of a group all have that same group. */
  lemma ComponentsAgree(f: Field, p: Pos, q: Pos)
    requires q in Component(f, p) && InField(f, p)
    ensures Component(f, q) == Component(f, p)
  {
    ComponentClosed(f, p);
    ClosedHoldsComponent(f, q, Component(f, p));
    ConnectedSymmetric(f, p, q);
    ComponentClosed(f, q);
    ClosedHoldsComponent(f, p, Component(f, q));
  }

  lemma {:induction false} PathOneColor(f: Field, ps: seq<Pos>)
    requires IsPath(f, ps)
    ensures CellAt(f, ps[0]).color == CellAt(f, ps[|ps| - 1]).color
  {
    if |ps| > 1 {
      assert Linked(f, ps[0], ps[1]);
      PathOneColor(f, ps[1..]);
    }
  }

  lemma ComponentOneColor(f: Field, p: Pos, q: Pos)
    requires q in Component(f, p)
    ensures InField(f, p) && InField(f, q) && CellAt(f, q).color == CellAt(f, p).color
  {
    var ps :| IsPath(f, ps) && ps[0] == p && ps[|ps| - 1] == q;
    PathOneColor(f, ps);
  }

  lemma SubsetCard<T>(a: set<T>, b: set<T>)
    requires a <= b
    ensures |a| <= |b|
  {
    assert b == a + (b - a);
  }

  /** Groups are erased whole, so anything erasable means at least `threshold` erasable cells. */
  lemma ErasableIsWholeGroups(f: Field, threshold: int, p: Pos)
    requires p in ErasableCells(f, threshold)
    ensures Component(f, p) <= ErasableCells(f, threshold)
    ensures |ErasableCells(f, threshold)| >= threshold
  {
    forall q | q in Component(f, p) ensures q in ErasableCells(f, threshold) {
      ComponentsAgree(f, p, q);
      ComponentOneColor(f, p, q);
    }
    SubsetCard(Component(f, p), ErasableCells(f, threshold));
  }

  /** A higher threshold erases less. */
  lemma ErasableAntitone(f: Field, low: int, high: int)
    requires low <= high
    ensures ErasableCells(f, high) <= ErasableCells(f, low)
  {
    forall p | p in ErasableCells(f, high) ensures p in ErasableCells(f, low) {
    }
  }

  // ----- The flood fill

  const DIRECTIONS: seq<Pos> := [Pos(1, 0), Pos(-1, 0), Pos(0, 1), Pos(0, -1)]

  function Neighbor(p: Pos, d: nat): Pos
    requires d < 4
  {
    Pos(p.x + DIRECTIONS[d].x, p.y + DIRECTIONS[d].y)
  }

  lemma NeighborsAreAdjacent(p: Pos, q: Pos)
    ensures Adjacent(p, q) <==> exists d: nat :: d < 4 && q == Neighbor(p, d)
  {
    if p.x + 1 == q.x && p.y == q.y { assert q == Neighbor(p, 0); }
    if p.x - 1 == q.x && p.y == q.y { assert q == Neighbor(p, 1); }
    if p.x == q.x && p.y + 1 == q.y { assert q == Neighbor(p, 2); }
    if p.x == q.x && p.y - 1 == q.y { assert q == Neighbor(p, 3); }
  }

  /** `visited` has one row a column, each as long as the column, no two sharing storage. */
  ghost predicate Shaped(f: Field, visited: seq<array<bool>>)
  {
    && |visited| == |f.columns|
    && (forall x :: 0 <= x < |visited| ==> visited[x].Length == |f.columns[x].pods|)
    && forall x, x' :: 0 <= x < x' < |visited| ==> visited[x] != visited[x']
  }

  ghost function Marked(f: Field, visited: seq<array<bool>>): set<Pos>
    requires Shaped(f, visited)
    reads visited
  {
    set p | p in Cells(f) && visited[p.x][p.y]
  }

  ghost function Members(cells: seq<Pos>): set<Pos>
  {
    set p | p in cells
  }

  ghost predicate NoDuplicates(cells: seq<Pos>)
  {
    forall i, j :: 0 <= i < j < |cells| ==> cells[i] != cells[j]
  }

  /** `group` lists the Pods of the cells `at`, in the same order. */
  ghost predicate Lists(f: Field, group: seq<Cell>, at: seq<Pos>)
  {
    && |group| == |at| && NoDuplicates(at)
    && forall i :: 0 <= i < |at| ==> InField(f, at[i]) && group[i] == CellAt(f, at[i])
  }

  /** What the search knows: it found `at`, all connected to the start, and only cells on the stack have unseen
      neighbours. */
  ghost predicate Frontier(f: Field, start: Pos, before: set<Pos>, at: seq<Pos>, stack: seq<Pos>)
  {
    && start in at
    && (forall p :: p in at ==> Connected(f, start, p) && p !in before)
    && (forall p :: p in at ==> InField(f, p) && CellAt(f, p).color == CellAt(f, start).color)
    && (forall p :: p in stack ==> p in at)
    && forall p, q :: p in at && p !in stack && Linked(f, p, q) ==> q in before + Members(at)
  }

  /** Once the stack is empty the search has found the whole group. */
  lemma FrontierDone(f: Field, start: Pos, before: set<Pos>, at: seq<Pos>)
    requires InField(f, start) && Closed(f, before) && start !in before && Frontier(f, start, before, at, [])
    ensures Members(at) == Component(f, start)
    ensures Closed(f, before + Members(at))
  {
    forall p, q | p in Members(at) && Linked(f, p, q) ensures q in Members(at) {
      assert Linked(f, q, p);
    }
    ClosedHoldsComponent(f, start, Members(at));
  }

  lemma FrontierPush(f: Field, start: Pos, before: set<Pos>, at: seq<Pos>, stack: seq<Pos>, cur: Pos, next: Pos)
    requires Frontier(f, start, before, at, stack + [cur])
    requires cur in at && Linked(f, cur, next) && next !in before + Members(at)
    ensures Frontier(f, start, before, at + [next], (stack + [next]) + [cur])
  {
    var at', stack' := at + [next], (stack + [next]) + [cur];
    ConnectedStep(f, start, cur, next);
    assert next in stack' && forall p :: p in stack + [cur] ==> p in stack';
    assert forall p :: p in at' <==> p in at || p == next;
    assert Members(at') == Members(at) + {next};
  }

  /** The linked neighbours of `p` in the first d directions are all in `seen`. */
  ghost predicate Looked(f: Field, p: Pos, d: nat, seen: set<Pos>)
    requires d <= 4
  {
    forall e: nat :: e < d && Linked(f, p, Neighbor(p, e)) ==> Neighbor(p, e) in seen
  }

  lemma LookedStep(f: Field, p: Pos, d: nat, seen: set<Pos>, seen': set<Pos>)
    requires d < 4 && Looked(f, p, d, seen) && seen <= seen'
    requires Linked(f, p, Neighbor(p, d)) ==> Neighbor(p, d) in seen'
    ensures Looked(f, p, d + 1, seen')
  {
  }

  lemma FrontierPop(f: Field, start: Pos, before: set<Pos>, at: seq<Pos>, stack: seq<Pos>, cur: Pos)
    requires Frontier(f, start, before, at, stack + [cur])
    requires Looked(f, cur, 4, before + Members(at))
    ensures Frontier(f, start, before, at, stack)
  {
    forall q | Linked(f, cur, q) ensures q in before + Members(at) {
      NeighborsAreAdjacent(cur, q);
    }
    assert forall p :: p in stack + [cur] <==> p in stack || p == cur;
  }

  lemma SplitLast<T>(s: seq<T>)
    requires s != []
    ensures s[..|s| - 1] + [s[|s| - 1]] == s
  {
  }

  method Mark(f: Field, visited: seq<array<bool>>, p: Pos)
    requires Shaped(f, visited) && InField(f, p)
    modifies visited
    ensures Marked(f, visited) == old(Marked(f, visited)) + {p}
  {
    visited[p.x][p.y] := true;
  }

  /** Looks at one neighbour of `cur`: an unseen cell of the start's colour joins the group and the stack. */
  method Visit(f: Field, visited: seq<array<bool>>, ghost start: Pos, color: string, ghost before: set<Pos>,
               cur: Pos, next: Pos, group: seq<Cell>, ghost at: seq<Pos>, stack: seq<Pos>)
    returns (group': seq<Cell>, ghost at': seq<Pos>, stack': seq<Pos>)
    requires Shaped(f, visited) && Marked(f, visited) == before + Members(at)
    requires InField(f, start) && CellAt(f, start).color == color != WHITE
    requires Lists(f, group, at) && Frontier(f, start, before, at, stack + [cur])
    requires cur in at && Adjacent(cur, next)
    modifies visited
    ensures Marked(f, visited) == before + Members(at')
    ensures Lists(f, group', at') && Frontier(f, start, before, at', stack' + [cur])
    ensures Linked(f, cur, next) ==> next in before + Members(at')
    ensures Members(at) <= Members(at')
    ensures (at' == at && stack' == stack) || Marked(f, visited) > old(Marked(f, visited))
  {
    group', at', stack' := group, at, stack;
    var np := f.At(next.x, next.y);
    if np.None? || visited[next.x][next.y] || np.value.color != color {
      return;
    }
    FrontierPush(f, start, before, at, stack, cur, next);
    Mark(f, visited, next);
    group' := group + [np.value];
    at' := at + [next];
    stack' := stack + [next];
    assert Members(at') == Members(at) + {next};
  }

  /** Collects the group of (x, y) and marks it; a white cell forms no group and only marks itself. */
  method Group(f: Field, x: int, y: int, visited: seq<array<bool>>) returns (group: seq<Cell>, ghost at: seq<Pos>)
    requires Shaped(f, visited) && InField(f, Pos(x, y))
    requires Closed(f, Marked(f, visited)) && Pos(x, y) !in Marked(f, visited)
    modifies visited
    ensures Closed(f, Marked(f, visited))
    ensures Lists(f, group, at)
    ensures CellAt(f, Pos(x, y)).color == WHITE ==>
      at == [] && Marked(f, visited) == old(Marked(f, visited)) + {Pos(x, y)}
    ensures CellAt(f, Pos(x, y)).color != WHITE ==>
      Members(at) == Component(f, Pos(x, y)) && Marked(f, visited) == old(Marked(f, visited)) + Component(f, Pos(x, y))
  {
    ghost var before := Marked(f, visited);
    var pos := Pos(x, y);
    var start := CellAt(f, pos);
    Mark(f, visited, pos);
    if start.color == WHITE {
      return [], [];
    }

    group := [start];
    at := [pos];
    var stack := [pos];
    assert Members(at) == {pos};
    ConnectedRefl(f, pos);
    while stack != []
      invariant Lists(f, group, at)
      invariant Frontier(f, pos, before, at, stack)
      invariant Marked(f, visited) == before + Members(at)
      decreases Cells(f) - Marked(f, visited), |stack|
    {
      var cur := stack[|stack| - 1];
      SplitLast(stack);
      stack := stack[..|stack| - 1];
      ghost var popped, marked := stack, Marked(f, visited);
      for d := 0 to 4
        invariant Lists(f, group, at)
        invariant cur in Members(at) && Frontier(f, pos, before, at, stack + [cur])
        invariant Looked(f, cur, d, Marked(f, visited))
        invariant Marked(f, visited) == before + Members(at)
        invariant (marked == Marked(f, visited) && stack == popped) || marked < Marked(f, visited)
      {
        ghost var seen := Marked(f, visited);
        NeighborsAreAdjacent(cur, Neighbor(cur, d));
        group, at, stack := Visit(f, visited, pos, start.color, before, cur, Neighbor(cur, d), group, at, stack);
        LookedStep(f, cur, d, seen, Marked(f, visited));
      }
      FrontierPop(f, pos, before, at, stack, cur);
    }
    FrontierDone(f, pos, before, at);
  }

  // ----- The scan

  /** Cell (x, y) comes before column x', row y' of the scan. */
  predicate Scanned(p: Pos, x: int, y: int)
  {
    p.x < x || (p.x == x && p.y < y)
  }

  method FreshVisited(f: Field) returns (visited: seq<array<bool>>)
    ensures Shaped(f, visited) && fresh(visited)
    ensures Marked(f, visited) == {}
  {
    visited := [];
    for x := 0 to |f.columns|
      invariant |visited| == x && fresh(visited)
      invariant forall j :: 0 <= j < x ==> visited[j].Length == |f.columns[j].pods|
      invariant forall i, j :: 0 <= i < j < x ==> visited[i] != visited[j]
      invariant forall j, y :: 0 <= j < x && 0 <= y < visited[j].Length ==> !visited[j][y]
    {
      var row := new bool[|f.columns[x].pods|](_ => false);
      visited := visited + [row];
    }
  }

  /** The erasable cells met so far: those of the groups already marked. */
  ghost predicate Collected(f: Field, threshold: int, marked: set<Pos>, erasable: seq<Cell>, at: seq<Pos>)
  {
    && Closed(f, marked)
    && Lists(f, erasable, at)
    && Members(at) == marked * ErasableCells(f, threshold)
  }

  /** A group is erasable all at once or not at all, and is wholly marked or not at all. */
  lemma AllOrNothing(f: Field, threshold: int, marked: set<Pos>, p: Pos)
    requires Closed(f, marked) && InField(f, p) && p !in marked && CellAt(f, p).color != WHITE
    ensures Component(f, p) !! marked
    ensures if |Component(f, p)| >= threshold then Component(f, p) <= ErasableCells(f, threshold)
            else Component(f, p) !! ErasableCells(f, threshold)
  {
    forall q | q in Component(f, p)
      ensures q !in marked && (q in ErasableCells(f, threshold) <==> |Component(f, p)| >= threshold)
    {
      ComponentsAgree(f, p, q);
      ComponentOneColor(f, p, q);
      ConnectedRefl(f, p);
      if q in marked {
        ClosedHoldsComponent(f, q, marked);
      }
    }
  }

  lemma ListsAppend(f: Field, group: seq<Cell>, at: seq<Pos>, group': seq<Cell>, at': seq<Pos>)
    requires Lists(f, group, at) && Lists(f, group', at') && Members(at) !! Members(at')
    ensures Lists(f, group + group', at + at') && Members(at + at') == Members(at) + Members(at')
  {
    forall i, j | 0 <= i < j < |at + at'| ensures (at + at')[i] != (at + at')[j] {
      if i < |at| <= j {
        assert at[i] in Members(at) && at'[j - |at|] in Members(at');
      }
    }
  }

  lemma MeetUnion<T>(m: set<T>, c: set<T>, e: set<T>)
    ensures c <= e ==> (m + c) * e == m * e + c
    ensures c !! e ==> (m + c) * e == m * e
  {
  }

  lemma CollectGroup(f: Field, threshold: int, marked: set<Pos>, p: Pos, erasable: seq<Cell>, at: seq<Pos>,
                     group: seq<Cell>, new': seq<Pos>)
    requires Collected(f, threshold, marked, erasable, at) && InField(f, p) && p !in marked
    requires CellAt(f, p).color != WHITE
    requires Lists(f, group, new') && Members(new') == Component(f, p)
    requires Closed(f, marked + Component(f, p))
    ensures if |group| >= threshold
      then Collected(f, threshold, marked + Component(f, p), erasable + group, at + new')
      else Collected(f, threshold, marked + Component(f, p), erasable, at)
  {
    NoDuplicatesCard(new');
    AllOrNothing(f, threshold, marked, p);
    MeetUnion(marked, Component(f, p), ErasableCells(f, threshold));
    if |group| >= threshold {
      assert Members(at) !! Members(new');
      ListsAppend(f, erasable, at, group, new');
    }
  }

  lemma CollectWhite(f: Field, threshold: int, marked: set<Pos>, p: Pos, erasable: seq<Cell>, at: seq<Pos>)
    requires Collected(f, threshold, marked, erasable, at) && InField(f, p) && CellAt(f, p).color == WHITE
    ensures Collected(f, threshold, marked + {p}, erasable, at)
  {
    assert p !in ErasableCells(f, threshold);
  }

  lemma {:induction false} NoDuplicatesCard(s: seq<Pos>)
    requires NoDuplicates(s)
    ensures |Members(s)| == |s|
  {
    if s != [] {
      NoDuplicatesCard(s[1..]);
      assert Members(s) == {s[0]} + Members(s[1..]);
    }
  }

  /** Scans the field column by column; the Pods of every group of `threshold` or more, each once. */
  method Erasable(f: Field, threshold: int) returns (erasable: seq<Cell>, ghost at: seq<Pos>)
    ensures Lists(f, erasable, at)
    ensures Members(at) == ErasableCells(f, threshold)
    ensures |erasable| == |ErasableCells(f, threshold)|
  {
    var visited := FreshVisited(f);
    erasable, at := [], [];
    for x := 0 to |f.columns|
      invariant Collected(f, threshold, Marked(f, visited), erasable, at)
      invariant forall p :: InField(f, p) && Scanned(p, x, 0) ==> p in Marked(f, visited)
    {
      for y := 0 to |f.columns[x].pods|
        invariant Collected(f, threshold, Marked(f, visited), erasable, at)
        invariant forall p :: InField(f, p) && Scanned(p, x, y) ==> p in Marked(f, visited)
      {
        if visited[x][y] {
          continue;
        }
        ghost var marked := Marked(f, visited);
        var group; ghost var new';
        group, new' := Group(f, x, y, visited);
        if CellAt(f, Pos(x, y)).color != WHITE {
          CollectGroup(f, threshold, marked, Pos(x, y), erasable, at, group, new');
          ConnectedRefl(f, Pos(x, y));
        } else {
          CollectWhite(f, threshold, marked, Pos(x, y), erasable, at);
          assert erasable + group == erasable && at + new' == at;
        }
        if |group| >= threshold {
          erasable, at := erasable + group, at + new';
        }
      }
    }
    assert Marked(f, visited) * ErasableCells(f, threshold) == ErasableCells(f, threshold);
    NoDuplicatesCard(at);
  }

  /** The names of the Pods a field erases. */
  ghost function ErasableNames(f: Field, threshold: int): set<string>
  {
    set p | p in ErasableCells(f, threshold) :: CellAt(f, p).pod.name
  }

  lemma {:induction false} InjectiveImage(s: set<Pos>, f: Field, names: set<string>)
    requires forall p :: p in s ==> InField(f, p)
    requires forall p, q :: p in s && q in s && CellAt(f, p).pod.name == CellAt(f, q).pod.name ==> p == q
    requires names == set p | p in s :: CellAt(f, p).pod.name
    ensures |names| == |s|
  {
    if s != {} {
      var p :| p in s;
      var rest := set q | q in s - {p} :: CellAt(f, q).pod.name;
      InjectiveImage(s - {p}, f, rest);
      assert names == rest + {CellAt(f, p).pod.name};
    }
  }

  /** On a field built from a namespace, as many names as cells are erased. */
  lemma ErasableNamesCount(pods: seq<Pod>, nodes: seq<Node>, resolve: Resolver, threshold: int)
    requires UniqueNames(pods) && UniqueNodes(nodes)
    ensures var f := FieldOf(pods, nodes, resolve);
      |ErasableNames(f, threshold)| == |ErasableCells(f, threshold)|
  {
    var f := FieldOf(pods, nodes, resolve);
    FieldOfIsField(pods, nodes, resolve);
    forall p, q | InField(f, p) && InField(f, q) && CellAt(f, p).pod.name == CellAt(f, q).pod.name ensures p == q {
      CellsHaveOwnNames(f, pods, nodes, resolve, p.x, p.y, q.x, q.y);
    }
    InjectiveImage(ErasableCells(f, threshold), f, ErasableNames(f, threshold));
  }

  lemma CellIsListed(f: Field, pods: seq<Pod>, nodes: seq<Node>, resolve: Resolver, at: Pos)
    requires IsField(f, pods, nodes, resolve) && InField(f, at)
    ensures CellAt(f, at).pod in pods && CellAt(f, at).color == resolve(CellAt(f, at).pod)
  {
    assert CellAt(f, at) in f.columns[at.x].pods && IsColumn(f.columns[at.x], pods, resolve);
  }

  /** An erasable name belongs to a listed, non-white Pod that has a cell on the field. */
  lemma ErasableNameIsListed(pods: seq<Pod>, nodes: seq<Node>, resolve: Resolver, threshold: int, name: string)
    returns (at: Pos)
    requires UniqueNames(pods) && UniqueNodes(nodes)
    requires name in ErasableNames(FieldOf(pods, nodes, resolve), threshold)
    ensures InField(FieldOf(pods, nodes, resolve), at)
    ensures var p := CellAt(FieldOf(pods, nodes, resolve), at).pod;
      p in pods && p.name == name && resolve(p) != WHITE
  {
    var f := FieldOf(pods, nodes, resolve);
    FieldOfIsField(pods, nodes, resolve);
    at :| at in ErasableCells(f, threshold) && CellAt(f, at).pod.name == name;
    CellIsListed(f, pods, nodes, resolve, at);
  }
}
