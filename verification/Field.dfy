/** The board: a column for each Node, with the Pods of the Node stacked up in it. */
module Fields {
  import opened Options
  import opened Decimal
  import opened Orders
  import opened Kube

  type Resolver = Pod -> string

  /** A Pod on the field, with its resolved colour. */
  datatype Cell = Cell(pod: Pod, color: string)

  datatype Column = Column(node: Node, pods: seq<Cell>)

  datatype Field = Field(columns: seq<Column>)
  {
    function At(x: int, y: int): Option<Cell>
    {
      if x < 0 || x >= |columns| || y < 0 || y >= |columns[x].pods| then None
      else Some(columns[x].pods[y])
    }

    function Height(x: int): nat
    {
      if x < 0 || x >= |columns| then 0 else |columns[x].pods|
    }

    predicate Stable()
    {
      forall x, y :: 0 <= x < |columns| && 0 <= y < |columns[x].pods| ==> columns[x].pods[y].pod.Stable()
    }

    predicate Empty()
    {
      forall x :: 0 <= x < |columns| ==> columns[x].pods == []
    }

    method MaxHeight() returns (max: nat)
      ensures forall x :: 0 <= x < |columns| ==> Height(x) <= max
      ensures max == 0 || exists x :: 0 <= x < |columns| && Height(x) == max
    {
      max := 0;
      for x := 0 to |columns|
        invariant forall j :: 0 <= j < x ==> Height(j) <= max
        invariant max == 0 || exists j :: 0 <= j < |columns| && Height(j) == max
      {
        if Height(x) > max {
          max := Height(x);
        }
      }
    }
  }

  /** A column's height is the row of its first free cell; there is nothing beyond the columns. */
  lemma AtIffBelowHeight(f: Field, x: int, y: int)
    ensures f.At(x, y).Some? <==> 0 <= y < f.Height(x)
  {
  }

  function CellKey(c: Cell): Key
  {
    PodKey(c.pod)
  }

  function NodesOf(f: Field): seq<Node>
  {
    seq(|f.columns|, x requires 0 <= x < |f.columns| => f.columns[x].node)
  }

  // ----- SelectNodes

  predicate Selected(n: Node, selector: map<string, string>, excludeControlPlane: bool)
  {
    && (excludeControlPlane ==> CONTROL_PLANE_LABEL !in n.labels && LEGACY_CONTROL_PLANE_LABEL !in n.labels)
    && forall k :: k in selector ==> selector[k] == if k in n.labels then n.labels[k] else ""
  }

  function SelectedNodes(nodes: seq<Node>, selector: map<string, string>, excludeControlPlane: bool): (r: seq<Node>)
    ensures forall n :: n in r <==> n in nodes && Selected(n, selector, excludeControlPlane)
  {
    if nodes == [] then []
    else
      var n := nodes[|nodes| - 1];
      var rest := SelectedNodes(nodes[..|nodes| - 1], selector, excludeControlPlane);
      assert nodes == nodes[..|nodes| - 1] + [n];
      if Selected(n, selector, excludeControlPlane) then rest + [n] else rest
  }

  method SelectNodes(nodes: seq<Node>, selector: map<string, string>, excludeControlPlane: bool)
    returns (out: seq<Node>)
    ensures out == SelectedNodes(nodes, selector, excludeControlPlane)
  {
    out := [];
    for i := 0 to |nodes|
      invariant out == SelectedNodes(nodes[..i], selector, excludeControlPlane)
    {
      assert nodes[..i + 1][..i] == nodes[..i];
      if Selected(nodes[i], selector, excludeControlPlane) {
        out := out + [nodes[i]];
      }
    }
    assert nodes[..|nodes|] == nodes;
  }

  lemma {:induction false} SelectedNodesUnique(nodes: seq<Node>, selector: map<string, string>,
                                               excludeControlPlane: bool)
    requires UniqueNodes(nodes)
    ensures UniqueNodes(SelectedNodes(nodes, selector, excludeControlPlane))
  {
    if nodes != [] {
      var init, last := nodes[..|nodes| - 1], nodes[|nodes| - 1];
      SelectedNodesUnique(init, selector, excludeControlPlane);
      forall n | n in SelectedNodes(init, selector, excludeControlPlane) ensures n.name != last.name {
        assert n in init;
      }
    }
  }

  // ----- New

  predicate LastOfName(nodes: seq<Node>, x: int)
    requires 0 <= x < |nodes|
  {
    forall j :: x < j < |nodes| ==> nodes[j].name != nodes[x].name
  }

  /** The Pods of one Node, in list order. */
  function Stack(pods: seq<Pod>, node: string, resolve: Resolver): (r: seq<Cell>)
  {
    if pods == [] then []
    else
      var rest := Stack(pods[..|pods| - 1], node, resolve);
      var p := pods[|pods| - 1];
      if p.node == node then rest + [Cell(p, resolve(p))] else rest
  }

  /** One column a Node; of Nodes that share a name only the last gets the Pods. */
  function Fill(nodes: seq<Node>, pods: seq<Pod>, resolve: Resolver): seq<Column>
  {
    seq(|nodes|, x requires 0 <= x < |nodes| =>
      Column(nodes[x], if LastOfName(nodes, x) then Stack(pods, nodes[x].name, resolve) else []))
  }

  function FieldOf(pods: seq<Pod>, nodes: seq<Node>, resolve: Resolver): Field
  {
    Field(Fill(SortBy(NodeKey, nodes), SortBy(PodKey, pods), resolve))
  }

  lemma StackStep(pods: seq<Pod>, j: nat, resolve: Resolver)
    requires j < |pods|
    ensures forall node ::
      Stack(pods[..j + 1], node, resolve)
      == Stack(pods[..j], node, resolve) + if pods[j].node == node then [Cell(pods[j], resolve(pods[j]))] else []
  {
    assert pods[..j + 1][..j] == pods[..j];
  }

  /** One empty column a Node, and the index of each name; a repeated name keeps its last column. */
  method IndexColumns(nodes: seq<Node>) returns (columns: seq<Column>, colIndex: map<string, nat>)
    ensures |columns| == |nodes|
    ensures forall x :: 0 <= x < |nodes| ==> columns[x] == Column(nodes[x], [])
    ensures forall name :: name in colIndex ==> colIndex[name] < |nodes| && nodes[colIndex[name]].name == name
    ensures forall x :: 0 <= x < |nodes| ==>
      nodes[x].name in colIndex && (LastOfName(nodes, x) <==> colIndex[nodes[x].name] == x)
  {
    columns := [];
    colIndex := map[];
    for i := 0 to |nodes|
      invariant |columns| == i
      invariant forall x :: 0 <= x < i ==> columns[x] == Column(nodes[x], [])
      invariant forall name :: name in colIndex ==> colIndex[name] < i && nodes[colIndex[name]].name == name
      invariant forall x :: 0 <= x < i ==> nodes[x].name in colIndex && x <= colIndex[nodes[x].name]
    {
      columns := columns + [Column(nodes[i], [])];
      colIndex := colIndex[nodes[i].name := i];
    }
  }

  /** Appends each Pod to the column of its Node; Pods on no known Node are skipped. */
  method FillColumns(nodes: seq<Node>, pods: seq<Pod>, resolve: Resolver) returns (columns: seq<Column>)
    ensures columns == Fill(nodes, pods, resolve)
  {
    var colIndex;
    columns, colIndex := IndexColumns(nodes);
    for j := 0 to |pods|
      invariant |columns| == |nodes|
      invariant forall x :: 0 <= x < |nodes| ==> columns[x].node == nodes[x]
      invariant forall x :: 0 <= x < |nodes| ==>
        columns[x].pods == if colIndex[nodes[x].name] == x then Stack(pods[..j], nodes[x].name, resolve) else []
    {
      var p := pods[j];
      StackStep(pods, j, resolve);
      if p.node in colIndex {
        var i := colIndex[p.node];
        columns := columns[i := columns[i].(pods := columns[i].pods + [Cell(p, resolve(p))])];
      }
    }
    assert pods[..|pods|] == pods;
  }

  /** Sorts copies of both lists, then fills the columns. */
  method New(pods: seq<Pod>, nodes: seq<Node>, resolve: Resolver) returns (f: Field)
    ensures f == FieldOf(pods, nodes, resolve)
  {
    var columns := FillColumns(SortBy(NodeKey, nodes), SortBy(PodKey, pods), resolve);
    f := Field(columns);
  }

  // ----- What a field is, without saying how it is built

  /** Every Pod on a known Node, on that Node and nowhere else; columns and stacks strictly ordered. */
  ghost predicate IsField(f: Field, pods: seq<Pod>, nodes: seq<Node>, resolve: Resolver)
  {
    && Ascending(NodeKey, NodesOf(f))
    && (forall n :: n in NodesOf(f) <==> n in nodes)
    && forall x :: 0 <= x < |f.columns| ==> IsColumn(f.columns[x], pods, resolve)
  }

  ghost predicate IsColumn(col: Column, pods: seq<Pod>, resolve: Resolver)
  {
    && Ascending(CellKey, col.pods)
    && forall c :: c in col.pods <==> c.pod in pods && c.pod.node == col.node.name && c.color == resolve(c.pod)
  }

  lemma {:induction false} StackMembers(pods: seq<Pod>, node: string, resolve: Resolver)
    ensures forall c :: c in Stack(pods, node, resolve) <==>
      c.pod in pods && c.pod.node == node && c.color == resolve(c.pod)
  {
    if pods != [] {
      StackMembers(pods[..|pods| - 1], node, resolve);
      assert pods == pods[..|pods| - 1] + [pods[|pods| - 1]];
    }
  }

  lemma {:induction false} StackAscending(pods: seq<Pod>, node: string, resolve: Resolver)
    requires Ascending(PodKey, pods)
    ensures Ascending(CellKey, Stack(pods, node, resolve))
  {
    if pods != [] {
      var init, last := pods[..|pods| - 1], pods[|pods| - 1];
      StackAscending(init, node, resolve);
      StackMembers(init, node, resolve);
      forall c | c in Stack(init, node, resolve) ensures Less(CellKey(c), PodKey(last)) {
        assert c.pod in init;
      }
    }
  }

  /** Sort-and-bucket builds such a field. */
  lemma FieldOfIsField(pods: seq<Pod>, nodes: seq<Node>, resolve: Resolver)
    requires UniqueNames(pods) && UniqueNodes(nodes)
    ensures IsField(FieldOf(pods, nodes, resolve), pods, nodes, resolve)
  {
    var f := FieldOf(pods, nodes, resolve);
    var ns, ps := SortBy(NodeKey, nodes), SortBy(PodKey, pods);
    SortBySorts(NodeKey, nodes);
    SortBySorts(PodKey, pods);
    SortedIsAscending(NodeKey, ns, nodes);
    SortedIsAscending(PodKey, ps, pods);
    SameMembers(ns, nodes);
    SameMembers(ps, pods);
    assert NodesOf(f) == ns;
    forall x | 0 <= x < |ns| ensures IsColumn(f.columns[x], pods, resolve) {
      forall j | x < j < |ns| ensures ns[j].name != ns[x].name {
        NodesApart(nodes, ns, x, j);
      }
      StackAscending(ps, ns[x].name, resolve);
      StackMembers(ps, ns[x].name, resolve);
    }
  }

  /** Columns run from the oldest Node to the youngest, and by name among those of one age. */
  lemma ColumnsByAge(pods: seq<Pod>, nodes: seq<Node>, resolve: Resolver, x: int, x': int)
    requires UniqueNames(pods) && UniqueNodes(nodes) && 0 <= x < x' < |FieldOf(pods, nodes, resolve).columns|
    ensures var f := FieldOf(pods, nodes, resolve);
      var left, right := f.columns[x].node, f.columns[x'].node;
      left.created < right.created || (left.created == right.created && Before(left.name, right.name))
  {
    FieldOfIsField(pods, nodes, resolve);
    var ns := NodesOf(FieldOf(pods, nodes, resolve));
    assert Less(NodeKey(ns[x]), NodeKey(ns[x']));
  }

  /** A drop order that reads as a 64-bit number. */
  predicate HasDropOrder(p: Pod)
  {
    var key := "kbkb.k8s.omakenoyouna.net/drop-order";
    key in p.annotations && ParseInt64(p.annotations[key]).Some?
  }

  /** What places a Pod in its stack: the number its drop order reads as, or else the time it was created. */
  function Placed(p: Pod): int
  {
    if HasDropOrder(p) then ParseInt64(p.annotations["kbkb.k8s.omakenoyouna.net/drop-order"]).value else p.created
  }

  /** Of two Pods in one column, the lower has the lower place, or the same one and the earlier name. */
  lemma StacksInOrder(pods: seq<Pod>, nodes: seq<Node>, resolve: Resolver, x: int, y: int, y': int)
    requires UniqueNames(pods) && UniqueNodes(nodes) && y < y'
    requires FieldOf(pods, nodes, resolve).At(x, y).Some? && FieldOf(pods, nodes, resolve).At(x, y').Some?
    ensures var f := FieldOf(pods, nodes, resolve);
      var low, high := f.At(x, y).value.pod, f.At(x, y').value.pod;
      Placed(low) < Placed(high) || (Placed(low) == Placed(high) && Before(low.name, high.name))
  {
    FieldOfIsField(pods, nodes, resolve);
    var col := FieldOf(pods, nodes, resolve).columns[x];
    assert IsColumn(col, pods, resolve);
    assert Less(CellKey(col.pods[y]), CellKey(col.pods[y']));
  }

  lemma NodesApart(nodes: seq<Node>, ns: seq<Node>, x: int, j: int)
    requires UniqueNodes(nodes) && multiset(ns) == multiset(nodes)
    requires Ascending(NodeKey, ns) && 0 <= x < j < |ns|
    ensures ns[j].name != ns[x].name
  {
    SameMembers(ns, nodes);
    assert ns[x] in nodes && ns[j] in nodes;
    LessIrreflexive(NodeKey(ns[x]));
  }

  /** There is only one such field, whatever order the two lists came in. */
  lemma Canonical(f: Field, g: Field, pods: seq<Pod>, pods': seq<Pod>, nodes: seq<Node>, nodes': seq<Node>,
                  resolve: Resolver)
    requires IsField(f, pods, nodes, resolve) && IsField(g, pods', nodes', resolve)
    requires forall p :: p in pods <==> p in pods'
    requires forall n :: n in nodes <==> n in nodes'
    ensures f == g
  {
    AscendingUnique(NodeKey, NodesOf(f), NodesOf(g));
    assert |f.columns| == |NodesOf(f)| == |g.columns|;
    forall x | 0 <= x < |f.columns| ensures f.columns[x] == g.columns[x] {
      assert f.columns[x].node == NodesOf(f)[x] == NodesOf(g)[x] == g.columns[x].node;
      var a, b := f.columns[x], g.columns[x];
      forall c ensures c in a.pods <==> c in b.pods {
        assert c in a.pods <==> c.pod in pods && c.pod.node == a.node.name && c.color == resolve(c.pod);
        assert c in b.pods <==> c.pod in pods' && c.pod.node == b.node.name && c.color == resolve(c.pod);
      }
      AscendingUnique(CellKey, a.pods, b.pods);
    }
  }

  /** Listers give no order: any permutation of the inputs builds the same field. */
  lemma ListOrderIsImmaterial(pods: seq<Pod>, pods': seq<Pod>, nodes: seq<Node>, nodes': seq<Node>, resolve: Resolver)
    requires UniqueNames(pods) && UniqueNames(pods') && UniqueNodes(nodes) && UniqueNodes(nodes')
    requires multiset(pods) == multiset(pods') && multiset(nodes) == multiset(nodes')
    ensures FieldOf(pods, nodes, resolve) == FieldOf(pods', nodes', resolve)
  {
    FieldOfIsField(pods, nodes, resolve);
    FieldOfIsField(pods', nodes', resolve);
    SameMembers(pods, pods');
    SameMembers(nodes, nodes');
    Canonical(FieldOf(pods, nodes, resolve), FieldOf(pods', nodes', resolve), pods, pods', nodes, nodes', resolve);
  }

  /** Every cell's Pod has its own name. */
  lemma CellsHaveOwnNames(f: Field, pods: seq<Pod>, nodes: seq<Node>, resolve: Resolver, x: int, y: int, x': int,
                          y': int)
    requires UniqueNames(pods) && UniqueNodes(nodes) && IsField(f, pods, nodes, resolve)
    requires f.At(x, y).Some? && f.At(x', y').Some?
    requires f.At(x, y).value.pod.name == f.At(x', y').value.pod.name
    ensures x == x' && y == y'
  {
    var c, d := f.columns[x].pods[y], f.columns[x'].pods[y'];
    assert c in f.columns[x].pods && d in f.columns[x'].pods;
    NameDeterminesPod(pods, c.pod, d.pod);
    assert NodesOf(f)[x] in NodesOf(f) && NodesOf(f)[x'] in NodesOf(f);
    assert f.columns[x].node.name == f.columns[x'].node.name;
    ColumnsApart(f, nodes, x, x');
    LessIrreflexive(CellKey(c));
  }

  lemma ColumnsApart(f: Field, nodes: seq<Node>, x: int, x': int)
    requires UniqueNodes(nodes) && Ascending(NodeKey, NodesOf(f)) && (forall n :: n in NodesOf(f) <==> n in nodes)
    requires 0 <= x < |f.columns| && 0 <= x' < |f.columns|
    requires f.columns[x].node.name == f.columns[x'].node.name
    ensures x == x'
  {
    var a, b := NodesOf(f)[x], NodesOf(f)[x'];
    assert a in nodes && b in nodes;
    LessIrreflexive(NodeKey(a));
  }

  ghost predicate Shows(f: Field, c: Cell)
  {
    exists x, y :: f.At(x, y) == Some(c)
  }

  /** A Pod is on the field exactly if its Node is a column. */
  lemma ShownIffOnKnownNode(pods: seq<Pod>, nodes: seq<Node>, resolve: Resolver, p: Pod)
    requires UniqueNames(pods) && UniqueNodes(nodes)
    ensures Shows(FieldOf(pods, nodes, resolve), Cell(p, resolve(p)))
      <==> (p in pods && exists n :: n in nodes && n.name == p.node)
  {
    var f := FieldOf(pods, nodes, resolve);
    FieldOfIsField(pods, nodes, resolve);
    var c := Cell(p, resolve(p));
    if p in pods && exists n :: n in nodes && n.name == p.node {
      var n :| n in nodes && n.name == p.node;
      var x, y := CellOf(f, pods, nodes, resolve, p, n);
      assert f.At(x, y) == Some(c);
    }
    if x, y :| f.At(x, y) == Some(c) {
      assert c in f.columns[x].pods;
      assert NodesOf(f)[x] in nodes;
    }
  }

  /** A Pod on a known Node has a cell. */
  lemma CellOf(f: Field, pods: seq<Pod>, nodes: seq<Node>, resolve: Resolver, p: Pod, n: Node) returns (x: int, y: int)
    requires IsField(f, pods, nodes, resolve) && p in pods && n in nodes && n.name == p.node
    ensures 0 <= x < |f.columns| && 0 <= y < |f.columns[x].pods|
    ensures f.columns[x].node == n && f.columns[x].pods[y] == Cell(p, resolve(p))
  {
    assert n in NodesOf(f);
    x :| 0 <= x < |f.columns| && NodesOf(f)[x] == n;
    assert IsColumn(f.columns[x], pods, resolve);
    assert Cell(p, resolve(p)) in f.columns[x].pods;
    y :| 0 <= y < |f.columns[x].pods| && f.columns[x].pods[y] == Cell(p, resolve(p));
  }

  // ----- Gravity

  function CellsWithout(cells: seq<Cell>, gone: set<string>): (r: seq<Cell>)
    ensures forall c :: c in r <==> c in cells && c.pod.name !in gone
  {
    if cells == [] then []
    else if cells[0].pod.name in gone then CellsWithout(cells[1..], gone)
    else [cells[0]] + CellsWithout(cells[1..], gone)
  }

  function FieldWithout(f: Field, gone: set<string>): Field
  {
    Field(seq(|f.columns|, x requires 0 <= x < |f.columns| =>
      Column(f.columns[x].node, CellsWithout(f.columns[x].pods, gone))))
  }

  lemma {:induction false} CellsWithoutAscending(cells: seq<Cell>, gone: set<string>)
    requires Ascending(CellKey, cells)
    ensures Ascending(CellKey, CellsWithout(cells, gone))
  {
    if cells != [] {
      CellsWithoutAscending(cells[1..], gone);
      forall c | c in CellsWithout(cells[1..], gone) ensures Less(CellKey(cells[0]), CellKey(c)) {
        assert c in cells[1..];
      }
    }
  }

  /** Deleting Pods and rebuilding takes them out of their columns and leaves the rest in order: this is gravity. */
  lemma {:induction false} Gravity(pods: seq<Pod>, nodes: seq<Node>, resolve: Resolver, gone: set<string>)
    requires UniqueNames(pods) && UniqueNodes(nodes)
    ensures FieldOf(Without(pods, gone), nodes, resolve) == FieldWithout(FieldOf(pods, nodes, resolve), gone)
  {
    var f := FieldOf(pods, nodes, resolve);
    var g := FieldWithout(f, gone);
    var pods' := Without(pods, gone);
    WithoutUnique(pods, gone);
    FieldOfIsField(pods, nodes, resolve);
    FieldOfIsField(pods', nodes, resolve);
    assert NodesOf(g) == NodesOf(f);
    forall x | 0 <= x < |g.columns| ensures IsColumn(g.columns[x], pods', resolve) {
      assert IsColumn(f.columns[x], pods, resolve);
      CellsWithoutAscending(f.columns[x].pods, gone);
    }
    Canonical(FieldOf(pods', nodes, resolve), g, pods', pods', nodes, nodes, resolve);
  }

  /** The number of removed cells below row y. */
  function Below(cells: seq<Cell>, gone: set<string>, y: nat): (n: nat)
    requires y <= |cells|
    ensures n <= y
  {
    if y == 0 then 0 else Below(cells, gone, y - 1) + if cells[y - 1].pod.name in gone then 1 else 0
  }

  lemma {:induction false} BelowShift(cells: seq<Cell>, gone: set<string>, y: nat)
    requires 0 < y <= |cells|
    ensures Below(cells, gone, y) == (if cells[0].pod.name in gone then 1 else 0) + Below(cells[1..], gone, y - 1)
  {
    if y > 1 {
      BelowShift(cells, gone, y - 1);
    }
  }

  /** A survivor falls by exactly the number of Pods removed beneath it. */
  lemma {:induction false} SurvivorFalls(cells: seq<Cell>, gone: set<string>, y: nat)
    requires y < |cells| && cells[y].pod.name !in gone
    ensures y - Below(cells, gone, y) < |CellsWithout(cells, gone)|
    ensures CellsWithout(cells, gone)[y - Below(cells, gone, y)] == cells[y]
  {
    if y > 0 {
      var rest, fall := cells[1..], Below(cells[1..], gone, y - 1);
      BelowShift(cells, gone, y);
      SurvivorFalls(rest, gone, y - 1);
      if cells[0].pod.name in gone {
        assert CellsWithout(cells, gone) == CellsWithout(rest, gone);
      } else {
        assert CellsWithout(cells, gone)[y - fall] == CellsWithout(rest, gone)[y - 1 - fall];
      }
    }
  }

  /** Gravity, seen from one Pod: it stays in its column and drops by the number of Pods removed beneath it. */
  lemma {:induction false} SurvivorsOnlyFall(pods: seq<Pod>, nodes: seq<Node>, resolve: Resolver, gone: set<string>,
                                             x: int, y: int)
    requires UniqueNames(pods) && UniqueNodes(nodes)
    requires FieldOf(pods, nodes, resolve).At(x, y).Some?
    requires FieldOf(pods, nodes, resolve).At(x, y).value.pod.name !in gone
    ensures var f := FieldOf(pods, nodes, resolve);
      FieldOf(Without(pods, gone), nodes, resolve).At(x, y - Below(f.columns[x].pods, gone, y)) == f.At(x, y)
  {
    Gravity(pods, nodes, resolve, gone);
    SurvivorFalls(FieldOf(pods, nodes, resolve).columns[x].pods, gone, y);
  }
}
