/** The imperative layout of components/loop-graph-view.tsx: one record of positions that the placing
    functions write into. */
module TopologyBoard {
  import opened Wrappers
  import opened TopologyLayout

  class Board {
    /** What is read back under each id that was written. Under `__proto__` that is the prototype. */
    var positions: Positions

    constructor ()
      ensures positions == map[]
    {
      positions := map[];
    }

    /** `layout[id] = position`. The precondition says that no caller ever overwrites a position. */
    method Place(id: string, position: Position)
      requires id !in positions
      modifies this
      ensures positions == old(positions)[id := position]
    {
      positions := positions[id := position];
    }

    /** `placeGroup`. */
    method PlaceGroup(nodes: seq<Node>, le: (Node, Node) -> bool, x: int, centerY: int, gap: Gap)
      requires UniqueIds(nodes)
      modifies this
      ensures positions == Group(old(positions), nodes, le, x, centerY, gap)
    {
      hide StableSort, Unseen, Seen;
      ghost var start := positions;
      var sorted := StableSort(Unseen(positions, nodes), le);
      GroupColumn(start, nodes, le);
      var startY := CenteredStart(centerY, |sorted|, gap);
      assert sorted[0..] == sorted;
      for index := 0 to |sorted|
        invariant Open(positions, sorted[index..])
        invariant Column(start, sorted, x, startY, gap)
               == Column(positions, sorted[index..], x, startY + index * gap, gap)
      {
        OpenRest(positions, sorted[index..], Position(x, startY + index * gap));
        assert sorted[index..][0] == sorted[index] && sorted[index..][1..] == sorted[index + 1..];
        assert startY + index * gap + gap == startY + (index + 1) * gap;
        Place(sorted[index].id, Position(x, startY + index * gap));
      }
      assert sorted[|sorted|..] == [];
    }

    /** `placeLoopTree`. */
    method PlaceLoopTree(g: Graph, childNodes: map<string, seq<Node>>, parentId: string, x: int, centerY: int, gap: Gap)
      requires UniqueIds(g.nodes) && parentId in positions
      requires forall id :: Lookup(childNodes, id) == ChildrenOf(g.nodes, id)
      modifies this
      ensures positions == Tree(g, old(positions), parentId, x, centerY, gap)
      decreases |Pending(g.nodes, positions)|
    {
      hide Shadowed, Branches, GrownBelow, Siblings, Pending, StableSort, Where;
      ghost var start := positions;
      var placed := positions;
      var open := Where(Lookup(childNodes, parentId), (n: Node) => n.kind.Loop? && !Seen(placed, n.id));
      var children := StableSort(open, g.le);
      assert children == TreeChildren(g, start, parentId);
      TreeChildrenAreSiblings(g, start, parentId);
      var startY := CenteredStart(centerY, |children|, gap);
      assert children[0..] == children;
      for index := 0 to |children|
        invariant |Pending(g.nodes, positions)| <= |Pending(g.nodes, start)|
        invariant Siblings(g, positions, children[index..], parentId)
        invariant Branches(g, start, children, parentId, x, startY, gap)
               == Branches(g, positions, children[index..], parentId, x, startY + index * gap, gap)
      {
        var node, y := children[index], startY + index * gap;
        BranchStep(g, positions, children[index..], parentId, x, y, gap);
        assert children[index..][0] == node && children[index..][1..] == children[index + 1..];
        assert y + gap == startY + (index + 1) * gap;
        Place(node.id, Position(x, y));
        PlaceLoopTree(g, childNodes, node.id, x + 230, y, NextGap(gap));
      }
      assert children[|children|..] == [];
      BranchesEnd(g, positions, parentId, x, startY + |children| * gap, gap);
    }

    /** The departments and their loop trees. */
    method PlaceDepartments(g: Graph, childNodes: map<string, seq<Node>>, departments: seq<Node>,
                            centers: seq<int>, offsetY: int)
      requires OpenDepartments(g, positions, departments) && |centers| == |departments|
      requires forall id :: Lookup(childNodes, id) == ChildrenOf(g.nodes, id)
      modifies this
      ensures positions == Departments(g, old(positions), departments, centers, offsetY)
    {
      hide Pending, ChildrenOf, Departments, OpenDepartments;
      ghost var start := positions;
      assert departments[0..] == departments && centers[0..] == centers;
      for index := 0 to |departments|
        invariant OpenDepartments(g, positions, departments[index..])
        invariant Departments(g, start, departments, centers, offsetY)
               == Departments(g, positions, departments[index..], centers[index..], offsetY)
      {
        var department, y := departments[index], centers[index] - offsetY;
        assert departments[index..][0] == department && centers[index..][0] == centers[index];
        assert departments[index..][1..] == departments[index + 1..];
        assert centers[index..][1..] == centers[index + 1..];
        DepartmentStep(g, positions, departments[index..], centers[index..], offsetY);
        Place(department.id, Position(DEPARTMENT_X, y));
        PlaceLoopTree(g, childNodes, department.id, LOOP_X, y, LOOP_GAP);
      }
      assert departments[|departments|..] == [] && centers[|departments|..] == [];
      DepartmentsEnd(g, positions, offsetY);
    }

    method PlaceAllLanes(g: Graph)
      requires UniqueIds(g.nodes)
      modifies this
      ensures positions == PlaceLanes(g, old(positions), LANES)
    {
      ghost var start := positions;
      assert LANES[0..] == LANES;
      for index := 0 to |LANES|
        invariant PlaceLanes(g, start, LANES) == PlaceLanes(g, positions, LANES[index..])
      {
        var lane := LANES[index];
        assert LANES[index..][0] == lane && LANES[index..][1..] == LANES[index + 1..];
        var placed := positions;
        WhereContents(g.nodes, (n: Node) => n.kind == lane.kind && !Seen(placed, n.id));
        PlaceGroup(OfKind(g, positions, lane.kind), g.le, lane.anchor.x, lane.anchor.y, lane.gap);
      }
    }

    /** The groups placed after the trees. */
    method PlaceLeftovers(g: Graph)
      requires UniqueIds(g.nodes)
      modifies this
      ensures positions == Leftovers(g, old(positions))
    {
      hide Shadowed, Group, PlaceLanes, IsCore;
      var placed := positions;
      CoreChildrenUnique(g, placed);
      PlaceGroup(CoreChildren(g, placed), g.le, 40, 0, 72);
      placed := positions;
      WhereContents(g.nodes, (n: Node) => n.kind == Loop && !Seen(placed, n.id));
      PlaceGroup(OfKind(g, placed, Loop), g.le, if DepartmentsOf(g) != [] then 610 else 40, 0, LOOP_GAP);
      PlaceAllLanes(g);
      placed := positions;
      WhereContents(g.nodes, (n: Node) => !Seen(placed, n.id));
      PlaceGroup(Unseen(placed, g.nodes), g.le, 780, 0, 52);
    }
  }

  /** One turn of the loop over departments. */
  lemma DepartmentStep(g: Graph, placed: Positions, departments: seq<Node>, centers: seq<int>, offsetY: int)
    requires departments != [] && |centers| == |departments| && OpenDepartments(g, placed, departments)
    ensures UniqueIds(g.nodes) && departments[0].id !in placed
    ensures var y := centers[0] - offsetY;
      var d := departments[0];
      var below := Tree(g, placed[d.id := Position(DEPARTMENT_X, y)], d.id, LOOP_X, y, LOOP_GAP);
      && OpenDepartments(g, below, departments[1..])
      && Departments(g, placed, departments, centers, offsetY)
         == Departments(g, below, departments[1..], centers[1..], offsetY)
  {
    hide Tree, Inherited;
    var d, y := departments[0], centers[0] - offsetY;
    assert d in departments;
    var here := placed[d.id := Position(DEPARTMENT_X, y)];
    var below := Tree(g, here, d.id, LOOP_X, y, LOOP_GAP);
    DepartmentsStayOpen(g, placed, here, below, departments, Position(DEPARTMENT_X, y));
  }

  lemma DepartmentsEnd(g: Graph, placed: Positions, offsetY: int)
    requires OpenDepartments(g, placed, [])
    ensures Departments(g, placed, [], [], offsetY) == placed
  {}

  /** The running `cursorY` of the department blocks. */
  method MeasureBlocks(g: Graph, departments: seq<Node>) returns (centers: seq<int>, totalHeight: int)
    ensures centers == Centers(g, departments, 0) && totalHeight == TotalHeight(g, departments)
  {
    hide BlockHeight;
    var cursorY := 0;
    centers := [];
    assert departments[0..] == departments;
    for index := 0 to |departments|
      invariant Centers(g, departments, 0) == centers + Centers(g, departments[index..], cursorY)
      invariant EndCursor(g, departments, 0) == EndCursor(g, departments[index..], cursorY)
    {
      assert departments[index..][0] == departments[index] && departments[index..][1..] == departments[index + 1..];
      var height := BlockHeight(g, departments[index]);
      centers := centers + [cursorY + height / 2];
      cursorY := cursorY + height + SECTION_GAP;
    }
    totalHeight := if cursorY - SECTION_GAP < 0 then 0 else cursorY - SECTION_GAP;
  }

  /** `layoutCompanyTopologyNodes`: it ends on every graph, and writes no position twice. */
  method LayOut(nodes: seq<Node>, le: (Node, Node) -> bool) returns (board: Board)
    requires UniqueIds(nodes)
    ensures fresh(board) && board.positions == LayoutOf(nodes, le)
  {
    hide Leftovers, Departments, StableSort, UniqueIds, Tree;
    SortedGraph(nodes, le);
    var g := Graph(StableSort(nodes, le), le);
    var rootNode, managementNode := First(g.nodes, Organization), First(g.nodes, Management);
    var departments := DepartmentsOf(g);
    var childNodes := ChildrenByParentId(g.nodes);
    var centers, totalHeight := MeasureBlocks(g, departments);
    DepartmentsOpenAtStart(g);
    AnchorsDiffer(g);
    board := new Board();
    if rootNode.Some? {
      board.Place(rootNode.value.id, Position(-520, 0));
    }
    if managementNode.Some? {
      board.Place(managementNode.value.id, Position(-250, 0));
    }
    assert board.positions == Anchors(g);
    board.PlaceDepartments(g, childNodes, departments, centers, totalHeight / 2);
    board.PlaceLeftovers(g);
  }

  lemma AnchorsDiffer(g: Graph)
    requires UniqueIds(g.nodes)
    ensures var root, management := First(g.nodes, Organization), First(g.nodes, Management);
      root.Some? && management.Some? ==> root.value.id != management.value.id
  {
    FirstFound(g.nodes, Organization);
    FirstFound(g.nodes, Management);
    SameIdSameNode(g.nodes);
  }

  lemma CoreChildrenUnique(g: Graph, placed: Positions)
    requires UniqueIds(g.nodes)
    ensures UniqueIds(CoreChildren(g, placed))
    ensures forall n :: n in CoreChildren(g, placed) ==> n in g.nodes
  {
    hide Shadowed, IsCore;
    var root, management := First(g.nodes, Organization), First(g.nodes, Management);
    AnchorsDiffer(g);
    ChildrenUnique(g, root);
    ChildrenUnique(g, management);
    SameIdSameNode(g.nodes);
    var children := ChildrenOfNode(g, root) + ChildrenOfNode(g, management);
    forall i, j | 0 <= i < j < |children| ensures children[i].id != children[j].id {
      assert children[i] in g.nodes && children[j] in g.nodes;
    }
    SortContents(children, g.le);
    WhereContents(StableSort(children, g.le), (n: Node) => !Seen(placed, n.id) && IsCore(n.kind));
  }

  lemma ChildrenUnique(g: Graph, parent: Option<Node>)
    requires UniqueIds(g.nodes)
    ensures UniqueIds(ChildrenOfNode(g, parent))
    ensures forall n :: n in ChildrenOfNode(g, parent) ==> n in g.nodes && n.parentId == Some(parent.value.id)
  {
    if parent.Some? { WhereContents(g.nodes, (n: Node) => IsChildOf(n, parent.value.id)); }
  }

  /** One turn of the loop in `placeLoopTree`. */
  lemma BranchStep(g: Graph, placed: Positions, children: seq<Node>, parentId: string, x: int, y: int, gap: Gap)
    requires UniqueIds(g.nodes) && children != [] && Siblings(g, placed, children, parentId)
    ensures children[0].id !in placed
    ensures var here := placed[children[0].id := Position(x, y)];
      && |Pending(g.nodes, here)| < |Pending(g.nodes, placed)|
      && var below := Tree(g, here, children[0].id, x + 230, y, NextGap(gap));
      && |Pending(g.nodes, below)| <= |Pending(g.nodes, here)|
      && Siblings(g, below, children[1..], parentId)
      && Branches(g, placed, children, parentId, x, y, gap)
         == Branches(g, below, children[1..], parentId, x, y + gap, gap)
  {
    hide Shadowed, Tree, Pending;
    assert children[0] in children;
    var here := placed[children[0].id := Position(x, y)];
    PendingShrinks(g.nodes, placed, children[0], Position(x, y));
    var below := Tree(g, here, children[0].id, x + 230, y, NextGap(gap));
    SiblingsStayOpen(g, placed, here, below, children, parentId, Position(x, y));
    PendingKept(g.nodes, here, below);
  }

  lemma BranchesEnd(g: Graph, placed: Positions, parentId: string, x: int, y: int, gap: Gap)
    requires UniqueIds(g.nodes) && Siblings(g, placed, [], parentId)
    ensures Branches(g, placed, [], parentId, x, y, gap) == placed
  {}

  ghost predicate Open(placed: Positions, nodes: seq<Node>) {
    UniqueIds(nodes) && forall n :: n in nodes ==> n.id !in placed
  }

  lemma OpenRest(placed: Positions, nodes: seq<Node>, p: Position)
    requires nodes != [] && Open(placed, nodes)
    ensures nodes[0].id !in placed && Open(placed[nodes[0].id := p], nodes[1..])
  {
    UniqueTail(nodes);
    assert nodes == [nodes[0]] + nodes[1..];
  }

  lemma GroupColumn(placed: Positions, nodes: seq<Node>, le: (Node, Node) -> bool)
    requires UniqueIds(nodes)
    ensures var sorted := StableSort(Unseen(placed, nodes), le);
      Open(placed, sorted) && forall n :: n in sorted ==> n in nodes && !Seen(placed, n.id)
  {
    hide Shadowed;
    WhereContents(nodes, (n: Node) => !Seen(placed, n.id));
    SortContents(Unseen(placed, nodes), le);
  }
}
