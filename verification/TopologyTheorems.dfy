/** The order and the spacing of the company topology layout, on every graph. */
module TopologyTheorems {
  import opened TopologyLayout
  import opened TopologyBoard
  import opened TopologyPlacement

  // ----- the sort is stable

  ghost predicate TotalPreorder(le: (Node, Node) -> bool) {
    && (forall a, b :: le(a, b) || le(b, a))
    && (forall a, b, c :: le(a, b) && le(b, c) ==> le(a, c))
  }

  predicate Level(le: (Node, Node) -> bool, a: Node, b: Node) { le(a, b) && le(b, a) }

  function AsLevelAs(le: (Node, Node) -> bool, a: Node): Node -> bool {
    (n: Node) => Level(le, a, n)
  }

  ghost predicate Sorted(nodes: seq<Node>, le: (Node, Node) -> bool) {
    forall i, j :: 0 <= i < j < |nodes| ==> le(nodes[i], nodes[j])
  }

  lemma {:induction false} InsertSorts(n: Node, sorted: seq<Node>, le: (Node, Node) -> bool)
    requires TotalPreorder(le) && Sorted(sorted, le)
    ensures Sorted(Insert(n, sorted, le), le)
  {
    if sorted != [] && !le(n, sorted[0]) {
      var first, rest := sorted[0], sorted[1..];
      InsertSorts(n, rest, le);
      var tail := Insert(n, rest, le);
      InsertContents(n, rest, le);
      forall k | 0 <= k < |tail| ensures le(first, tail[k]) {
        assert tail[k] in tail;
        if tail[k] != n {
          var i :| 0 <= i < |rest| && rest[i] == tail[k];
          assert sorted[i + 1] == tail[k];
        }
      }
    } else if sorted != [] {
      forall k | 0 <= k < |sorted| ensures le(n, sorted[k]) {
        if k > 0 { assert le(sorted[0], sorted[k]); }
      }
    }
  }

  /** Inserting before the first node of no lower rank keeps each rank in order. */
  lemma {:induction false} InsertIsStable(n: Node, sorted: seq<Node>, le: (Node, Node) -> bool, a: Node)
    requires TotalPreorder(le)
    ensures Where(Insert(n, sorted, le), AsLevelAs(le, a)) == Where([n] + sorted, AsLevelAs(le, a))
  {
    assert ([n] + sorted)[1..] == sorted;
    if sorted != [] && !le(n, sorted[0]) {
      var first, rest := sorted[0], sorted[1..];
      InsertIsStable(n, rest, le, a);
      assert ([n] + rest)[1..] == rest;
      LevelsDiffer(le, a, n, first);
    }
  }

  lemma LevelsDiffer(le: (Node, Node) -> bool, a: Node, n: Node, m: Node)
    requires TotalPreorder(le) && !le(n, m)
    ensures !(AsLevelAs(le, a)(n) && AsLevelAs(le, a)(m))
  {}

  /** For a total preorder the sort orders the nodes and keeps nodes of equal rank in their order. */
  lemma {:induction false} StableSortIsStable(nodes: seq<Node>, le: (Node, Node) -> bool, a: Node)
    requires TotalPreorder(le)
    ensures Sorted(StableSort(nodes, le), le)
    ensures Where(StableSort(nodes, le), AsLevelAs(le, a)) == Where(nodes, AsLevelAs(le, a))
  {
    if nodes == [] {
    } else {
      var sorted := StableSort(nodes[1..], le);
      StableSortIsStable(nodes[1..], le, a);
      InsertSorts(nodes[0], sorted, le);
      InsertIsStable(nodes[0], sorted, le, a);
      assert ([nodes[0]] + sorted)[1..] == sorted;
    }
  }

  // ----- spacing

  /** Every placed loop hangs below a placed parent. */
  ghost predicate ParentsPlaced(g: Graph, placed: Positions) {
    forall n :: n in g.nodes && n.kind.Loop? && n.id in placed ==> n.parentId.Some? && n.parentId.value in placed
  }

  lemma TreeKeepsParents(g: Graph, placed: Positions, after: Positions, parentId: string)
    requires parentId in placed && ParentsPlaced(g, placed) && GrownBelow(g, placed, after, parentId)
    ensures ParentsPlaced(g, after)
  {
    hide Shadowed;
  }

  lemma {:induction false} FewerPass(nodes: seq<Node>, strict: Node -> bool, loose: Node -> bool)
    requires forall n :: strict(n) ==> loose(n)
    ensures |Where(nodes, strict)| <= |Where(nodes, loose)|
  {
    if nodes == [] {
    } else {
      FewerPass(nodes[1..], strict, loose);
    }
  }

  predicate Near(distance: int, bound: int) { -bound <= distance <= bound }

  /** A tree puts the unplaced child loops of its parent in one column centred on `centerY`. */
  lemma TreeCentersChildren(g: Graph, placed: Positions, department: Node, x: int, centerY: int, gap: Gap)
    requires UniqueIds(g.nodes) && department.id in placed
    ensures
      var r := Tree(g, placed, department.id, x, centerY, gap);
      forall n :: n in g.nodes && n.kind.Loop? && IsChildOf(n, department.id) && !Seen(placed, n.id) ==>
        && n.id in r && r[n.id].x == x
        && Near(2 * (r[n.id].y - centerY), (|ChildLoops(g, department)| - 1) * gap)
  {
    hide Shadowed, Branches, Siblings, StableSort, Where;
    var children := TreeChildren(g, placed, department.id);
    TreeChildrenAreSiblings(g, placed, department.id);
    var startY := CenteredStart(centerY, |children|, gap);
    BranchesPlace(g, placed, children, department.id, x, startY, gap);
    ChildrenCount(g, placed, department);
    forall n | n in g.nodes && n.kind.Loop? && IsChildOf(n, department.id) && !Seen(placed, n.id)
      ensures n in children
    {
      ChildInTree(g, placed, department.id, n);
    }
    var r := Tree(g, placed, department.id, x, centerY, gap);
    forall n | n in children
      ensures n.id in r && r[n.id].x == x
      ensures Near(2 * (r[n.id].y - centerY), (|ChildLoops(g, department)| - 1) * gap)
    {
      var k :| 0 <= k < |children| && children[k] == n;
      RowIsNear(centerY, |children|, |ChildLoops(g, department)|, k, gap);
    }
  }

  lemma ChildrenCount(g: Graph, placed: Positions, department: Node)
    ensures |TreeChildren(g, placed, department.id)| <= |ChildLoops(g, department)|
  {
    hide Shadowed;
    var below := ChildrenOf(g.nodes, department.id);
    FewerPass(below, (m: Node) => m.kind.Loop? && !Seen(placed, m.id), (m: Node) => m.kind.Loop?);
    SortContents(Where(below, (m: Node) => m.kind.Loop? && !Seen(placed, m.id)), g.le);
    SortContents(Where(below, (m: Node) => m.kind.Loop?), g.le);
  }

  lemma RowIsNear(centerY: int, count: nat, most: nat, k: nat, gap: Gap)
    requires k < count <= most
    ensures -(most - 1) * gap <= 2 * (CenteredStart(centerY, count, gap) + k * gap - centerY) <= (most - 1) * gap
  {
    var half := gap / 2;
    assert (count - 1) * gap == 2 * ((count - 1) * half);
    assert (count - 1) * gap / 2 == (count - 1) * half;
    assert 2 * (k * gap) - (count - 1) * gap == (2 * k - (count - 1)) * gap;
    assert (2 * k - (count - 1)) * gap <= (most - 1) * gap;
    assert -(most - 1) * gap <= (2 * k - (count - 1)) * gap;
  }

  /** The loops directly below the i-th department stand at `x` 330, inside its block: all of them that the
      trees place, and all whose names the trees leave unshadowed. */
  lemma {:induction false} DepartmentRows(g: Graph, placed: Positions, departments: seq<Node>, centers: seq<int>,
                                          offsetY: int, i: nat, n: Node)
    requires OpenDepartments(g, placed, departments) && |centers| == |departments| && ParentsPlaced(g, placed)
    requires i < |departments|
    requires n in g.nodes && n.kind.Loop? && IsChildOf(n, departments[i].id)
    requires PlacedOrOpen(Departments(g, placed, departments, centers, offsetY), n.id)
    ensures var r := Departments(g, placed, departments, centers, offsetY);
      InBlock(g, departments[i], r, n, centers[i] - offsetY)
    decreases |departments|
  {
    hide Shadowed, Tree, Departments, OpenDepartments, IsChildOf;
    DepartmentStep(g, placed, departments, centers, offsetY);
    var d, y := departments[0], centers[0] - offsetY;
    var here := placed[d.id := Position(DEPARTMENT_X, y)];
    var below := Tree(g, here, d.id, LOOP_X, y, LOOP_GAP);
    NewDepartmentKeepsParents(g, placed, departments, Position(DEPARTMENT_X, y));
    TreeKeepsParents(g, here, below, d.id);
    if i == 0 {
      ChildNotYetPlaced(g, placed, departments, n);
      DepartmentsAdd(g, below, departments[1..], centers[1..], offsetY);
      var r := Departments(g, below, departments[1..], centers[1..], offsetY);
      StillOpen(g, here, below, r, departments, centers[1..], offsetY, n);
      FirstBlock(g, here, d, y, n);
    } else {
      DepartmentRows(g, below, departments[1..], centers[1..], offsetY, i - 1, n);
    }
  }

  predicate PlacedOrOpen(placed: Positions, id: string) { id in placed || !Shadowed(placed, id) }

  /** A loop that later trees place, or leave open, was open before. */
  lemma StillOpen(g: Graph, here: Positions, below: Positions, r: Positions, departments: seq<Node>,
                  centers: seq<int>, offsetY: int, n: Node)
    requires departments != [] && OpenDepartments(g, below, departments[1..]) && |centers| == |departments[1..]|
    requires GrownBelow(g, here, below, departments[0].id)
    requires AddsDepartments(g, below, r, departments[1..], centers, offsetY)
    requires n in g.nodes && n.kind.Loop? && n.id !in here && PlacedOrOpen(r, n.id)
    ensures !Shadowed(here, n.id)
  {
    hide Shadowed;
    SameIdSameNode(g.nodes);
    ShadowsGrow(here, below);
    ShadowsGrow(below, r);
  }

  ghost predicate InBlock(g: Graph, department: Node, r: Positions, n: Node, centerY: int) {
    var rows := |ChildLoops(g, department)| - 1;
    && n.id in r && r[n.id].x == LOOP_X
    && -rows * LOOP_GAP <= 2 * (r[n.id].y - centerY) <= rows * LOOP_GAP
  }

  lemma FirstBlock(g: Graph, here: Positions, d: Node, y: int, n: Node)
    requires UniqueIds(g.nodes) && d.id in here
    requires n in g.nodes && n.kind.Loop? && IsChildOf(n, d.id) && !Seen(here, n.id)
    ensures InBlock(g, d, Tree(g, here, d.id, LOOP_X, y, LOOP_GAP), n, y)
  {
    hide Shadowed, Tree, ChildLoops, IsChildOf;
    TreeCentersChildren(g, here, d, LOOP_X, y, LOOP_GAP);
  }

  lemma NewDepartmentKeepsParents(g: Graph, placed: Positions, departments: seq<Node>, p: Position)
    requires departments != [] && OpenDepartments(g, placed, departments) && ParentsPlaced(g, placed)
    ensures ParentsPlaced(g, placed[departments[0].id := p])
  {
    assert departments[0] in departments;
    SameIdSameNode(g.nodes);
  }

  lemma ChildNotYetPlaced(g: Graph, placed: Positions, departments: seq<Node>, n: Node)
    requires departments != [] && OpenDepartments(g, placed, departments) && ParentsPlaced(g, placed)
    requires n in g.nodes && n.kind.Loop? && IsChildOf(n, departments[0].id)
    ensures n.id !in placed && n.id != departments[0].id
  {
    assert departments[0] in departments;
    SameIdSameNode(g.nodes);
  }

  /** Blocks follow each other 38 units apart. */
  lemma {:induction false} BlocksApart(g: Graph, departments: seq<Node>, cursorY: int, i: nat, k: nat)
    requires i < k < |departments|
    ensures var c := Centers(g, departments, cursorY);
      c[i] + BlockHeight(g, departments[i]) / 2 + SECTION_GAP <= c[k] - BlockHeight(g, departments[k]) / 2
    decreases |departments|
  {
    hide BlockHeight;
    var rest := departments[1..];
    var next := cursorY + BlockHeight(g, departments[0]) + SECTION_GAP;
    if i == 0 {
      BlockBelow(g, rest, next, k - 1);
    } else {
      BlocksApart(g, rest, next, i - 1, k - 1);
    }
    assert departments[k] == rest[k - 1];
    HeightIsEven(g, departments[0]);
  }

  lemma {:induction false} BlockBelow(g: Graph, departments: seq<Node>, cursorY: int, k: nat)
    requires k < |departments|
    ensures cursorY <= Centers(g, departments, cursorY)[k] - BlockHeight(g, departments[k]) / 2
    decreases |departments|
  {
    if k == 0 {
    } else {
      BlockBelow(g, departments[1..], cursorY + BlockHeight(g, departments[0]) + SECTION_GAP, k - 1);
    }
  }

  lemma HeightIsEven(g: Graph, department: Node)
    ensures BlockHeight(g, department) % 2 == 0
    ensures |ChildLoops(g, department)| * LOOP_GAP <= BlockHeight(g, department)
  {
    hide ChildLoops;
    HeightBounds(|ChildLoops(g, department)|);
  }

  lemma HeightBounds(loops: nat)
    ensures Height(loops) % 2 == 0 && loops * LOOP_GAP <= Height(loops)
  {
    var rows: nat := if loops < 1 then 1 else loops;
    assert rows * LOOP_GAP == 2 * (29 * rows);
    Even(29 * rows);
    assert loops * LOOP_GAP <= rows * LOOP_GAP;
  }

  lemma Even(half: int)
    ensures 2 * half % 2 == 0
  {
  }

  lemma {:induction false} EndCursorIsEven(g: Graph, departments: seq<Node>, cursorY: int)
    requires cursorY % 2 == 0
    ensures EndCursor(g, departments, cursorY) % 2 == 0
    decreases |departments|
  {
    hide BlockHeight;
    if departments == [] {
    } else {
      HeightIsEven(g, departments[0]);
      EndCursorIsEven(g, departments[1..], cursorY + BlockHeight(g, departments[0]) + SECTION_GAP);
    }
  }

  /** Every halving in the layout is exact: of a block, of the whole height, and of a column. */
  lemma HalvesAreExact(g: Graph, departments: seq<Node>, department: Node, count: nat, gap: Gap)
    ensures 2 * (BlockHeight(g, department) / 2) == BlockHeight(g, department)
    ensures 2 * (TotalHeight(g, departments) / 2) == TotalHeight(g, departments)
    ensures 2 * ((count - 1) * gap / 2) == (count - 1) * gap
  {
    hide BlockHeight, EndCursor;
    HeightIsEven(g, department);
    EndCursorIsEven(g, departments, 0);
    assert (count - 1) * gap == 2 * ((count - 1) * (gap / 2));
  }

  lemma AnchorsHaveNoLoop(g: Graph)
    requires UniqueIds(g.nodes)
    ensures ParentsPlaced(g, Anchors(g))
  {
    FirstFound(g.nodes, Organization);
    FirstFound(g.nodes, Management);
    SameIdSameNode(g.nodes);
  }

  ghost predicate LoopOf(n: Node, department: Node) {
    n.kind.Loop? && department.kind.Department? && IsChildOf(n, department.id)
  }

  /** Loops directly below two different departments, if they can be placed, stand in the same column, at
      least 96 units apart. */
  lemma DepartmentLoopsApart(nodes: seq<Node>, le: (Node, Node) -> bool, a: Node, b: Node, da: Node, db: Node)
    requires UniqueIds(nodes)
    requires a in nodes && b in nodes && da in nodes && db in nodes && da != db
    requires LoopOf(a, da) && LoopOf(b, db)
    requires CanBePlaced(SortedOf(nodes, le), a) && CanBePlaced(SortedOf(nodes, le), b)
    ensures var r := LayoutOf(nodes, le);
      && a.id in r && b.id in r && r[a.id].x == r[b.id].x == 330
      && (r[a.id].y - r[b.id].y >= 96 || r[b.id].y - r[a.id].y >= 96)
  {
    hide Shadowed, StableSort, Where, LayoutOf, DepartmentsOf, ChildLoops, CenterOf, CanBePlaced;
    PlacedIff(nodes, le);
    SortContents(nodes, le);
    var g := SortedOf(nodes, le);
    var departments := DepartmentsOf(g);
    var i, k := DepartmentIndex(g, da), DepartmentIndex(g, db);
    LoopInLayout(nodes, le, i, a);
    LoopInLayout(nodes, le, k, b);
    if i < k { RowsApart(g, departments, i, k, LayoutOf(nodes, le), a, b); }
    else { RowsApart(g, departments, k, i, LayoutOf(nodes, le), b, a); }
  }

  function DepartmentIndex(g: Graph, d: Node): (i: nat)
    requires d in g.nodes && d.kind.Department?
    ensures i < |DepartmentsOf(g)| && DepartmentsOf(g)[i] == d
  {
    WhereContents(g.nodes, (n: Node) => n.kind.Department?);
    IndexOf(DepartmentsOf(g), d)
  }

  function IndexOf(nodes: seq<Node>, d: Node): (i: nat)
    requires d in nodes
    ensures i < |nodes| && nodes[i] == d
  {
    if nodes[0] == d then 0 else 1 + IndexOf(nodes[1..], d)
  }

  /** What the trees placed is still there at the end. */
  lemma LoopInLayout(nodes: seq<Node>, le: (Node, Node) -> bool, i: nat, n: Node)
    requires UniqueIds(nodes) && n in nodes && n.id in LayoutOf(nodes, le)
    requires i < |DepartmentsOf(SortedOf(nodes, le))| && LoopOf(n, DepartmentsOf(SortedOf(nodes, le))[i])
    ensures var g := SortedOf(nodes, le);
      InBlock(g, DepartmentsOf(g)[i], LayoutOf(nodes, le), n, CenterOf(g, i))
  {
    hide Shadowed, StableSort, Where, Departments, Leftovers, DepartmentsOf, Centers, TotalHeight, ChildLoops, Anchors;
    SortContents(nodes, le);
    var g := SortedOf(nodes, le);
    var departments := DepartmentsOf(g);
    DepartmentsOpenAtStart(g);
    AnchorsHaveNoLoop(g);
    LeftoversAdd(g, AfterDepartments(g));
    DepartmentRows(g, Anchors(g), departments, Centers(g, departments, 0), TotalHeight(g, departments) / 2, i, n);
  }

  lemma RowsApart(g: Graph, departments: seq<Node>, i: nat, k: nat, r: Positions, a: Node, b: Node)
    requires i < k < |departments| && departments == DepartmentsOf(g)
    requires InBlock(g, departments[i], r, a, CenterOf(g, i)) && InBlock(g, departments[k], r, b, CenterOf(g, k))
    ensures r[b.id].y - r[a.id].y >= 96
  {
    hide BlockHeight, ChildLoops, Centers, TotalHeight;
    BlocksApart(g, departments, 0, i, k);
    HeightIsEven(g, departments[i]);
    HeightIsEven(g, departments[k]);
  }
}
