/** `layoutCompanyTopologyNodes` (components/loop-graph-view.tsx): positions for the nodes of a company
    graph, whatever their parent metadata says.

    Gaps and heights are even, so halving them is exact, every coordinate is an integer and rounding to
    thousandths is the identity. `le` stands for the locale comparison of sort keys. */
module TopologyLayout {
  import opened Wrappers

  datatype Kind =
    | Organization | Management | Department | Loop | Trigger | DataSource | Action | Verification
    | Owner | Review | Metric | Improvement | Rollup

  datatype Node = Node(id: string, kind: Kind, parentId: Option<string>, sortKey: string)

  datatype Position = Position(x: int, y: int)

  type Positions = map<string, Position>

  type Gap = g: int | g > 0 && g % 2 == 0 witness 2

  const SECTION_GAP := 38
  const LOOP_GAP := 58
  const LOOP_X := 330
  const DEPARTMENT_X := 40

  /** Members every object literal inherits: reading one of them from an empty layout is not falsy. */
  predicate Inherited(id: string) {
    || id == "constructor" || id == "toString" || id == "toLocaleString" || id == "valueOf"
    || id == "hasOwnProperty" || id == "isPrototypeOf" || id == "propertyIsEnumerable"
    || id == "__defineGetter__" || id == "__defineSetter__"
    || id == "__lookupGetter__" || id == "__lookupSetter__" || id == "__proto__"
  }

  const PROTO_ID := "__proto__"

  /** Names that reading the layout finds although no position was written for them: those every object
      inherits and, because a position written as `__proto__` becomes the prototype of the layout, that
      position's coordinates. A coordinate of zero is falsy. */
  predicate Shadowed(placed: Positions, id: string) {
    || Inherited(id)
    || (PROTO_ID in placed &&
        ((id == "x" && placed[PROTO_ID].x != 0) || (id == "y" && placed[PROTO_ID].y != 0)))
  }

  /** `layout[id]` is truthy. */
  predicate Seen(placed: Positions, id: string) { id in placed || Shadowed(placed, id) }

  lemma ShadowsGrow(before: Positions, after: Positions)
    requires Keeps(before, after)
    ensures forall id :: Shadowed(before, id) ==> Shadowed(after, id)
  {
    hide Inherited;
  }

  lemma ProtoIsInherited()
    ensures Inherited(PROTO_ID)
  {}

  /** Only a position for `__proto__` changes what is shadowed, and no new position is one. */
  lemma ShadowsStay(before: Positions, after: Positions)
    requires Keeps(before, after) && forall id :: id in after && id !in before ==> !Shadowed(before, id)
    ensures forall id :: Shadowed(before, id) <==> Shadowed(after, id)
  {
    hide Inherited;
    ProtoIsInherited();
    assert PROTO_ID in after ==> PROTO_ID in before;
  }

  ghost predicate UniqueIds(nodes: seq<Node>) {
    forall i, j :: 0 <= i < j < |nodes| ==> nodes[i].id != nodes[j].id
  }

  // ----- filtering and sorting

  function Where(nodes: seq<Node>, keep: Node -> bool): seq<Node> {
    if nodes == [] then []
    else (if keep(nodes[0]) then [nodes[0]] else []) + Where(nodes[1..], keep)
  }

  function Insert(n: Node, sorted: seq<Node>, le: (Node, Node) -> bool): seq<Node> {
    if sorted == [] then [n]
    else if le(n, sorted[0]) then [n] + sorted
    else [sorted[0]] + Insert(n, sorted[1..], le)
  }

  /** `stableSortNodes`: equal nodes keep their order. */
  function StableSort(nodes: seq<Node>, le: (Node, Node) -> bool): seq<Node> {
    if nodes == [] then [] else Insert(nodes[0], StableSort(nodes[1..], le), le)
  }

  function First(nodes: seq<Node>, kind: Kind): Option<Node> {
    if nodes == [] then None
    else if nodes[0].kind == kind then Some(nodes[0])
    else First(nodes[1..], kind)
  }

  lemma {:induction false} WhereContents(nodes: seq<Node>, keep: Node -> bool)
    ensures forall n :: n in Where(nodes, keep) <==> n in nodes && keep(n)
    ensures |Where(nodes, keep)| <= |nodes|
    ensures UniqueIds(nodes) ==> UniqueIds(Where(nodes, keep))
  {
    if nodes == [] {
    } else {
      var rest := nodes[1..];
      WhereContents(rest, keep);
      assert nodes == [nodes[0]] + rest;
      if UniqueIds(nodes) {
        UniqueTail(nodes);
        forall k | 0 <= k < |Where(rest, keep)| ensures Where(rest, keep)[k].id != nodes[0].id {
          assert Where(rest, keep)[k] in rest;
        }
      }
    }
  }

  lemma UniqueTail(nodes: seq<Node>)
    requires nodes != [] && UniqueIds(nodes)
    ensures UniqueIds(nodes[1..]) && forall n :: n in nodes[1..] ==> n.id != nodes[0].id
  {
    forall n | n in nodes[1..] ensures n.id != nodes[0].id {
      var i :| 0 <= i < |nodes[1..]| && nodes[1..][i] == n;
      assert nodes[i + 1] == n;
    }
    forall i, j | 0 <= i < j < |nodes[1..]| ensures nodes[1..][i].id != nodes[1..][j].id {
      assert nodes[i + 1].id != nodes[j + 1].id;
    }
  }

  lemma {:induction false} InsertContents(n: Node, sorted: seq<Node>, le: (Node, Node) -> bool)
    ensures forall m :: m in Insert(n, sorted, le) <==> m == n || m in sorted
    ensures |Insert(n, sorted, le)| == |sorted| + 1
    ensures UniqueIds(sorted) && (forall m :: m in sorted ==> m.id != n.id) ==> UniqueIds(Insert(n, sorted, le))
  {
    if sorted != [] && !le(n, sorted[0]) {
      var rest := sorted[1..];
      assert sorted == [sorted[0]] + rest;
      InsertContents(n, rest, le);
      if UniqueIds(sorted) && (forall m :: m in sorted ==> m.id != n.id) {
        UniqueTail(sorted);
        forall k | 0 <= k < |Insert(n, rest, le)| ensures Insert(n, rest, le)[k].id != sorted[0].id {
          assert Insert(n, rest, le)[k] in Insert(n, rest, le);
          assert sorted[0] in sorted;
        }
      }
    }
  }

  lemma {:induction false} SortContents(nodes: seq<Node>, le: (Node, Node) -> bool)
    ensures forall n :: n in StableSort(nodes, le) <==> n in nodes
    ensures |StableSort(nodes, le)| == |nodes|
    ensures UniqueIds(nodes) ==> UniqueIds(StableSort(nodes, le))
  {
    if nodes == [] {
    } else {
      var rest := nodes[1..];
      SortContents(rest, le);
      InsertContents(nodes[0], StableSort(rest, le), le);
      assert nodes == [nodes[0]] + rest;
      if UniqueIds(nodes) { UniqueTail(nodes); }
    }
  }

  // ----- parents and children

  predicate IsChildOf(n: Node, parentId: string) {
    n.parentId == Some(parentId) && parentId != ""
  }

  /** What `childrenByParentId` holds under an id. */
  function ChildrenOf(nodes: seq<Node>, parentId: string): seq<Node> {
    Where(nodes, (n: Node) => IsChildOf(n, parentId))
  }

  function Lookup(index: map<string, seq<Node>>, parentId: string): seq<Node> {
    if parentId in index then index[parentId] else []
  }

  /** `childrenByParentId`. */
  method ChildrenByParentId(nodes: seq<Node>) returns (index: map<string, seq<Node>>)
    ensures forall id :: Lookup(index, id) == ChildrenOf(nodes, id)
  {
    index := map[];
    for i := 0 to |nodes|
      invariant forall id :: Lookup(index, id) == ChildrenOf(nodes[..i], id)
    {
      var node := nodes[i];
      ghost var before := index;
      assert nodes[..i + 1] == nodes[..i] + [node];
      if node.parentId.Some? && node.parentId.value != "" {
        index := index[node.parentId.value := Lookup(index, node.parentId.value) + [node]];
      }
      forall id ensures Lookup(index, id) == ChildrenOf(nodes[..i + 1], id) {
        assert Lookup(before, id) == ChildrenOf(nodes[..i], id);
        ChildrenAppend(nodes[..i], node, id);
      }
    }
    assert nodes[..|nodes|] == nodes;
  }

  lemma ChildrenAppend(nodes: seq<Node>, n: Node, id: string)
    ensures ChildrenOf(nodes + [n], id) == ChildrenOf(nodes, id) + (if IsChildOf(n, id) then [n] else [])
  {
    WhereAppend(nodes, n, (m: Node) => IsChildOf(m, id));
  }

  lemma {:induction false} WhereAppend(nodes: seq<Node>, n: Node, keep: Node -> bool)
    ensures Where(nodes + [n], keep) == Where(nodes, keep) + (if keep(n) then [n] else [])
  {
    if nodes == [] {
      assert nodes + [n] == [n];
    } else {
      WhereAppend(nodes[1..], n, keep);
      assert (nodes + [n])[1..] == nodes[1..] + [n];
    }
  }

  // ----- groups

  /** `y` for each node of a column of the given gap, from `y` downwards. */
  function Column(placed: Positions, nodes: seq<Node>, x: int, y: int, gap: Gap): Positions
    decreases |nodes|
  {
    if nodes == [] then placed
    else Column(placed[nodes[0].id := Position(x, y)], nodes[1..], x, y + gap, gap)
  }

  function Unseen(placed: Positions, nodes: seq<Node>): seq<Node> {
    Where(nodes, (n: Node) => !Seen(placed, n.id))
  }

  function CenteredStart(centerY: int, count: int, gap: Gap): int {
    centerY - (count - 1) * gap / 2
  }

  /** `placeGroup`: the unseen nodes in sorted order, centred on `centerY`. */
  function Group(placed: Positions, nodes: seq<Node>, le: (Node, Node) -> bool, x: int, centerY: int, gap: Gap)
    : Positions
  {
    var column := StableSort(Unseen(placed, nodes), le);
    Column(placed, column, x, CenteredStart(centerY, |column|, gap), gap)
  }

  ghost predicate Keeps(before: Positions, after: Positions) {
    forall id :: id in before ==> id in after && after[id] == before[id]
  }

  lemma NextRow(y: int, k: nat, gap: Gap)
    requires k > 0
    ensures y + gap + (k - 1) * gap == y + k * gap
  {}

  /** A column of new nodes keeps what was placed and puts the k-th node at the k-th place. */
  lemma {:induction false} ColumnPlaces(placed: Positions, nodes: seq<Node>, x: int, y: int, gap: Gap)
    requires UniqueIds(nodes) && forall n :: n in nodes ==> n.id !in placed
    ensures Keeps(placed, Column(placed, nodes, x, y, gap))
    ensures forall k :: 0 <= k < |nodes| ==>
      nodes[k].id in Column(placed, nodes, x, y, gap)
      && Column(placed, nodes, x, y, gap)[nodes[k].id] == Position(x, y + k * gap)
    ensures forall id :: id in Column(placed, nodes, x, y, gap) ==>
      id in placed || exists k :: 0 <= k < |nodes| && nodes[k].id == id
    decreases |nodes|
  {
    if nodes == [] {
    } else {
      var here, rest := placed[nodes[0].id := Position(x, y)], nodes[1..];
      UniqueTail(nodes);
      assert nodes == [nodes[0]] + rest;
      ColumnPlaces(here, rest, x, y + gap, gap);
      var r := Column(placed, nodes, x, y, gap);
      forall k | 0 <= k < |nodes| ensures nodes[k].id in r && r[nodes[k].id] == Position(x, y + k * gap) {
        if k > 0 {
          assert rest[k - 1] == nodes[k];
          NextRow(y, k, gap);
        }
      }
      forall id | id in r && id !in placed ensures exists k :: 0 <= k < |nodes| && nodes[k].id == id {
        if id != nodes[0].id {
          var k :| 0 <= k < |rest| && rest[k].id == id;
          assert nodes[k + 1].id == id;
        }
      }
    }
  }

  // ----- loop trees

  /** Loops that have no position yet. */
  function Pending(nodes: seq<Node>, placed: Positions): set<Node> {
    set n | n in nodes && n.kind.Loop? && n.id !in placed
  }

  function TreeChildren(g: Graph, placed: Positions, parentId: string): seq<Node> {
    StableSort(Where(ChildrenOf(g.nodes, parentId), (n: Node) => n.kind.Loop? && !Seen(placed, n.id)), g.le)
  }

  /** The sorted nodes, with the order they were sorted by. */
  datatype Graph = Graph(nodes: seq<Node>, le: (Node, Node) -> bool)

  /** Every node placed between the two is a loop below `parentId`, along parents placed meanwhile. */
  ghost predicate GrownBelow(g: Graph, placed: Positions, after: Positions, parentId: string) {
    && Keeps(placed, after)
    && (forall id :: id in after && id !in placed ==> !Shadowed(placed, id) && exists n :: n in g.nodes && n.id == id)
    && (forall n :: n in g.nodes && n.id in after && n.id !in placed ==>
          && n.kind.Loop? && n.parentId.Some?
          && (n.parentId.value == parentId || (n.parentId.value in after && n.parentId.value !in placed)))
  }

  /** New children of one parent, none of them placed. */
  ghost predicate Siblings(g: Graph, placed: Positions, children: seq<Node>, parentId: string) {
    && parentId in placed
    && UniqueIds(children)
    && forall n :: n in children ==>
         n in g.nodes && n.kind.Loop? && n.parentId == Some(parentId) && !Seen(placed, n.id)
  }

  lemma TreeChildrenAreSiblings(g: Graph, placed: Positions, parentId: string)
    requires UniqueIds(g.nodes) && parentId in placed
    ensures Siblings(g, placed, TreeChildren(g, placed, parentId), parentId)
  {
    hide Shadowed;
    var below := ChildrenOf(g.nodes, parentId);
    var open := Where(below, (n: Node) => n.kind.Loop? && !Seen(placed, n.id));
    WhereContents(g.nodes, (n: Node) => IsChildOf(n, parentId));
    WhereContents(below, (n: Node) => n.kind.Loop? && !Seen(placed, n.id));
    SortContents(open, g.le);
  }

  lemma PendingShrinks(nodes: seq<Node>, placed: Positions, n: Node, p: Position)
    requires n in nodes && n.kind.Loop? && n.id !in placed
    ensures |Pending(nodes, placed[n.id := p])| < |Pending(nodes, placed)|
  {
    var before, after := Pending(nodes, placed), Pending(nodes, placed[n.id := p]);
    assert after <= before && n in before && n !in after;
    SubsetSmaller(after, before);
  }

  lemma PendingKept(nodes: seq<Node>, placed: Positions, after: Positions)
    requires Keeps(placed, after)
    ensures |Pending(nodes, after)| <= |Pending(nodes, placed)|
  {
    assert Pending(nodes, after) <= Pending(nodes, placed);
    SubsetSmaller(Pending(nodes, after), Pending(nodes, placed));
  }

  lemma SubsetSmaller(a: set<Node>, b: set<Node>)
    requires a <= b
    ensures |a| <= |b|
    ensures a != b ==> |a| < |b|
  {
    assert b == a + (b - a);
    if a != b { assert b - a != {}; }
  }

  /** After a subtree of the first sibling, the others are still unplaced. */
  lemma SiblingsStayOpen(g: Graph, placed: Positions, here: Positions, after: Positions,
                         children: seq<Node>, parentId: string, p: Position)
    requires UniqueIds(g.nodes) && children != [] && Siblings(g, placed, children, parentId)
    requires here == placed[children[0].id := p] && GrownBelow(g, here, after, children[0].id)
    ensures Siblings(g, after, children[1..], parentId)
    ensures GrownBelow(g, placed, after, parentId)
  {
    hide Shadowed;
    var first, rest := children[0], children[1..];
    UniqueTail(children);
    assert first in children;
    ShadowsStay(placed, here);
    ShadowsStay(here, after);
    assert children == [first] + rest;
    SameIdSameNode(g.nodes);
  }

  lemma SameIdSameNode(nodes: seq<Node>)
    requires UniqueIds(nodes)
    ensures forall m, n :: m in nodes && n in nodes && m.id == n.id ==> m == n
  {}

  lemma GrownTwice(g: Graph, a: Positions, b: Positions, c: Positions, parentId: string)
    requires GrownBelow(g, a, b, parentId) && GrownBelow(g, b, c, parentId)
    ensures GrownBelow(g, a, c, parentId)
  {
    hide Shadowed;
    ShadowsGrow(a, b);
  }

  /** `placeLoopTree`, as a function. It ends because every call below it has one pending loop fewer,
      whatever cycles the parent metadata has. */
  ghost function Tree(g: Graph, placed: Positions, parentId: string, x: int, centerY: int, gap: Gap): (r: Positions)
    requires UniqueIds(g.nodes) && parentId in placed
    ensures GrownBelow(g, placed, r, parentId)
    decreases |Pending(g.nodes, placed)|, 1, 0
  {
    hide Shadowed;
    var children := TreeChildren(g, placed, parentId);
    TreeChildrenAreSiblings(g, placed, parentId);
    Branches(g, placed, children, parentId, x, CenteredStart(centerY, |children|, gap), gap)
  }

  ghost function Branches(g: Graph, placed: Positions, children: seq<Node>, parentId: string, x: int, y: int, gap: Gap)
    : (r: Positions)
    requires UniqueIds(g.nodes) && Siblings(g, placed, children, parentId)
    ensures GrownBelow(g, placed, r, parentId)
    decreases |Pending(g.nodes, placed)|, 0, |children|
  {
    if children == [] then placed
    else
      var node := children[0];
      var here := placed[node.id := Position(x, y)];
      PendingShrinks(g.nodes, placed, node, Position(x, y));
      var below := Tree(g, here, node.id, x + 230, y, NextGap(gap));
      SiblingsStayOpen(g, placed, here, below, children, parentId, Position(x, y));
      PendingKept(g.nodes, placed, below);
      GrownTwice(g, placed, below, Branches(g, below, children[1..], parentId, x, y + gap, gap), parentId);
      Branches(g, below, children[1..], parentId, x, y + gap, gap)
  }

  function NextGap(gap: Gap): Gap { if gap - 8 < 46 then 46 else gap - 8 }

  // ----- department blocks

  function ChildLoops(g: Graph, department: Node): seq<Node> {
    StableSort(Where(ChildrenOf(g.nodes, department.id), (n: Node) => n.kind.Loop?), g.le)
  }

  function Height(loops: nat): nat {
    var rows := (if loops < 1 then 1 else loops) * LOOP_GAP;
    if rows < 96 then 96 else rows
  }

  function BlockHeight(g: Graph, department: Node): nat { Height(|ChildLoops(g, department)|) }

  /** The centres of consecutive blocks from `cursorY` down. */
  function Centers(g: Graph, departments: seq<Node>, cursorY: int): (r: seq<int>)
    ensures |r| == |departments|
  {
    if departments == [] then []
    else
      var height := BlockHeight(g, departments[0]);
      [cursorY + height / 2] + Centers(g, departments[1..], cursorY + height + SECTION_GAP)
  }

  function EndCursor(g: Graph, departments: seq<Node>, cursorY: int): int {
    if departments == [] then cursorY
    else EndCursor(g, departments[1..], cursorY + BlockHeight(g, departments[0]) + SECTION_GAP)
  }

  function TotalHeight(g: Graph, departments: seq<Node>): int {
    var total := EndCursor(g, departments, 0) - SECTION_GAP;
    if total < 0 then 0 else total
  }

  ghost predicate OpenDepartments(g: Graph, placed: Positions, departments: seq<Node>) {
    && UniqueIds(g.nodes) && UniqueIds(departments)
    && forall d :: d in departments ==> d in g.nodes && d.kind.Department? && d.id !in placed
  }

  lemma DepartmentsStayOpen(g: Graph, placed: Positions, here: Positions, after: Positions, departments: seq<Node>,
                            p: Position)
    requires departments != [] && OpenDepartments(g, placed, departments)
    requires here == placed[departments[0].id := p] && GrownBelow(g, here, after, departments[0].id)
    ensures OpenDepartments(g, after, departments[1..])
  {
    hide Shadowed;
    UniqueTail(departments);
    assert departments == [departments[0]] + departments[1..];
  }

  /** Each department at its centre, with its loop tree beside it. */
  ghost function Departments(g: Graph, placed: Positions, departments: seq<Node>, centers: seq<int>, offsetY: int)
    : Positions
    requires OpenDepartments(g, placed, departments) && |centers| == |departments|
    decreases |departments|
  {
    if departments == [] then placed
    else
      var d, y := departments[0], centers[0] - offsetY;
      var here := placed[d.id := Position(DEPARTMENT_X, y)];
      var below := Tree(g, here, d.id, LOOP_X, y, LOOP_GAP);
      DepartmentsStayOpen(g, placed, here, below, departments, Position(DEPARTMENT_X, y));
      Departments(g, below, departments[1..], centers[1..], offsetY)
  }

  // ----- the whole layout

  function DepartmentsOf(g: Graph): seq<Node> { Where(g.nodes, (n: Node) => n.kind.Department?) }

  predicate IsCore(kind: Kind) {
    kind.Organization? || kind.Management? || kind.Department? || kind.Loop? || kind.Rollup?
  }

  function ChildrenOfNode(g: Graph, parent: Option<Node>): seq<Node> {
    if parent.Some? then ChildrenOf(g.nodes, parent.value.id) else []
  }

  function Anchors(g: Graph): Positions {
    var root, management := First(g.nodes, Organization), First(g.nodes, Management);
    var placed: Positions := if root.Some? then map[root.value.id := Position(-520, 0)] else map[];
    if management.Some? then placed[management.value.id := Position(-250, 0)] else placed
  }

  datatype Lane = Lane(kind: Kind, anchor: Position, gap: Gap)

  const LANES: seq<Lane> := [
    Lane(DataSource, Position(-130, -230), 48), Lane(Action, Position(620, -180), 52),
    Lane(Verification, Position(690, 20), 52), Lane(Owner, Position(500, 225), 50),
    Lane(Review, Position(690, 225), 50), Lane(Metric, Position(210, 235), 50),
    Lane(Improvement, Position(430, 345), 50), Lane(Rollup, Position(-20, 275), 50)]

  function OfKind(g: Graph, placed: Positions, kind: Kind): seq<Node> {
    Where(g.nodes, (n: Node) => n.kind == kind && !Seen(placed, n.id))
  }

  function PlaceLanes(g: Graph, placed: Positions, lanes: seq<Lane>): Positions
    decreases |lanes|
  {
    if lanes == [] then placed
    else
      var lane := lanes[0];
      var next := Group(placed, OfKind(g, placed, lane.kind), g.le, lane.anchor.x, lane.anchor.y, lane.gap);
      PlaceLanes(g, next, lanes[1..])
  }

  /** Core children of the root and of the management node that no tree placed. */
  function CoreChildren(g: Graph, placed: Positions): seq<Node> {
    var children := ChildrenOfNode(g, First(g.nodes, Organization)) + ChildrenOfNode(g, First(g.nodes, Management));
    Where(StableSort(children, g.le), (n: Node) => !Seen(placed, n.id) && IsCore(n.kind))
  }

  lemma {:induction false} FirstFound(nodes: seq<Node>, kind: Kind)
    ensures First(nodes, kind).Some? ==> First(nodes, kind).value in nodes && First(nodes, kind).value.kind == kind
  {
    if nodes == [] {
    } else {
      FirstFound(nodes[1..], kind);
    }
  }

  lemma DepartmentsOpenAtStart(g: Graph)
    requires UniqueIds(g.nodes)
    ensures OpenDepartments(g, Anchors(g), DepartmentsOf(g))
  {
    WhereContents(g.nodes, (n: Node) => n.kind.Department?);
    FirstFound(g.nodes, Organization);
    FirstFound(g.nodes, Management);
    SameIdSameNode(g.nodes);
  }

  ghost function AfterDepartments(g: Graph): Positions
    requires UniqueIds(g.nodes)
  {
    DepartmentsOpenAtStart(g);
    var departments := DepartmentsOf(g);
    Departments(g, Anchors(g), departments, Centers(g, departments, 0), TotalHeight(g, departments) / 2)
  }

  /** Everything after the trees: core children, other loops, lanes, and whatever is left. */
  function Leftovers(g: Graph, placed: Positions): Positions {
    var core := Group(placed, CoreChildren(g, placed), g.le, 40, 0, 72);
    var x := if DepartmentsOf(g) != [] then 610 else 40;
    var loops := Group(core, OfKind(g, core, Loop), g.le, x, 0, LOOP_GAP);
    var lanes := PlaceLanes(g, loops, LANES);
    Group(lanes, Unseen(lanes, g.nodes), g.le, 780, 0, 52)
  }

  lemma SortedGraph(nodes: seq<Node>, le: (Node, Node) -> bool)
    requires UniqueIds(nodes)
    ensures UniqueIds(StableSort(nodes, le))
  {
    SortContents(nodes, le);
  }

  ghost function LayoutOf(nodes: seq<Node>, le: (Node, Node) -> bool): Positions
    requires UniqueIds(nodes)
  {
    SortedGraph(nodes, le);
    var g := Graph(StableSort(nodes, le), le);
    Leftovers(g, AfterDepartments(g))
  }
}
