/** Which nodes the company topology layout places, on every graph. */
module TopologyPlacement {
  import opened Wrappers
  import opened TopologyLayout
  import opened TopologyBoard

  // ----- groups add unseen nodes

  /** New positions belong to nodes whose names were not shadowed. */
  ghost predicate Adds(g: Graph, before: Positions, after: Positions) {
    && Keeps(before, after)
    && forall id :: id in after && id !in before ==> !Shadowed(before, id) && exists n :: n in g.nodes && n.id == id
  }

  lemma AddsTwice(g: Graph, a: Positions, b: Positions, c: Positions)
    requires Adds(g, a, b) && Adds(g, b, c)
    ensures Adds(g, a, c)
  {
    hide Shadowed;
    ShadowsGrow(a, b);
  }

  lemma AddsKeep(g: Graph, before: Positions, after: Positions)
    requires Adds(g, before, after)
    ensures Keeps(before, after)
  {}

  lemma GroupAdds(g: Graph, placed: Positions, nodes: seq<Node>, x: int, centerY: int, gap: Gap)
    requires UniqueIds(nodes) && forall n :: n in nodes ==> n in g.nodes
    ensures Adds(g, placed, Group(placed, nodes, g.le, x, centerY, gap))
    ensures forall n :: n in nodes ==> Seen(Group(placed, nodes, g.le, x, centerY, gap), n.id)
  {
    hide Shadowed, Seen, Column, StableSort, Where;
    var column := StableSort(Unseen(placed, nodes), g.le);
    GroupColumn(placed, nodes, g.le);
    WhereContents(nodes, (n: Node) => !Seen(placed, n.id));
    SortContents(Unseen(placed, nodes), g.le);
    ColumnPlaces(placed, column, x, CenteredStart(centerY, |column|, gap), gap);
    var after := Group(placed, nodes, g.le, x, centerY, gap);
    forall id | id in after && id !in placed ensures !Shadowed(placed, id) && exists n :: n in g.nodes && n.id == id {
      var k :| 0 <= k < |column| && column[k].id == id;
      assert column[k] in column;
      Unshadowed(placed, id);
    }
    forall n | n in nodes ensures Seen(after, n.id) {
      if Seen(placed, n.id) {
        SeenStays(placed, after, n.id);
      } else {
        assert n in column;
        var k :| 0 <= k < |column| && column[k] == n;
        PlacedIsSeen(after, column[k].id);
      }
    }
  }

  lemma Unshadowed(placed: Positions, id: string)
    requires !Seen(placed, id)
    ensures !Shadowed(placed, id) && id !in placed
  {}

  lemma PlacedIsSeen(placed: Positions, id: string)
    requires id in placed
    ensures Seen(placed, id)
  {}

  lemma SeenStays(before: Positions, after: Positions, id: string)
    requires Keeps(before, after) && Seen(before, id)
    ensures Seen(after, id)
  {
    hide Shadowed;
    ShadowsGrow(before, after);
  }

  lemma {:induction false} LanesAdd(g: Graph, placed: Positions, lanes: seq<Lane>)
    requires UniqueIds(g.nodes)
    ensures Adds(g, placed, PlaceLanes(g, placed, lanes))
    decreases |lanes|
  {
    hide Shadowed, Group;
    if lanes == [] {
    } else {
      var lane := lanes[0];
      WhereContents(g.nodes, (n: Node) => n.kind == lane.kind && !Seen(placed, n.id));
      var nodes := OfKind(g, placed, lane.kind);
      GroupAdds(g, placed, nodes, lane.anchor.x, lane.anchor.y, lane.gap);
      var next := Group(placed, nodes, g.le, lane.anchor.x, lane.anchor.y, lane.gap);
      LanesAdd(g, next, lanes[1..]);
      AddsTwice(g, placed, next, PlaceLanes(g, next, lanes[1..]));
    }
  }

  lemma LeftoversAdd(g: Graph, placed: Positions)
    requires UniqueIds(g.nodes)
    ensures Adds(g, placed, Leftovers(g, placed))
    ensures forall n :: n in g.nodes ==> Seen(Leftovers(g, placed), n.id)
  {
    hide Shadowed, Group, PlaceLanes, Adds, IsCore, Where;
    var x := if DepartmentsOf(g) != [] then 610 else 40;
    CoreChildrenUnique(g, placed);
    GroupAdds(g, placed, CoreChildren(g, placed), 40, 0, 72);
    var core := Group(placed, CoreChildren(g, placed), g.le, 40, 0, 72);
    WhereContents(g.nodes, (n: Node) => n.kind == Loop && !Seen(core, n.id));
    GroupAdds(g, core, OfKind(g, core, Loop), x, 0, LOOP_GAP);
    var loops := Group(core, OfKind(g, core, Loop), g.le, x, 0, LOOP_GAP);
    LanesAdd(g, loops, LANES);
    var lanes := PlaceLanes(g, loops, LANES);
    WhereContents(g.nodes, (n: Node) => !Seen(lanes, n.id));
    GroupAdds(g, lanes, Unseen(lanes, g.nodes), 780, 0, 52);
    var all := Leftovers(g, placed);
    AddsTwice(g, placed, core, loops);
    AddsTwice(g, placed, loops, lanes);
    AddsTwice(g, placed, lanes, all);
    forall n | n in g.nodes ensures Seen(all, n.id) {
      if Seen(lanes, n.id) {
        AddsKeep(g, lanes, all);
        SeenStays(lanes, all, n.id);
      } else {
        assert n in Unseen(lanes, g.nodes);
      }
    }
  }

  // ----- loop trees place every unseen loop below their parent, and no other node

  /** Siblings stand in one column, a gap apart. */
  lemma {:induction false} BranchesPlace(g: Graph, placed: Positions, children: seq<Node>, parentId: string,
                                         x: int, y: int, gap: Gap)
    requires UniqueIds(g.nodes) && Siblings(g, placed, children, parentId)
    ensures forall k :: 0 <= k < |children| ==>
      var r := Branches(g, placed, children, parentId, x, y, gap);
      children[k].id in r && r[children[k].id] == Position(x, y + k * gap)
    decreases |children|
  {
    hide Shadowed, Tree, Branches, Siblings, Pending;
    if children == [] {
    } else {
      BranchStep(g, placed, children, parentId, x, y, gap);
      var here := placed[children[0].id := Position(x, y)];
      var below := Tree(g, here, children[0].id, x + 230, y, NextGap(gap));
      BranchesPlace(g, below, children[1..], parentId, x, y + gap, gap);
      var r := Branches(g, below, children[1..], parentId, x, y + gap, gap);
      forall k | 0 <= k < |children| ensures children[k].id in r && r[children[k].id] == Position(x, y + k * gap) {
        if k > 0 {
          assert children[k] == children[1..][k - 1];
          assert y + gap + (k - 1) * gap == y + k * gap;
        }
      }
    }
  }

  lemma ChildInTree(g: Graph, placed: Positions, parentId: string, n: Node)
    requires n in g.nodes && n.kind.Loop? && IsChildOf(n, parentId) && !Seen(placed, n.id)
    ensures n in TreeChildren(g, placed, parentId)
  {
    hide Shadowed;
    var below := ChildrenOf(g.nodes, parentId);
    WhereContents(g.nodes, (m: Node) => IsChildOf(m, parentId));
    WhereContents(below, (m: Node) => m.kind.Loop? && !Seen(placed, m.id));
    SortContents(Where(below, (m: Node) => m.kind.Loop? && !Seen(placed, m.id)), g.le);
  }

  /** The unseen child loops of a node are placed. */
  ghost predicate ChildrenIn(g: Graph, before: Positions, after: Positions, parentId: string) {
    forall n :: n in g.nodes && n.kind.Loop? && IsChildOf(n, parentId) && !Seen(before, n.id) ==> n.id in after
  }

  /** The unseen child loops of every loop placed meanwhile are placed. */
  ghost predicate Closed(g: Graph, before: Positions, after: Positions) {
    forall m :: m in g.nodes && m.id in after && m.id !in before ==> ChildrenIn(g, before, after, m.id)
  }

  lemma TreeIsClosed(g: Graph, placed: Positions, parentId: string, x: int, centerY: int, gap: Gap)
    requires UniqueIds(g.nodes) && parentId in placed
    ensures var r := Tree(g, placed, parentId, x, centerY, gap);
      Closed(g, placed, r) && ChildrenIn(g, placed, r, parentId)
    decreases |Pending(g.nodes, placed)|, 1, 0
  {
    hide Shadowed, Seen, Branches, Siblings, Pending, TreeChildren, IsChildOf;
    var children := TreeChildren(g, placed, parentId);
    TreeChildrenAreSiblings(g, placed, parentId);
    var y := CenteredStart(centerY, |children|, gap);
    BranchesClosed(g, placed, children, parentId, x, y, gap);
    BranchesPlace(g, placed, children, parentId, x, y, gap);
    forall n | n in g.nodes && n.kind.Loop? && IsChildOf(n, parentId) && !Seen(placed, n.id)
      ensures n.id in Tree(g, placed, parentId, x, centerY, gap)
    {
      ChildInTree(g, placed, parentId, n);
      var k :| 0 <= k < |children| && children[k] == n;
    }
  }

  lemma BranchesClosed(g: Graph, placed: Positions, children: seq<Node>, parentId: string, x: int, y: int, gap: Gap)
    requires UniqueIds(g.nodes) && Siblings(g, placed, children, parentId)
    ensures Closed(g, placed, Branches(g, placed, children, parentId, x, y, gap))
    decreases |Pending(g.nodes, placed)|, 0, |children|
  {
    hide Shadowed, Tree, Branches, Siblings, Pending, ChildrenIn, Closed;
    if children == [] {
      BranchesEnd(g, placed, parentId, x, y, gap);
      NothingNew(g, placed);
    } else {
      BranchStep(g, placed, children, parentId, x, y, gap);
      var here := placed[children[0].id := Position(x, y)];
      var below := Tree(g, here, children[0].id, x + 230, y, NextGap(gap));
      TreeIsClosed(g, here, children[0].id, x + 230, y, NextGap(gap));
      BranchesClosed(g, below, children[1..], parentId, x, y + gap, gap);
      FirstSibling(g, placed, children, parentId);
      var r := Branches(g, below, children[1..], parentId, x, y + gap, gap);
      ClosedOver(g, placed, here, below, r, children[0], parentId);
    }
  }

  lemma NothingNew(g: Graph, placed: Positions)
    ensures Closed(g, placed, placed)
  {}

  lemma FirstSibling(g: Graph, placed: Positions, children: seq<Node>, parentId: string)
    requires children != [] && Siblings(g, placed, children, parentId)
    ensures children[0] in g.nodes && children[0].kind.Loop? && children[0].parentId == Some(parentId)
    ensures !Seen(placed, children[0].id)
  {
    assert children[0] in children;
  }

  lemma ClosedOver(g: Graph, placed: Positions, here: Positions, below: Positions, r: Positions, c: Node,
                   parentId: string)
    requires UniqueIds(g.nodes) && c in g.nodes && !Seen(placed, c.id)
    requires Keeps(placed, here) && here.Keys == placed.Keys + {c.id}
    requires GrownBelow(g, here, below, c.id) && GrownBelow(g, below, r, parentId)
    requires Closed(g, here, below) && ChildrenIn(g, here, below, c.id) && Closed(g, below, r)
    ensures Closed(g, placed, r)
  {
    hide Shadowed, ChildrenIn, Closed, IsChildOf;
    ShadowsStay(placed, here);
    ShadowsStay(here, below);
    forall m | m in g.nodes && m.id in r && m.id !in placed ensures ChildrenIn(g, placed, r, m.id) {
      if m.id == c.id {
        ChildrenStay(g, placed, here, below, r, m.id);
      } else if m.id in below {
        ClosedAt(g, here, below, m);
        ChildrenStay(g, placed, here, below, r, m.id);
      } else {
        ClosedAt(g, below, r, m);
        ChildrenStay(g, placed, below, r, r, m.id);
      }
    }
    IsClosed(g, placed, r);
  }

  lemma ClosedAt(g: Graph, before: Positions, after: Positions, m: Node)
    requires Closed(g, before, after) && m in g.nodes && m.id in after && m.id !in before
    ensures ChildrenIn(g, before, after, m.id)
  {
    hide ChildrenIn;
  }

  lemma IsClosed(g: Graph, before: Positions, after: Positions)
    requires forall m :: m in g.nodes && m.id in after && m.id !in before ==> ChildrenIn(g, before, after, m.id)
    ensures Closed(g, before, after)
  {
    hide ChildrenIn;
  }

  /** Children that a part of the run places are children that the whole run places. */
  lemma ChildrenStay(g: Graph, placed: Positions, from: Positions, to: Positions, r: Positions, parentId: string)
    requires Keeps(placed, from) && Keeps(from, to) && Keeps(to, r)
    requires forall id :: Shadowed(placed, id) <==> Shadowed(from, id)
    requires ChildrenIn(g, from, to, parentId)
    ensures ChildrenIn(g, placed, r, parentId)
  {
    hide Shadowed, IsChildOf;
  }

  /** `n` is a loop that hangs, at most `depth` loops down, below one of the given ids. */
  ghost predicate Hangs(g: Graph, n: Node, tops: set<string>, depth: nat)
    decreases depth
  {
    && n.kind.Loop? && !Inherited(n.id) && n.parentId.Some? && n.parentId.value != ""
    && (|| n.parentId.value in tops
        || (depth > 0 && exists m :: m in g.nodes && m.id == n.parentId.value && Hangs(g, m, tops, depth - 1)))
  }

  /** `n` hangs below one of the given ids, along loops whose names are not inherited. */
  ghost predicate HangsBelow(g: Graph, n: Node, tops: set<string>) {
    exists depth: nat :: Hangs(g, n, tops, depth)
  }

  /** A parent whose children hang below the given ids. */
  ghost predicate LeadsTo(g: Graph, parentId: string, tops: set<string>) {
    parentId in tops || exists m :: m in g.nodes && m.id == parentId && HangsBelow(g, m, tops)
  }

  lemma ChildHangs(g: Graph, n: Node, tops: set<string>)
    requires n.kind.Loop? && !Inherited(n.id) && n.parentId.Some? && n.parentId.value != ""
    requires LeadsTo(g, n.parentId.value, tops)
    ensures HangsBelow(g, n, tops)
  {
    hide Inherited;
    if n.parentId.value in tops {
      assert Hangs(g, n, tops, 0);
    } else {
      var m :| m in g.nodes && m.id == n.parentId.value && HangsBelow(g, m, tops);
      var depth: nat :| Hangs(g, m, tops, depth);
      assert Hangs(g, n, tops, depth + 1);
    }
  }

  /** Every node placed meanwhile hangs below the given ids. */
  ghost predicate AllHang(g: Graph, before: Positions, after: Positions, tops: set<string>) {
    forall n :: n in g.nodes && n.id in after && n.id !in before ==> HangsBelow(g, n, tops)
  }

  lemma TreeHangs(g: Graph, placed: Positions, parentId: string, x: int, centerY: int, gap: Gap, tops: set<string>)
    requires UniqueIds(g.nodes) && parentId in placed && parentId != "" && LeadsTo(g, parentId, tops)
    ensures AllHang(g, placed, Tree(g, placed, parentId, x, centerY, gap), tops)
    decreases |Pending(g.nodes, placed)|, 1, 0
  {
    hide Shadowed, Branches, Siblings, Pending, TreeChildren, LeadsTo, HangsBelow;
    var children := TreeChildren(g, placed, parentId);
    TreeChildrenAreSiblings(g, placed, parentId);
    BranchesHang(g, placed, children, parentId, x, CenteredStart(centerY, |children|, gap), gap, tops);
  }

  lemma BranchesHang(g: Graph, placed: Positions, children: seq<Node>, parentId: string, x: int, y: int, gap: Gap,
                     tops: set<string>)
    requires UniqueIds(g.nodes) && Siblings(g, placed, children, parentId)
    requires parentId != "" && LeadsTo(g, parentId, tops)
    ensures AllHang(g, placed, Branches(g, placed, children, parentId, x, y, gap), tops)
    decreases |Pending(g.nodes, placed)|, 0, |children|
  {
    hide Shadowed, Tree, Branches, Siblings, Pending, LeadsTo, HangsBelow;
    if children == [] {
      BranchesEnd(g, placed, parentId, x, y, gap);
    } else {
      var c := children[0];
      FirstSibling(g, placed, children, parentId);
      FirstHangs(g, placed, c, parentId, tops);
      BranchStep(g, placed, children, parentId, x, y, gap);
      var here := placed[c.id := Position(x, y)];
      var below := Tree(g, here, c.id, x + 230, y, NextGap(gap));
      if c.id == "" {
        NamelessTree(g, here, c.id, x + 230, y, NextGap(gap));
      } else {
        TreeHangs(g, here, c.id, x + 230, y, NextGap(gap), tops);
      }
      BranchesHang(g, below, children[1..], parentId, x, y + gap, gap, tops);
      SameIdSameNode(g.nodes);
    }
  }

  lemma FirstHangs(g: Graph, placed: Positions, c: Node, parentId: string, tops: set<string>)
    requires c in g.nodes && c.kind.Loop? && c.parentId == Some(parentId) && !Seen(placed, c.id)
    requires parentId != "" && LeadsTo(g, parentId, tops)
    ensures HangsBelow(g, c, tops) && LeadsTo(g, c.id, tops)
  {
    hide Inherited, LeadsTo, HangsBelow;
    ChildHangs(g, c, tops);
    LeadsOn(g, c, tops);
  }

  lemma LeadsOn(g: Graph, c: Node, tops: set<string>)
    requires c in g.nodes && HangsBelow(g, c, tops)
    ensures LeadsTo(g, c.id, tops)
  {
    hide HangsBelow;
  }

  lemma {:induction false} NothingPasses(nodes: seq<Node>, keep: Node -> bool)
    requires forall n :: !keep(n)
    ensures Where(nodes, keep) == []
  {
    if nodes == [] {
    } else {
      NothingPasses(nodes[1..], keep);
    }
  }

  /** No node has the empty id for a parent. */
  lemma NamelessTree(g: Graph, placed: Positions, parentId: string, x: int, centerY: int, gap: Gap)
    requires UniqueIds(g.nodes) && parentId in placed && parentId == ""
    ensures Tree(g, placed, parentId, x, centerY, gap) == placed
  {
    hide Shadowed, Seen;
    NothingPasses(g.nodes, (n: Node) => IsChildOf(n, parentId));
    assert TreeChildren(g, placed, parentId) == [];
    TreeChildrenAreSiblings(g, placed, parentId);
    BranchesEnd(g, placed, parentId, x, CenteredStart(centerY, 0, gap), gap);
  }

  // ----- departments

  /** Departments stand where they were measured; other new ids are unshadowed names of nodes. */
  ghost predicate AddsDepartments(g: Graph, before: Positions, after: Positions, departments: seq<Node>,
                                  centers: seq<int>, offsetY: int)
    requires |centers| == |departments|
  {
    && Keeps(before, after)
    && (forall i :: 0 <= i < |departments| ==>
          departments[i].id in after
          && after[departments[i].id] == Position(DEPARTMENT_X, centers[i] - offsetY))
    && (forall id :: id in after && id !in before ==>
          || (!Shadowed(before, id) && exists n :: n in g.nodes && n.id == id)
          || (exists d :: d in departments && d.id == id))
  }

  lemma {:induction false} DepartmentsAdd(g: Graph, placed: Positions, departments: seq<Node>, centers: seq<int>,
                                           offsetY: int)
    requires OpenDepartments(g, placed, departments) && |centers| == |departments|
    ensures AddsDepartments(g, placed, Departments(g, placed, departments, centers, offsetY), departments,
                            centers, offsetY)
    decreases |departments|
  {
    hide Shadowed, Tree, Departments, OpenDepartments;
    if departments == [] {
      assert centers == [];
      DepartmentsEnd(g, placed, offsetY);
    } else {
      DepartmentStep(g, placed, departments, centers, offsetY);
      var d, y := departments[0], centers[0] - offsetY;
      var here := placed[d.id := Position(DEPARTMENT_X, y)];
      var below := Tree(g, here, d.id, LOOP_X, y, LOOP_GAP);
      DepartmentsAdd(g, below, departments[1..], centers[1..], offsetY);
      assert departments == [d] + departments[1..] && centers == [centers[0]] + centers[1..];
      ShadowsGrow(placed, here);
      ShadowsGrow(here, below);
    }
  }

  /** No loop that has a position has an unseen child loop. */
  ghost predicate LoopsClosed(g: Graph, placed: Positions) {
    forall m :: m in g.nodes && m.kind.Loop? && m.id in placed ==> ChildrenIn(g, placed, placed, m.id)
  }

  /** The departments laid out before one is named `__proto__`. */
  function EarlyTops(departments: seq<Node>): set<string> {
    if departments == [] || departments[0].id == PROTO_ID then {}
    else {departments[0].id} + EarlyTops(departments[1..])
  }

  /** The departments laid out while the layout still has its own prototype. */
  function Early(placed: Positions, departments: seq<Node>): set<string> {
    if PROTO_ID in placed then {} else EarlyTops(departments)
  }

  lemma {:induction false} NothingHangs(g: Graph, n: Node, depth: nat)
    ensures !Hangs(g, n, {}, depth)
    decreases depth
  {
    hide Inherited;
    if depth > 0 && Hangs(g, n, {}, depth) {
      var m :| m in g.nodes && m.id == n.parentId.value && Hangs(g, m, {}, depth - 1);
      NothingHangs(g, m, depth - 1);
    }
  }

  lemma {:induction false} HangsBelowMore(g: Graph, n: Node, tops: set<string>, more: set<string>, depth: nat)
    requires Hangs(g, n, tops, depth) && tops <= more
    ensures Hangs(g, n, more, depth)
    decreases depth
  {
    hide Inherited;
    if n.parentId.value !in tops {
      var m :| m in g.nodes && m.id == n.parentId.value && Hangs(g, m, tops, depth - 1);
      HangsBelowMore(g, m, tops, more, depth - 1);
    }
  }

  lemma ProtoFixes(before: Positions, after: Positions)
    requires Keeps(before, after) && PROTO_ID in before
    ensures forall id :: Shadowed(before, id) <==> Shadowed(after, id)
  {
    hide Inherited;
  }

  lemma TreeKeepsClosed(g: Graph, placed: Positions, d: Node, p: Position, below: Positions)
    requires UniqueIds(g.nodes) && d in g.nodes && d.kind.Department? && d.id !in placed && LoopsClosed(g, placed)
    requires GrownBelow(g, placed[d.id := p], below, d.id) && Closed(g, placed[d.id := p], below)
    ensures LoopsClosed(g, below)
  {
    hide Shadowed, ChildrenIn, Closed, IsChildOf;
    var here := placed[d.id := p];
    SameIdSameNode(g.nodes);
    forall m | m in g.nodes && m.kind.Loop? && m.id in below ensures ChildrenIn(g, below, below, m.id) {
      if m.id in placed {
        FewerUnseen(g, placed, placed, below, m.id);
      } else {
        ClosedAt(g, here, below, m);
        FewerUnseen(g, here, below, below, m.id);
      }
    }
  }

  lemma FewerUnseen(g: Graph, before: Positions, placed: Positions, after: Positions, parentId: string)
    requires ChildrenIn(g, before, placed, parentId) && Keeps(placed, after) && Keeps(before, after)
    ensures ChildrenIn(g, after, after, parentId)
  {
    hide Shadowed, IsChildOf;
    ShadowsGrow(before, after);
  }

  /** A loop that hangs below `d` or later departments hangs below the later ones unless the tree of `d`
      has placed it. */
  lemma {:induction false} HangsLater(g: Graph, here: Positions, below: Positions, d: Node, later: set<string>,
                                      n: Node, depth: nat)
    requires LoopsClosed(g, below) && PROTO_ID !in below && Keeps(here, below)
    requires ChildrenIn(g, here, below, d.id)
    requires n in g.nodes && Hangs(g, n, {d.id} + later, depth)
    ensures n.id in below || HangsBelow(g, n, later)
    decreases depth
  {
    hide Inherited;
    if n.parentId.value == d.id {
      assert IsChildOf(n, d.id);
    } else if n.parentId.value in later {
      assert Hangs(g, n, later, 0);
    } else {
      var m :| m in g.nodes && m.id == n.parentId.value && Hangs(g, m, {d.id} + later, depth - 1);
      HangsLater(g, here, below, d, later, m, depth - 1);
      if m.id in below {
        assert ChildrenIn(g, below, below, m.id) && IsChildOf(n, m.id);
      } else {
        ChildHangs(g, n, later);
      }
    }
  }

  /** Of the nodes whose names the finished trees shadow, the trees place those that hang below an early
      department; what hangs there is always placed. */
  ghost predicate PlacesHanging(g: Graph, before: Positions, after: Positions, tops: set<string>) {
    forall n :: n in g.nodes && n.id !in before && !n.kind.Department? ==>
      && (HangsBelow(g, n, tops) ==> n.id in after)
      && (n.id in after && Shadowed(after, n.id) ==> HangsBelow(g, n, tops))
  }

  lemma NothingPlaced(g: Graph, placed: Positions, r: Positions)
    requires forall n :: n in g.nodes && n.id !in placed && !n.kind.Department? && n.id in r ==> !Shadowed(r, n.id)
    ensures PlacesHanging(g, placed, r, {})
  {
    hide Shadowed;
    forall n | n in g.nodes ensures !HangsBelow(g, n, {}) {
      if HangsBelow(g, n, {}) {
        var depth: nat :| Hangs(g, n, {}, depth);
        NothingHangs(g, n, depth);
      }
    }
  }

  /** After a position for `__proto__` no shadowed name is placed. */
  lemma LaterShadowed(g: Graph, placed: Positions, r: Positions, departments: seq<Node>, centers: seq<int>,
                      offsetY: int)
    requires OpenDepartments(g, placed, departments) && |centers| == |departments| && PROTO_ID in placed
    requires AddsDepartments(g, placed, r, departments, centers, offsetY)
    ensures PlacesHanging(g, placed, r, {})
  {
    hide Shadowed, PlacesHanging;
    ProtoFixes(placed, r);
    SameIdSameNode(g.nodes);
    NothingPlaced(g, placed, r);
  }

  lemma ProtoDepartment(g: Graph, placed: Positions, departments: seq<Node>, centers: seq<int>, offsetY: int,
                        here: Positions, below: Positions, r: Positions)
    requires departments != [] && |centers| == |departments| && departments[0].id == PROTO_ID
    requires OpenDepartments(g, placed, departments) && OpenDepartments(g, below, departments[1..])
    requires here.Keys == placed.Keys + {PROTO_ID} && GrownBelow(g, here, below, PROTO_ID)
    requires AddsDepartments(g, below, r, departments[1..], centers[1..], offsetY)
    ensures PlacesHanging(g, placed, r, {})
  {
    hide Shadowed, PlacesHanging;
    ProtoFixes(here, below);
    ProtoFixes(below, r);
    SameIdSameNode(g.nodes);
    assert departments[0] in departments;
    NothingPlaced(g, placed, r);
  }

  lemma TreeOfDepartmentHangs(g: Graph, placed: Positions, d: Node, y: int, tops: set<string>)
    requires UniqueIds(g.nodes) && d.id in placed && d.id in tops
    ensures AllHang(g, placed, Tree(g, placed, d.id, LOOP_X, y, LOOP_GAP), tops)
  {
    hide Shadowed, HangsBelow;
    if d.id == "" {
      NamelessTree(g, placed, d.id, LOOP_X, y, LOOP_GAP);
    } else {
      TreeHangs(g, placed, d.id, LOOP_X, y, LOOP_GAP, tops);
    }
  }

  lemma NoProtoBelow(g: Graph, here: Positions, below: Positions, parentId: string)
    requires GrownBelow(g, here, below, parentId) && PROTO_ID !in here
    ensures PROTO_ID !in below
  {
    hide Inherited;
    ProtoIsInherited();
  }

  lemma HangingStep(g: Graph, placed: Positions, departments: seq<Node>, here: Positions, below: Positions,
                    r: Positions)
    requires departments != [] && UniqueIds(g.nodes)
    requires departments[0] in g.nodes && departments[0].kind.Department? && departments[0].id != PROTO_ID
    requires here.Keys == placed.Keys + {departments[0].id} && PROTO_ID !in below && PROTO_ID !in placed
    requires Keeps(here, below) && Keeps(below, r) && LoopsClosed(g, below)
    requires ChildrenIn(g, here, below, departments[0].id)
    requires AllHang(g, here, below, Early(placed, departments))
    requires PlacesHanging(g, below, r, Early(below, departments[1..]))
    ensures PlacesHanging(g, placed, r, Early(placed, departments))
  {
    hide Shadowed, HangsBelow, Hangs, ChildrenIn, LoopsClosed;
    var d, tops, later := departments[0], Early(placed, departments), Early(below, departments[1..]);
    assert tops == {d.id} + later;
    SameIdSameNode(g.nodes);
    forall n | n in g.nodes && n.id !in placed && !n.kind.Department? && n.id !in below
      ensures HangsBelow(g, n, later) ==> HangsBelow(g, n, tops)
      ensures HangsBelow(g, n, tops) ==> HangsBelow(g, n, later)
    {
      HangsMoreBelow(g, n, later, tops);
      NotFromHere(g, here, below, d, later, n);
    }
  }

  lemma HangsMoreBelow(g: Graph, n: Node, tops: set<string>, more: set<string>)
    requires tops <= more
    ensures HangsBelow(g, n, tops) ==> HangsBelow(g, n, more)
  {
    hide Hangs;
    if HangsBelow(g, n, tops) {
      var depth: nat :| Hangs(g, n, tops, depth);
      HangsBelowMore(g, n, tops, more, depth);
    }
  }

  lemma NotFromHere(g: Graph, here: Positions, below: Positions, d: Node, later: set<string>, n: Node)
    requires LoopsClosed(g, below) && PROTO_ID !in below && Keeps(here, below)
    requires ChildrenIn(g, here, below, d.id)
    requires n in g.nodes && n.id !in below
    ensures HangsBelow(g, n, {d.id} + later) ==> HangsBelow(g, n, later)
  {
    hide Hangs, ChildrenIn, LoopsClosed;
    if HangsBelow(g, n, {d.id} + later) {
      var depth: nat :| Hangs(g, n, {d.id} + later, depth);
      HangsLater(g, here, below, d, later, n, depth);
    }
  }

  lemma FirstDepartment(g: Graph, placed: Positions, departments: seq<Node>)
    requires departments != [] && OpenDepartments(g, placed, departments)
    ensures departments[0] in g.nodes && departments[0].kind.Department? && departments[0].id !in placed
    ensures UniqueIds(g.nodes)
  {
    assert departments[0] in departments;
  }

  lemma TreeGrows(g: Graph, placed: Positions, parentId: string, x: int, centerY: int, gap: Gap)
    requires UniqueIds(g.nodes) && parentId in placed
    ensures GrownBelow(g, placed, Tree(g, placed, parentId, x, centerY, gap), parentId)
    ensures Keeps(placed, Tree(g, placed, parentId, x, centerY, gap))
  {
    hide Shadowed, Tree;
  }

  lemma AddsDepartmentsKeeps(g: Graph, before: Positions, after: Positions, departments: seq<Node>,
                             centers: seq<int>, offsetY: int)
    requires |centers| == |departments| && AddsDepartments(g, before, after, departments, centers, offsetY)
    ensures Keeps(before, after)
  {}

  lemma {:induction false} DepartmentsHang(g: Graph, placed: Positions, departments: seq<Node>, centers: seq<int>,
                                           offsetY: int)
    requires OpenDepartments(g, placed, departments) && |centers| == |departments| && LoopsClosed(g, placed)
    ensures PlacesHanging(g, placed, Departments(g, placed, departments, centers, offsetY),
                          Early(placed, departments))
    decreases |departments|
  {
    hide Shadowed, Tree, Departments, OpenDepartments, LoopsClosed, HangsBelow, GrownBelow, AddsDepartments,
         PlacesHanging;
    if departments == [] {
      assert centers == [];
      DepartmentsEnd(g, placed, offsetY);
      NothingPlaced(g, placed, placed);
    } else {
      var d, y := departments[0], centers[0] - offsetY;
      var here := placed[d.id := Position(DEPARTMENT_X, y)];
      var r := Departments(g, placed, departments, centers, offsetY);
      DepartmentStep(g, placed, departments, centers, offsetY);
      FirstDepartment(g, placed, departments);
      var below := Tree(g, here, d.id, LOOP_X, y, LOOP_GAP);
      DepartmentsAdd(g, placed, departments, centers, offsetY);
      DepartmentsAdd(g, below, departments[1..], centers[1..], offsetY);
      AddsDepartmentsKeeps(g, below, r, departments[1..], centers[1..], offsetY);
      TreeGrows(g, here, d.id, LOOP_X, y, LOOP_GAP);
      if PROTO_ID in placed {
        LaterShadowed(g, placed, r, departments, centers, offsetY);
      } else if d.id == PROTO_ID {
        ProtoDepartment(g, placed, departments, centers, offsetY, here, below, r);
      } else {
        TreeIsClosed(g, here, d.id, LOOP_X, y, LOOP_GAP);
        TreeKeepsClosed(g, placed, d, Position(DEPARTMENT_X, y), below);
        DepartmentsHang(g, below, departments[1..], centers[1..], offsetY);
        TreeOfDepartmentHangs(g, here, d, y, Early(placed, departments));
        NoProtoBelow(g, here, below, d.id);
        HangingStep(g, placed, departments, here, below, r);
      }
    }
  }
  function CenterOf(g: Graph, i: nat): int
    requires i < |DepartmentsOf(g)|
  {
    Centers(g, DepartmentsOf(g), 0)[i] - TotalHeight(g, DepartmentsOf(g)) / 2
  }

  // ----- every node is placed, once

  /** A node is the first organization, the first management node, or a department. */
  ghost predicate Anchor(g: Graph, n: Node) {
    First(g.nodes, Organization) == Some(n) || First(g.nodes, Management) == Some(n) || n.kind.Department?
  }

  /** An anchor named `__proto__` gives the layout a prototype whose coordinate has this name and is not
      zero. */
  ghost predicate Captured(g: Graph, id: string) {
    || (id == "x" && exists n :: n in g.nodes && n.id == PROTO_ID && Anchor(g, n))
    || (id == "y" && exists i :: 0 <= i < |DepartmentsOf(g)| && DepartmentsOf(g)[i].id == PROTO_ID
                       && CenterOf(g, i) != 0)
  }

  /** The departments whose trees are placed before an anchor named `__proto__` is. */
  function EarlyDepartments(g: Graph): set<string> { Early(Anchors(g), DepartmentsOf(g)) }

  /** A node that is not an anchor can be placed: its name is not inherited and, if an anchor named
      `__proto__` captures it, it is a loop whose turn comes earlier. */
  ghost predicate CanBePlaced(g: Graph, n: Node) {
    !Inherited(n.id) && (Captured(g, n.id) ==> HangsBelow(g, n, EarlyDepartments(g)))
  }

  function SortedOf(nodes: seq<Node>, le: (Node, Node) -> bool): Graph { Graph(StableSort(nodes, le), le) }

  /** On every graph with distinct ids, cycles of parents included: only nodes get positions, and a node
      gets one exactly when it is an anchor or can be placed. */
  lemma PlacedIff(nodes: seq<Node>, le: (Node, Node) -> bool)
    requires UniqueIds(nodes)
    ensures forall id :: id in LayoutOf(nodes, le) ==> exists n :: n in nodes && n.id == id
    ensures forall n :: n in nodes ==>
      (n.id in LayoutOf(nodes, le) <==> Anchor(SortedOf(nodes, le), n) || CanBePlaced(SortedOf(nodes, le), n))
  {
    hide Shadowed, Leftovers, StableSort, Where, AfterDepartments, CanBePlaced, Anchor, Adds;
    SortContents(nodes, le);
    var g := SortedOf(nodes, le);
    LeftoversAdd(g, AfterDepartments(g));
    PlacedFrom(g, LayoutOf(nodes, le));
  }

  lemma AnchorsAre(g: Graph)
    ensures forall id :: id in Anchors(g) <==>
      || (First(g.nodes, Organization).Some? && id == First(g.nodes, Organization).value.id)
      || (First(g.nodes, Management).Some? && id == First(g.nodes, Management).value.id)
  {}

  lemma AnchorsAreNodes(g: Graph)
    ensures forall id :: id in Anchors(g) ==>
      exists n :: n in g.nodes && n.id == id && Anchor(g, n) && !n.kind.Department? && !n.kind.Loop?
  {
    AnchorsAre(g);
    FirstFound(g.nodes, Organization);
    FirstFound(g.nodes, Management);
  }

  lemma DepartmentsAreAnchors(g: Graph)
    ensures forall d :: d in DepartmentsOf(g) <==> d in g.nodes && d.kind.Department?
    ensures forall d :: d in DepartmentsOf(g) ==> Anchor(g, d)
  {
    WhereContents(g.nodes, (n: Node) => n.kind.Department?);
  }

  lemma AnchorsClosed(g: Graph)
    requires UniqueIds(g.nodes)
    ensures LoopsClosed(g, Anchors(g))
  {
    hide Anchors, Anchor, ChildrenIn;
    AnchorsAreNodes(g);
    SameIdSameNode(g.nodes);
  }

  /** What the trees do. */
  lemma AfterTrees(g: Graph)
    requires UniqueIds(g.nodes)
    ensures var departments := DepartmentsOf(g);
      AddsDepartments(g, Anchors(g), AfterDepartments(g), departments, Centers(g, departments, 0),
                      TotalHeight(g, departments) / 2)
    ensures PlacesHanging(g, Anchors(g), AfterDepartments(g), EarlyDepartments(g))
  {
    hide Anchors, OpenDepartments, AddsDepartments, PlacesHanging, DepartmentsOf, Centers, TotalHeight, LoopsClosed,
         Early;
    DepartmentsOpenAtStart(g);
    AnchorsClosed(g);
    var departments := DepartmentsOf(g);
    DepartmentsAdd(g, Anchors(g), departments, Centers(g, departments, 0), TotalHeight(g, departments) / 2);
    DepartmentsHang(g, Anchors(g), departments, Centers(g, departments, 0), TotalHeight(g, departments) / 2);
  }

  lemma AllPlacedAreNodes(g: Graph)
    requires UniqueIds(g.nodes)
    ensures forall id :: id in AfterDepartments(g) ==> exists n :: n in g.nodes && n.id == id
  {
    hide Anchors, Anchor, AfterDepartments, DepartmentsOf, PlacesHanging, Shadowed, Centers, TotalHeight;
    AfterTrees(g);
    AnchorsAreNodes(g);
    DepartmentsAreAnchors(g);
  }

  lemma AnchorPlaced(g: Graph, n: Node)
    requires UniqueIds(g.nodes) && n in g.nodes && Anchor(g, n)
    ensures n.id in AfterDepartments(g)
  {
    hide Anchors, AfterDepartments, DepartmentsOf, PlacesHanging, Shadowed, Centers, TotalHeight;
    AfterTrees(g);
    AnchorsAre(g);
    DepartmentsAreAnchors(g);
    if n.kind.Department? {
      var i :| 0 <= i < |DepartmentsOf(g)| && DepartmentsOf(g)[i] == n;
    }
  }

  lemma OthersHang(g: Graph, n: Node)
    requires UniqueIds(g.nodes) && n in g.nodes && !Anchor(g, n)
    ensures HangsBelow(g, n, EarlyDepartments(g)) ==> n.id in AfterDepartments(g)
    ensures n.id in AfterDepartments(g) && Shadowed(AfterDepartments(g), n.id) ==>
      HangsBelow(g, n, EarlyDepartments(g))
    ensures n.id in AfterDepartments(g) ==> !Inherited(n.id)
  {
    hide Inherited, Anchors, AfterDepartments, DepartmentsOf, HangsBelow, EarlyDepartments, Centers, TotalHeight;
    AfterTrees(g);
    AnchorsAreNodes(g);
    DepartmentsAreAnchors(g);
    SameIdSameNode(g.nodes);
    assert n.id !in Anchors(g);
  }

  lemma AnchorsAreLevel(g: Graph)
    ensures forall id :: id in Anchors(g) ==> Anchors(g)[id].x != 0 && Anchors(g)[id].y == 0
  {}

  lemma ProtoPosition(g: Graph)
    requires UniqueIds(g.nodes)
    ensures PROTO_ID in AfterDepartments(g) <==> exists n :: n in g.nodes && n.id == PROTO_ID && Anchor(g, n)
    ensures PROTO_ID in AfterDepartments(g) ==> AfterDepartments(g)[PROTO_ID].x != 0
    ensures PROTO_ID in AfterDepartments(g) && AfterDepartments(g)[PROTO_ID].y != 0 <==>
      exists i :: 0 <= i < |DepartmentsOf(g)| && DepartmentsOf(g)[i].id == PROTO_ID && CenterOf(g, i) != 0
  {
    hide Inherited, AfterDepartments, DepartmentsOf, Anchors, PlacesHanging, Centers, TotalHeight;
    AfterTrees(g);
    AnchorsAreNodes(g);
    DepartmentsAreAnchors(g);
    SameIdSameNode(g.nodes);
    ProtoIsInherited();
    if n :| n in g.nodes && n.id == PROTO_ID && Anchor(g, n) { AnchorPlaced(g, n); }
    AnchorsAreLevel(g);
  }

  lemma ShadowedAfter(g: Graph, id: string)
    requires UniqueIds(g.nodes)
    ensures Shadowed(AfterDepartments(g), id) <==> Inherited(id) || Captured(g, id)
  {
    hide Inherited, AfterDepartments, DepartmentsOf, Anchor, CenterOf;
    ProtoPosition(g);
  }

  lemma PlacedFrom(g: Graph, r: Positions)
    requires UniqueIds(g.nodes)
    requires Adds(g, AfterDepartments(g), r) && forall n :: n in g.nodes ==> Seen(r, n.id)
    ensures forall id :: id in r ==> exists n :: n in g.nodes && n.id == id
    ensures forall n :: n in g.nodes ==> (n.id in r <==> Anchor(g, n) || CanBePlaced(g, n))
  {
    hide Shadowed, Inherited, AfterDepartments, DepartmentsOf, UniqueIds, Anchor, HangsBelow, Captured,
         EarlyDepartments;
    AllPlacedAreNodes(g);
    ShadowsStay(AfterDepartments(g), r);
    forall n | n in g.nodes ensures n.id in r <==> Anchor(g, n) || CanBePlaced(g, n) {
      if Anchor(g, n) {
        AnchorPlaced(g, n);
      } else {
        ShadowedAfter(g, n.id);
        OthersHang(g, n);
      }
    }
  }

  /** A loop named `constructor` never gets a position. */
  lemma InheritedNameIsNotPlaced(le: (Node, Node) -> bool)
    ensures var nodes := [Node("constructor", Loop, None, "constructor")];
      UniqueIds(nodes) && "constructor" !in LayoutOf(nodes, le)
  {
    hide LayoutOf;
    var node := Node("constructor", Loop, None, "constructor");
    var nodes := [node];
    PlacedIff(nodes, le);
    SortContents(nodes, le);
    FirstFound(StableSort(nodes, le), Organization);
    FirstFound(StableSort(nodes, le), Management);
    assert node in nodes;
  }

  /** A loop named `x` is never placed beside a department named `__proto__`: the department's own `x`
      is found for it. */
  lemma PrototypeHidesX(le: (Node, Node) -> bool)
    ensures var nodes := [Node(PROTO_ID, Department, None, ""), Node("x", Loop, None, "")];
      UniqueIds(nodes) && PROTO_ID in LayoutOf(nodes, le) && "x" !in LayoutOf(nodes, le)
  {
    hide LayoutOf, EarlyDepartments, Inherited;
    var department, node := Node(PROTO_ID, Department, None, ""), Node("x", Loop, None, "");
    var nodes := [department, node];
    PlacedIff(nodes, le);
    SortContents(nodes, le);
    FirstFound(StableSort(nodes, le), Organization);
    FirstFound(StableSort(nodes, le), Management);
    assert department in nodes && node in nodes;
  }
}
