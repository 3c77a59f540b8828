/** The live contexts with their reference counts: creation, release, and the freezing
    that keeps contexts alive while text is analyzed again. */
module ContextTable {
  import opened Wrappers
  import opened Contexts
  import opened Language
  import opened Sequences

  /** `address` stands for the context's place in memory. */
  datatype Node = Node(refs: nat, frozen: bool, address: nat)

  type Table = map<Context, Node>

  function Address(table: Table): map<Context, nat> {
    map c | c in table :: table[c].address
  }

  /** The contexts of the table at or below `c`. */
  function Below(table: Table, c: Context): set<Context> {
    set d | d in table && IsAncestor(c, d)
  }

  function Children(table: Table, c: Context): set<Context> {
    set d | d in table && d.Child? && d.parent == c
  }

  predicate Stays(n: Node) { !(n.frozen && n.refs == 1) }

  /** The tree at and below `c`: parents are live, and what is frozen, or will be alive
      after the thaw, has a parent that is. */
  ghost predicate IsTree(table: Table, c: Context) {
    forall d :: d in table && IsAncestor(c, d) ==>
      table[d].refs > 0 &&
      (d != c ==> d.parent in table && (table[d].frozen ==> table[d.parent].frozen)
                  && (Stays(table[d]) ==> Stays(table[d.parent])))
  }

  lemma {:induction false} DepthGrows(a: Context, c: Context)
    requires IsAncestor(a, c)
    ensures a.Depth() <= c.Depth() && (a.Depth() == c.Depth() ==> a == c)
    decreases c
  {
    if a != c { DepthGrows(a, c.parent); }
  }

  lemma {:induction false} AncestorTrans(a: Context, b: Context, c: Context)
    requires IsAncestor(a, b) && IsAncestor(b, c)
    ensures IsAncestor(a, c)
    decreases c
  {
    if b != c { AncestorTrans(a, b, c.parent); }
  }

  /** A context strictly below `c` is below one of its children, and of one only. */
  lemma {:induction false} BelowChild(table: Table, c: Context, d: Context) returns (k: Context)
    requires IsTree(table, c) && d in table && IsAncestor(c, d) && d != c
    ensures k in Children(table, c) && IsAncestor(k, d)
    decreases d
  {
    if d.parent == c { k := d; } else { k := BelowChild(table, c, d.parent); }
  }

  lemma {:induction false} OneChild(c: Context, j: Context, k: Context, d: Context)
    requires j.Child? && k.Child? && j.parent == c && k.parent == c && IsAncestor(j, d) && IsAncestor(k, d)
    ensures j == k
    decreases d
  {
    DepthGrows(j, d);
    DepthGrows(k, d);
    if j != d && k != d { OneChild(c, j, k, d.parent); }
  }

  lemma {:induction false} BelowRoot(c: Context)
    ensures IsAncestor(Root, c)
    decreases c
  {
    if c.Child? { BelowRoot(c.parent); }
  }

  lemma FewerBelow(table: Table, c: Context, k: Context)
    requires k in Children(table, c) && c in table
    ensures |Below(table, k)| < |Below(table, c)|
  {
    forall d | d in Below(table, k) ensures d in Below(table, c) && d != c {
      AncestorTrans(c, k, d);
      DepthGrows(k, d);
    }
    assert IsAncestor(c, k);
    Smaller(Below(table, k), Below(table, c), c);
  }

  lemma Smaller(a: set<Context>, b: set<Context>, x: Context)
    requires a <= b && x in b && x !in a
    ensures |a| < |b|
  {
    SubsetSize(a, b - {x});
  }

  /** Subtrees of children are trees, and lie apart. */
  lemma ChildTree(table: Table, c: Context, k: Context)
    requires IsTree(table, c) && k in Children(table, c)
    ensures IsTree(table, k) && IsAncestor(c, k) && !IsAncestor(k, c)
  {
    if IsAncestor(k, c) { DepthGrows(k, c); }
    forall d | d in table && IsAncestor(k, d) ensures IsAncestor(c, d) && d != c {
      AncestorTrans(c, k, d);
      DepthGrows(k, d);
    }
  }

  // ----- visiting a subtree -----

  /** What a visit makes of a node; None stands for its removal. */
  type Visit = Node -> Option<Node>

  /** The nodes at or below `c` were visited, the others were not. */
  ghost predicate Visited(f: Visit, before: Table, after: Table, c: Context) {
    forall d :: if d in before && IsAncestor(c, d) then Became(f(before[d]), after, d) else Same(before, after, d)
  }

  predicate Became(n: Option<Node>, after: Table, d: Context) {
    if n.None? then d !in after else d in after && after[d] == n.value
  }

  predicate Same(before: Table, after: Table, d: Context) {
    (d in after <==> d in before) && (d in before ==> after[d] == before[d])
  }

  ghost predicate BelowOne(ks: set<Context>, d: Context) {
    exists k :: k in ks && IsAncestor(k, d)
  }

  /** The subtrees of some children of `c` were visited. */
  ghost predicate SomeVisited(f: Visit, before: Table, after: Table, done: set<Context>) {
    forall d :: if d in before && BelowOne(done, d) then Became(f(before[d]), after, d) else Same(before, after, d)
  }

  lemma NoneVisited(f: Visit, table: Table)
    ensures SomeVisited(f, table, table, {})
  {
  }

  /** A child that was not visited yet is untouched, with all below it. */
  lemma Untouched(f: Visit, before: Table, after: Table, c: Context, done: set<Context>, k: Context)
    requires IsTree(before, c) && done <= Children(before, c) && k in Children(before, c) && k !in done
    requires SomeVisited(f, before, after, done)
    ensures IsTree(after, k) && k in after && Below(after, k) == Below(before, k)
    ensures forall d :: IsAncestor(k, d) ==> Same(before, after, d)
  {
    ChildTree(before, c, k);
    forall d | IsAncestor(k, d) ensures Same(before, after, d) {
      if d in before && BelowOne(done, d) {
        var j :| j in done && IsAncestor(j, d);
        OneChild(c, j, k, d);
      }
    }
    assert IsAncestor(k, k);
    assert Same(before, after, k);
    forall d | d in after && IsAncestor(k, d) && d != k ensures d.parent in after && after[d.parent] == before[d.parent] {
      assert Same(before, after, d);
      ParentBelow(k, d);
      assert Same(before, after, d.parent);
    }
    forall d ensures d in Below(after, k) <==> d in Below(before, k) {
      if IsAncestor(k, d) { assert Same(before, after, d); }
    }
  }

  lemma ParentBelow(k: Context, d: Context)
    requires IsAncestor(k, d) && d != k
    ensures d.Child? && IsAncestor(k, d.parent)
  {
  }

  lemma OneMore(f: Visit, before: Table, middle: Table, after: Table, c: Context, done: set<Context>, k: Context)
    requires IsTree(before, c) && done <= Children(before, c) && k in Children(before, c) && k !in done
    requires SomeVisited(f, before, middle, done) && Visited(f, middle, after, k)
    ensures SomeVisited(f, before, after, done + {k})
  {
    Untouched(f, before, middle, c, done, k);
    forall d ensures if d in before && BelowOne(done + {k}, d) then Became(f(before[d]), after, d) else Same(before, after, d) {
      if IsAncestor(k, d) {
        assert Same(before, middle, d);
        assert BelowOne(done + {k}, d);
      } else {
        assert Same(middle, after, d);
        assert BelowOne(done + {k}, d) <==> BelowOne(done, d);
      }
    }
  }

  /** All children and the context itself. */
  lemma AllVisited(f: Visit, before: Table, middle: Table, after: Table, c: Context)
    requires IsTree(before, c) && c in before && SomeVisited(f, before, middle, Children(before, c))
    requires Became(f(before[c]), after, c) && forall d :: d != c ==> Same(middle, after, d)
    ensures Visited(f, before, after, c)
  {
    forall d ensures if d in before && IsAncestor(c, d) then Became(f(before[d]), after, d) else Same(before, after, d) {
      if d != c && d in before && IsAncestor(c, d) {
        var k := BelowChild(before, c, d);
        assert BelowOne(Children(before, c), d);
        assert Same(middle, after, d);
      } else if d != c {
        assert Same(middle, after, d);
        if d in before && BelowOne(Children(before, c), d) {
          var k :| k in Children(before, c) && IsAncestor(k, d);
          AncestorTrans(c, k, d);
        }
      }
    }
  }

  // ----- context_freeze and context_thaw -----

  function Froze(n: Node): Option<Node> { Some(Node(n.refs + 1, true, n.address)) }

  /** `context_thaw` takes back the reference, and `context_unref` removes the context
      when that was the last one. */
  function Thawed(n: Node): Option<Node> {
    if !n.frozen then Some(n)
    else if n.refs <= 1 then None
    else Some(Node(n.refs - 1, false, n.address))
  }

  /** `context_freeze` */
  method FreezeTree(table: Table, c: Context) returns (r: Table)
    requires IsTree(table, c) && c in table
    ensures Visited(Froze, table, r, c)
    decreases |Below(table, c)|
  {
    hide SomeVisited, IsTree, Visited;
    ghost var kids := Children(table, c);
    r := table;
    NoneVisited(Froze, table);
    var left := Children(table, c);
    assert kids - left == {};
    while left != {}
      invariant left <= kids && SomeVisited(Froze, table, r, kids - left)
      decreases left
    {
      var k :| k in left;
      FewerBelow(table, c, k);
      Untouched(Froze, table, r, c, kids - left, k);
      ghost var before := r;
      r := FreezeTree(r, k);
      OneMore(Froze, table, before, r, c, kids - left, k);
      assert kids - (left - {k}) == (kids - left) + {k};
      left := left - {k};
    }
    assert kids - left == kids;
    Alone(Froze, table, r, c);
    ghost var before := r;
    r := r[c := Froze(r[c]).value];
    AllVisited(Froze, table, before, r, c);
  }

  /** The context itself is not below its children. */
  lemma Alone(f: Visit, before: Table, after: Table, c: Context)
    requires IsTree(before, c) && SomeVisited(f, before, after, Children(before, c))
    ensures Same(before, after, c)
  {
    if BelowOne(Children(before, c), c) {
      var k :| k in Children(before, c) && IsAncestor(k, c);
      ChildTree(before, c, k);
    }
  }

  /** `context_thaw` */
  method ThawTree(table: Table, c: Context) returns (r: Table)
    requires IsTree(table, c) && c in table
    ensures Visited(Thawed, table, r, c)
    decreases |Below(table, c)|
  {
    hide SomeVisited, IsTree, Visited;
    if !table[c].frozen {
      NothingFrozen(table, c);
      return table;
    }
    ghost var kids := Children(table, c);
    r := table;
    NoneVisited(Thawed, table);
    var left := Children(table, c);
    assert kids - left == {};
    while left != {}
      invariant left <= kids && SomeVisited(Thawed, table, r, kids - left)
      decreases left
    {
      var k :| k in left;
      FewerBelow(table, c, k);
      Untouched(Thawed, table, r, c, kids - left, k);
      ghost var before := r;
      r := ThawTree(r, k);
      OneMore(Thawed, table, before, r, c, kids - left, k);
      assert kids - (left - {k}) == (kids - left) + {k};
      left := left - {k};
    }
    assert kids - left == kids;
    r := ThawSelf(table, r, c);
  }

  /** The context itself is thawed after its children. */
  method ThawSelf(ghost table: Table, middle: Table, c: Context) returns (r: Table)
    requires IsTree(table, c) && c in table && table[c].frozen && SomeVisited(Thawed, table, middle, Children(table, c))
    ensures Visited(Thawed, table, r, c)
  {
    hide SomeVisited, IsTree;
    Alone(Thawed, table, middle, c);
    RefsPositive(table, c);
    var n := middle[c];
    r := middle[c := Node(n.refs, false, n.address)];
    r := Unref(r, c);
    if table[c].refs == 1 { NoChildLeft(table, middle, c); }
    AllVisited(Thawed, table, middle, r, c);
  }

  lemma RefsPositive(table: Table, c: Context)
    requires IsTree(table, c) && c in table
    ensures table[c].refs > 0
  {
    assert IsAncestor(c, c);
  }

  /** `context_unref` */
  method Unref(table: Table, c: Context) returns (r: Table)
    requires c in table && table[c].refs > 0
    ensures table[c].refs == 1 ==> r == table - {c}
    ensures table[c].refs > 1 ==> r == table[c := table[c].(refs := table[c].refs - 1)]
  {
    var n := table[c].(refs := table[c].refs - 1);
    if n.refs != 0 {
      return table[c := n];
    }
    r := table - {c};
  }

  lemma NothingFrozen(table: Table, c: Context)
    requires IsTree(table, c) && c in table && !table[c].frozen
    ensures Visited(Thawed, table, table, c)
  {
    forall d | d in table && IsAncestor(c, d) ensures !table[d].frozen { BelowUnfrozen(table, c, d); }
  }

  lemma {:induction false} BelowUnfrozen(table: Table, c: Context, d: Context)
    requires IsTree(table, c) && c in table && !table[c].frozen && d in table && IsAncestor(c, d)
    ensures !table[d].frozen
    decreases d
  {
    if d != c { BelowUnfrozen(table, c, d.parent); }
  }

  /** When the last reference of a context goes no child of it is left. */
  lemma NoChildLeft(before: Table, after: Table, c: Context)
    requires IsTree(before, c) && c in before && before[c].frozen && before[c].refs == 1
    requires SomeVisited(Thawed, before, after, Children(before, c))
    ensures Children(after, c) == {}
  {
    forall k | k in Children(after, c) ensures false {
      assert IsAncestor(k, k);
      if k in before {
        assert BelowOne(Children(before, c), k);
        assert IsAncestor(c, k);
      }
    }
  }
}
