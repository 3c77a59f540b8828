/** The contexts of an engine: who holds references to them, and what freezing
    guarantees. */
module ContextPool {
  import opened Contexts
  import opened ContextTable

  /** Every reference is accounted for: one for each use, one while the context is
      frozen, and the engine's own one of the toplevel context. */
  ghost predicate Counted(table: Table, uses: multiset<Context>) {
    && (forall c :: c in table ==>
          table[c].refs == uses[c] + (if table[c].frozen then 1 else 0) + (if c == Root then 1 else 0)
          && table[c].refs > 0)
    && (forall c :: c in uses ==> c in table)
  }

  /** Segments are nested as their contexts are. */
  ghost predicate Nested(table: Table, uses: multiset<Context>) {
    && (forall c :: c in uses && c.Child? ==> c.parent == Root || c.parent in uses)
    && Root in table
    && (forall c :: c in table && c.Child? ==> c.parent in table)
  }

  /** Each live context has a place of its own. */
  ghost predicate Placed(table: Table, nextAddress: nat) {
    && (forall c :: c in table ==> table[c].address < nextAddress)
    && (forall c, d :: c in table && d in table && table[c].address == table[d].address ==> c == d)
  }

  /** Exactly the contexts alive at the freeze are frozen, and they are where they were. */
  ghost predicate Frozen(table: Table, kept: map<Context, nat>, freezing: bool) {
    && (forall c :: c in table ==> (table[c].frozen <==> freezing && c in kept))
    && (freezing ==> forall c :: c in kept ==> c in table && table[c].address == kept[c] && (c.Child? ==> c.parent in kept))
  }

  lemma TreeOf(table: Table, uses: multiset<Context>, kept: map<Context, nat>, freezing: bool)
    requires Counted(table, uses) && Nested(table, uses) && Frozen(table, kept, freezing)
    ensures IsTree(table, Root) && Root in table
  {
    forall d | d in table && d.Child? && Stays(table[d]) ensures Stays(table[d.parent]) {
      assert uses[d] > 0;
      assert d in uses;
    }
  }

  lemma NoChildren(table: Table, uses: multiset<Context>, kept: map<Context, nat>, freezing: bool, c: Context)
    requires Counted(table, uses) && Nested(table, uses) && Frozen(table, kept, freezing)
    requires c in uses && table[c].refs == 1 && forall d :: d in uses && d.Child? ==> d.parent != c
    ensures c != Root && !table[c].frozen && forall d :: d in table && d.Child? ==> d.parent != c
  {
    assert uses[c] > 0;
    forall d | d in table && d.Child? ensures d.parent != c {
      assert uses[d] > 0 ==> d in uses;
    }
  }

  /** Counting references moves no context. */
  lemma SamePlaces(table: Table, t: Table, kept: map<Context, nat>, freezing: bool, next: nat)
    requires Frozen(table, kept, freezing) && Placed(table, next)
    requires t.Keys == table.Keys && forall d :: d in t ==> t[d].address == table[d].address && t[d].frozen == table[d].frozen
    ensures Frozen(t, kept, freezing) && Placed(t, next)
  {
  }

  lemma MoreUses(table: Table, uses: multiset<Context>, c: Context)
    requires Counted(table, uses) && Nested(table, uses) && c in table && (c.Child? ==> c.parent == Root || c.parent in uses)
    ensures var t, u := table[c := table[c].(refs := table[c].refs + 1)], uses + multiset{c};
      Counted(t, u) && Nested(t, u)
  {
  }

  lemma Referenced(table: Table, uses: multiset<Context>, kept: map<Context, nat>, freezing: bool, next: nat, c: Context)
    requires Counted(table, uses) && Nested(table, uses) && Frozen(table, kept, freezing) && Placed(table, next)
    requires c in table && (c.Child? ==> c.parent == Root || c.parent in uses)
    ensures var t, u := table[c := table[c].(refs := table[c].refs + 1)], uses + multiset{c};
      Counted(t, u) && Nested(t, u) && Frozen(t, kept, freezing) && Placed(t, next)
  {
    hide Counted, Nested, Frozen, Placed;
    MoreUses(table, uses, c);
    SamePlaces(table, table[c := table[c].(refs := table[c].refs + 1)], kept, freezing, next);
  }

  lemma Created(table: Table, uses: multiset<Context>, kept: map<Context, nat>, freezing: bool, next: nat, c: Context)
    requires Counted(table, uses) && Nested(table, uses) && Frozen(table, kept, freezing) && Placed(table, next)
    requires c !in table && c.Child? && (c.parent == Root || c.parent in uses)
    ensures var t, u := table[c := Node(1, false, next)], uses + multiset{c};
      Counted(t, u) && Nested(t, u) && Frozen(t, kept, freezing) && Placed(t, next + 1)
  {
    assert c !in uses;
    assert c.parent in table;
  }

  lemma FewerUses(table: Table, uses: multiset<Context>, c: Context)
    requires Counted(table, uses) && Nested(table, uses)
    requires c in uses && table[c].refs > 1 && (uses[c] > 1 || forall d :: d in uses && d.Child? ==> d.parent != c)
    ensures var t, u := table[c := table[c].(refs := table[c].refs - 1)], uses - multiset{c};
      Counted(t, u) && Nested(t, u)
  {
    var u := uses - multiset{c};
    UsesLeft(uses, c);
    forall d | d in u && d.Child? ensures d.parent == Root || d.parent in u {
      assert d in uses;
    }
  }

  lemma Dropped(table: Table, uses: multiset<Context>, kept: map<Context, nat>, freezing: bool, next: nat, c: Context)
    requires Counted(table, uses) && Nested(table, uses) && Frozen(table, kept, freezing) && Placed(table, next)
    requires c in uses && table[c].refs > 1 && (uses[c] > 1 || forall d :: d in uses && d.Child? ==> d.parent != c)
    ensures var t, u := table[c := table[c].(refs := table[c].refs - 1)], uses - multiset{c};
      Counted(t, u) && Nested(t, u) && Frozen(t, kept, freezing) && Placed(t, next)
  {
    UsedIsLive(table, uses, c);
    hide Counted, Nested, Frozen, Placed;
    FewerUses(table, uses, c);
    SamePlaces(table, table[c := table[c].(refs := table[c].refs - 1)], kept, freezing, next);
  }

  lemma GoneUses(table: Table, uses: multiset<Context>, c: Context)
    requires Counted(table, uses) && Nested(table, uses) && c in uses && table[c].refs == 1
    requires c != Root && !table[c].frozen && forall d :: d in table && d.Child? ==> d.parent != c
    ensures var t, u := table - {c}, uses - multiset{c}; Counted(t, u) && Nested(t, u)
  {
    var u := uses - multiset{c};
    UsesLeft(uses, c);
    forall d | d in u && d.Child? ensures d.parent == Root || d.parent in u {
      assert d in uses;
    }
  }

  lemma GonePlaces(table: Table, kept: map<Context, nat>, freezing: bool, next: nat, c: Context)
    requires Frozen(table, kept, freezing) && Placed(table, next) && c in table && !table[c].frozen
    ensures Frozen(table - {c}, kept, freezing) && Placed(table - {c}, next)
    ensures freezing ==> c !in kept
  {
    var t := table - {c};
    forall d | d in t ensures d in table && d != c && t[d] == table[d] {
    }
    hide Frozen;
    assert Placed(t, next);
    GoneFrozen(table, t, kept, freezing, c);
  }

  lemma GoneFrozen(table: Table, t: Table, kept: map<Context, nat>, freezing: bool, c: Context)
    requires Frozen(table, kept, freezing) && c in table && !table[c].frozen
    requires forall d :: d in t <==> d in table && d != c
    requires forall d :: d in t ==> t[d] == table[d]
    ensures Frozen(t, kept, freezing) && (freezing ==> c !in kept)
  {
  }

  lemma Gone(table: Table, uses: multiset<Context>, kept: map<Context, nat>, freezing: bool, next: nat, c: Context)
    requires Counted(table, uses) && Nested(table, uses) && Frozen(table, kept, freezing) && Placed(table, next)
    requires c in uses && table[c].refs == 1 && (uses[c] > 1 || forall d :: d in uses && d.Child? ==> d.parent != c)
    ensures var t, u := table - {c}, uses - multiset{c};
      Counted(t, u) && Nested(t, u) && Frozen(t, kept, freezing) && Placed(t, next)
    ensures freezing ==> c !in kept
  {
    OnlyUse(table, uses, c);
    NoChildren(table, uses, kept, freezing, c);
    hide Counted, Nested, Frozen, Placed;
    GoneUses(table, uses, c);
    GonePlaces(table, kept, freezing, next, c);
  }

  /** A context with one reference has one use. */
  lemma OnlyUse(table: Table, uses: multiset<Context>, c: Context)
    requires Counted(table, uses) && c in uses && c in table && table[c].refs == 1
    ensures uses[c] == 1
  {
  }

  lemma UsesLeft(uses: multiset<Context>, c: Context)
    requires c in uses
    ensures var u := uses - multiset{c}; forall d :: u[d] == uses[d] - (if d == c then 1 else 0)
  {
  }

  lemma UsedIsLive(table: Table, uses: multiset<Context>, c: Context)
    requires Counted(table, uses) && c in uses
    ensures c in table && table[c].refs > 0
  {
  }

  lemma FreezeKeeps(before: Table, after: Table, uses: multiset<Context>, kept: map<Context, nat>, next: nat)
    requires Counted(before, uses) && Nested(before, uses) && Frozen(before, kept, false) && Placed(before, next)
    requires Visited(Froze, before, after, Root)
    ensures Counted(after, uses) && Nested(after, uses) && Frozen(after, Address(before), true) && Placed(after, next)
    ensures after.Keys == before.Keys
  {
    AllBelowRoot(Froze, before, after);
    forall c ensures c in after <==> c in before {
      assert c in before ==> Became(Froze(before[c]), after, c);
    }
    forall c | c in after ensures after[c] == Node(before[c].refs + 1, true, before[c].address) {
      assert Became(Froze(before[c]), after, c);
    }
  }

  lemma ThawKeeps(before: Table, after: Table, uses: multiset<Context>, kept: map<Context, nat>, next: nat)
    requires Counted(before, uses) && Nested(before, uses) && Frozen(before, kept, true) && Placed(before, next)
    requires Visited(Thawed, before, after, Root)
    ensures Counted(after, uses) && Nested(after, uses) && Frozen(after, kept, false) && Placed(after, next)
    ensures forall c :: c in after <==> c in before && (c == Root || c in uses)
    ensures forall c :: c in after ==>
      !after[c].frozen && after[c].address == before[c].address && after[c].refs == uses[c] + (if c == Root then 1 else 0)
  {
    AllBelowRoot(Thawed, before, after);
    forall c ensures c in after <==> c in before && (c == Root || c in uses) {
      assert c in before ==> Became(Thawed(before[c]), after, c);
      assert c in uses <==> uses[c] > 0;
    }
    forall c | c in after
      ensures !after[c].frozen && after[c].address == before[c].address && after[c].refs == uses[c] + (if c == Root then 1 else 0)
    {
      assert Became(Thawed(before[c]), after, c);
    }
    forall c | c in after && c.Child? ensures c.parent in after {
      assert c in uses;
    }
  }

  class Pool {
    var table: Table
    var nextAddress: nat
    /** The references held by segments and by callers. */
    ghost var uses: multiset<Context>
    /** The contexts that were alive at the freeze, with their addresses. */
    ghost var kept: map<Context, nat>
    ghost var freezing: bool

    ghost predicate Valid()
      reads this
    {
      && Counted(table, uses) && Nested(table, uses)
      && Placed(table, nextAddress) && Frozen(table, kept, freezing)
    }

    /** The engine creates the toplevel context. */
    constructor ()
      ensures Valid() && !freezing && uses == multiset{} && table.Keys == {Root}
    {
      table := map[Root := Node(1, false, 0)];
      nextAddress := 1;
      uses, kept, freezing := multiset{}, map[], false;
    }

    /** `create_child_context`: the caller gets the live context for this parent,
        definition and start text, or a new one. */
    method CreateChild(parent: Context, definition: DefinitionRef, text: string) returns (address: nat)
      requires Valid() && (parent == Root || parent in uses)
      modifies this`table, this`nextAddress, this`uses
      ensures Valid() && freezing == old(freezing) && kept == old(kept)
      ensures var c := Child(parent, definition, text);
        && uses == old(uses) + multiset{c} && c in table && table[c].address == address
        && (c in old(table) ==> address == old(table)[c].address)
        && (freezing && c in kept ==> address == kept[c])
      ensures forall d :: d in old(table) ==> d in table && table[d].address == old(table)[d].address
    {
      hide Counted, Nested, Placed;
      var c := Child(parent, definition, text);
      if c in table {
        Referenced(table, uses, kept, freezing, nextAddress, c);
        address := table[c].address;
        table := table[c := table[c].(refs := table[c].refs + 1)];
      } else {
        Created(table, uses, kept, freezing, nextAddress, c);
        address := nextAddress;
        table := table[c := Node(1, false, address)];
        nextAddress := nextAddress + 1;
      }
      uses := uses + multiset{c};
    }

    /** `context_ref` for another segment of a context in use. */
    method Reference(c: Context)
      requires Valid() && c in uses
      modifies this`table, this`uses
      ensures Valid() && uses == old(uses) + multiset{c} && table.Keys == old(table).Keys
      ensures forall d :: d in table ==> table[d].address == old(table)[d].address
    {
      hide Counted, Placed, Frozen;
      UsedIsLive(table, uses, c);
      assert c.Child? ==> c.parent == Root || c.parent in uses;
      hide Nested;
      Referenced(table, uses, kept, freezing, nextAddress, c);
      table := table[c := table[c].(refs := table[c].refs + 1)];
      uses := uses + multiset{c};
    }

    /** `context_unref` by a segment that goes, after the segments inside it. */
    method Release(c: Context)
      requires Valid() && c in uses
      requires uses[c] > 1 || forall d :: d in uses && d.Child? ==> d.parent != c
      modifies this`table, this`uses
      ensures Valid() && uses == old(uses) - multiset{c}
      ensures forall d :: d in table <==> d in old(table) && (d != c || old(table)[c].refs > 1)
      ensures forall d :: d in table ==> table[d].address == old(table)[d].address
      ensures freezing && c in kept ==> c in table
    {
      hide Counted, Nested, Placed;
      UsedIsLive(table, uses, c);
      if table[c].refs == 1 {
        Gone(table, uses, kept, freezing, nextAddress, c);
      } else {
        Dropped(table, uses, kept, freezing, nextAddress, c);
      }
      table := Unref(table, c);
      uses := uses - multiset{c};
    }

    /** `context_freeze` of the toplevel context */
    method Freeze()
      requires Valid() && !freezing
      modifies this`table, this`kept, this`freezing
      ensures Valid() && freezing && kept == Address(old(table)) && table.Keys == old(table).Keys
    {
      hide Counted, Nested, Placed, Frozen;
      TreeOf(table, uses, kept, freezing);
      ghost var before := table;
      table := FreezeTree(table, Root);
      FreezeKeeps(before, table, uses, kept, nextAddress);
      kept, freezing := Address(before), true;
    }

    /** `context_thaw` of the toplevel context: what segments do not use goes, and every
        count is the number of uses again. */
    method Thaw()
      requires Valid() && freezing
      modifies this`table, this`freezing
      ensures Valid() && !freezing
      ensures forall c :: c in table <==> c in old(table) && (c == Root || c in uses)
      ensures forall c :: c in table ==>
        !table[c].frozen && table[c].address == old(table)[c].address && table[c].refs == uses[c] + (if c == Root then 1 else 0)
    {
      hide Counted, Nested, Placed;
      TreeOf(table, uses, kept, freezing);
      ghost var before := table;
      table := ThawTree(table, Root);
      ThawKeeps(before, table, uses, kept, nextAddress);
      freezing := false;
    }
  }

  lemma AllBelowRoot(f: Visit, before: Table, after: Table)
    requires Visited(f, before, after, Root)
    ensures forall d :: if d in before then Became(f(before[d]), after, d) else d !in after
  {
    forall d ensures if d in before then Became(f(before[d]), after, d) else d !in after {
      BelowRoot(d);
    }
  }
}
