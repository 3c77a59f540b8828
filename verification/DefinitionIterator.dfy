/** Iterating over the children of a definition with wildcard references expanded
    (`definition_iter_init`, `definition_iter_next`). */
module DefinitionIterator {
  import opened Wrappers
  import opened Sequences

  /** A child reference; a wildcard one stands for the children of the definition. */
  datatype Child = Child(definition: nat, isRefAll: bool)

  /** The children of each definition. */
  type Definitions = seq<seq<Child>>

  /** The wildcard references go from higher to lower ranks, so they form no cycle. */
  ghost predicate Ranked(defs: Definitions, rank: nat -> nat) {
    forall i, j :: 0 <= i < |defs| && 0 <= j < |defs[i]| ==>
      defs[i][j].definition < |defs| && (defs[i][j].isRefAll ==> rank(defs[i][j].definition) < rank(i))
  }

  /** The wildcard references of the list are to definitions of rank below `r`. */
  ghost predicate Below(defs: Definitions, rank: nat -> nat, list: seq<Child>, r: nat) {
    forall j :: 0 <= j < |list| ==> list[j].definition < |defs| && (list[j].isRefAll ==> rank(list[j].definition) < r)
  }

  /** The recursive flattening. */
  ghost function Flatten(defs: Definitions, rank: nat -> nat, list: seq<Child>, r: nat): seq<Child>
    requires Ranked(defs, rank) && Below(defs, rank, list, r)
    decreases r, |list|
  {
    if list == [] then []
    else
      var first := list[0];
      (if first.isRefAll then Flatten(defs, rank, defs[first.definition], rank(first.definition)) else [first])
      + Flatten(defs, rank, list[1..], r)
  }

  /** The number of steps the iteration over the list takes. */
  ghost function Cost(defs: Definitions, rank: nat -> nat, list: seq<Child>, r: nat): nat
    requires Ranked(defs, rank) && Below(defs, rank, list, r)
    decreases r, |list|
  {
    if list == [] then 1
    else
      var first := list[0];
      (if first.isRefAll then 1 + Cost(defs, rank, defs[first.definition], rank(first.definition)) else 1)
      + Cost(defs, rank, list[1..], r)
  }

  /** The bound `r` does not matter. */
  lemma {:induction false} AnyBound(defs: Definitions, rank: nat -> nat, list: seq<Child>, r: nat, q: nat)
    requires Ranked(defs, rank) && Below(defs, rank, list, r) && Below(defs, rank, list, q)
    ensures Flatten(defs, rank, list, r) == Flatten(defs, rank, list, q)
    ensures Cost(defs, rank, list, r) == Cost(defs, rank, list, q)
    decreases |list|
  {
    if list != [] { AnyBound(defs, rank, list[1..], r, q); }
  }

  /** Some rank is higher than all those of the definitions. */
  ghost function Top(defs: Definitions, rank: nat -> nat, n: nat): (r: nat)
    requires n <= |defs|
    ensures forall i :: 0 <= i < n ==> rank(i) < r
  {
    if n == 0 then 0 else
      var r := Top(defs, rank, n - 1);
      if rank(n - 1) < r then r else rank(n - 1) + 1
  }

  ghost predicate Lists(defs: Definitions, list: seq<Child>) {
    forall j :: 0 <= j < |list| ==> list[j].definition < |defs|
  }

  ghost function All(defs: Definitions, rank: nat -> nat, list: seq<Child>): seq<Child>
    requires Ranked(defs, rank) && Lists(defs, list)
  {
    Flatten(defs, rank, list, Top(defs, rank, |defs|))
  }

  ghost function Steps(defs: Definitions, rank: nat -> nat, list: seq<Child>): nat
    requires Ranked(defs, rank) && Lists(defs, list)
  {
    Cost(defs, rank, list, Top(defs, rank, |defs|))
  }

  /** The flattening without bounds: a wildcard is replaced by the flattening of the
      definition it names. */
  lemma Unfold(defs: Definitions, rank: nat -> nat, list: seq<Child>)
    requires Ranked(defs, rank) && Lists(defs, list) && list != []
    ensures Lists(defs, list[1..]) && Lists(defs, defs[list[0].definition]) && All(defs, rank, []) == []
    ensures All(defs, rank, list) ==
      (if list[0].isRefAll then All(defs, rank, defs[list[0].definition]) else [list[0]]) + All(defs, rank, list[1..])
    ensures Steps(defs, rank, list) ==
      (if list[0].isRefAll then 1 + Steps(defs, rank, defs[list[0].definition]) else 1) + Steps(defs, rank, list[1..])
  {
    if list[0].isRefAll {
      AnyBound(defs, rank, defs[list[0].definition], rank(list[0].definition), Top(defs, rank, |defs|));
    }
  }

  class Iterator {
    const defs: Definitions
    ghost const rank: nat -> nat
    /** The lists that are still to be gone through, the innermost first. */
    var childrenStack: seq<seq<Child>>

    ghost predicate Valid()
      reads this
    {
      Ranked(defs, rank) && AllLists(childrenStack)
    }

    ghost predicate AllLists(stack: seq<seq<Child>>) {
      forall i :: 0 <= i < |stack| ==> Lists(defs, stack[i])
    }

    /** What is still to come from a stack of lists. */
    ghost function RemainingOf(stack: seq<seq<Child>>): seq<Child>
      requires Ranked(defs, rank) && AllLists(stack)
    {
      if stack == [] then [] else All(defs, rank, stack[0]) + RemainingOf(stack[1..])
    }

    ghost function StepsOf(stack: seq<seq<Child>>): nat
      requires Ranked(defs, rank) && AllLists(stack)
    {
      if stack == [] then 0 else Steps(defs, rank, stack[0]) + StepsOf(stack[1..])
    }

    ghost function Remaining(): seq<Child>
      requires Valid()
      reads this
    {
      RemainingOf(childrenStack)
    }

    /** `definition_iter_init` */
    constructor (defs: Definitions, definition: nat, ghost rank: nat -> nat)
      requires Ranked(defs, rank) && definition < |defs|
      ensures Valid() && this.defs == defs && this.rank == rank
      ensures Remaining() == All(defs, rank, defs[definition])
    {
      this.defs, this.rank := defs, rank;
      childrenStack := [defs[definition]];
      new;
      assert Lists(defs, defs[definition]);
      assert RemainingOf(childrenStack[1..]) == [];
    }

    /** `definition_iter_next`: the next child of the flattening, as long as there is one. */
    method Next() returns (child: Option<Child>)
      requires Valid()
      modifies this`childrenStack
      ensures Valid()
      ensures child.None? <==> old(Remaining()) == []
      ensures child.None? ==> Remaining() == []
      ensures child.Some? ==> old(Remaining()) == [child.value] + Remaining()
      decreases StepsOf(childrenStack)
    {
      if childrenStack == [] {
        return None;
      }
      var list := childrenStack[0];
      ghost var rest := childrenStack[1..];
      assert forall i :: 0 <= i < |rest| ==> rest[i] == childrenStack[i + 1];
      assert childrenStack == [list] + rest;
      Pushed(list, rest);
      if list == [] {
        childrenStack := childrenStack[1..];
        child := Next();
      } else {
        var current := list[0];
        Unfold(defs, rank, list);
        Pushed(list[1..], rest);
        childrenStack := childrenStack[0 := list[1..]];
        assert childrenStack == [list[1..]] + rest;
        if current.isRefAll {
          Pushed(defs[current.definition], childrenStack);
          Regroup(All(defs, rank, defs[current.definition]), All(defs, rank, list[1..]), RemainingOf(rest));
          childrenStack := [defs[current.definition]] + childrenStack;
          child := Next();
        } else {
          Regroup([current], All(defs, rank, list[1..]), RemainingOf(rest));
          child := Some(current);
        }
      }
    }

    lemma Pushed(list: seq<Child>, stack: seq<seq<Child>>)
      requires Ranked(defs, rank) && Lists(defs, list) && AllLists(stack)
      ensures AllLists([list] + stack)
      ensures RemainingOf([list] + stack) == All(defs, rank, list) + RemainingOf(stack)
      ensures StepsOf([list] + stack) == Steps(defs, rank, list) + StepsOf(stack)
    {
      assert ([list] + stack)[1..] == stack;
    }
  }
}
