/** Contexts of the syntax engine.

    A context is created by `create_child_context` and is unique for its
    parent, its definition and (when the end pattern refers to the start match)
    the matched start text.  The model therefore identifies a context with that
    data: two pointers to the same live context are two equal values. */
module Contexts {
  import opened Wrappers

  datatype ContextType = Simple | Container

  /** Handle of a context definition: its index in the language and its type. */
  datatype DefinitionRef = DefinitionRef(index: nat, kind: ContextType)

  datatype Context =
    | Root
    | Child(parent: Context, definition: DefinitionRef, startText: string)
  {
    predicate IsContainer() {
      Root? || definition.kind == Container
    }

    predicate IsSimple() {
      !IsContainer()
    }

    function Depth(): nat {
      if Root? then 0 else 1 + parent.Depth()
    }
  }

  /** `c` may be the context of a child of a segment whose context is `parent`:
      either the child is invalid or its context's parent is that context. */
  predicate Fits(c: Option<Context>, parent: Option<Context>) {
    c.None? || (parent.Some? && c.value.Child? && c.value.parent == parent.value)
  }
}
