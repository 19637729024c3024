/** The input side of name binding: definitions as the parser hands them over,
    compound definitions, and the errors analysis can raise.

    The general expression analyser is not part of this model.  What it does
    with a right-hand side, as far as binding is concerned, is look up a
    sequence of free names in the current environment; a definition therefore
    carries the names its right-hand side looks up, in lookup order. */
module Syntax {

  type Name = string

  datatype Kind = DataKind | FunctionKind

  /** One unitary definition: `name = rhs` (data) or `name(params) = rhs`
      (function).  `refs` are the free names the right-hand side looks up. */
  datatype Definition = Definition(kind: Kind, name: Name, refs: seq<Name>)
  {
    predicate IsData() { kind == DataKind }
  }

  /** An entry of a compound definition: a nested definition, or a bare
      statement (an action phrase) with the names it looks up. */
  datatype Entry =
    | DefEntry(def: Definition)
    | ActionEntry(refs: seq<Name>)

  /** The names bound by the definitions of a compound, in source order. */
  function DefNames(entries: seq<Entry>): seq<Name>
  {
    if |entries| == 0 then []
    else (if entries[0].DefEntry? then [entries[0].def.name] else []) + DefNames(entries[1..])
  }

  /** No value occurs twice. */
  ghost predicate NoDuplicates<T>(s: seq<T>)
  {
    forall a, b :: 0 <= a < b < |s| ==> s[a] != s[b]
  }

  /** The fatal errors of this phase; each names the identifier it is reported at. */
  datatype Error =
    | MultiplyDefined(name: Name)
    | IllegalRecursiveReference(name: Name)
    | RecursiveDataDefinition(name: Name)

  datatype Option<+T> = None | Some(value: T)

  /** Analysis either succeeds or aborts with the first error raised. */
  datatype Result<+T> = Ok(value: T) | Err(error: Error)
  {
    predicate IsFailure() { Err? }

    function PropagateFailure<U>(): Result<U>
      requires Err?
    {
      Err(error)
    }

    function Extract(): T
      requires Ok?
    {
      value
    }
  }
}
