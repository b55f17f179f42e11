/** Helpers the child component borrows from its utility module: the optional
    and failure-carrying wrappers, and `extend`, the shallow overwrite-by-key
    copy used to merge incoming props into the component's own props. */
module Util {

  datatype Option<T> = None | Some(value: T)

  datatype Result<T, E> = Success(value: T) | Failure(error: E)

  /** A property value as the parent sends it. Objects are kept whole: a
      shallow merge replaces a nested object, it never merges into it. */
  datatype Value =
    | Null
    | Bool(b: bool)
    | Num(n: int)
    | Str(s: string)
    | Obj(fields: map<string, Value>)

  type Props = map<string, Value>

  /** `extend(target, source)`: every key of `source` takes the value from
      `source`; every other key of `target` keeps its value; nothing is
      removed. */
  function Extend(target: Props, source: Props): (r: Props)
    ensures r.Keys == target.Keys + source.Keys
    ensures forall k :: k in source ==> r[k] == source[k]
    ensures forall k :: k in target && k !in source ==> r[k] == target[k]
  {
    target + source
  }

  /** Merging two updates one after the other is the same as merging their
      own merge once. */
  lemma ExtendAssociative(a: Props, b: Props, c: Props)
    ensures Extend(Extend(a, b), c) == Extend(a, Extend(b, c))
  {
  }

  /** Handling the same props update twice leaves the props as handling it once. */
  lemma ExtendIdempotent(a: Props, b: Props)
    ensures Extend(Extend(a, b), b) == Extend(a, b)
  {
  }

  /** The merge example: `{a: 1}` then `{a: 2, b: 3}` gives `{a: 2, b: 3}`;
      the later value wins. */
  lemma ExtendLaterValueWins()
    ensures Extend(Extend(map[], map["a" := Num(1)]), map["a" := Num(2), "b" := Num(3)])
            == map["a" := Num(2), "b" := Num(3)]
  {
  }
}
