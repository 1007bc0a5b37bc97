/** The values that `apply_to_collection` walks over.
 *
 *  A Python object is seen through the one question the walk asks of it: is it a
 *  Mapping, a named tuple, a string, some other Sequence, or none of these? Every
 *  node also carries the name of its runtime class, because `isinstance` and the
 *  rebuilding call `type(data)(...)` both depend on the class and on nothing else.
 */
module Collections {

  /** The name of a Python class, e.g. "dict", "OrderedDict", "list", "tuple", "Batch". */
  type ClassName = string

  datatype Option<T> = None | Some(value: T)

  /** A Python value. `A` is the payload of an opaque object (a tensor, an int, None);
   *  `K` is the type of mapping keys. */
  datatype Value<A, K> =
      /** Any object that is neither a Mapping nor a Sequence. */
    | Atom(cls: ClassName, payload: A)
      /** A `str` (or a subclass of it): a Sequence that is never descended into. */
    | Str(cls: ClassName, text: string)
      /** A Mapping, with its items in iteration order. */
    | Mapping(cls: ClassName, entries: seq<(K, Value<A, K>)>)
      /** A tuple with `_fields`, built positionally from its fields. */
    | NamedTuple(cls: ClassName, fields: seq<Value<A, K>>)
      /** Any other Sequence (list, plain tuple, bytes, ...), built from a list. */
    | Sequence(cls: ClassName, items: seq<Value<A, K>>)
  {
    /** True for the three kinds of container the walk descends into. */
    predicate IsContainer() {
      Mapping? || NamedTuple? || Sequence?
    }
  }

  /** The keys of a mapping's items, in order. */
  function Keys<A, K>(entries: seq<(K, Value<A, K>)>): (ks: seq<K>)
  {
    seq(|entries|, i requires 0 <= i < |entries| => entries[i].0)
  }

  /** The position of the first occurrence of `k` in `ks`, if any. */
  function IndexOf<K(==)>(ks: seq<K>, k: K): (r: Option<nat>)
    ensures r.Some? ==> r.value < |ks| && ks[r.value] == k
    ensures r.Some? ==> forall j :: 0 <= j < r.value ==> ks[j] != k
    ensures r.None? <==> k !in ks
  {
    if |ks| == 0 then None
    else if ks[0] == k then Some(0)
    else match IndexOf(ks[1..], k)
      case None => None
      case Some(j) => Some(j + 1)
  }

  /** `mapping[k]`: the value stored under `k`, or None when `k` is not a key. */
  function Lookup<A, K(==)>(entries: seq<(K, Value<A, K>)>, k: K): (r: Option<Value<A, K>>)
    ensures r.None? <==> k !in Keys(entries)
    ensures r.Some? ==> (k, r.value) in entries
  {
    match IndexOf(Keys(entries), k)
    case None => None
    case Some(i) => Some(entries[i].1)
  }

  /** No key occurs twice among a mapping's items, as in every Python mapping. */
  predicate DistinctKeys<A, K(==)>(entries: seq<(K, Value<A, K>)>) {
    forall i, j :: 0 <= i < j < |entries| ==> entries[i].0 != entries[j].0
  }

  /** Every mapping anywhere inside `d` has distinct keys. */
  predicate WellFormed<A, K(==)>(d: Value<A, K>)
    decreases d
  {
    match d
    case Atom(_, _) => true
    case Str(_, _) => true
    case Mapping(_, entries) =>
      DistinctKeys(entries) && forall i :: 0 <= i < |entries| ==> WellFormed(entries[i].1)
    case NamedTuple(_, fields) => forall i :: 0 <= i < |fields| ==> WellFormed(fields[i])
    case Sequence(_, items) => forall i :: 0 <= i < |items| ==> WellFormed(items[i])
  }

  /** In a well-formed mapping, the value at position `i` is the one found under its key. */
  lemma LookupDistinct<A, K>(entries: seq<(K, Value<A, K>)>, i: nat)
    requires DistinctKeys(entries)
    requires i < |entries|
    ensures Lookup(entries, entries[i].0) == Some(entries[i].1)
  {
    var ks := Keys(entries);
    assert ks[i] == entries[i].0;
  }
}
