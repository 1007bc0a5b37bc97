/** Paths into a value, and what `apply_to_collection` leaves at the end of each.
 *
 *  A path is a sequence of steps: a key into a mapping, or a position in a named
 *  tuple or another sequence (`batch["x"][0]`). `At` follows a path as indexing does;
 *  `Walk` follows it the way `apply_to_collection` descends, stopping at the first
 *  node that passes the `dtype` test. `ApplyAlongPath` then says, for every path,
 *  what the result holds there; together with the outer-shape `ensures` of `Apply`
 *  at each reached node, and `ReplacedAt` and `KeptAt` at the ends of the descent,
 *  this describes the whole result.
 */
module Paths {
  import opened Collections
  import opened ApplyFunc

  datatype Step<K> = Position(i: nat) | Key(k: K)

  /** `d[s]`, or None when the indexing fails. Strings and other objects have no
   *  children here: the walk never looks inside them. */
  function Child<A, K(==)>(d: Value<A, K>, s: Step<K>): (r: Option<Value<A, K>>)
    ensures r.Some? ==> d.IsContainer()
  {
    match d
    case Mapping(_, entries) => if s.Key? then Lookup(entries, s.k) else None
    case NamedTuple(_, fields) => if s.Position? && s.i < |fields| then Some(fields[s.i]) else None
    case Sequence(_, items) => if s.Position? && s.i < |items| then Some(items[s.i]) else None
    case Atom(_, _) => None
    case Str(_, _) => None
  }

  /** The value reached by indexing `d` step by step along `path`. */
  function At<A, K(==)>(d: Value<A, K>, path: seq<Step<K>>): (r: Option<Value<A, K>>)
    decreases |path|
  {
    if path == [] then Some(d)
    else match Child(d, path[0])
      case None => None
      case Some(c) => At(c, path[1..])
  }

  /** Where a descent along a path ends. */
  datatype Walked<A, K> =
      /** The whole path was followed through non-matching containers to `node`. */
    | Found(node: Value<A, K>)
      /** The descent stopped at the matching `node` with `rest` still to follow. */
    | Entered(node: Value<A, K>, rest: seq<Step<K>>)
      /** A step left a non-matching node through no child of it. */
    | Missing

  /** Follow `path` from `d` the way the walk descends. */
  function Walk<A, K(==)>(d: Value<A, K>, dtype: ClassName -> bool, path: seq<Step<K>>): (w: Walked<A, K>)
    ensures w.Entered? ==> Matches(w.node, dtype) && |w.rest| > 0
    decreases |path|
  {
    if path == [] then Found(d)
    else if Matches(d, dtype) then Entered(d, path)
    else match Child(d, path[0])
      case None => Missing
      case Some(c) => Walk(c, dtype, path[1..])
  }

  /** A descent that is found ends where plain indexing along the same path ends. */
  lemma {:induction false} FoundIsAt<A, K>(d: Value<A, K>, dtype: ClassName -> bool, path: seq<Step<K>>)
    requires Walk(d, dtype, path).Found?
    ensures At(d, path) == Some(Walk(d, dtype, path).node)
    decreases |path|
  {
    if path != [] {
      FoundIsAt(Child(d, path[0]).value, dtype, path[1..]);
    }
  }

  /** One step into the result of a walk over a non-matching value is one step into
   *  the input followed by the walk of that child. */
  lemma ChildOfApply<A, K>(d: Value<A, K>, dtype: ClassName -> bool, f: Value<A, K> -> Value<A, K>, s: Step<K>)
    requires !Matches(d, dtype)
    ensures Child(Apply(d, dtype, f), s) ==
      match Child(d, s)
      case None => None
      case Some(c) => Some(Apply(c, dtype, f))
  {
    if d.Mapping? && s.Key? {
      MappingRebuilt(d, dtype, f);
    }
  }

  /** What the result of the walk holds at the end of every path: the walk of the node
   *  reached when the descent gets there, what `f` holds at the rest of the path when
   *  the descent was stopped by a matching node on the way, and nothing at all when
   *  the path does not exist in the input. */
  lemma {:induction false} ApplyAlongPath<A, K>(d: Value<A, K>, dtype: ClassName -> bool,
                                                 f: Value<A, K> -> Value<A, K>, path: seq<Step<K>>)
    ensures match Walk(d, dtype, path)
      case Found(x) => At(Apply(d, dtype, f), path) == Some(Apply(x, dtype, f))
      case Entered(x, rest) => At(Apply(d, dtype, f), path) == At(f(x), rest)
      case Missing => At(Apply(d, dtype, f), path) == None
    decreases |path|
  {
    if path != [] && !Matches(d, dtype) {
      ChildOfApply(d, dtype, f, path[0]);
      match Child(d, path[0])
      case None =>
      case Some(c) => ApplyAlongPath(c, dtype, f, path[1..]);
    }
  }

  /** Every matching node the descent reaches is replaced by `f` of it. */
  lemma ReplacedAt<A, K>(d: Value<A, K>, dtype: ClassName -> bool, f: Value<A, K> -> Value<A, K>, path: seq<Step<K>>)
    requires Walk(d, dtype, path).Found? && Matches(Walk(d, dtype, path).node, dtype)
    ensures At(d, path).Some? && Matches(At(d, path).value, dtype)
    ensures At(Apply(d, dtype, f), path) == Some(f(At(d, path).value))
  {
    FoundIsAt(d, dtype, path);
    ApplyAlongPath(d, dtype, f, path);
  }

  /** Every string or other non-container that the descent reaches without matching
   *  is still there, unchanged. */
  lemma KeptAt<A, K>(d: Value<A, K>, dtype: ClassName -> bool, f: Value<A, K> -> Value<A, K>, path: seq<Step<K>>)
    requires Walk(d, dtype, path).Found?
    requires var x := Walk(d, dtype, path).node; !Matches(x, dtype) && !x.IsContainer()
    ensures At(Apply(d, dtype, f), path) == At(d, path)
  {
    FoundIsAt(d, dtype, path);
    ApplyAlongPath(d, dtype, f, path);
  }

  /** A value that is not `Free` has a matching node at the end of some descent. */
  lemma {:induction false} MatchReachable<A, K>(d: Value<A, K>, dtype: ClassName -> bool)
    requires WellFormed(d) && !Free(d, dtype)
    ensures exists path :: Walk(d, dtype, path).Found? && Matches(Walk(d, dtype, path).node, dtype)
    decreases d
  {
    if Matches(d, dtype) {
      assert Walk(d, dtype, []) == Found(d);
    } else {
      var c: Value<A, K>, s: Step<K> :| Child(d, s) == Some(c) && WellFormed(c) && !Free(c, dtype) && c < d
        by {
          match d
          case Mapping(_, entries) =>
            var i :| 0 <= i < |entries| && !Free(entries[i].1, dtype);
            LookupDistinct(entries, i);
            assert Child(d, Key(entries[i].0)) == Some(entries[i].1);
          case NamedTuple(_, fields) =>
            var i :| 0 <= i < |fields| && !Free(fields[i], dtype);
            assert Child(d, Position(i)) == Some(fields[i]);
          case Sequence(_, items) =>
            var i :| 0 <= i < |items| && !Free(items[i], dtype);
            assert Child(d, Position(i)) == Some(items[i]);
        }
      MatchReachable(c, dtype);
      var p :| Walk(c, dtype, p).Found? && Matches(Walk(c, dtype, p).node, dtype);
      assert ([s] + p)[1..] == p;
      assert Walk(d, dtype, [s] + p) == Walk(c, dtype, p);
    }
  }

  /** A function that changes every value it is given. */
  function Boxed<A, K>(x: Value<A, K>): (r: Value<A, K>)
    ensures r != x
  {
    var r := Sequence("list", [x]);
    assert r.items[0] == x;
    r
  }

  /** A well-formed value is returned unchanged by every walk over it exactly when no
   *  node the walk visits passes the `dtype` test. */
  lemma FreeIffAlwaysUnchanged<A, K>(d: Value<A, K>, dtype: ClassName -> bool)
    requires WellFormed(d)
    ensures Free(d, dtype) <==> forall f: Value<A, K> -> Value<A, K> :: Apply(d, dtype, f) == d
  {
    if Free(d, dtype) {
      forall f: Value<A, K> -> Value<A, K> ensures Apply(d, dtype, f) == d {
        FreeUnchanged(d, dtype, f);
      }
    } else {
      MatchReachable(d, dtype);
      var path :| Walk(d, dtype, path).Found? && Matches(Walk(d, dtype, path).node, dtype);
      ReplacedAt(d, dtype, Boxed, path);
      assert Apply(d, dtype, Boxed) != d;
    }
  }
}
