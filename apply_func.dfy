/** `apply_to_collection(data, dtype, function)`: a structural map over nested
 *  containers.
 *
 *  `dtype` is modelled by the predicate `dtype(c)`, read "class `c` is `dtype`, a
 *  subclass of it, or a subclass of one of the classes in the `dtype` tuple"; the
 *  test `isinstance(data, dtype)` is then `dtype(data.cls)`. `function`, with the
 *  forwarded `*args` and `**kwargs` folded into it, is the total function `f`.
 */
module ApplyFunc {
  import opened Collections

  /** `isinstance(d, dtype)`. */
  predicate Matches<A, K>(d: Value<A, K>, dtype: ClassName -> bool) {
    dtype(d.cls)
  }

  /** `r` is `d` rebuilt by `type(d)(...)`: same constructor, same class, the same keys
   *  in the same order for a mapping, the same number of fields or items otherwise,
   *  and `d` itself when `d` is not a container. */
  ghost predicate SameOuterShape<A, K>(r: Value<A, K>, d: Value<A, K>) {
    match d
    case Atom(_, _) => r == d
    case Str(_, _) => r == d
    case Mapping(cls, entries) => r.Mapping? && r.cls == cls && Keys(r.entries) == Keys(entries)
    case NamedTuple(cls, fields) => r.NamedTuple? && r.cls == cls && |r.fields| == |fields|
    case Sequence(cls, items) => r.Sequence? && r.cls == cls && |r.items| == |items|
  }

  /** The walk itself. The `dtype` test comes first, so a matching container is handed
   *  to `f` whole; otherwise a Mapping, then a named tuple, then a non-string Sequence
   *  is rebuilt from the walk of its parts; anything else is returned as it is. */
  function Apply<A, K>(d: Value<A, K>, dtype: ClassName -> bool, f: Value<A, K> -> Value<A, K>): (r: Value<A, K>)
    ensures !Matches(d, dtype) ==> SameOuterShape(r, d)
    decreases d
  {
    if Matches(d, dtype) then f(d)
    else match d
      case Mapping(cls, entries) =>
        Mapping(cls, seq(|entries|, i requires 0 <= i < |entries| => (entries[i].0, Apply(entries[i].1, dtype, f))))
      case NamedTuple(cls, fields) =>
        NamedTuple(cls, seq(|fields|, i requires 0 <= i < |fields| => Apply(fields[i], dtype, f)))
      case Sequence(cls, items) =>
        Sequence(cls, seq(|items|, i requires 0 <= i < |items| => Apply(items[i], dtype, f)))
      case Atom(_, _) => d
      case Str(_, _) => d
  }

  // ---------------------------------------------------------------------------
  // One call: what happens at the top of the value

  /** A value that passes the `dtype` test goes to `f` whole, container or not. */
  lemma MatchedHandedWhole<A, K>(d: Value<A, K>, dtype: ClassName -> bool, f: Value<A, K> -> Value<A, K>)
    requires Matches(d, dtype)
    ensures Apply(d, dtype, f) == f(d)
  {
  }

  /** A mapping that fails the test comes back as a mapping of the same class with the
   *  same keys in the same order, each key paired with the walk of its own value. */
  lemma MappingRebuilt<A, K>(d: Value<A, K>, dtype: ClassName -> bool, f: Value<A, K> -> Value<A, K>)
    requires d.Mapping? && !Matches(d, dtype)
    ensures var r := Apply(d, dtype, f);
      && r.Mapping? && r.cls == d.cls
      && Keys(r.entries) == Keys(d.entries)
      && (forall i :: 0 <= i < |d.entries| ==> r.entries[i] == (d.entries[i].0, Apply(d.entries[i].1, dtype, f)))
      && (forall k :: Lookup(r.entries, k).None? <==> Lookup(d.entries, k).None?)
      && (forall k :: Lookup(d.entries, k).Some? ==>
            Lookup(r.entries, k) == Some(Apply(Lookup(d.entries, k).value, dtype, f)))
  {
    var r := Apply(d, dtype, f);
    forall k | Lookup(d.entries, k).Some?
      ensures Lookup(r.entries, k) == Some(Apply(Lookup(d.entries, k).value, dtype, f))
    {
      assert Keys(r.entries) == Keys(d.entries);
      var i := IndexOf(Keys(d.entries), k).value;
      assert r.entries[i].1 == Apply(d.entries[i].1, dtype, f);
    }
  }

  /** A named tuple that fails the test comes back with the same class and as many
   *  fields, field `i` being the walk of field `i`. */
  lemma NamedTupleRebuilt<A, K>(d: Value<A, K>, dtype: ClassName -> bool, f: Value<A, K> -> Value<A, K>)
    requires d.NamedTuple? && !Matches(d, dtype)
    ensures var r := Apply(d, dtype, f);
      && r.NamedTuple? && r.cls == d.cls && |r.fields| == |d.fields|
      && forall i :: 0 <= i < |d.fields| ==> r.fields[i] == Apply(d.fields[i], dtype, f)
  {
  }

  /** Any other sequence that fails the test comes back with the same class and
   *  length, in the same order, item `i` being the walk of item `i`. */
  lemma SequenceRebuilt<A, K>(d: Value<A, K>, dtype: ClassName -> bool, f: Value<A, K> -> Value<A, K>)
    requires d.Sequence? && !Matches(d, dtype)
    ensures var r := Apply(d, dtype, f);
      && r.Sequence? && r.cls == d.cls && |r.items| == |d.items|
      && forall i :: 0 <= i < |d.items| ==> r.items[i] == Apply(d.items[i], dtype, f)
  {
  }

  /** A string, or any object that is no container, that fails the test is returned
   *  as it is: strings are never descended into. */
  lemma LeftAsIs<A, K>(d: Value<A, K>, dtype: ClassName -> bool, f: Value<A, K> -> Value<A, K>)
    requires !d.IsContainer() && !Matches(d, dtype)
    ensures Apply(d, dtype, f) == d
  {
  }

  // ---------------------------------------------------------------------------
  // The whole walk

  /** No node of `d`, `d` included, that the walk visits passes the `dtype` test. */
  ghost predicate Free<A, K>(d: Value<A, K>, dtype: ClassName -> bool)
    decreases d
  {
    !Matches(d, dtype) &&
    match d
    case Atom(_, _) => true
    case Str(_, _) => true
    case Mapping(_, entries) => forall i :: 0 <= i < |entries| ==> Free(entries[i].1, dtype)
    case NamedTuple(_, fields) => forall i :: 0 <= i < |fields| ==> Free(fields[i], dtype)
    case Sequence(_, items) => forall i :: 0 <= i < |items| ==> Free(items[i], dtype)
  }

  /** A value with no matching part comes back unchanged, whatever `f` is. */
  lemma {:induction false} FreeUnchanged<A, K>(d: Value<A, K>, dtype: ClassName -> bool, f: Value<A, K> -> Value<A, K>)
    requires Free(d, dtype)
    ensures Apply(d, dtype, f) == d
    decreases d
  {
    match d
    case Atom(_, _) =>
    case Str(_, _) =>
    case Mapping(cls, entries) =>
      var r := Apply(d, dtype, f);
      forall i | 0 <= i < |entries| ensures r.entries[i] == entries[i] {
        FreeUnchanged(entries[i].1, dtype, f);
      }
      assert r.entries == entries;
    case NamedTuple(cls, fields) =>
      var r := Apply(d, dtype, f);
      forall i | 0 <= i < |fields| ensures r.fields[i] == fields[i] {
        FreeUnchanged(fields[i], dtype, f);
      }
      assert r.fields == fields;
    case Sequence(cls, items) =>
      var r := Apply(d, dtype, f);
      forall i | 0 <= i < |items| ensures r.items[i] == items[i] {
        FreeUnchanged(items[i], dtype, f);
      }
      assert r.items == items;
  }

  /** If `f` returns every matching value unchanged, so does the walk; in particular
   *  the walk of the identity function is the identity. */
  lemma {:induction false} FixedPoint<A, K>(d: Value<A, K>, dtype: ClassName -> bool, f: Value<A, K> -> Value<A, K>)
    requires forall x :: Matches(x, dtype) ==> f(x) == x
    ensures Apply(d, dtype, f) == d
    decreases d
  {
    if !Matches(d, dtype) {
      match d
      case Atom(_, _) =>
      case Str(_, _) =>
      case Mapping(cls, entries) =>
        var r := Apply(d, dtype, f);
        forall i | 0 <= i < |entries| ensures r.entries[i] == entries[i] {
          FixedPoint(entries[i].1, dtype, f);
        }
        assert r.entries == entries;
      case NamedTuple(cls, fields) =>
        var r := Apply(d, dtype, f);
        forall i | 0 <= i < |fields| ensures r.fields[i] == fields[i] {
          FixedPoint(fields[i], dtype, f);
        }
        assert r.fields == fields;
      case Sequence(cls, items) =>
        var r := Apply(d, dtype, f);
        forall i | 0 <= i < |items| ensures r.items[i] == items[i] {
          FixedPoint(items[i], dtype, f);
        }
        assert r.items == items;
    }
  }

  /** Walking with the identity function gives back the input. */
  lemma IdentityUnchanged<A, K>(d: Value<A, K>, dtype: ClassName -> bool)
    ensures Apply(d, dtype, x => x) == d
  {
    FixedPoint(d, dtype, x => x);
  }

  /** `g` after `f`. */
  function Then<A, K>(f: Value<A, K> -> Value<A, K>, g: Value<A, K> -> Value<A, K>): (h: Value<A, K> -> Value<A, K>) {
    x => g(f(x))
  }

  /** Two walks with the same `dtype` fuse into one when `f` keeps matching values
   *  matching: applying `f` and then `g` is applying `g` after `f` in one pass. */
  lemma {:induction false} Composition<A, K>(d: Value<A, K>, dtype: ClassName -> bool,
                                             f: Value<A, K> -> Value<A, K>, g: Value<A, K> -> Value<A, K>)
    requires forall x :: Matches(x, dtype) ==> Matches(f(x), dtype)
    ensures Apply(Apply(d, dtype, f), dtype, g) == Apply(d, dtype, Then(f, g))
    decreases d
  {
    var gf := Then(f, g);
    if !Matches(d, dtype) {
      var r := Apply(d, dtype, f);
      var lhs := Apply(r, dtype, g);
      var rhs := Apply(d, dtype, gf);
      match d
      case Atom(_, _) =>
      case Str(_, _) =>
      case Mapping(cls, entries) =>
        forall i | 0 <= i < |entries| ensures lhs.entries[i] == rhs.entries[i] {
          Composition(entries[i].1, dtype, f, g);
        }
        assert lhs.entries == rhs.entries;
      case NamedTuple(cls, fields) =>
        forall i | 0 <= i < |fields| ensures lhs.fields[i] == rhs.fields[i] {
          Composition(fields[i], dtype, f, g);
        }
        assert lhs.fields == rhs.fields;
      case Sequence(cls, items) =>
        forall i | 0 <= i < |items| ensures lhs.items[i] == rhs.items[i] {
          Composition(items[i], dtype, f, g);
        }
        assert lhs.items == rhs.items;
    }
  }

  /** The walk keeps every mapping's keys distinct, provided `f` does so for the
   *  matching values it is given. */
  lemma {:induction false} WellFormedPreserved<A, K>(d: Value<A, K>, dtype: ClassName -> bool, f: Value<A, K> -> Value<A, K>)
    requires WellFormed(d)
    requires forall x :: Matches(x, dtype) && WellFormed(x) ==> WellFormed(f(x))
    ensures WellFormed(Apply(d, dtype, f))
    decreases d
  {
    if !Matches(d, dtype) {
      var r := Apply(d, dtype, f);
      match d
      case Atom(_, _) =>
      case Str(_, _) =>
      case Mapping(cls, entries) =>
        forall i | 0 <= i < |entries| ensures WellFormed(r.entries[i].1) {
          WellFormedPreserved(entries[i].1, dtype, f);
        }
        assert Keys(r.entries) == Keys(entries);
        forall i, j | 0 <= i < j < |r.entries| ensures r.entries[i].0 != r.entries[j].0 {
          assert Keys(r.entries)[i] == Keys(entries)[i];
          assert Keys(r.entries)[j] == Keys(entries)[j];
        }
      case NamedTuple(cls, fields) =>
        forall i | 0 <= i < |fields| ensures WellFormed(r.fields[i]) {
          WellFormedPreserved(fields[i], dtype, f);
        }
      case Sequence(cls, items) =>
        forall i | 0 <= i < |items| ensures WellFormed(r.items[i]) {
          WellFormedPreserved(items[i], dtype, f);
        }
    }
  }

  /** Only what `f` does to matching values matters: two functions that agree there
   *  give the same walk. */
  lemma {:induction false} Congruence<A, K>(d: Value<A, K>, dtype: ClassName -> bool,
                                            f: Value<A, K> -> Value<A, K>, g: Value<A, K> -> Value<A, K>)
    requires forall x :: Matches(x, dtype) ==> f(x) == g(x)
    ensures Apply(d, dtype, f) == Apply(d, dtype, g)
    decreases d
  {
    if !Matches(d, dtype) {
      var lhs := Apply(d, dtype, f);
      var rhs := Apply(d, dtype, g);
      match d
      case Atom(_, _) =>
      case Str(_, _) =>
      case Mapping(cls, entries) =>
        forall i | 0 <= i < |entries| ensures lhs.entries[i] == rhs.entries[i] {
          Congruence(entries[i].1, dtype, f, g);
        }
        assert lhs.entries == rhs.entries;
      case NamedTuple(cls, fields) =>
        forall i | 0 <= i < |fields| ensures lhs.fields[i] == rhs.fields[i] {
          Congruence(fields[i], dtype, f, g);
        }
        assert lhs.fields == rhs.fields;
      case Sequence(cls, items) =>
        forall i | 0 <= i < |items| ensures lhs.items[i] == rhs.items[i] {
          Congruence(items[i], dtype, f, g);
        }
        assert lhs.items == rhs.items;
    }
  }
}
