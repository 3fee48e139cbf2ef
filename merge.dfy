/** Deep merge of JSON values, used to lay one configuration over another:
    objects merge key by key, arrays concatenate, a null on the right
    changes nothing and anything else on the right wins. Objects keep their
    keys in ascending order, as JSON maps without insertion order do. */
module Merge {
  import opened Wrappers
  import opened Strings
  import opened SortedMaps

  datatype Value =
    | Null
    | Bool(b: bool)
    | Number(n: int)
    | Str(s: string)
    | Array(items: seq<Value>)
    | Object(fields: Entries<Value>)

  /** `merge_value` as a function: the value `a` becomes once `b` has been
      merged into it. */
  function Merged(a: Value, b: Value): Value
    decreases b, 1, 0
  {
    if a.Object? && b.Object? then Object(MergeFields(a.fields, b, 0))
    else if a.Array? && b.Array? then Array(a.items + b.items)
    else if a.Array? && b.Object? then Array(a.items + [b])
    else if b.Null? then a
    else b
  }

  /** The fields of `a` once the fields of object `b` from the `i`-th on
      are merged in, in key order: each into the field of the same key,
      which starts as null when it is missing. */
  function MergeFields(fa: Entries<Value>, b: Value, i: nat): Entries<Value>
    requires b.Object? && i <= |b.fields|
    decreases b, 0, |b.fields| - i
  {
    if i == |b.fields| then fa
    else
      var (k, v) := b.fields[i];
      MergeFields(Insert(fa, k, Merged(Get(fa, k).GetOr(Null), v)), b, i + 1)
  }

  /** `merge_value`, working on values rather than in place: the merge of
      two objects walks the right object's fields, merging each into the
      left one. */
  method MergeValue(a: Value, b: Value) returns (r: Value)
    ensures r == Merged(a, b)
    decreases b, 1, 0
  {
    if a.Object? && b.Object? {
      var fields := a.fields;
      for i := 0 to |b.fields|
        invariant MergeFields(fields, b, i) == MergeFields(a.fields, b, 0)
      {
        var (k, v) := b.fields[i];
        var current := Get(fields, k).GetOr(Null);
        var merged := MergeValue(current, v);
        fields := Insert(fields, k, merged);
      }
      r := Object(fields);
    } else if a.Array? && b.Array? {
      r := Array(a.items + b.items);
    } else if a.Array? && b.Object? {
      r := Array(a.items + [b]);
    } else if b.Null? {
      r := a;
    } else {
      r := b;
    }
  }

  /** `merge`: both sides are turned into values, merged, and turned back. */
  function MergeStructs<T>(base: T, overrides: T, toValue: T -> Result<Value>, fromValue: Value -> Result<T>)
    : (r: Result<T>)
    ensures toValue(base).Err? ==> r == Err(toValue(base).msg)
    ensures toValue(base).Ok? && toValue(overrides).Err? ==> r == Err(toValue(overrides).msg)
    ensures toValue(base).Ok? && toValue(overrides).Ok? ==>
      r == fromValue(Merged(toValue(base).value, toValue(overrides).value))
  {
    var left :- toValue(base);
    var right :- toValue(overrides);
    fromValue(Merged(left, right))
  }

  /** A null on the right leaves the left as it is. */
  lemma NullChangesNothing(a: Value)
    ensures Merged(a, Null) == a
  {
  }

  /** Merging into null gives the right side. */
  lemma NullTakesRight(b: Value)
    ensures Merged(Null, b) == b
  {
  }

  /** Two arrays concatenate, left first; an object merged into an array is
      appended to it as one element. */
  lemma ArraysConcatenate(xs: seq<Value>, ys: seq<Value>, fb: Entries<Value>)
    ensures Merged(Array(xs), Array(ys)) == Array(xs + ys)
    ensures Merged(Array(xs), Object(fb)) == Array(xs + [Object(fb)])
  {
  }

  /** A key of a sorted object appears only once. */
  lemma SortedKeyOnce(m: Entries<Value>)
    requires Sorted(m) && m != []
    ensures m[0].0 !in Keys(m[1..])
  {
    SortedTail(m);
    if m[0].0 in Keys(m[1..]) {
      StrLtIrreflexive(m[0].0);
    }
  }

  /** The merged object has the keys of both; a key of the right object
      holds its value merged into the left one's (or into null), and every
      other key keeps its value. */
  lemma {:induction false} MergeFieldsGet(fa: Entries<Value>, b: Value, i: nat, k: string)
    requires b.Object? && i <= |b.fields| && Sorted(b.fields[i..])
    ensures var r := MergeFields(fa, b, i);
      var rest := b.fields[i..];
      (k in Keys(rest) ==> Get(r, k) == Some(Merged(Get(fa, k).GetOr(Null), Get(rest, k).value))) &&
      (k !in Keys(rest) ==> Get(r, k) == Get(fa, k))
    decreases |b.fields| - i
  {
    if i < |b.fields| {
      var rest := b.fields[i..];
      var (k0, v0) := b.fields[i];
      var fa' := Insert(fa, k0, Merged(Get(fa, k0).GetOr(Null), v0));
      assert rest[1..] == b.fields[i + 1..];
      SortedTail(rest);
      SortedKeyOnce(rest);
      MergeFieldsGet(fa', b, i + 1, k);
      InsertFacts(fa, k0, Merged(Get(fa, k0).GetOr(Null), v0));
    }
  }

  /** Objects merge to the union of their keys. */
  lemma {:induction false} MergeFieldsKeys(fa: Entries<Value>, b: Value, i: nat)
    requires b.Object? && i <= |b.fields|
    ensures Keys(MergeFields(fa, b, i)) == Keys(fa) + Keys(b.fields[i..])
    decreases |b.fields| - i
  {
    if i < |b.fields| {
      var (k0, v0) := b.fields[i];
      assert b.fields[i..] == [b.fields[i]] + b.fields[i + 1..];
      MergeFieldsKeys(Insert(fa, k0, Merged(Get(fa, k0).GetOr(Null), v0)), b, i + 1);
    }
  }

  /** One step of an object merge: the right object's `i`-th field is
      merged into the left fields. */
  lemma MergeFieldsStep(fa: Entries<Value>, b: Value, i: nat)
    requires b.Object? && i < |b.fields|
    ensures MergeFields(fa, b, i) ==
      MergeFields(Insert(fa, b.fields[i].0, Merged(Get(fa, b.fields[i].0).GetOr(Null), b.fields[i].1)), b, i + 1)
  {
  }

  /** A merged object keeps its keys in ascending order. */
  lemma {:induction false} MergeFieldsSorted(fa: Entries<Value>, b: Value, i: nat)
    requires b.Object? && i <= |b.fields| && Sorted(fa)
    ensures Sorted(MergeFields(fa, b, i))
    decreases |b.fields| - i
  {
    if i < |b.fields| {
      var k := b.fields[i].0;
      var m := Merged(Get(fa, k).GetOr(Null), b.fields[i].1);
      InsertSorted(fa, k, m);
      MergeFieldsSorted(Insert(fa, k, m), b, i + 1);
      MergeFieldsStep(fa, b, i);
    }
  }

  /** Merging two objects, gathered: the union of keys, each right key
      merged into the left entry (null when missing, so a null on the right
      of a missing key inserts null), every other key kept. */
  lemma ObjectsMerge(fa: Entries<Value>, fb: Entries<Value>, k: string)
    requires Sorted(fb)
    ensures Merged(Object(fa), Object(fb)).Object?
    ensures Keys(Merged(Object(fa), Object(fb)).fields) == Keys(fa) + Keys(fb)
    ensures k in Keys(fb) ==>
      Get(Merged(Object(fa), Object(fb)).fields, k) == Some(Merged(Get(fa, k).GetOr(Null), Get(fb, k).value))
    ensures k !in Keys(fb) ==> Get(Merged(Object(fa), Object(fb)).fields, k) == Get(fa, k)
    ensures k !in Keys(fa) && Get(fb, k) == Some(Null) ==>
      Get(Merged(Object(fa), Object(fb)).fields, k) == Some(Null)
  {
    var b := Object(fb);
    assert Merged(Object(fa), b) == Object(MergeFields(fa, b, 0));
    assert fb[0..] == fb;
    MergeFieldsGet(fa, b, 0, k);
    MergeFieldsKeys(fa, b, 0);
  }
}
