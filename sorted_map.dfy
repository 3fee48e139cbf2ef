/** An ordered map keyed by strings, as Rust's `BTreeMap<String, V>`: an
    association list kept in ascending key order, so that iterating over it
    visits the keys in that order. */
module SortedMaps {
  import opened Wrappers
  import opened Strings

  type Entries<V> = seq<(string, V)>

  /** Keys strictly ascend, hence are distinct. */
  predicate Sorted<V>(m: Entries<V>) {
    forall i, j :: 0 <= i < j < |m| ==> StrLt(m[i].0, m[j].0)
  }

  function Keys<V>(m: Entries<V>): (ks: set<string>)
    ensures forall k :: k in ks <==> exists i :: 0 <= i < |m| && m[i].0 == k
  {
    if m == [] then {}
    else
      assert forall i :: 1 <= i < |m| ==> m[i] == m[1..][i - 1];
      {m[0].0} + Keys(m[1..])
  }

  /** The value stored under `k`. */
  function Get<V>(m: Entries<V>, k: string): (r: Option<V>)
    ensures r.Some? <==> k in Keys(m)
    ensures r.Some? ==> exists i :: 0 <= i < |m| && m[i] == (k, r.value)
  {
    if m == [] then None
    else if m[0].0 == k then Some(m[0].1)
    else Get(m[1..], k)
  }

  /** Stores `v` under `k`, replacing an earlier value of `k`. */
  function Insert<V>(m: Entries<V>, k: string, v: V): (r: Entries<V>)
    ensures Keys(r) == Keys(m) + {k}
  {
    if m == [] then [(k, v)]
    else if m[0].0 == k then [(k, v)] + m[1..]
    else if StrLt(k, m[0].0) then [(k, v)] + m
    else [m[0]] + Insert(m[1..], k, v)
  }

  /** After an insertion the key maps to the new value. */
  lemma {:induction false} GetInsertSame<V>(m: Entries<V>, k: string, v: V)
    ensures Get(Insert(m, k, v), k) == Some(v)
  {
    if m != [] && m[0].0 != k && !StrLt(k, m[0].0) {
      GetInsertSame(m[1..], k, v);
    }
  }

  /** An insertion leaves every other key as it was. */
  lemma {:induction false} GetInsertOther<V>(m: Entries<V>, k: string, v: V, k': string)
    requires k' != k
    ensures Get(Insert(m, k, v), k') == Get(m, k')
  {
    if m != [] && m[0].0 != k && !StrLt(k, m[0].0) {
      GetInsertOther(m[1..], k, v, k');
    }
  }

  lemma SortedTail<V>(m: Entries<V>)
    requires Sorted(m) && m != []
    ensures Sorted(m[1..])
    ensures forall k :: k in Keys(m[1..]) ==> StrLt(m[0].0, k)
  {
    forall k | k in Keys(m[1..])
      ensures StrLt(m[0].0, k)
    {
      var j :| 0 <= j < |m[1..]| && m[1..][j].0 == k;
      assert m[j + 1].0 == k;
    }
  }

  /** Insertion keeps the keys in ascending order. */
  lemma {:induction false} InsertSorted<V>(m: Entries<V>, k: string, v: V)
    requires Sorted(m)
    ensures Sorted(Insert(m, k, v))
  {
    if m == [] {
    } else if m[0].0 == k {
      SortedTail(m);
    } else if StrLt(k, m[0].0) {
      var r := Insert(m, k, v);
      forall i, j | 0 <= i < j < |r|
        ensures StrLt(r[i].0, r[j].0)
      {
        if i == 0 && j > 1 {
          StrLtTransitive(k, m[0].0, m[j - 1].0);
        }
      }
    } else {
      SortedTail(m);
      InsertSorted(m[1..], k, v);
      StrLtTotal(k, m[0].0);
      var rest := Insert(m[1..], k, v);
      var r := Insert(m, k, v);
      assert r == [m[0]] + rest;
      forall i, j | 0 <= i < j < |r|
        ensures StrLt(r[i].0, r[j].0)
      {
        if i == 0 {
          assert r[j].0 == rest[j - 1].0;
          assert r[j].0 in Keys(rest);
        } else {
          assert r[i] == rest[i - 1] && r[j] == rest[j - 1];
        }
      }
    }
  }

  /** What an insertion does, gathered: the key maps to the value, other
      keys keep theirs, and a sorted map stays sorted. */
  lemma InsertFacts<V>(m: Entries<V>, k: string, v: V)
    ensures Get(Insert(m, k, v), k) == Some(v)
    ensures forall k' :: k' != k ==> Get(Insert(m, k, v), k') == Get(m, k')
    ensures Sorted(m) ==> Sorted(Insert(m, k, v))
  {
    GetInsertSame(m, k, v);
    forall k' | k' != k
      ensures Get(Insert(m, k, v), k') == Get(m, k')
    {
      GetInsertOther(m, k, v, k');
    }
    if Sorted(m) {
      InsertSorted(m, k, v);
    }
  }

  /** The values in ascending key order. */
  function Values<V>(m: Entries<V>): (r: seq<V>)
    ensures |r| == |m|
    ensures forall i :: 0 <= i < |m| ==> r[i] == m[i].1
  {
    if m == [] then [] else [m[0].1] + Values(m[1..])
  }
}
