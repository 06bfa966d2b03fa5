/** Insertion-ordered string-keyed tables, the way a Python `dict` behaves:
    assigning an existing key replaces its value in place, a new key goes to
    the end, and `update` assigns the other table's entries in order. */
module Tables {
  import opened Results

  type Entries<V> = seq<(string, V)>

  /** The keys in table order. */
  function KeySeq<V>(t: Entries<V>): (ks: seq<string>)
    ensures |ks| == |t|
    ensures forall i :: 0 <= i < |t| ==> ks[i] == t[i].0
  {
    seq(|t|, i requires 0 <= i < |t| => t[i].0)
  }

  predicate Distinct(ks: seq<string>)
  {
    forall i, j :: 0 <= i < j < |ks| ==> ks[i] != ks[j]
  }

  /** Python's `d.get(k)`: the value stored under `k`, if any. */
  function Lookup<V>(t: Entries<V>, k: string): (r: Option<V>)
    ensures r.Some? <==> k in KeySeq(t)
  {
    if t == [] then None
    else if t[0].0 == k then Some(t[0].1)
    else
      assert KeySeq(t) == [t[0].0] + KeySeq(t[1..]);
      Lookup(t[1..], k)
  }

  /** Python's `d[k] = v`. */
  function Put<V>(t: Entries<V>, k: string, v: V): Entries<V>
  {
    if t == [] then [(k, v)]
    else if t[0].0 == k then [(k, v)] + t[1..]
    else [t[0]] + Put(t[1..], k, v)
  }

  /** After `d[k] = v` the key `k` holds `v`, every other key keeps its
      value, and the key order changes only by appending `k` when it is new. */
  lemma {:induction false} PutSpec<V>(t: Entries<V>, k: string, v: V)
    ensures Lookup(Put(t, k, v), k) == Some(v)
    ensures forall j :: j != k ==> Lookup(Put(t, k, v), j) == Lookup(t, j)
    ensures KeySeq(Put(t, k, v)) == if k in KeySeq(t) then KeySeq(t) else KeySeq(t) + [k]
  {
    PutLookup(t, k, v);
    forall j | j != k
      ensures Lookup(Put(t, k, v), j) == Lookup(t, j)
    {
      PutLookupOther(t, k, v, j);
    }
    PutKeys(t, k, v);
  }

  lemma {:induction false} PutLookup<V>(t: Entries<V>, k: string, v: V)
    ensures Lookup(Put(t, k, v), k) == Some(v)
  {
    if t != [] && t[0].0 != k {
      PutLookup(t[1..], k, v);
      assert Put(t, k, v)[1..] == Put(t[1..], k, v);
    }
  }

  lemma {:induction false} PutLookupOther<V>(t: Entries<V>, k: string, v: V, j: string)
    requires j != k
    ensures Lookup(Put(t, k, v), j) == Lookup(t, j)
  {
    if t == [] {
    } else if t[0].0 == k {
      assert Put(t, k, v)[1..] == t[1..];
    } else {
      PutLookupOther(t[1..], k, v, j);
      assert Put(t, k, v)[1..] == Put(t[1..], k, v);
    }
  }

  lemma {:induction false} PutKeys<V>(t: Entries<V>, k: string, v: V)
    ensures KeySeq(Put(t, k, v)) == if k in KeySeq(t) then KeySeq(t) else KeySeq(t) + [k]
  {
    if t == [] {
    } else if t[0].0 == k {
      assert KeySeq(Put(t, k, v)) == KeySeq(t);
    } else {
      var rest := Put(t[1..], k, v);
      PutKeys(t[1..], k, v);
      KeySeqCons(t[0], t[1..]);
      KeySeqCons(t[0], rest);
      assert t == [t[0]] + t[1..];
      if k in KeySeq(t[1..]) {
        assert KeySeq(rest) == KeySeq(t[1..]);
      } else {
        assert KeySeq(rest) == KeySeq(t[1..]) + [k];
        assert k !in KeySeq(t);
      }
    }
  }

  lemma KeySeqCons<V>(e: (string, V), t: Entries<V>)
    ensures KeySeq([e] + t) == [e.0] + KeySeq(t)
  {
  }

  /** Assigns every entry of `es`, first to last: the loop body of the
      `dict` and `start` callbacks and Python's `t.update(es)`. */
  function PutAll<V>(t: Entries<V>, es: Entries<V>): Entries<V>
  {
    if es == [] then t
    else
      var n := |es| - 1;
      Put(PutAll(t, es[..n]), es[n].0, es[n].1)
  }

  /** The keys of `ks` at their first occurrence, in order. */
  function FirstOccurrences(ks: seq<string>): seq<string>
  {
    if ks == [] then []
    else
      var n := |ks| - 1;
      FirstOccurrences(ks[..n]) + (if ks[n] in ks[..n] then [] else [ks[n]])
  }

  /** Entry `i` is the last one in `es` with its key. */
  predicate LastWithKey<V>(es: Entries<V>, i: int)
    requires 0 <= i < |es|
  {
    forall j :: i < j < |es| ==> es[j].0 != es[i].0
  }

  lemma {:induction false} FirstOccurrencesElements(ks: seq<string>)
    ensures forall x :: x in FirstOccurrences(ks) <==> x in ks
  {
    if ks != [] {
      var n := |ks| - 1;
      FirstOccurrencesElements(ks[..n]);
      assert ks == ks[..n] + [ks[n]];
    }
  }

  /** Assigning a sequence of entries into a table with unique keys keeps
      the keys unique, keeps existing keys where they are, appends new keys
      in order of first occurrence, gives every key the value of its last
      entry, and leaves keys without an entry untouched. */
  lemma PutAllSpec<V>(t: Entries<V>, es: Entries<V>)
    requires Distinct(KeySeq(t))
    ensures KeySeq(PutAll(t, es)) == FirstOccurrences(KeySeq(t) + KeySeq(es))
    ensures Distinct(KeySeq(PutAll(t, es)))
    ensures forall k :: k in KeySeq(PutAll(t, es)) <==> k in KeySeq(t) || k in KeySeq(es)
    ensures forall i :: 0 <= i < |es| && LastWithKey(es, i) ==> Lookup(PutAll(t, es), es[i].0) == Some(es[i].1)
    ensures forall k :: k !in KeySeq(es) ==> Lookup(PutAll(t, es), k) == Lookup(t, k)
  {
    PutAllKeys(t, es);
    FirstOccurrencesElements(KeySeq(t) + KeySeq(es));
    FirstOccurrencesDistinct(KeySeq(t) + KeySeq(es));
    forall i | 0 <= i < |es| && LastWithKey(es, i)
      ensures Lookup(PutAll(t, es), es[i].0) == Some(es[i].1)
    {
      PutAllLast(t, es, i);
    }
    forall k | k !in KeySeq(es)
      ensures Lookup(PutAll(t, es), k) == Lookup(t, k)
    {
      PutAllUntouched(t, es, k);
    }
  }

  lemma {:induction false} PutAllKeys<V>(t: Entries<V>, es: Entries<V>)
    requires Distinct(KeySeq(t))
    ensures KeySeq(PutAll(t, es)) == FirstOccurrences(KeySeq(t) + KeySeq(es))
  {
    if es == [] {
      assert KeySeq(t) + KeySeq(es) == KeySeq(t);
      FirstOccurrencesOfDistinct(KeySeq(t));
    } else {
      var n := |es| - 1;
      var p := es[..n];
      PutAllKeys(t, p);
      var all := KeySeq(t) + KeySeq(es);
      assert all == (KeySeq(t) + KeySeq(p)) + [es[n].0];
      assert all[..|all| - 1] == KeySeq(t) + KeySeq(p);
      FirstOccurrencesElements(KeySeq(t) + KeySeq(p));
      PutKeys(PutAll(t, p), es[n].0, es[n].1);
    }
  }

  lemma {:induction false} PutAllLast<V>(t: Entries<V>, es: Entries<V>, i: int)
    requires 0 <= i < |es| && LastWithKey(es, i)
    ensures Lookup(PutAll(t, es), es[i].0) == Some(es[i].1)
  {
    var n := |es| - 1;
    var p := es[..n];
    if i == n {
      PutLookup(PutAll(t, p), es[n].0, es[n].1);
    } else {
      assert LastWithKey(p, i);
      PutAllLast(t, p, i);
      PutLookupOther(PutAll(t, p), es[n].0, es[n].1, es[i].0);
    }
  }

  lemma {:induction false} PutAllUntouched<V>(t: Entries<V>, es: Entries<V>, k: string)
    requires k !in KeySeq(es)
    ensures Lookup(PutAll(t, es), k) == Lookup(t, k)
  {
    if es != [] {
      var n := |es| - 1;
      var p := es[..n];
      assert KeySeq(es) == KeySeq(p) + [es[n].0];
      PutAllUntouched(t, p, k);
      PutLookupOther(PutAll(t, p), es[n].0, es[n].1, k);
    }
  }

  lemma {:induction false} FirstOccurrencesDistinct(ks: seq<string>)
    ensures Distinct(FirstOccurrences(ks))
  {
    if ks != [] {
      var n := |ks| - 1;
      FirstOccurrencesDistinct(ks[..n]);
      FirstOccurrencesElements(ks[..n]);
    }
  }

  lemma {:induction false} FirstOccurrencesOfDistinct(ks: seq<string>)
    requires Distinct(ks)
    ensures FirstOccurrences(ks) == ks
  {
    if ks != [] {
      var n := |ks| - 1;
      FirstOccurrencesOfDistinct(ks[..n]);
      assert ks == ks[..n] + [ks[n]];
    }
  }

  /** Assigning `a` and then `b` is assigning `a + b`. */
  lemma {:induction false} PutAllAppend<V>(t: Entries<V>, a: Entries<V>, b: Entries<V>)
    ensures PutAll(t, a + b) == PutAll(PutAll(t, a), b)
  {
    if b == [] {
      assert a + b == a;
    } else {
      var n := |b| - 1;
      assert (a + b)[..|a + b| - 1] == a + b[..n];
      PutAllAppend(t, a, b[..n]);
    }
  }
}
