/**
 * Python's insertion-ordered `dict` with string keys, as a list of entries.
 * `d[k] = v` is `Put`: it replaces the value of a present key where it stands
 * and appends a new key at the end; `{**a, **b}` is `Merge`.
 */
module Dicts {

  type Dict<V> = seq<(string, V)>

  function Keys<V>(d: Dict<V>): (r: seq<string>)
    ensures |r| == |d|
    ensures forall i :: 0 <= i < |d| ==> r[i] == d[i].0
  {
    seq(|d|, i requires 0 <= i < |d| => d[i].0)
  }

  lemma KeysAppend<V>(a: Dict<V>, b: Dict<V>)
    ensures Keys(a + b) == Keys(a) + Keys(b)
  {
  }

  lemma KeysTail<V>(d: Dict<V>)
    requires d != []
    ensures Keys(d) == [d[0].0] + Keys(d[1..])
  {
  }

  lemma AppendAssoc<T>(x: seq<T>, y: seq<T>, z: seq<T>)
    ensures (x + y) + z == x + (y + z)
  {
  }

  /** `d.values()`, in key order. */
  function Values<V>(d: Dict<V>): (r: seq<V>)
    ensures |r| == |d|
    ensures forall i :: 0 <= i < |d| ==> r[i] == d[i].1
  {
    seq(|d|, i requires 0 <= i < |d| => d[i].1)
  }

  /** No string occurs twice in `ks`. */
  predicate Distinct(ks: seq<string>) {
    ks == [] || (ks[0] !in ks[1..] && Distinct(ks[1..]))
  }

  lemma {:induction false} DistinctAt(ks: seq<string>, i: nat, j: nat)
    requires Distinct(ks) && i < j < |ks|
    ensures ks[i] != ks[j]
  {
    if i > 0 {
      DistinctAt(ks[1..], i - 1, j - 1);
    } else {
      assert ks[j] == ks[1..][j - 1];
    }
  }

  lemma {:induction false} DistinctSnoc(ks: seq<string>, k: string)
    requires Distinct(ks) && k !in ks
    ensures Distinct(ks + [k])
  {
    if ks != [] {
      assert (ks + [k])[1..] == ks[1..] + [k];
      DistinctSnoc(ks[1..], k);
    } else {
      assert [k][1..] == [];
    }
  }

  /** A well-formed dictionary: no key appears twice. */
  predicate Valid<V>(d: Dict<V>) {
    Distinct(Keys(d))
  }

  /** `d[k]`. */
  function Get<V>(d: Dict<V>, k: string): V
    requires k in Keys(d)
    decreases |d|
  {
    if d[0].0 == k then d[0].1 else Get(d[1..], k)
  }

  lemma {:induction false} GetAt<V>(d: Dict<V>, i: nat)
    requires Valid(d) && i < |d|
    ensures Get(d, d[i].0) == d[i].1
    decreases |d|
  {
    if i > 0 {
      DistinctAt(Keys(d), 0, i);
      assert Keys(d[1..]) == Keys(d)[1..];
      GetAt(d[1..], i - 1);
    }
  }

  /** `d[k] = v`. */
  function Put<V>(d: Dict<V>, k: string, v: V): (r: Dict<V>)
    ensures Keys(r) == if k in Keys(d) then Keys(d) else Keys(d) + [k]
    ensures k !in Keys(d) ==> r == d + [(k, v)]
    ensures k in Keys(r) && Get(r, k) == v
    ensures forall k' :: k' in Keys(d) && k' != k ==> Get(r, k') == Get(d, k')
    decreases |d|
  {
    if d == [] then [(k, v)]
    else if d[0].0 == k then
      var r := [(k, v)] + d[1..];
      KeysTail(d);
      KeysTail(r);
      assert r[1..] == d[1..];
      r
    else
      var rest := Put(d[1..], k, v);
      PutKeysCons(d, k, v, rest);
      var r := [d[0]] + rest;
      KeysTail(d);
      KeysTail(r);
      assert r[0] == d[0] && r[1..] == rest;
      r
  }

  /** The keys of `d[k] = v` past a first entry with another key. */
  lemma PutKeysCons<V>(d: Dict<V>, k: string, v: V, rest: Dict<V>)
    requires d != [] && d[0].0 != k
    requires Keys(rest) == if k in Keys(d[1..]) then Keys(d[1..]) else Keys(d[1..]) + [k]
    requires k !in Keys(d[1..]) ==> rest == d[1..] + [(k, v)]
    ensures Keys([d[0]] + rest) == if k in Keys(d) then Keys(d) else Keys(d) + [k]
    ensures k !in Keys(d) ==> [d[0]] + rest == d + [(k, v)]
  {
    var r := [d[0]] + rest;
    KeysTail(d);
    KeysTail(r);
    assert r[1..] == rest;
    if k !in Keys(d) {
      assert d == [d[0]] + d[1..];
      AppendAssoc([d[0]], d[1..], [(k, v)]);
      AppendAssoc([d[0].0], Keys(d[1..]), [k]);
    }
  }

  lemma PutValid<V>(d: Dict<V>, k: string, v: V)
    requires Valid(d)
    ensures Valid(Put(d, k, v))
  {
    if k !in Keys(d) {
      DistinctSnoc(Keys(d), k);
    }
  }

  /** `{**a, **b}`: a copy of `a` updated with the entries of `b`, in order. */
  function Merge<V>(a: Dict<V>, b: Dict<V>): Dict<V>
    decreases |b|
  {
    if b == [] then a else Merge(Put(a, b[0].0, b[0].1), b[1..])
  }

  /** Storing the value a key already has changes nothing. */
  lemma {:induction false} PutSame<V>(d: Dict<V>, k: string, v: V)
    requires k in Keys(d) && Get(d, k) == v
    ensures Put(d, k, v) == d
    decreases |d|
  {
    KeysTail(d);
    if d[0].0 != k {
      PutSame(d[1..], k, v);
    }
  }

  /** Assigning the first pending entry leaves the rest to merge: the shape of a run of `d[k] = v` statements. */
  lemma MergeStep<V>(d: Dict<V>, todo: Dict<V>, k: string, v: V) returns (rest: Dict<V>)
    requires todo != [] && todo[0] == (k, v)
    ensures rest == todo[1..] && Merge(d, todo) == Merge(Put(d, k, v), rest)
  {
    rest := todo[1..];
  }

  /** Updating with `x + y` is updating with `x`, then with `y`. */
  lemma {:induction false} MergeAppend<V>(a: Dict<V>, x: Dict<V>, y: Dict<V>)
    ensures Merge(a, x + y) == Merge(Merge(a, x), y)
    decreases |x|
  {
    if x != [] {
      assert (x + y)[0] == x[0] && (x + y)[1..] == x[1..] + y;
      MergeAppend(Put(a, x[0].0, x[0].1), x[1..], y);
    } else {
      assert x + y == y;
    }
  }

  /** Updating a dictionary with entries it already holds changes nothing. */
  lemma {:induction false} MergeNoop<V>(m: Dict<V>, d: Dict<V>)
    requires forall j :: 0 <= j < |d| ==> d[j].0 in Keys(m) && Get(m, d[j].0) == d[j].1
    ensures Merge(m, d) == m
    decreases |d|
  {
    if d != [] {
      PutSame(m, d[0].0, d[0].1);
      MergeNoop(m, d[1..]);
    }
  }

  /** Updating twice with the same well-formed dictionary is updating once. */
  lemma MergeTwice<V>(a: Dict<V>, d: Dict<V>)
    requires Valid(d)
    ensures Merge(Merge(a, d), d) == Merge(a, d)
  {
    var m := Merge(a, d);
    forall j | 0 <= j < |d|
      ensures d[j].0 in Keys(m) && Get(m, d[j].0) == d[j].1
    {
      MergeGetRight(a, d, d[j].0);
      GetAt(d, j);
    }
    MergeNoop(m, d);
  }

  /** `del d[k]` when present: the entries of `d` without key `k`. */
  function Remove<V>(d: Dict<V>, k: string): (r: Dict<V>)
    ensures forall k' :: k' in Keys(r) <==> k' in Keys(d) && k' != k
  {
    if d == [] then []
    else
      KeysTail(d);
      var rest := Remove(d[1..], k);
      if d[0].0 == k then rest
      else
        KeysTail([d[0]] + rest);
        assert ([d[0]] + rest)[1..] == rest;
        [d[0]] + rest
  }

  /** Updating a well-formed dictionary keeps it well-formed. */
  lemma {:induction false} MergeValid<V>(a: Dict<V>, b: Dict<V>)
    requires Valid(a)
    ensures Valid(Merge(a, b))
    decreases |b|
  {
    if b != [] {
      PutValid(a, b[0].0, b[0].1);
      MergeValid(Put(a, b[0].0, b[0].1), b[1..]);
    }
  }

  /** Updating with one more entry is one more `d[k] = v` (the shape of a loop that assigns entries one by one). */
  lemma {:induction false} MergeSnoc<V>(a: Dict<V>, b: Dict<V>, k: string, v: V)
    ensures Merge(a, b + [(k, v)]) == Put(Merge(a, b), k, v)
    decreases |b|
  {
    if b == [] {
      assert [(k, v)][1..] == [];
    } else {
      assert (b + [(k, v)])[1..] == b[1..] + [(k, v)];
      MergeSnoc(Put(a, b[0].0, b[0].1), b[1..], k, v);
    }
  }

  /** With no key in common, merging appends: every entry of `b` lands after those of `a`, in `b`'s order. */
  lemma {:induction false} MergeDisjoint<V>(a: Dict<V>, b: Dict<V>)
    requires Valid(b)
    requires forall i :: 0 <= i < |b| ==> b[i].0 !in Keys(a)
    ensures Merge(a, b) == a + b
    decreases |b|
  {
    if b != [] {
      var a' := a + [b[0]];
      var b' := b[1..];
      KeysTail(b);
      assert b[0].0 !in Keys(a);
      assert Put(a, b[0].0, b[0].1) == a';
      forall i | 0 <= i < |b'|
        ensures b'[i].0 !in Keys(a')
      {
        KeysAppend(a, [b[0]]);
        assert b'[i].0 == Keys(b)[i + 1];
      }
      MergeDisjoint(a', b');
      assert b == [b[0]] + b';
      AppendAssoc(a, [b[0]], b');
    }
  }

  /** `{**a, **b}` has the keys of both, those of `a` first and in their old places. */
  lemma {:induction false} MergeKeys<V>(a: Dict<V>, b: Dict<V>)
    ensures forall k :: k in Keys(Merge(a, b)) <==> k in Keys(a) || k in Keys(b)
    ensures |Merge(a, b)| >= |a| && Keys(Merge(a, b))[..|a|] == Keys(a)
    decreases |b|
  {
    if b != [] {
      var a' := Put(a, b[0].0, b[0].1);
      assert Keys(b) == [b[0].0] + Keys(b[1..]);
      MergeKeys(a', b[1..]);
      assert Keys(a')[..|a|] == Keys(a);
    }
  }

  /** In `{**a, **b}` every key of `b` takes `b`'s value. */
  lemma {:induction false} MergeGetRight<V>(a: Dict<V>, b: Dict<V>, k: string)
    requires Valid(b) && k in Keys(b)
    ensures k in Keys(Merge(a, b)) && Get(Merge(a, b), k) == Get(b, k)
    decreases |b|
  {
    var a' := Put(a, b[0].0, b[0].1);
    var b' := b[1..];
    assert Keys(b) == [b[0].0] + Keys(b');
    MergeKeys(a', b');
    if k == b[0].0 {
      MergeGetLeft(a', b', k);
    } else {
      MergeGetRight(a', b', k);
    }
  }

  /** In `{**a, **b}` a key of `a` that `b` lacks keeps `a`'s value. */
  lemma {:induction false} MergeGetLeft<V>(a: Dict<V>, b: Dict<V>, k: string)
    requires k in Keys(a) && k !in Keys(b)
    ensures k in Keys(Merge(a, b)) && Get(Merge(a, b), k) == Get(a, k)
    decreases |b|
  {
    if b != [] {
      var a' := Put(a, b[0].0, b[0].1);
      assert Keys(b) == [b[0].0] + Keys(b[1..]);
      MergeGetLeft(a', b[1..], k);
    }
  }

  /** Copying a well-formed dictionary into an empty one (`{**d}`) gives it back unchanged. */
  lemma MergeIntoEmpty<V>(d: Dict<V>)
    requires Valid(d)
    ensures Merge([], d) == d
  {
    MergeDisjoint([], d);
  }

  /** The dictionary as a map, as `f(**d)` receives it: each key with the value `d[k]` gives. */
  function ToMap<V>(d: Dict<V>): (m: map<string, V>)
    ensures forall k :: k in m <==> k in Keys(d)
    ensures forall k :: k in m ==> m[k] == Get(d, k)
    decreases |d|
  {
    if d == [] then map[]
    else
      KeysTail(d);
      ToMap(d[1..])[d[0].0 := d[0].1]
  }
}
