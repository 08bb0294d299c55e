/** Small vocabulary shared by every component: identifiers, bytes, optional values. */
module Common {

  /** A 128-bit identifier. Only equality matters to the model. */
  type Uuid = nat

  type byte = x: int | 0 <= x < 256

  const U32 := 0x1_0000_0000
  const U64 := 0x1_0000_0000_0000_0000
  const I64 := 0x8000_0000_0000_0000

  datatype Option<+T> = None | Some(value: T) {
    function GetOr(default: T): T {
      match this
      case Some(v) => v
      case None => default
    }
  }

  function Min(a: int, b: int): int {
    if a <= b then a else b
  }

  function Max(a: int, b: int): int {
    if a <= b then b else a
  }

  ghost predicate NoDuplicates<T>(s: seq<T>) {
    forall i, j :: 0 <= i < j < |s| ==> s[i] != s[j]
  }

  /** `order` lists the elements of `keys`, each exactly once. */
  ghost predicate Lists<T(!new)>(order: seq<T>, keys: set<T>) {
    NoDuplicates(order) && forall k :: k in keys <==> k in order
  }
}

/** Sums of a natural-number measure over finite maps and sequences. */
module Sums {

  ghost function Pick<K(!new), V>(m: map<K, V>): (k: K)
    requires |m| != 0
    ensures k in m
  {
    assert m.Keys != {};
    var k :| k in m;
    k
  }

  ghost function Sum<K(!new), V>(m: map<K, V>, f: V -> nat): nat
    decreases |m|
  {
    if |m| == 0 then 0
    else f(m[Pick(m)]) + Sum(m - {Pick(m)}, f)
  }

  lemma SumEmpty<K(!new), V>(f: V -> nat)
    ensures Sum<K, V>(map[], f) == 0
  {
  }

  lemma {:induction false} SumSplit<K(!new), V>(m: map<K, V>, k: K, f: V -> nat)
    requires k in m
    ensures Sum(m, f) == f(m[k]) + Sum(m - {k}, f)
    decreases |m|
  {
    var j := Pick(m);
    if j != k {
      var mj, mk := m - {j}, m - {k};
      assert k in mj && mj[k] == m[k] && j in mk && mk[j] == m[j];
      assert mj.Keys == m.Keys - {j} && mk.Keys == m.Keys - {k};
      SumSplit(mj, k, f);
      SumSplit(mk, j, f);
      assert mj - {k} == mk - {j};
    }
  }

  /** Storing a value under a new key adds its measure. */
  lemma SumInsert<K(!new), V>(m: map<K, V>, k: K, v: V, f: V -> nat)
    requires k !in m
    ensures Sum(m[k := v], f) == Sum(m, f) + f(v)
  {
    SumSplit(m[k := v], k, f);
    assert m[k := v] - {k} == m;
  }

  /** Replacing a value exchanges one measure for the other. */
  lemma SumReplace<K(!new), V>(m: map<K, V>, k: K, v: V, f: V -> nat)
    requires k in m
    ensures Sum(m[k := v], f) + f(m[k]) == Sum(m, f) + f(v)
  {
    SumSplit(m, k, f);
    SumSplit(m[k := v], k, f);
    assert m[k := v] - {k} == m - {k};
  }

  /** A measure that is pointwise the sum of two others sums to their sums. */
  lemma {:induction false} SumAdd<K(!new), V>(m: map<K, V>, f: V -> nat, g: V -> nat, h: V -> nat)
    requires forall k :: k in m ==> h(m[k]) == f(m[k]) + g(m[k])
    ensures Sum(m, h) == Sum(m, f) + Sum(m, g)
    decreases |m|
  {
    if |m| != 0 {
      var k :| k in m;
      SumSplit(m, k, f);
      SumSplit(m, k, g);
      SumSplit(m, k, h);
      SumAdd(m - {k}, f, g, h);
    }
  }

  /** Dropping entries never increases a sum. */
  lemma {:induction false} SumSubset<K(!new), V>(m: map<K, V>, n: map<K, V>, f: V -> nat)
    requires forall k :: k in m ==> k in n && m[k] == n[k]
    ensures Sum(m, f) <= Sum(n, f)
    decreases |n|
  {
    if |n| != 0 {
      var k :| k in n;
      SumSplit(n, k, f);
      if k in m {
        SumSplit(m, k, f);
        SumSubset(m - {k}, n - {k}, f);
      } else {
        SumSubset(m, n - {k}, f);
      }
    } else {
      assert m == map[];
    }
  }

  lemma {:induction false} SumZero<K(!new), V>(m: map<K, V>, f: V -> nat)
    requires forall k :: k in m ==> f(m[k]) == 0
    ensures Sum(m, f) == 0
    decreases |m|
  {
    if |m| != 0 {
      SumSplit(m, Pick(m), f);
      SumZero(m - {Pick(m)}, f);
    }
  }

  function Total(s: seq<nat>): nat {
    if s == [] then 0 else s[0] + Total(s[1..])
  }

  lemma {:induction false} TotalConcat(s: seq<nat>, t: seq<nat>)
    ensures Total(s + t) == Total(s) + Total(t)
  {
    if s == [] {
      assert s + t == t;
    } else {
      assert (s + t)[1..] == s[1..] + t;
      TotalConcat(s[1..], t);
    }
  }

  /** Extending a prefix by one element adds that element. */
  lemma TotalStep(s: seq<nat>, i: nat)
    requires i < |s|
    ensures Total(s[..i + 1]) == Total(s[..i]) + s[i]
  {
    assert s[..i + 1] == s[..i] + [s[i]];
    TotalConcat(s[..i], [s[i]]);
  }
}
