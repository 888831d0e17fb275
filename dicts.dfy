/** Python's built-in dict as the core uses it: values are reals, a missing key reads as
    0.0 (`d.get(k, 0.0)`), and iteration follows insertion order. A dict is the sequence
    of its items in that order. */
module Dicts {

  type Dict<K> = seq<(K, real)>

  /** The keys in iteration order. */
  function Keys<K>(d: Dict<K>): seq<K>
  {
    seq(|d|, i requires 0 <= i < |d| => d[i].0)
  }

  lemma KeysConcat<K>(a: Dict<K>, b: Dict<K>)
    ensures Keys(a + b) == Keys(a) + Keys(b)
  {
  }

  predicate Distinct<K(==)>(s: seq<K>)
  {
    forall i, j :: 0 <= i < j < |s| ==> s[i] != s[j]
  }

  lemma DistinctCons<K>(a: K, s: seq<K>)
    ensures Distinct([a] + s) <==> a !in s && Distinct(s)
  {
    var c := [a] + s;
    if a !in s && Distinct(s) {
      forall i, j | 0 <= i < j < |c|
        ensures c[i] != c[j]
      {
        if i > 0 {
          assert c[i] == s[i - 1] && c[j] == s[j - 1];
        } else {
          assert c[j] == s[j - 1];
        }
      }
    }
    if Distinct(c) {
      forall i, j | 0 <= i < j < |s|
        ensures s[i] != s[j]
      {
        assert s[i] == c[i + 1] && s[j] == c[j + 1];
      }
    }
    if a in s {
      var j :| 0 <= j < |s| && s[j] == a;
      assert c[0] == c[j + 1];
    }
  }

  lemma DistinctSnoc<K>(s: seq<K>, a: K)
    ensures Distinct(s + [a]) <==> Distinct(s) && a !in s
  {
    var c := s + [a];
    if a in s {
      var j :| 0 <= j < |s| && s[j] == a;
      assert c[j] == c[|s|];
    }
    if Distinct(c) {
      forall i, j | 0 <= i < j < |s|
        ensures s[i] != s[j]
      {
        assert s[i] == c[i] && s[j] == c[j];
      }
    }
  }

  /** `d.get(k, 0.0)`. */
  function Get<K(==)>(d: Dict<K>, k: K): real
  {
    if d == [] then 0.0
    else if d[0].0 == k then d[0].1
    else Get(d[1..], k)
  }

  /** `d[k] = d.get(k, 0.0) + x`: an existing key keeps its place, a new key goes last,
      and only the entry for k changes. */
  function Add<K(==, !new)>(d: Dict<K>, k: K, x: real): (r: Dict<K>)
    ensures Keys(r) == if k in Keys(d) then Keys(d) else Keys(d) + [k]
    ensures forall k' :: Get(r, k') == if k' == k then Get(d, k) + x else Get(d, k')
  {
    if d == [] then [(k, x)]
    else if d[0].0 == k then
      var r := [(k, d[0].1 + x)] + d[1..];
      assert Keys(d)[0] == k && Keys(r) == Keys(d);
      assert r[0].0 == k && r[1..] == d[1..];
      r
    else
      var r := [d[0]] + Add(d[1..], k, x);
      assert Keys(d) == [d[0].0] + Keys(d[1..]);
      assert Keys(r) == [d[0].0] + Keys(Add(d[1..], k, x));
      assert r[0] == d[0] && r[1..] == Add(d[1..], k, x);
      r
  }

  /** The items of `e` added one after another into `d`, as a `for` loop of `Add` does. */
  function AddAll<K(==, !new)>(d: Dict<K>, e: Dict<K>): Dict<K>
  {
    if e == [] then d
    else Add(AddAll(d, e[..|e| - 1]), e[|e| - 1].0, e[|e| - 1].1)
  }

  /** Folding one more item in is one more `Add`. */
  lemma AddAllSnoc<K(!new)>(d: Dict<K>, e: Dict<K>, item: (K, real))
    ensures AddAll(d, e + [item]) == Add(AddAll(d, e), item.0, item.1)
  {
    assert (e + [item])[..|e|] == e;
  }

  /** The sum of the values that `e` lists under key k (reference definition). */
  function SumFor<K(==)>(e: Dict<K>, k: K): real
  {
    if e == [] then 0.0
    else SumFor(e[..|e| - 1], k) + (if e[|e| - 1].0 == k then e[|e| - 1].1 else 0.0)
  }

  /** The elements of s, each at its first occurrence (reference definition). */
  function Dedup<K(==)>(s: seq<K>): seq<K>
  {
    if s == [] then []
    else
      var d := Dedup(s[..|s| - 1]);
      if s[|s| - 1] in d then d else d + [s[|s| - 1]]
  }

  lemma {:induction false} DedupProperties<K>(s: seq<K>)
    ensures Distinct(Dedup(s))
    ensures forall x :: x in Dedup(s) <==> x in s
  {
    if s != [] {
      var p := s[..|s| - 1];
      DedupProperties(p);
      assert s == p + [s[|s| - 1]];
    }
  }

  /** Folding items into a dict adds, for every key, the values listed under it. */
  lemma {:induction false} AddAllGet<K(!new)>(d: Dict<K>, e: Dict<K>, k: K)
    ensures Get(AddAll(d, e), k) == Get(d, k) + SumFor(e, k)
  {
    if e != [] {
      AddAllGet(d, e[..|e| - 1], k);
    }
  }

  /** Folding items into an empty dict yields each key once, at its first occurrence. */
  lemma {:induction false} AddAllKeys<K(!new)>(e: Dict<K>)
    ensures Keys(AddAll([], e)) == Dedup(Keys(e))
  {
    if e != [] {
      AddAllKeys(e[..|e| - 1]);
      assert Keys(e)[..|e| - 1] == Keys(e[..|e| - 1]);
    }
  }

  lemma {:induction false} GetAbsent<K>(d: Dict<K>, k: K)
    requires k !in Keys(d)
    ensures Get(d, k) == 0.0 && SumFor(d, k) == 0.0
  {
    if d != [] {
      assert Keys(d)[0] == d[0].0 && Keys(d)[|d| - 1] == d[|d| - 1].0;
      assert Keys(d[1..]) == Keys(d)[1..];
      GetAbsent(d[1..], k);
      assert Keys(d[..|d| - 1]) == Keys(d)[..|d| - 1];
      GetAbsent(d[..|d| - 1], k);
    }
  }

  lemma {:induction false} GetAppend<K>(d: Dict<K>, x: (K, real), k: K)
    ensures Get(d + [x], k) == if k in Keys(d) then Get(d, k) else if x.0 == k then x.1 else 0.0
  {
    if d != [] {
      assert (d + [x])[1..] == d[1..] + [x];
      assert Keys(d) == [d[0].0] + Keys(d[1..]);
      GetAppend(d[1..], x, k);
    }
  }

  /** In a dict with distinct keys, `get` and the sum over the items agree. */
  lemma {:induction false} SumForDistinct<K>(d: Dict<K>, k: K)
    requires Distinct(Keys(d))
    ensures SumFor(d, k) == Get(d, k)
  {
    if d != [] {
      var p := d[..|d| - 1];
      var x := d[|d| - 1];
      assert Keys(p) == Keys(d)[..|d| - 1];
      assert d == p + [x];
      SumForDistinct(p, k);
      GetAppend(p, x, k);
      if k == x.0 {
        assert Keys(d)[|d| - 1] == k;
        assert k !in Keys(p);
        GetAbsent(p, k);
      } else if k !in Keys(p) {
        GetAbsent(p, k);
      }
    }
  }

  /** In a dict with distinct keys, `get` returns the value stored with each key. */
  lemma {:induction false} GetAt<K>(d: Dict<K>, i: nat)
    requires Distinct(Keys(d)) && i < |d|
    ensures Get(d, d[i].0) == d[i].1
  {
    if i > 0 {
      assert Keys(d)[0] != Keys(d)[i];
      assert Keys(d[1..]) == Keys(d)[1..];
      GetAt(d[1..], i - 1);
    }
  }

  lemma {:induction false} SumForConcat<K>(a: Dict<K>, b: Dict<K>, k: K)
    ensures SumFor(a + b, k) == SumFor(a, k) + SumFor(b, k)
  {
    if b != [] {
      assert (a + b)[..|a + b| - 1] == a + b[..|b| - 1];
      SumForConcat(a, b[..|b| - 1], k);
    } else {
      assert a + b == a;
    }
  }
}
