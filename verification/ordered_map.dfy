/** Insertion-ordered maps, the model of a Python `dict`: a sequence of
    (key, value) entries with distinct keys. Writing an existing key replaces
    its value in place; writing a new key appends it at the end. */
module OrderedMap {
  import opened Wrappers

  function Keys<K, V>(m: seq<(K, V)>): (ks: seq<K>)
    ensures |ks| == |m|
    ensures forall i :: 0 <= i < |m| ==> ks[i] == m[i].0
  {
    if |m| == 0 then [] else [m[0].0] + Keys(m[1..])
  }

  predicate Distinct<K(==)>(ks: seq<K>) {
    forall i, j :: 0 <= i < j < |ks| ==> ks[i] != ks[j]
  }

  /** A well-formed map: no key occurs twice. */
  predicate Valid<K(==), V>(m: seq<(K, V)>) {
    Distinct(Keys(m))
  }

  /** Index of the first occurrence of `x` in `xs`. */
  function IndexOf<T(==)>(xs: seq<T>, x: T): (n: nat)
    requires x in xs
    ensures n < |xs| && xs[n] == x
    ensures forall j :: 0 <= j < n ==> xs[j] != x
  {
    if xs[0] == x then 0 else 1 + IndexOf(xs[1..], x)
  }

  /** `d.get(k)`: the value of the first entry with key `k`. */
  function Get<K(==,!new), V>(m: seq<(K, V)>, k: K): (r: Option<V>)
    ensures r.None? <==> k !in Keys(m)
  {
    if |m| == 0 then None
    else if m[0].0 == k then Some(m[0].1)
    else
      assert Keys(m) == [m[0].0] + Keys(m[1..]);
      Get(m[1..], k)
  }

  /** The entry at `i` is found when no earlier entry has its key. */
  lemma {:induction false} GetFirst<K(!new), V>(m: seq<(K, V)>, i: nat)
    requires i < |m|
    requires forall j :: 0 <= j < i ==> m[j].0 != m[i].0
    ensures Get(m, m[i].0) == Some(m[i].1)
  {
    if i > 0 {
      GetFirst(m[1..], i - 1);
    }
  }

  /** Overwriting the entry at `i` does not change lookups of other keys. */
  lemma {:induction false} GetOther<K(!new), V>(m: seq<(K, V)>, i: nat, e: (K, V), k: K)
    requires i < |m| && k != m[i].0 && k != e.0
    ensures Get(m[i := e], k) == Get(m, k)
  {
    if |m| > 0 && i > 0 {
      assert m[i := e][1..] == m[1..][i - 1 := e];
      GetOther(m[1..], i - 1, e, k);
    }
  }

  /** Appending an entry does not change lookups of other keys. */
  lemma {:induction false} GetAppend<K(!new), V>(m: seq<(K, V)>, e: (K, V), k: K)
    requires k != e.0
    ensures Get(m + [e], k) == Get(m, k)
  {
    if |m| > 0 {
      assert (m + [e])[1..] == m[1..] + [e];
      GetAppend(m[1..], e, k);
    }
  }

  /** `d[k] = v`: an existing key keeps its position and takes the new value;
      a new key is appended. */
  function Put<K(==,!new), V>(m: seq<(K, V)>, k: K, v: V): (r: seq<(K, V)>)
    ensures Keys(r) == if k in Keys(m) then Keys(m) else Keys(m) + [k]
    ensures Valid(m) ==> Valid(r)
  {
    if k in Keys(m) then
      var r := m[IndexOf(Keys(m), k) := (k, v)];
      assert Keys(r) == Keys(m);
      r
    else
      var r := m + [(k, v)];
      assert Keys(r) == Keys(m) + [k];
      r
  }

  /** Reading after `d[k] = v`: `k` gives `v`, every other key is unchanged. */
  lemma PutGet<K(!new), V>(m: seq<(K, V)>, k: K, v: V, k': K)
    ensures Get(Put(m, k, v), k') == if k' == k then Some(v) else Get(m, k')
  {
    var ks := Keys(m);
    if k in ks {
      var i := IndexOf(ks, k);
      if k' == k {
        GetFirst(Put(m, k, v), i);
      } else {
        GetOther(m, i, (k, v), k');
      }
    } else {
      if k' == k {
        GetFirst(Put(m, k, v), |m|);
      } else {
        GetAppend(m, (k, v), k');
      }
    }
  }

  /** The map built by writing the entries of `ps` in order, as a dict
      comprehension or a loop of assignments does. */
  function FromPairs<K(==,!new), V>(ps: seq<(K, V)>): (m: seq<(K, V)>)
    ensures Valid(m)
  {
    if |ps| == 0 then []
    else
      var last := ps[|ps| - 1];
      Put(FromPairs(ps[..|ps| - 1]), last.0, last.1)
  }

  /** The keys of the built map are exactly the keys written. */
  lemma {:induction false} FromPairsKeys<K(!new), V>(ps: seq<(K, V)>, k: K)
    ensures k in Keys(FromPairs(ps)) <==> k in Keys(ps)
  {
    if |ps| > 0 {
      var init := ps[..|ps| - 1];
      var last := ps[|ps| - 1];
      FromPairsKeys(init, k);
      KeysSnoc(ps);
      var m0 := FromPairs(init);
      FromPairsSnoc(ps);
      assert k in Keys(ps) <==> k in Keys(init) || k == last.0;
      assert k in Keys(Put(m0, last.0, last.1)) <==> k in Keys(m0) || k == last.0;
    }
  }

  /** Last write wins: the value stored under a key is the value of the last
      entry written with that key. */
  lemma {:induction false} LastWriteWins<K(!new), V>(ps: seq<(K, V)>, i: nat)
    requires i < |ps|
    requires forall j :: i < j < |ps| ==> ps[j].0 != ps[i].0
    ensures Get(FromPairs(ps), ps[i].0) == Some(ps[i].1)
  {
    var n := |ps|;
    var init := ps[..n - 1];
    var last := ps[n - 1];
    FromPairsSnoc(ps);
    PutGet(FromPairs(init), last.0, last.1, ps[i].0);
    if i < n - 1 {
      LastWriteWins(init, i);
    }
  }

  /** Building from one more entry writes that entry last. */
  lemma FromPairsSnoc<K(!new), V>(ps: seq<(K, V)>)
    requires |ps| > 0
    ensures FromPairs(ps) == Put(FromPairs(ps[..|ps| - 1]), ps[|ps| - 1].0, ps[|ps| - 1].1)
  {
  }

  /** A key never written is absent. */
  lemma NeverWritten<K(!new), V>(ps: seq<(K, V)>, k: K)
    requires k !in Keys(ps)
    ensures Get(FromPairs(ps), k) == None
  {
    FromPairsKeys(ps, k);
  }

  /** Extending a sequence does not move the first occurrence of an element
      already present. */
  lemma IndexOfExtend<T>(xs: seq<T>, ys: seq<T>, x: T)
    requires x in xs
    ensures x in xs + ys && IndexOf(xs + ys, x) == IndexOf(xs, x)
  {
    var i := IndexOf(xs, x);
    var j := IndexOf(xs + ys, x);
    assert (xs + ys)[i] == x;
    assert j <= i;
    assert xs[j] == (xs + ys)[j];
  }

  /** An element appended to a sequence that lacks it is first found at the end. */
  lemma IndexOfNew<T>(xs: seq<T>, x: T)
    requires x !in xs
    ensures x in xs + [x] && IndexOf(xs + [x], x) == |xs|
  {
  }

  /** After appending a new element, an element already present comes first. */
  lemma AppendedLast<T>(xs: seq<T>, a: T, b: T)
    requires a in xs && b !in xs
    ensures a in xs + [b] && b in xs + [b]
    ensures IndexOf(xs + [b], a) < IndexOf(xs + [b], b)
  {
    IndexOfExtend(xs, [b], a);
    IndexOfNew(xs, b);
  }

  /** The keys of a sequence of entries, one entry shorter. */
  lemma KeysSnoc<K, V>(ps: seq<(K, V)>)
    requires |ps| > 0
    ensures Keys(ps) == Keys(ps[..|ps| - 1]) + [ps[|ps| - 1].0]
  {
  }

  /** The two keys of an ordered pair, seen in all entries but the last:
      the first is there, and the second is either there, still after it,
      or is the key of the last entry. */
  lemma FirstWriteInit<K, V>(ps: seq<(K, V)>, a: K, b: K)
    requires a in Keys(ps) && b in Keys(ps)
    requires IndexOf(Keys(ps), a) < IndexOf(Keys(ps), b)
    ensures var kinit := Keys(ps[..|ps| - 1]);
      && a in kinit
      && (b in kinit ==> IndexOf(kinit, a) < IndexOf(kinit, b))
      && (b !in kinit ==> b == ps[|ps| - 1].0)
  {
    var kinit := Keys(ps[..|ps| - 1]);
    KeysSnoc(ps);
    var ia := IndexOf(Keys(ps), a);
    assert kinit[ia] == a;
    IndexOfExtend(kinit, [ps[|ps| - 1].0], a);
    if b in kinit {
      IndexOfExtend(kinit, [ps[|ps| - 1].0], b);
    }
  }

  /** Writing a key leaves the relative order of present keys alone. */
  lemma PutKeepsOrder<K(!new), V>(m: seq<(K, V)>, k: K, v: V, a: K, b: K)
    requires a in Keys(m) && b in Keys(m)
    requires IndexOf(Keys(m), a) < IndexOf(Keys(m), b)
    ensures a in Keys(Put(m, k, v)) && b in Keys(Put(m, k, v))
    ensures IndexOf(Keys(Put(m, k, v)), a) < IndexOf(Keys(Put(m, k, v)), b)
  {
    if k !in Keys(m) {
      IndexOfExtend(Keys(m), [k], a);
      IndexOfExtend(Keys(m), [k], b);
    }
  }

  /** A newly written key comes after every key already present. */
  lemma PutNewLast<K(!new), V>(m: seq<(K, V)>, k: K, v: V, a: K)
    requires a in Keys(m) && k !in Keys(m)
    ensures a in Keys(Put(m, k, v)) && k in Keys(Put(m, k, v))
    ensures IndexOf(Keys(Put(m, k, v)), a) < IndexOf(Keys(Put(m, k, v)), k)
  {
    AppendedLast(Keys(m), a, k);
  }

  /** First position is kept: keys appear in the order of their first write. */
  lemma {:induction false} FirstWriteOrder<K(!new), V>(ps: seq<(K, V)>, a: K, b: K)
    requires a in Keys(ps) && b in Keys(ps)
    requires IndexOf(Keys(ps), a) < IndexOf(Keys(ps), b)
    ensures a in Keys(FromPairs(ps)) && b in Keys(FromPairs(ps))
    ensures IndexOf(Keys(FromPairs(ps)), a) < IndexOf(Keys(FromPairs(ps)), b)
  {
    var init := ps[..|ps| - 1];
    var last := ps[|ps| - 1];
    FirstWriteInit(ps, a, b);
    FromPairsSnoc(ps);
    if b in Keys(init) {
      FirstWriteOrder(init, a, b);
      PutKeepsOrder(FromPairs(init), last.0, last.1, a, b);
    } else {
      FromPairsKeys(init, a);
      FromPairsKeys(init, b);
      PutNewLast(FromPairs(init), last.0, last.1, a);
    }
  }
}
