/** The Kotlin collection operations the repositories are built from: `map`, `filter`,
    `mapNotNull` and `associateBy`. Each is defined by recursion on the last element, the
    order in which Kotlin's left-to-right loop has finished with it. */
module KotlinCollections {
  import opened Kotlin

  /** `List.map` */
  function MapSeq<A, B>(s: seq<A>, f: A -> B): (r: seq<B>)
    ensures |r| == |s|
    ensures forall i :: 0 <= i < |s| ==> r[i] == f(s[i])
  {
    if s == [] then [] else MapSeq(s[..|s| - 1], f) + [f(s[|s| - 1])]
  }

  lemma MapSeqAppend<A, B>(s: seq<A>, t: seq<A>, f: A -> B)
    ensures MapSeq(s + t, f) == MapSeq(s, f) + MapSeq(t, f)
  {
    var l, r := MapSeq(s + t, f), MapSeq(s, f) + MapSeq(t, f);
    assert |l| == |r|;
    forall i | 0 <= i < |l| ensures l[i] == r[i] {
      if i < |s| { assert (s + t)[i] == s[i]; } else { assert (s + t)[i] == t[i - |s|]; }
    }
  }

  lemma MapSeqAppendMultiset<A, B>(s: seq<A>, t: seq<A>, f: A -> B)
    ensures multiset(MapSeq(s + t, f)) == multiset(MapSeq(s, f)) + multiset(MapSeq(t, f))
  {
    MapSeqAppend(s, t, f);
  }

  /** Taking out the element at position j takes it out of the multiset. */
  lemma MultisetRemove<A>(b: seq<A>, j: int)
    requires 0 <= j < |b|
    ensures multiset(b) == multiset(b[..j] + b[j + 1..]) + multiset{b[j]}
  {
    assert b == b[..j] + [b[j]] + b[j + 1..];
  }

  lemma MapSeqCons<A, B>(x: A, t: seq<A>, f: A -> B)
    ensures multiset(MapSeq([x] + t, f)) == multiset{f(x)} + multiset(MapSeq(t, f))
  {
    MapSeqAppendMultiset([x], t, f);
    assert MapSeq([x], f) == [f(x)];
  }

  /** Taking out the element at position j takes its image out of the mapped sequence. */
  lemma MapSeqRemove<A, B>(b: seq<A>, j: int, f: A -> B)
    requires 0 <= j < |b|
    ensures multiset(MapSeq(b, f)) == multiset(MapSeq(b[..j] + b[j + 1..], f)) + multiset{f(b[j])}
  {
    SplitAt(b, j);
    MapSeqAppendMultiset(b[..j], b[j..], f);
    MapSeqCons(b[j], b[j + 1..], f);
    MapSeqAppendMultiset(b[..j], b[j + 1..], f);
  }

  lemma SplitAt<A>(b: seq<A>, j: int)
    requires 0 <= j < |b|
    ensures b == b[..j] + b[j..] && b[j..] == [b[j]] + b[j + 1..]
  {
  }

  /** Mapping a sequence and a permutation of it gives a sequence and a permutation of it. */
  lemma {:induction false} MapSeqPermutation<A, B>(a: seq<A>, b: seq<A>, f: A -> B)
    requires multiset(a) == multiset(b)
    ensures multiset(MapSeq(a, f)) == multiset(MapSeq(b, f))
    decreases |a|
  {
    if a == [] {
      assert |b| == |multiset(b)| == 0;
    } else {
      var n := |a| - 1;
      var x := a[n];
      assert x in multiset(b);
      var j :| 0 <= j < |b| && b[j] == x;
      var rest := b[..j] + b[j + 1..];
      assert a[..n] + a[n + 1..] == a[..n];
      MultisetRemove(a, n);
      MultisetRemove(b, j);
      assert multiset(a[..n]) == multiset(a) - multiset{x};
      assert multiset(rest) == multiset(b) - multiset{x};
      MapSeqPermutation(a[..n], rest, f);
      MapSeqRemove(a, n, f);
      MapSeqRemove(b, j, f);
    }
  }

  /** Mapping with f and then with a left inverse g of f gives back the sequence. */
  lemma MapSeqInverse<A, B>(s: seq<A>, f: A -> B, g: B -> A)
    requires forall i :: 0 <= i < |s| ==> g(f(s[i])) == s[i]
    ensures MapSeq(MapSeq(s, f), g) == s
  {
    var r := MapSeq(MapSeq(s, f), g);
    assert |r| == |s|;
    forall i | 0 <= i < |s| ensures r[i] == s[i] {
    }
  }

  /** `List.filter` */
  function Filter<T(==)>(s: seq<T>, p: T -> bool): (r: seq<T>)
    ensures |r| <= |s|
    ensures forall t :: 0 <= t < |r| ==> r[t] in s && p(r[t])
    ensures forall i :: 0 <= i < |s| && p(s[i]) ==> s[i] in r
    ensures multiset(r) <= multiset(s)
    ensures forall i :: 0 <= i < |s| ==> multiset(r)[s[i]] == if p(s[i]) then multiset(s)[s[i]] else 0
  {
    if s == [] then []
    else
      var rest := Filter(s[..|s| - 1], p);
      assert s == s[..|s| - 1] + [s[|s| - 1]];
      if p(s[|s| - 1]) then rest + [s[|s| - 1]] else rest
  }

  /** A query no row satisfies selects nothing. */
  lemma {:induction false} FilterNone<T>(s: seq<T>, p: T -> bool)
    requires forall i :: 0 <= i < |s| ==> !p(s[i])
    ensures Filter(s, p) == []
  {
    if s != [] {
      FilterNone(s[..|s| - 1], p);
    }
  }

  /** The positions, in increasing order, of the elements that `mapNotNull` keeps. */
  function KeptIndices<A, B>(s: seq<A>, f: A -> Option<B>): (ks: seq<int>)
    ensures forall t :: 0 <= t < |ks| ==> 0 <= ks[t] < |s| && f(s[ks[t]]).Some?
    ensures forall t, u :: 0 <= t < u < |ks| ==> ks[t] < ks[u]
    ensures forall i :: 0 <= i < |s| && f(s[i]).Some? ==> i in ks
  {
    if s == [] then []
    else
      var rest := KeptIndices(s[..|s| - 1], f);
      if f(s[|s| - 1]).Some? then rest + [|s| - 1] else rest
  }

  /** `List.mapNotNull`: the non-null images, each once, in the order of their elements. */
  function MapNotNull<A, B>(s: seq<A>, f: A -> Option<B>): (r: seq<B>)
    ensures |r| == |KeptIndices(s, f)|
    ensures forall t :: 0 <= t < |r| ==> f(s[KeptIndices(s, f)[t]]) == Some(r[t])
  {
    if s == [] then []
    else
      var rest := MapNotNull(s[..|s| - 1], f);
      match f(s[|s| - 1])
      case Some(b) => rest + [b]
      case None => rest
  }

  /** Two transforms that keep the same elements keep the same positions. */
  lemma {:induction false} KeptIndicesAgree<A, B, C>(s: seq<A>, f: A -> Option<B>, g: A -> Option<C>)
    requires forall i :: 0 <= i < |s| ==> f(s[i]).Some? == g(s[i]).Some?
    ensures KeptIndices(s, f) == KeptIndices(s, g)
  {
    if s != [] {
      KeptIndicesAgree(s[..|s| - 1], f, g);
    }
  }

  /** The transform `mapNotNull` applies when the lambda throws nothing. */
  function OrNone<A, B>(f: A -> Result<Option<B>>): A -> Option<B>
  {
    a => if f(a).Success? then f(a).value else None
  }

  /** `List.mapNotNull` with a lambda that may throw: the elements are visited from first to
      last, and the first exception thrown escapes. */
  function TryMapNotNull<A, B>(s: seq<A>, f: A -> Result<Option<B>>): (r: Result<seq<B>>)
    ensures r.Success? <==> forall i :: 0 <= i < |s| ==> f(s[i]).Success?
    ensures r.Success? ==> r.value == MapNotNull(s, OrNone(f))
    ensures r.Failure? ==>
      exists i :: 0 <= i < |s| && f(s[i]) == Failure(r.error) && (forall j :: 0 <= j < i ==> f(s[j]).Success?)
  {
    if s == [] then Success([])
    else
      var init := s[..|s| - 1];
      var rest :- TryMapNotNull(init, f);
      assert forall j :: 0 <= j < |init| ==> init[j] == s[j];
      var last :- f(s[|s| - 1]);
      match last
      case Some(b) => Success(rest + [b])
      case None => Success(rest)
  }

  lemma TryMapNotNullSingleton<A, B>(x: A, f: A -> Result<Option<B>>)
    ensures f(x).Success? && f(x).value.Some? ==> TryMapNotNull([x], f) == Success([f(x).value.value])
  {
    assert [x][..0] == [];
    assert TryMapNotNull([], f) == Success([]);
    if f(x).Success? && f(x).value.Some? {
      assert [] + [f(x).value.value] == [f(x).value.value];
    }
  }

  /** j is the last position of s whose key is k. */
  ghost predicate IsLastWithKey<K, V>(s: seq<V>, key: V -> K, k: K, j: int)
  {
    && 0 <= j < |s| && key(s[j]) == k
    && forall j' :: j < j' < |s| ==> key(s[j']) != k
  }

  /** `List.associateBy`: every key of the list maps to its last element with that key. */
  function AssociateBy<K, V>(s: seq<V>, key: V -> K): (m: map<K, V>)
    ensures forall i :: 0 <= i < |s| ==> key(s[i]) in m
    ensures forall k :: k in m ==> exists j :: IsLastWithKey(s, key, k, j) && m[k] == s[j]
  {
    if s == [] then map[]
    else
      var last := s[|s| - 1];
      var rest := AssociateBy(s[..|s| - 1], key);
      var m := rest[key(last) := last];
      assert forall k :: k in rest && k != key(last) ==>
        exists j :: IsLastWithKey(s, key, k, j) && m[k] == s[j] by {
        forall k | k in rest && k != key(last)
          ensures exists j :: IsLastWithKey(s, key, k, j) && m[k] == s[j]
        {
          var j :| IsLastWithKey(s[..|s| - 1], key, k, j) && rest[k] == s[..|s| - 1][j];
          LastWithKeyExtends(s, key, k, j);
        }
      }
      assert IsLastWithKey(s, key, key(last), |s| - 1);
      m
  }

  /** A last position with key k before the final element stays last when the final element
      has another key. */
  lemma LastWithKeyExtends<K, V>(s: seq<V>, key: V -> K, k: K, j: int)
    requires |s| > 0 && IsLastWithKey(s[..|s| - 1], key, k, j) && key(s[|s| - 1]) != k
    ensures IsLastWithKey(s, key, k, j) && s[..|s| - 1][j] == s[j]
  {
  }

  /** j is the last position of s that `mapNotNull` keeps with key k. */
  ghost predicate IsLastKeptWithKey<A, B, K>(s: seq<A>, f: A -> Option<B>, key: B -> K, k: K, j: int)
  {
    && 0 <= j < |s| && f(s[j]).Some? && key(f(s[j]).value) == k
    && forall j' :: j < j' < |s| && f(s[j']).Some? ==> key(f(s[j']).value) != k
  }

  /** `mapNotNull` followed by `associateBy`: the key of every kept element is present. */
  lemma AssociateByMapNotNullKeys<A, B, K>(s: seq<A>, f: A -> Option<B>, key: B -> K)
    ensures forall i :: 0 <= i < |s| && f(s[i]).Some? ==>
      key(f(s[i]).value) in AssociateBy(MapNotNull(s, f), key)
  {
    var r, ks := MapNotNull(s, f), KeptIndices(s, f);
    forall i | 0 <= i < |s| && f(s[i]).Some?
      ensures key(f(s[i]).value) in AssociateBy(r, key)
    {
      var t :| 0 <= t < |ks| && ks[t] == i;
      assert f(s[i]) == Some(r[t]);
    }
  }

  lemma MapNotNullSnoc<A, B>(s: seq<A>, x: A, f: A -> Option<B>)
    ensures MapNotNull(s + [x], f) ==
      match f(x) case Some(b) => MapNotNull(s, f) + [b] case None => MapNotNull(s, f)
  {
    assert (s + [x])[..|s|] == s;
  }

  lemma AssociateBySnoc<K, V>(s: seq<V>, v: V, key: V -> K)
    ensures AssociateBy(s + [v], key) == AssociateBy(s, key)[key(v) := v]
  {
    assert (s + [v])[..|s|] == s;
  }

  /** Every key present after `mapNotNull` and `associateBy` maps to the image of the last kept
      element with that key. */
  ghost predicate LastKeptWins<A, B, K>(s: seq<A>, f: A -> Option<B>, key: B -> K)
  {
    var m := AssociateBy(MapNotNull(s, f), key);
    forall k :: k in m ==> exists j :: IsLastKeptWithKey(s, f, key, k, j) && m[k] == f(s[j]).value
  }

  /** `mapNotNull` followed by `associateBy`: every present key maps to the image of the last
      kept element with that key. */
  lemma {:induction false} AssociateByMapNotNullLastWins<A, B, K>(s: seq<A>, f: A -> Option<B>, key: B -> K)
    ensures LastKeptWins(s, f, key)
  {
    if s != [] {
      var n := |s| - 1;
      AssociateByMapNotNullLastWins(s[..n], f, key);
      assert s == s[..n] + [s[n]];
      LastKeptWinsStep(s[..n], s[n], f, key);
    }
  }

  /** The inductive step of AssociateByMapNotNullLastWins. */
  lemma LastKeptWinsStep<A, B, K>(init: seq<A>, x: A, f: A -> Option<B>, key: B -> K)
    requires LastKeptWins(init, f, key)
    ensures LastKeptWins(init + [x], f, key)
  {
    var s := init + [x];
    MapNotNullSnoc(init, x, f);
    var mi := AssociateBy(MapNotNull(init, f), key);
    var m := AssociateBy(MapNotNull(s, f), key);
    match f(x)
    case None =>
      assert m == mi;
      forall k | k in m ensures exists j :: IsLastKeptWithKey(s, f, key, k, j) && m[k] == f(s[j]).value {
        var j :| IsLastKeptWithKey(init, f, key, k, j) && mi[k] == f(init[j]).value;
        LastKeptExtends(init, x, f, key, k, j);
      }
    case Some(b) =>
      AssociateBySnoc(MapNotNull(init, f), b, key);
      assert m == mi[key(b) := b];
      forall k | k in m ensures exists j :: IsLastKeptWithKey(s, f, key, k, j) && m[k] == f(s[j]).value {
        if k == key(b) {
          assert IsLastKeptWithKey(s, f, key, k, |init|);
        } else {
          var j :| IsLastKeptWithKey(init, f, key, k, j) && mi[k] == f(init[j]).value;
          LastKeptExtends(init, x, f, key, k, j);
        }
      }
  }

  lemma LastKeptExtends<A, B, K>(init: seq<A>, x: A, f: A -> Option<B>, key: B -> K, k: K, j: int)
    requires IsLastKeptWithKey(init, f, key, k, j)
    requires f(x).Some? ==> key(f(x).value) != k
    ensures IsLastKeptWithKey(init + [x], f, key, k, j) && (init + [x])[j] == init[j]
  {
  }
}
