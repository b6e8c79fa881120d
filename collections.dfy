/**
 * Generic sequence and map helpers shared by the three scripts: the Option type,
 * occurrence counting, the insertion order of a Ruby Hash, and the
 * "create with 0, then add 1" tally the replay script keeps per ISSN.
 *
 * Functions that a loop builds up element by element recurse on the last
 * element, so that "state == F(the prefix processed so far)" is a loop invariant.
 */
module Collections {

  datatype Option<+T> = None | Some(value: T)

  predicate NoDuplicates<T(==)>(xs: seq<T>) {
    forall i, j :: 0 <= i < j < |xs| ==> xs[i] != xs[j]
  }

  /** Number of occurrences of `x` in `xs`. */
  function Count<T(==)>(xs: seq<T>, x: T): (n: nat)
    ensures n <= |xs|
    ensures n == 0 <==> x !in xs
  {
    if xs == [] then 0
    else
      assert xs == xs[..|xs| - 1] + [xs[|xs| - 1]];
      Count(xs[..|xs| - 1], x) + (if xs[|xs| - 1] == x then 1 else 0)
  }

  /** The index of the first occurrence of `x` in `xs`. */
  function FirstIndex<T(==)>(xs: seq<T>, x: T): (k: nat)
    requires x in xs
    ensures k < |xs| && xs[k] == x && x !in xs[..k]
  {
    if x in xs[..|xs| - 1] then FirstIndex(xs[..|xs| - 1], x) else |xs| - 1
  }

  /** `order` after recording `x` the way a Ruby Hash records a key: appended when new. */
  function AppendNew<T(==)>(order: seq<T>, x: T): seq<T> {
    if x in order then order else order + [x]
  }

  /** `order` after recording each element of `xs` in turn. */
  function Remember<T(==)>(order: seq<T>, xs: seq<T>): seq<T> {
    if xs == [] then order else AppendNew(Remember(order, xs[..|xs| - 1]), xs[|xs| - 1])
  }

  /** The distinct elements of `xs`, each where it first occurs: the key order of a Hash filled from `xs`. */
  function Distinct<T(==)>(xs: seq<T>): seq<T> {
    Remember([], xs)
  }

  /** The elements of an Option: none or one. */
  function OptionSeq<T>(o: Option<T>): (r: seq<T>)
    ensures o.None? ==> r == []
    ensures o.Some? ==> r == [o.value]
  {
    match o
    case None => []
    case Some(x) => [x]
  }

  /** Value of a counter map at `x`, a missing entry reading as 0. */
  function Get<T>(m: map<T, nat>, x: T): nat {
    if x in m then m[x] else 0
  }

  /** `m` after the occurrence of each element of `xs`, in order, has added 1 to its entry. */
  function Tally<T>(m: map<T, nat>, xs: seq<T>): map<T, nat> {
    if xs == [] then m
    else
      var before := Tally(m, xs[..|xs| - 1]);
      before[xs[|xs| - 1] := Get(before, xs[|xs| - 1]) + 1]
  }

  /** `Distinct` keeps every element once, loses none, and keeps the order of first occurrence. */
  lemma {:induction false} DistinctFirstOccurrences<T>(xs: seq<T>)
    ensures NoDuplicates(Distinct(xs))
    ensures forall x :: x in Distinct(xs) <==> x in xs
    ensures forall i, j :: 0 <= i < j < |Distinct(xs)| ==>
              FirstIndex(xs, Distinct(xs)[i]) < FirstIndex(xs, Distinct(xs)[j])
  {
    if xs != [] {
      var p, y := xs[..|xs| - 1], xs[|xs| - 1];
      assert xs == p + [y];
      DistinctFirstOccurrences(p);
      var d := Distinct(p);
      forall x | x in p ensures FirstIndex(xs, x) == FirstIndex(p, x) {
        assert xs[..|xs| - 1] == p;
      }
      if y !in d {
        assert y !in p;
        assert FirstIndex(xs, y) == |p|;
        assert Distinct(xs) == d + [y];
      }
    }
  }

  /** Recording only ever adds at the end. */
  lemma {:induction false} RememberExtends<T>(order: seq<T>, xs: seq<T>)
    ensures order <= Remember(order, xs)
  {
    if xs != [] {
      RememberExtends(order, xs[..|xs| - 1]);
    }
  }

  /** The first element of a non-empty sequence is the first of its distinct elements. */
  lemma DistinctHead<T>(xs: seq<T>)
    requires xs != []
    ensures Distinct(xs) != [] && Distinct(xs)[0] == xs[0]
  {
    assert [xs[0]][..0] == [];
    assert Remember([], [xs[0]]) == [xs[0]];
    RememberAppend([], [xs[0]], xs[1..]);
    assert [xs[0]] + xs[1..] == xs;
    RememberExtends([xs[0]], xs[1..]);
  }

  /** After a tally, every entry has grown by the number of occurrences of its key. */
  lemma {:induction false} TallyCounts<T>(m: map<T, nat>, xs: seq<T>)
    ensures forall x :: Get(Tally(m, xs), x) == Get(m, x) + Count(xs, x)
    ensures forall x :: x in Tally(m, xs) <==> x in m || x in xs
  {
    if xs != [] {
      var p, y := xs[..|xs| - 1], xs[|xs| - 1];
      assert xs == p + [y];
      TallyCounts(m, p);
    }
  }

  /** A tally leaves alone every entry whose key does not occur. */
  lemma TallyUntouched<T>(m: map<T, nat>, xs: seq<T>, x: T)
    requires x !in xs
    ensures x in Tally(m, xs) <==> x in m
    ensures x in m ==> Tally(m, xs)[x] == m[x]
  {
    TallyCounts(m, xs);
  }

  /** Recording `a` and then `b` is recording `a + b`. */
  lemma {:induction false} RememberAppend<T>(order: seq<T>, a: seq<T>, b: seq<T>)
    ensures Remember(Remember(order, a), b) == Remember(order, a + b)
    decreases |b|
  {
    if b == [] {
      assert a + b == a;
    } else {
      RememberAppend(order, a, b[..|b| - 1]);
      assert (a + b)[..|a + b| - 1] == a + b[..|b| - 1];
    }
  }

  /** Tallying `a` and then `b` is tallying `a + b`. */
  lemma {:induction false} TallyAppend<T>(m: map<T, nat>, a: seq<T>, b: seq<T>)
    ensures Tally(Tally(m, a), b) == Tally(m, a + b)
    decreases |b|
  {
    if b == [] {
      assert a + b == a;
    } else {
      TallyAppend(m, a, b[..|b| - 1]);
      assert (a + b)[..|a + b| - 1] == a + b[..|b| - 1];
    }
  }

  /** The prefix of length `i + 1` is the prefix of length `i` and the element at `i`. */
  lemma TakeSnoc<T>(s: seq<T>, i: nat)
    requires i < |s|
    ensures s[..i + 1] == s[..i] + [s[i]]
  {
  }

  /** A non-empty prefix is the first element followed by a prefix of the rest. */
  lemma TakeCons<T>(s: seq<T>, n: nat)
    requires 0 < n <= |s|
    ensures s[..n] == [s[0]] + s[1..][..n - 1]
  {
    assert s[..n][1..] == s[1..][..n - 1];
  }

  /** Tallying one more element of `xs` adds 1 to its entry. */
  lemma TallySnoc<T>(m0: map<T, nat>, xs: seq<T>, i: nat, m: map<T, nat>, m': map<T, nat>)
    requires i < |xs| && m == Tally(m0, xs[..i]) && m' == m[xs[i] := Get(m, xs[i]) + 1]
    ensures m' == Tally(m0, xs[..i + 1])
  {
    assert xs[..i + 1][..i] == xs[..i];
  }

  /** Recording one more element of `xs` appends it when it is new. */
  lemma RememberSnoc<T>(o0: seq<T>, xs: seq<T>, i: nat, o: seq<T>, o': seq<T>)
    requires i < |xs| && o == Remember(o0, xs[..i]) && o' == AppendNew(o, xs[i])
    ensures o' == Remember(o0, xs[..i + 1])
  {
    assert xs[..i + 1][..i] == xs[..i];
  }

  /** Setting a key twice keeps only the second value. */
  lemma Overwrite<K, V>(m: map<K, seq<V>>, k: K, v: seq<V>, w: seq<V>)
    ensures m[k := v][k := v + w] == m[k := v + w]
  {
  }

  /** The results of `f` on each element of `xs`, concatenated in order. */
  function ConcatMap<T, U>(f: T -> seq<U>, xs: seq<T>): seq<U> {
    if xs == [] then [] else f(xs[0]) + ConcatMap(f, xs[1..])
  }

  /** `ConcatMap` over `a + b` is the one over `a` followed by the one over `b`. */
  lemma {:induction false} ConcatMapAppend<T, U>(f: T -> seq<U>, a: seq<T>, b: seq<T>)
    ensures ConcatMap(f, a + b) == ConcatMap(f, a) + ConcatMap(f, b)
  {
    if a == [] {
      assert a + b == b;
    } else {
      assert (a + b)[0] == a[0];
      assert (a + b)[1..] == a[1..] + b;
      ConcatMapAppend(f, a[1..], b);
    }
  }

  /** `ConcatMap` yields nothing exactly when every element yields nothing. */
  lemma {:induction false} ConcatMapEmpty<T, U>(f: T -> seq<U>, xs: seq<T>)
    ensures ConcatMap(f, xs) == [] <==> forall k :: 0 <= k < |xs| ==> f(xs[k]) == []
  {
    if xs != [] {
      ConcatMapEmpty(f, xs[1..]);
      assert forall k :: 0 <= k < |xs| - 1 ==> xs[1..][k] == xs[k + 1];
    }
  }

  /** Extending the prefix by one element appends that element's results. */
  lemma ConcatMapSnoc<T, U>(f: T -> seq<U>, xs: seq<T>, k: nat)
    requires k < |xs|
    ensures ConcatMap(f, xs[..k + 1]) == ConcatMap(f, xs[..k]) + f(xs[k])
  {
    assert xs[..k + 1] == xs[..k] + [xs[k]];
    ConcatMapAppend(f, xs[..k], [xs[k]]);
    assert ConcatMap(f, [xs[k]]) == f(xs[k]) + ConcatMap(f, []);
  }
}
