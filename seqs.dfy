/** Facts about sequences of ids used by the tables and by the tag checks. */
module Seqs {

  /** No element occurs twice. */
  ghost predicate Distinct<T>(s: seq<T>) {
    forall i, j :: 0 <= i < j < |s| ==> s[i] != s[j]
  }

  /** The set of elements of a sequence (what `WHERE id IN ?` looks at). */
  function Elems<T>(s: seq<T>): set<T> {
    set x | x in s
  }

  /** The number of different elements never exceeds the length, and
      equals it exactly when no element repeats. */
  lemma {:induction false} ElemsCard<T>(s: seq<T>)
    ensures |Elems(s)| <= |s|
    ensures |Elems(s)| == |s| <==> Distinct(s)
  {
    if s == [] {
    } else {
      var t := s[1..];
      ElemsCard(t);
      assert Elems(s) == {s[0]} + Elems(t);
      if s[0] in t {
        assert Elems(s) == Elems(t);
        var k :| 0 <= k < |t| && t[k] == s[0];
        assert s[0] == s[k + 1];
        assert !Distinct(s);
      } else {
        assert |Elems(s)| == |Elems(t)| + 1;
        if Distinct(t) {
          forall i, j | 0 <= i < j < |s| ensures s[i] != s[j] {
            if i == 0 {
              assert s[j] == t[j - 1];
            } else {
              assert s[i] == t[i - 1] && s[j] == t[j - 1];
            }
          }
        } else {
          var i, j :| 0 <= i < j < |t| && t[i] == t[j];
          assert s[i + 1] == s[j + 1];
        }
      }
    }
  }

  /** A finite set strictly inside another has fewer elements. */
  lemma {:induction false} ProperSubsetCard<T>(a: set<T>, b: set<T>)
    requires a <= b && a != b
    ensures |a| < |b|
  {
    var x :| x in b && x !in a;
    assert a <= b - {x};
    SubsetCard(a, b - {x});
  }

  /** A subset has no more elements than its superset. */
  lemma {:induction false} SubsetCard<T>(a: set<T>, b: set<T>)
    requires a <= b
    ensures |a| <= |b|
    decreases |b|
  {
    if a != {} {
      var x :| x in a;
      SubsetCard(a - {x}, b - {x});
    }
  }

  /** The sequence with every occurrence of `x` taken out, order kept. */
  function Without<T(==)>(s: seq<T>, x: T): (r: seq<T>)
    ensures forall i :: 0 <= i < |r| ==> r[i] in s && r[i] != x
    ensures forall i :: 0 <= i < |s| && s[i] != x ==> s[i] in r
    ensures |r| <= |s|
  {
    if s == [] then []
    else if s[0] == x then Without(s[1..], x)
    else [s[0]] + Without(s[1..], x)
  }

  /** `rank` is defined on every element and decreases strictly along `s`. */
  ghost predicate Decreasing<T>(s: seq<T>, rank: map<T, nat>) {
    && (forall i :: 0 <= i < |s| ==> s[i] in rank)
    && (forall i, j :: 0 <= i < j < |s| ==> rank[s[i]] > rank[s[j]])
  }

  /** Taking an element out keeps the rest in their relative order: a rank
      that decreases along `s` still decreases along `Without(s, x)`. */
  lemma {:induction false} WithoutKeepsDecreasing<T>(s: seq<T>, x: T, rank: map<T, nat>)
    requires Decreasing(s, rank)
    ensures Decreasing(Without(s, x), rank)
  {
    if s != [] {
      var t := s[1..];
      assert Decreasing(t, rank) by {
        forall i, j | 0 <= i < j < |t| ensures rank[t[i]] > rank[t[j]] {
          assert t[i] == s[i + 1] && t[j] == s[j + 1];
        }
      }
      WithoutKeepsDecreasing(t, x, rank);
      var w := Without(t, x);
      if s[0] != x {
        forall j | 0 <= j < |w| ensures rank[s[0]] > rank[w[j]] {
          var k :| 0 <= k < |t| && t[k] == w[j];
          assert s[k + 1] == w[j];
        }
        DecreasingCons(s[0], w, rank);
        assert Without(s, x) == [s[0]] + w;
      }
    }
  }

  /** Putting an element of higher rank in front keeps a sequence decreasing. */
  lemma DecreasingCons<T>(a: T, w: seq<T>, rank: map<T, nat>)
    requires a in rank && Decreasing(w, rank)
    requires forall j :: 0 <= j < |w| ==> rank[a] > rank[w[j]]
    ensures Decreasing([a] + w, rank)
  {
    var r := [a] + w;
    forall i | 0 <= i < |r| ensures r[i] in rank {
      if i > 0 { assert r[i] == w[i - 1]; }
    }
    forall i, j | 0 <= i < j < |r| ensures rank[r[i]] > rank[r[j]] {
      assert r[j] == w[j - 1];
      if i > 0 { assert r[i] == w[i - 1]; }
    }
  }
}
