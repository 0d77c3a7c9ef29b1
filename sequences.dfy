/** Facts about sequences used by the card model: distinctness, the set of elements, flattening. */
module Sequences {

  /** No element occurs twice. */
  predicate Distinct<T(==)>(s: seq<T>) {
    forall i, j :: 0 <= i < j < |s| ==> s[i] != s[j]
  }

  /** The elements of `s` as a set, as JavaScript's `new Set(s)`. */
  function ToSet<T>(s: seq<T>): set<T> {
    set x | x in s
  }

  /** Concatenation of a sequence of groups, in order. */
  function Flatten<T>(gs: seq<seq<T>>): seq<T> {
    if gs == [] then [] else gs[0] + Flatten(gs[1..])
  }

  lemma {:induction false} FlattenAppend<T>(a: seq<seq<T>>, b: seq<seq<T>>)
    ensures Flatten(a + b) == Flatten(a) + Flatten(b)
  {
    if a != [] {
      assert (a + b)[0] == a[0] && (a + b)[1..] == a[1..] + b;
      FlattenAppend(a[1..], b);
      calc {
        Flatten(a + b);
        a[0] + Flatten(a[1..] + b);
        a[0] + (Flatten(a[1..]) + Flatten(b));
      }
    } else {
      assert a + b == b;
    }
  }

  /** A sequence has as many distinct elements as it has positions exactly when none repeats. */
  lemma {:induction false} DistinctCardinality<T>(s: seq<T>)
    ensures |ToSet(s)| <= |s|
    ensures |ToSet(s)| == |s| <==> Distinct(s)
  {
    if s != [] {
      var t := s[1..];
      DistinctCardinality(t);
      assert ToSet(s) == {s[0]} + ToSet(t);
      if s[0] in t {
        assert ToSet(s) == ToSet(t);
        var k :| 0 <= k < |t| && t[k] == s[0];
        assert s[0] == s[k + 1];
      } else {
        assert ToSet(s) - {s[0]} == ToSet(t);
        if Distinct(t) {
          forall i, j | 0 <= i < j < |s| ensures s[i] != s[j] {
            if i > 0 { assert s[i] == t[i - 1] && s[j] == t[j - 1]; }
            else { assert s[j] in t; }
          }
        } else {
          var i, j :| 0 <= i < j < |t| && t[i] == t[j];
          assert s[i + 1] == s[j + 1];
        }
      }
    }
  }

  /** Distinctness in terms of multiplicities. */
  lemma {:induction false} DistinctMultiset<T>(s: seq<T>)
    ensures Distinct(s) <==> forall x :: multiset(s)[x] <= 1
  {
    if s != [] {
      var t := s[1..];
      assert s == [s[0]] + t;
      DistinctMultiset(t);
      if Distinct(s) {
        assert Distinct(t) by {
          forall i, j | 0 <= i < j < |t| ensures t[i] != t[j] { assert t[i] == s[i + 1] && t[j] == s[j + 1]; }
        }
        assert s[0] !in t by {
          forall k | 0 <= k < |t| ensures t[k] != s[0] { assert t[k] == s[k + 1]; }
        }
        forall x ensures multiset(s)[x] <= 1 {
          assert multiset(s)[x] == multiset(t)[x] + (if x == s[0] then 1 else 0);
        }
      } else {
        var i, j :| 0 <= i < j < |s| && s[i] == s[j];
        if i == 0 {
          assert s[j] == t[j - 1];
          assert multiset(t)[s[0]] >= 1;
          assert multiset(s)[s[0]] == multiset(t)[s[0]] + 1;
        } else {
          assert t[i - 1] == t[j - 1];
          assert !Distinct(t);
          var x :| multiset(t)[x] > 1;
          assert multiset(s)[x] >= multiset(t)[x];
        }
      }
    }
  }

  /** Distinctness depends only on the multiset of elements. */
  lemma DistinctPermutation<T>(s: seq<T>, t: seq<T>)
    requires multiset(s) == multiset(t)
    ensures Distinct(s) <==> Distinct(t)
  {
    DistinctMultiset(s);
    DistinctMultiset(t);
  }

  /** Removing a slice keeps the remaining elements distinct. */
  lemma DistinctWithoutSlice<T>(s: seq<T>, i: nat, j: nat)
    requires i <= j <= |s| && Distinct(s)
    ensures Distinct(s[..i] + s[j..])
  {
    var r := s[..i] + s[j..];
    forall a, b | 0 <= a < b < |r| ensures r[a] != r[b] {
      var a' := if a < i then a else a + (j - i);
      var b' := if b < i then b else b + (j - i);
      assert r[a] == s[a'] && r[b] == s[b'];
    }
  }

  /** Flattening a group followed by more groups. */
  lemma FlattenCons<T>(g: seq<T>, gs: seq<seq<T>>)
    ensures Flatten([g] + gs) == g + Flatten(gs)
  {
    assert ([g] + gs)[0] == g && ([g] + gs)[1..] == gs;
  }

  /** A group is never longer than the flattening of the groups it belongs to. */
  lemma {:induction false} FlattenMember<T>(gs: seq<seq<T>>, k: nat)
    requires k < |gs|
    ensures |gs[k]| <= |Flatten(gs)|
  {
    if k > 0 {
      FlattenMember(gs[1..], k - 1);
    }
  }

  /** A slice and what surrounds it hold the elements of the whole. */
  lemma SliceMultiset<T>(s: seq<T>, i: nat, j: nat)
    requires i <= j <= |s|
    ensures multiset(s[i..j]) + multiset(s[..i] + s[j..]) == multiset(s)
  {
    assert s == s[..i] + s[i..j] + s[j..];
  }

  /** Splicing out one element removes one occurrence of it. */
  lemma SpliceMultiset<T>(s: seq<T>, i: nat)
    requires i < |s|
    ensures multiset(s[..i] + s[i + 1..]) == multiset(s) - multiset{s[i]}
  {
    assert s == s[..i] + [s[i]] + s[i + 1..];
  }

  /** The empty slice. */
  lemma SliceNone<T>(s: seq<T>, i: nat)
    requires i <= |s|
    ensures s[i..i] == [] && s[..i] + s[i..] == s
  {
  }

  /** Slices of `s` seen through `s` with element `i` spliced out. */
  lemma SliceShift<T>(s: seq<T>, i: nat, j: nat)
    requires i < j <= |s|
    ensures var c := s[..i] + s[i + 1..];
      s[i..j][0] == s[i] && s[i..j][1..] == c[i..j - 1] && c[..i] + c[j - 1..] == s[..i] + s[j..]
  {
    var c := s[..i] + s[i + 1..];
    assert c[i..j - 1] == s[i + 1..j];
    assert c[..i] == s[..i] && c[j - 1..] == s[j..];
  }

  /** Popping the last element: the front and the last element make up the whole. */
  lemma PopMultiset<T>(s: seq<T>)
    requires |s| > 0
    ensures s == s[..|s| - 1] + [s[|s| - 1]]
    ensures multiset(s) == multiset(s[..|s| - 1]) + multiset{s[|s| - 1]}
  {
    assert s == s[..|s| - 1] + [s[|s| - 1]];
  }

  /** The tail of a sequence without repetitions has none either, and does not hold the head. */
  lemma DistinctTail<T>(s: seq<T>)
    requires |s| > 0 && Distinct(s)
    ensures Distinct(s[1..]) && s[0] !in s[1..]
    ensures forall y :: y in s <==> y == s[0] || y in s[1..]
  {
    assert s == [s[0]] + s[1..];
    forall i, j | 0 <= i < j < |s[1..]| ensures s[1..][i] != s[1..][j] {
      assert s[1..][i] == s[i + 1] && s[1..][j] == s[j + 1];
    }
    forall k | 0 <= k < |s[1..]| ensures s[1..][k] != s[0] {
      assert s[1..][k] == s[k + 1];
    }
  }

  /** The front of a sequence without repetitions has none either, and does not hold the last
      element. */
  lemma DistinctFront<T>(s: seq<T>)
    requires |s| > 0 && Distinct(s)
    ensures Distinct(s[..|s| - 1]) && s[|s| - 1] !in s[..|s| - 1]
    ensures forall y :: y in s <==> y == s[|s| - 1] || y in s[..|s| - 1]
  {
    var front := s[..|s| - 1];
    assert s == front + [s[|s| - 1]];
    forall i, j | 0 <= i < j < |front| ensures front[i] != front[j] {
      assert front[i] == s[i] && front[j] == s[j];
    }
    forall k | 0 <= k < |front| ensures front[k] != s[|s| - 1] {
      assert front[k] == s[k];
    }
  }

  /** Dropping `a` elements from the end and then `b` more drops `a + b`. */
  lemma PrefixOfPrefix<T>(s: seq<T>, a: nat, b: nat)
    requires a + b <= |s|
    ensures s[..|s| - a][..|s| - a - b] == s[..|s| - (a + b)]
  {
  }

  /** Picking the elements of `s` in the order of a permutation `perm` of its positions gives
      them all, as often as `s` has them. */
  lemma {:induction false} ReindexMultiset<T>(s: seq<T>, perm: seq<nat>, r: seq<T>)
    requires |perm| == |s| == |r| && Distinct(perm)
    requires forall k :: 0 <= k < |perm| ==> perm[k] < |s| && r[k] == s[perm[k]]
    ensures multiset(r) == multiset(s)
  {
    if s != [] {
      var n := |s|;
      var p := perm[n - 1];
      var s' := s[..p] + s[p + 1..];
      var perm' := seq(n - 1, k requires 0 <= k < n - 1 => if perm[k] > p then perm[k] - 1 else perm[k]);
      var r' := r[..n - 1];
      forall i, j | 0 <= i < j < n - 1 ensures perm'[i] != perm'[j] {
        assert perm[i] != perm[j] && perm[i] != p && perm[j] != p;
      }
      forall k | 0 <= k < n - 1 ensures perm'[k] < |s'| && r'[k] == s'[perm'[k]] {
        assert perm[k] != p;
      }
      ReindexMultiset(s', perm', r');
      SpliceMultiset(s, p);
      PopMultiset(r);
    }
  }
}
