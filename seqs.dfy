/**
 * Sequence operations the engine is built from: counting, order-preserving
 * filtering, masks, and the first-occurrence deduplication of
 * `DataFrame.duplicated()` / `DataFrame.drop_duplicates()`.
 */
module Seqs {
  import opened Wrappers

  /** Concatenation is associative. */
  lemma AppendAssoc<T>(a: seq<T>, b: seq<T>, c: seq<T>)
    ensures a + b + c == a + (b + c)
  {
  }

  /** Putting `s`'s head in front of a reordering of its tail plus `r` reorders `s` plus `r`. */
  lemma ConsMultiset<T>(s: seq<T>, rest: seq<T>, r: T)
    requires s != [] && multiset(rest) == multiset(s[1..]) + multiset{r}
    ensures multiset([s[0]] + rest) == multiset(s) + multiset{r}
  {
    assert s == [s[0]] + s[1..];
  }

  /** Number of elements of `s` that satisfy `p`. */
  function Count<T>(s: seq<T>, p: T -> bool): (n: nat)
    ensures n <= |s|
    ensures n == 0 <==> forall i :: 0 <= i < |s| ==> !p(s[i])
  {
    if s == [] then 0
    else Count(s[..|s| - 1], p) + (if p(s[|s| - 1]) then 1 else 0)
  }

  lemma {:induction false} CountAppend<T>(a: seq<T>, b: seq<T>, p: T -> bool)
    ensures Count(a + b, p) == Count(a, p) + Count(b, p)
    decreases |b|
  {
    if b == [] {
      assert a + b == a;
    } else {
      assert (a + b)[..|a + b| - 1] == a + b[..|b| - 1];
      CountAppend(a, b[..|b| - 1], p);
    }
  }

  /** The elements of `s` that satisfy `p`, in their original order. */
  function Filter<T>(s: seq<T>, p: T -> bool): (r: seq<T>)
    ensures |r| == Count(s, p)
  {
    if s == [] then []
    else Filter(s[..|s| - 1], p) + (if p(s[|s| - 1]) then [s[|s| - 1]] else [])
  }

  /**
   * `idx` embeds `a` into `b` preserving order: the k-th element of `a` is
   * the `idx[k]`-th element of `b`, and the positions strictly increase.
   */
  ghost predicate Embeds<T>(a: seq<T>, b: seq<T>, idx: seq<nat>) {
    |idx| == |a| &&
    (forall k :: 0 <= k < |idx| ==> idx[k] < |b| && a[k] == b[idx[k]]) &&
    (forall k, l :: 0 <= k < l < |idx| ==> idx[k] < idx[l])
  }

  /**
   * Filtering keeps exactly the positions whose element satisfies `p`, in
   * increasing order.
   */
  lemma {:induction false} FilterPositions<T>(s: seq<T>, p: T -> bool) returns (idx: seq<nat>)
    ensures Embeds(Filter(s, p), s, idx)
    ensures forall i :: 0 <= i < |s| ==> (p(s[i]) <==> i in idx)
  {
    if s == [] {
      idx := [];
    } else {
      var n := |s| - 1;
      var prev := FilterPositions(s[..n], p);
      assert s == s[..n] + [s[n]];
      EmbedStep(Filter(s[..n], p), s[..n], prev, s[n], p(s[n]));
      idx := prev + (if p(s[n]) then [n] else []);
      forall i | 0 <= i < |s| ensures p(s[i]) <==> i in idx {
        if i < n {
          assert s[..n][i] == s[i];
          assert i in prev <==> i in idx;
        }
      }
    }
  }

  /** An embedding extends by one element of `b`, kept or not. */
  lemma EmbedStep<T>(a: seq<T>, b: seq<T>, idx: seq<nat>, x: T, keep: bool)
    requires Embeds(a, b, idx)
    ensures Embeds(a + (if keep then [x] else []), b + [x], idx + (if keep then [|b|] else []))
  {
    var a', b', idx' := a + (if keep then [x] else []), b + [x], idx + (if keep then [|b|] else []);
    forall k | 0 <= k < |idx'| ensures idx'[k] < |b'| && a'[k] == b'[idx'[k]] {
      if k < |idx| {
        assert b'[idx[k]] == b[idx[k]];
      }
    }
  }

  lemma {:induction false} FilterAll<T>(s: seq<T>, p: T -> bool)
    requires forall i :: 0 <= i < |s| ==> p(s[i])
    ensures Filter(s, p) == s
  {
    if s != [] {
      FilterAll(s[..|s| - 1], p);
      assert s[..|s| - 1] + [s[|s| - 1]] == s;
    }
  }

  /**
   * Filtering twice is filtering once by the conjunction (stated with a third
   * predicate `r`, since Dafny has no equality of function values).
   */
  lemma {:induction false} FilterFilter<T>(s: seq<T>, p: T -> bool, q: T -> bool, r: T -> bool)
    requires forall x :: r(x) == (p(x) && q(x))
    ensures Filter(Filter(s, p), q) == Filter(s, r)
  {
    if s != [] {
      var n := |s| - 1;
      FilterFilter(s[..n], p, q, r);
      var fp := Filter(s[..n], p);
      if p(s[n]) {
        assert Filter(s, p)[..|Filter(s, p)| - 1] == fp;
      } else {
        assert Filter(s, p) == fp;
      }
    }
  }

  /** No element occurs twice. */
  predicate Distinct<T(==)>(s: seq<T>) {
    forall i, j :: 0 <= i < j < |s| ==> s[i] != s[j]
  }

  /** `DataFrame.duplicated()` with keep='first': position `i` repeats an earlier element. */
  predicate IsRepeat<T(==)>(s: seq<T>, i: nat)
    requires i < |s|
  {
    s[i] in s[..i]
  }

  /** `DataFrame.duplicated().sum()`: how many positions repeat an earlier element. */
  function RepeatCount<T(==)>(s: seq<T>): (n: nat)
    ensures n <= |s|
    ensures n == 0 <==> Distinct(s)
  {
    if s == [] then 0
    else
      var n := |s| - 1;
      assert s[..n][..n] == s[..n];
      RepeatCount(s[..n]) + (if IsRepeat(s, n) then 1 else 0)
  }

  /**
   * `drop_duplicates()` with keep='first': every element whose position is
   * not a repeat, in order.
   */
  function Dedup<T(==)>(s: seq<T>): (r: seq<T>)
    ensures forall i :: 0 <= i < |r| ==> r[i] in s
    ensures |r| + RepeatCount(s) == |s|
    ensures Distinct(r)
  {
    if s == [] then []
    else
      var n := |s| - 1;
      assert s[..n][..n] == s[..n];
      if IsRepeat(s, n) then Dedup(s[..n]) else Dedup(s[..n]) + [s[n]]
  }

  /**
   * Deduplication keeps exactly the first occurrences, in their original
   * order.
   */
  lemma {:induction false} DedupPositions<T>(s: seq<T>) returns (idx: seq<nat>)
    ensures Embeds(Dedup(s), s, idx)
    ensures forall i :: 0 <= i < |s| ==> (!IsRepeat(s, i) <==> i in idx)
  {
    if s == [] {
      idx := [];
    } else {
      var n := |s| - 1;
      assert s[..n][..n] == s[..n];
      var prev := DedupPositions(s[..n]);
      var d, r := Dedup(s[..n]), Dedup(s);
      assert forall k :: 0 <= k < |prev| ==> prev[k] < n && d[k] == s[prev[k]];
      if IsRepeat(s, n) {
        idx := prev;
        assert r == d;
      } else {
        idx := prev + [n];
        assert r == d + [s[n]];
      }
      forall i | 0 <= i < |s| ensures !IsRepeat(s, i) <==> i in idx {
        if i < n {
          assert s[..n][..i] == s[..i];
          assert IsRepeat(s, i) == IsRepeat(s[..n], i);
        }
      }
    }
  }

  /** Deduplicating a sequence without repeats changes nothing. */
  lemma {:induction false} DedupDistinct<T>(s: seq<T>)
    requires Distinct(s)
    ensures Dedup(s) == s
  {
    if s != [] {
      var n := |s| - 1;
      assert s[..n][..n] == s[..n];
      assert !IsRepeat(s, n);
      DedupDistinct(s[..n]);
      assert s[..n] + [s[n]] == s;
    }
  }

  /** `drop_duplicates()` is idempotent. */
  lemma DedupIdempotent<T>(s: seq<T>)
    ensures Dedup(Dedup(s)) == Dedup(s)
  {
    DedupDistinct(Dedup(s));
  }

  /** The elements of `s` whose mask entry is true, in order. */
  function Keep<T>(s: seq<T>, mask: seq<bool>): (r: seq<T>)
    requires |mask| == |s|
    ensures |r| == Count(mask, IsTrue)
  {
    if s == [] then []
    else
      var n := |s| - 1;
      Keep(s[..n], mask[..n]) + (if mask[n] then [s[n]] else [])
  }

  predicate IsTrue(b: bool) { b }

  /** Position in the original sequence of the k-th kept element. */
  function KeptPosition(mask: seq<bool>, k: nat): (i: nat)
    requires k < Count(mask, IsTrue)
    ensures i < |mask| && mask[i]
    ensures Count(mask[..i], IsTrue) == k
  {
    var n := |mask| - 1;
    assert mask[..n][..n] == mask[..n];
    if k < Count(mask[..n], IsTrue) then
      var i := KeptPosition(mask[..n], k);
      assert mask[..n][..i] == mask[..i];
      i
    else n
  }

  /** The k-th kept element is the element at the k-th true mask position. */
  lemma {:induction false} KeepAt<T>(s: seq<T>, mask: seq<bool>, k: nat)
    requires |mask| == |s| && k < Count(mask, IsTrue)
    ensures Keep(s, mask)[k] == s[KeptPosition(mask, k)]
  {
    var n := |s| - 1;
    if k < Count(mask[..n], IsTrue) {
      KeepAt(s[..n], mask[..n], k);
    }
  }

  /** A true mask entry at `a` makes the count of any longer prefix larger. */
  lemma CountPrefixStrict(mask: seq<bool>, a: nat, b: nat)
    requires a < b <= |mask| && mask[a]
    ensures Count(mask[..a], IsTrue) < Count(mask[..b], IsTrue)
  {
    assert mask[..b] == mask[..a] + mask[a..b];
    CountAppend(mask[..a], mask[a..b], IsTrue);
    assert mask[a..b][0] == mask[a];
  }

  /** An element at a true mask position is kept. */
  lemma KeptMember<T>(s: seq<T>, mask: seq<bool>, j: nat)
    requires |mask| == |s| && j < |s| && mask[j]
    ensures s[j] in Keep(s, mask)
  {
    KeptPositionOnto(mask, j);
    KeepAt(s, mask, Count(mask[..j], IsTrue));
  }

  /** Among distinct elements, a kept one sits at a true mask position. */
  lemma MemberKept<T>(s: seq<T>, mask: seq<bool>, j: nat)
    requires |mask| == |s| && Distinct(s) && j < |s| && s[j] in Keep(s, mask)
    ensures mask[j]
  {
    var kept := Keep(s, mask);
    var k :| 0 <= k < |kept| && kept[k] == s[j];
    KeepAt(s, mask, k);
    var i := KeptPosition(mask, k);
    assert s[i] == s[j];
    assert i == j;
  }

  /** Kept positions strictly increase with k. */
  lemma KeptPositionMonotone(mask: seq<bool>, k: nat, l: nat)
    requires k < l < Count(mask, IsTrue)
    ensures KeptPosition(mask, k) < KeptPosition(mask, l)
  {
    var i, j := KeptPosition(mask, k), KeptPosition(mask, l);
    if j < i {
      CountPrefixStrict(mask, j, i);
    }
  }

  /** Every true mask position is the position of some kept element. */
  lemma KeptPositionOnto(mask: seq<bool>, i: nat)
    requires i < |mask| && mask[i]
    ensures Count(mask[..i], IsTrue) < Count(mask, IsTrue)
    ensures KeptPosition(mask, Count(mask[..i], IsTrue)) == i
  {
    var k := Count(mask[..i], IsTrue);
    assert mask[..|mask|] == mask;
    CountPrefixStrict(mask, i, |mask|);
    var j := KeptPosition(mask, k);
    if j < i {
      CountPrefixStrict(mask, j, i);
    } else if i < j {
      CountPrefixStrict(mask, i, j);
    }
  }

  /** The values of the present entries, in order (a list built by a guarded `append` in a loop). */
  function Somes<T>(s: seq<Option<T>>): (r: seq<T>)
    ensures |r| <= |s|
  {
    if s == [] then []
    else
      var n := |s| - 1;
      Somes(s[..n]) + (if s[n].Some? then [s[n].value] else [])
  }

  /** Appending one entry to the scanned prefix appends its value, if present. */
  lemma SomesStep<T>(s: seq<Option<T>>, j: nat)
    requires j < |s|
    ensures Somes(s[..j + 1]) == Somes(s[..j]) + (if s[j].Some? then [s[j].value] else [])
  {
    assert s[..j + 1][..j] == s[..j];
  }

  /**
   * Every value comes from a present entry, each present entry gives
   * exactly one value, and values keep the order of their entries.
   */
  lemma {:induction false} SomesPositions<T>(s: seq<Option<T>>) returns (idx: seq<nat>)
    ensures |idx| == |Somes(s)|
    ensures forall k :: 0 <= k < |idx| ==> idx[k] < |s| && s[idx[k]] == Some(Somes(s)[k])
    ensures forall k, l :: 0 <= k < l < |idx| ==> idx[k] < idx[l]
    ensures forall i :: 0 <= i < |s| ==> (s[i].Some? <==> i in idx)
  {
    if s == [] {
      idx := [];
    } else {
      var n := |s| - 1;
      var prev := SomesPositions(s[..n]);
      var r, p := Somes(s), Somes(s[..n]);
      idx := prev + (if s[n].Some? then [n] else []);
      assert r == p + (if s[n].Some? then [s[n].value] else []);
      forall k | 0 <= k < |idx| ensures idx[k] < |s| && s[idx[k]] == Some(r[k]) {
        if k < |prev| {
          assert s[..n][prev[k]] == s[prev[k]];
        }
      }
      forall k, l | 0 <= k < l < |idx| ensures idx[k] < idx[l] {
        if l >= |prev| {
          assert idx[k] == prev[k] < n;
        }
      }
      forall i | 0 <= i < |s| ensures s[i].Some? <==> i in idx {
        if i < n {
          assert s[..n][i] == s[i];
          assert i in prev <==> i in idx;
        }
      }
    }
  }

  /** No value is collected exactly when every entry is absent. */
  lemma SomesEmpty<T>(s: seq<Option<T>>)
    ensures Somes(s) == [] <==> forall i :: 0 <= i < |s| ==> s[i].None?
  {
    var idx := SomesPositions(s);
    if Somes(s) != [] {
      assert s[idx[0]].Some?;
    }
  }
}
