/**
  * Sequence facts shared by the track extractors: the
  * `if track not in tracks: tracks.append(track)` idiom, and the
  * first-occurrence de-duplication it amounts to.
  */
module Seqs {

  /** No element occurs twice. */
  ghost predicate NoDup<T>(s: seq<T>) {
    forall i, j :: 0 <= i < j < |s| ==> s[i] != s[j]
  }

  /** Every occurrence in `s` of a later element of `d` is preceded, in `s`,
    * by an occurrence of each earlier element of `d`: `d` lists elements in
    * the order in which `s` first mentions them. */
  ghost predicate FirstOccurrenceOrder<T>(d: seq<T>, s: seq<T>) {
    forall i, j, q :: 0 <= i < j < |d| && 0 <= q < |s| && s[q] == d[j] ==> d[i] in s[..q]
  }

  /** Appends `x` unless it is already present. */
  function AddUnique<T(==, !new)>(acc: seq<T>, x: T): (r: seq<T>)
    ensures x in r && acc <= r
    ensures forall y :: y in r <==> y in acc || y == x
    ensures |r| <= |acc| + 1
    ensures NoDup(acc) ==> NoDup(r)
  {
    if x in acc then acc else acc + [x]
  }

  /** The reference de-duplication: keeps the first occurrence of each
    * element, in order. */
  function Dedup<T(==, !new)>(s: seq<T>): (r: seq<T>)
    ensures NoDup(r)
    ensures |r| <= |s|
  {
    if s == [] then [] else AddUnique(Dedup(s[..|s| - 1]), s[|s| - 1])
  }

  /** The de-duplicated sequence has exactly the elements of the input. */
  lemma {:induction false} DedupMembers<T(!new)>(s: seq<T>)
    ensures forall y :: y in Dedup(s) <==> y in s
  {
    if s != [] {
      var p := s[..|s| - 1];
      DedupMembers(p);
      assert s == p + [s[|s| - 1]];
    }
  }

  /** Extending the input by one element extends the result by it, unless
    * it was already there. */
  lemma DedupSnoc<T(!new)>(s: seq<T>, x: T)
    ensures Dedup(s + [x]) == AddUnique(Dedup(s), x)
  {
    assert (s + [x])[..|s + [x]| - 1] == s;
  }

  /** Appending elements already present changes nothing. */
  lemma {:induction false} DedupAbsorb<T(!new)>(s: seq<T>, u: seq<T>)
    requires forall x :: x in u ==> x in s
    ensures Dedup(s + u) == Dedup(s)
    decreases |u|
  {
    if u == [] {
      assert s + u == s;
    } else {
      var v, x := u[..|u| - 1], u[|u| - 1];
      assert s + u == (s + v) + [x];
      DedupAbsorb(s, v);
      DedupSnoc(s + v, x);
      DedupMembers(s + v);
      assert x in s + v;
    }
  }

  lemma {:induction false} DedupOrder<T(!new)>(s: seq<T>)
    ensures FirstOccurrenceOrder(Dedup(s), s)
  {
    if s != [] {
      var p, x := s[..|s| - 1], s[|s| - 1];
      DedupOrder(p);
      DedupMembers(p);
      var d, dp := Dedup(s), Dedup(p);
      assert s == p + [x];
      forall i, j, q | 0 <= i < j < |d| && 0 <= q < |s| && s[q] == d[j]
        ensures d[i] in s[..q]
      {
        assert d[i] in p;
        if q < |p| {
          assert s[q] == p[q];
          assert s[..q] == p[..q];
          assert d[j] == dp[j] && d[i] == dp[i];
        } else {
          assert s[..q] == p;
        }
      }
    }
  }

  /** Python's `s[:n]` for `n >= 0`. */
  function Take<T>(s: seq<T>, n: nat): (r: seq<T>)
    ensures |r| == if |s| <= n then |s| else n
    ensures r <= s
  {
    if |s| <= n then s else s[..n]
  }

  /** The concatenation of all parts, in order. */
  function Flatten<T>(parts: seq<seq<T>>): seq<T>
  {
    if parts == [] then [] else Flatten(parts[..|parts| - 1]) + parts[|parts| - 1]
  }

  /** An element of the concatenation comes from one of the parts, and
    * every element of every part is in it. */
  lemma {:induction false} FlattenMembers<T>(parts: seq<seq<T>>)
    ensures forall x :: x in Flatten(parts) ==> exists k :: 0 <= k < |parts| && x in parts[k]
    ensures forall x, k :: 0 <= k < |parts| && x in parts[k] ==> x in Flatten(parts)
  {
    if parts != [] {
      var init := parts[..|parts| - 1];
      FlattenMembers(init);
      forall x | x in Flatten(parts)
        ensures exists k :: 0 <= k < |parts| && x in parts[k]
      {
        if x !in parts[|parts| - 1] {
          assert x in Flatten(init);
          var k :| 0 <= k < |init| && x in init[k];
          assert parts[k] == init[k];
        }
      }
      forall x, k | 0 <= k < |parts| && x in parts[k]
        ensures x in Flatten(parts)
      {
        if k < |init| {
          assert init[k] == parts[k];
        }
      }
    }
  }

  lemma {:induction false} FlattenAppend<T>(a: seq<seq<T>>, b: seq<seq<T>>)
    ensures Flatten(a + b) == Flatten(a) + Flatten(b)
    decreases |b|
  {
    if b == [] {
      assert a + b == a;
    } else {
      var c := b[..|b| - 1];
      assert (a + b)[..|a + b| - 1] == a + c;
      FlattenAppend(a, c);
    }
  }
}
