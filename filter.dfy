/** The index-range exclusion of src/utils/filter.ts: given an ordered grid of
    time tokens and the two tokens of a busy interval, keep every grid entry
    strictly before the earlier token or strictly after the later one. */
module SlotFilter {

  /** A time-of-day token, canonically `HH:MM:SS`; compared as plain text. */
  type TimeToken = string

  function Min(a: int, b: int): (r: int) { if a <= b then a else b }

  function Max(a: int, b: int): (r: int) { if a <= b then b else a }

  /** `Array.prototype.indexOf`: the first position of `x` in `s`, or -1. */
  function IndexOf(s: seq<TimeToken>, x: TimeToken): (r: int)
    ensures -1 <= r < |s|
    ensures 0 <= r ==> s[r] == x
  {
    if s == [] then -1
    else if s[0] == x then 0
    else
      var k := IndexOf(s[1..], x);
      if k == -1 then -1 else k + 1
  }

  /** -1 exactly for a missing token; otherwise no earlier entry is the token. */
  lemma {:induction false} IndexOfFirstOccurrence(s: seq<TimeToken>, x: TimeToken)
    ensures IndexOf(s, x) == -1 <==> x !in s
    ensures 0 <= IndexOf(s, x) ==> forall k :: 0 <= k < IndexOf(s, x) ==> s[k] != x
  {
    if s != [] && s[0] != x {
      IndexOfFirstOccurrence(s[1..], x);
      assert s == [s[0]] + s[1..];
    }
  }

  /** `s.filter((_, index) => index < lo || index > hi)`: walks the sequence
      from its end so that every element is tested against its own index. */
  function KeepOutside(s: seq<TimeToken>, lo: int, hi: int): (r: seq<TimeToken>)
    ensures |r| <= |s|
  {
    if s == [] then []
    else
      var last := |s| - 1;
      KeepOutside(s[..last], lo, hi) + (if last < lo || last > hi then [s[last]] else [])
  }

  /** `filter(timeInt, startTime, endTime)` as written: both tokens are looked
      up by first occurrence, a miss of either yields the empty list, and
      otherwise the inclusive index range between them is dropped. */
  function Filter(timeInt: seq<TimeToken>, startTime: TimeToken, endTime: TimeToken): (r: seq<TimeToken>)
  {
    var i := IndexOf(timeInt, startTime);
    var j := IndexOf(timeInt, endTime);
    if i == -1 || j == -1 then []
    else KeepOutside(timeInt, Min(i, j), Max(i, j))
  }

  /** No token occurs twice. */
  ghost predicate Distinct(s: seq<TimeToken>)
  {
    forall i, j :: 0 <= i < j < |s| ==> s[i] != s[j]
  }

  /** `a` is obtained from `b` by deleting entries, keeping the order of the rest. */
  ghost predicate IsSubsequence(a: seq<TimeToken>, b: seq<TimeToken>)
    decreases |b|
  {
    if a == [] then true
    else if b == [] then false
    else
      (a[|a| - 1] == b[|b| - 1] && IsSubsequence(a[..|a| - 1], b[..|b| - 1]))
      || IsSubsequence(a, b[..|b| - 1])
  }

  /** The index filter is the prefix before `lo` followed by the suffix after `hi`. */
  lemma {:induction false} KeepOutsideSlices(s: seq<TimeToken>, lo: int, hi: int)
    requires 0 <= lo <= hi
    ensures KeepOutside(s, lo, hi) == s[..Min(lo, |s|)] + s[Min(hi + 1, |s|)..]
  {
    if s != [] {
      var last := |s| - 1;
      var p := s[..last];
      KeepOutsideSlices(p, lo, hi);
      if last < lo {
        assert p[..Min(lo, |p|)] == p;
        assert p + [s[last]] == s;
      } else if last <= hi {
        assert p[Min(hi + 1, |p|)..] == [];
        assert p[..lo] == s[..lo];
      } else {
        assert p[..lo] == s[..lo];
        assert p[hi + 1..] + [s[last]] == s[hi + 1..];
      }
    }
  }

  /** A token missing from the grid, as start or as end, gives the empty
      list, not the grid. */
  lemma FilterUnmatched(timeInt: seq<TimeToken>, startTime: TimeToken, endTime: TimeToken)
    requires startTime !in timeInt || endTime !in timeInt
    ensures Filter(timeInt, startTime, endTime) == []
  {
  }

  /** `IndexOf` finds exactly the first occurrence. */
  lemma IndexOfFirst(s: seq<TimeToken>, x: TimeToken, i: int)
    requires 0 <= i < |s| && s[i] == x
    requires forall k :: 0 <= k < i ==> s[k] != x
    ensures IndexOf(s, x) == i
  {
    IndexOfFirstOccurrence(s, x);
  }

  /** When both tokens occur, at first positions `i` and `j`, the result is the
      grid without the inclusive range between them, and exactly that many
      entries are gone. */
  lemma FilterMatched(timeInt: seq<TimeToken>, startTime: TimeToken, endTime: TimeToken, i: int, j: int)
    requires 0 <= i < |timeInt| && timeInt[i] == startTime
    requires forall k :: 0 <= k < i ==> timeInt[k] != startTime
    requires 0 <= j < |timeInt| && timeInt[j] == endTime
    requires forall k :: 0 <= k < j ==> timeInt[k] != endTime
    ensures Filter(timeInt, startTime, endTime) == timeInt[..Min(i, j)] + timeInt[Max(i, j) + 1..]
    ensures |Filter(timeInt, startTime, endTime)| == |timeInt| - (Max(i, j) - Min(i, j) + 1)
  {
    IndexOfFirst(timeInt, startTime, i);
    IndexOfFirst(timeInt, endTime, j);
    KeepOutsideSlices(timeInt, Min(i, j), Max(i, j));
  }

  /** The order of the two tokens does not matter. */
  lemma FilterSymmetric(timeInt: seq<TimeToken>, startTime: TimeToken, endTime: TimeToken)
    ensures Filter(timeInt, startTime, endTime) == Filter(timeInt, endTime, startTime)
  {
  }

  /** An interval whose start and end are the same grid token removes that one entry. */
  lemma FilterSameToken(timeInt: seq<TimeToken>, token: TimeToken)
    requires token in timeInt
    ensures |Filter(timeInt, token, token)| == |timeInt| - 1
  {
    var i := IndexOf(timeInt, token);
    IndexOfFirstOccurrence(timeInt, token);
    FilterMatched(timeInt, token, token, i, i);
  }

  lemma {:induction false} KeepOutsideIsSubsequence(s: seq<TimeToken>, lo: int, hi: int)
    ensures IsSubsequence(KeepOutside(s, lo, hi), s)
  {
    if s != [] {
      var last := |s| - 1;
      var p := s[..last];
      var k := KeepOutside(p, lo, hi);
      KeepOutsideIsSubsequence(p, lo, hi);
      if last < lo || last > hi {
        assert (k + [s[last]])[..|k|] == k;
      } else {
        assert KeepOutside(s, lo, hi) == k;
        SubsequenceExtend(k, p, s[last]);
        assert p + [s[last]] == s;
      }
    }
  }

  /** Appending to the longer sequence keeps a subsequence a subsequence. */
  lemma SubsequenceExtend(a: seq<TimeToken>, b: seq<TimeToken>, x: TimeToken)
    requires IsSubsequence(a, b)
    ensures IsSubsequence(a, b + [x])
  {
  }

  /** A subsequence never holds an entry more often than the original. */
  lemma {:induction false} SubsequenceMultiset(a: seq<TimeToken>, b: seq<TimeToken>)
    requires IsSubsequence(a, b)
    ensures multiset(a) <= multiset(b)
    decreases |b|
  {
    if a != [] {
      var bl := b[..|b| - 1];
      assert b == bl + [b[|b| - 1]];
      if a[|a| - 1] == b[|b| - 1] && IsSubsequence(a[..|a| - 1], bl) {
        SubsequenceMultiset(a[..|a| - 1], bl);
        assert a == a[..|a| - 1] + [a[|a| - 1]];
      } else {
        SubsequenceMultiset(a, bl);
      }
    }
  }

  /** The result keeps grid entries in grid order, so every one of them is a
      grid entry and none is repeated more often than in the grid. */
  lemma FilterIsSubsequence(timeInt: seq<TimeToken>, startTime: TimeToken, endTime: TimeToken)
    ensures IsSubsequence(Filter(timeInt, startTime, endTime), timeInt)
    ensures multiset(Filter(timeInt, startTime, endTime)) <= multiset(timeInt)
    ensures forall x :: x in Filter(timeInt, startTime, endTime) ==> x in timeInt
  {
    var r := Filter(timeInt, startTime, endTime);
    var i := IndexOf(timeInt, startTime);
    var j := IndexOf(timeInt, endTime);
    if 0 <= i && 0 <= j {
      KeepOutsideIsSubsequence(timeInt, Min(i, j), Max(i, j));
    }
    SubsequenceMultiset(r, timeInt);
    forall x | x in r ensures x in timeInt {
      assert x in multiset(r);
    }
  }

  /** On a grid without repeats, a grid entry survives exactly when its index
      lies outside the range spanned by the two tokens; in particular the
      start token, the end token and everything between them are gone. */
  lemma FilterExcludesRange(timeInt: seq<TimeToken>, startTime: TimeToken, endTime: TimeToken, i: int, j: int)
    requires Distinct(timeInt)
    requires 0 <= i < |timeInt| && timeInt[i] == startTime
    requires 0 <= j < |timeInt| && timeInt[j] == endTime
    ensures forall k :: 0 <= k < |timeInt| ==>
      (timeInt[k] in Filter(timeInt, startTime, endTime) <==> k < Min(i, j) || k > Max(i, j))
    ensures startTime !in Filter(timeInt, startTime, endTime)
    ensures endTime !in Filter(timeInt, startTime, endTime)
  {
    var lo, hi := Min(i, j), Max(i, j);
    FilterMatched(timeInt, startTime, endTime, i, j);
    var r := Filter(timeInt, startTime, endTime);
    assert |r| == lo + (|timeInt| - hi - 1);
    forall k | 0 <= k < |timeInt|
      ensures timeInt[k] in r <==> k < lo || k > hi
    {
      if k < lo {
        assert r[k] == timeInt[k];
      } else if k > hi {
        assert r[k - hi - 1 + lo] == timeInt[k];
      } else {
        forall m | 0 <= m < |r| ensures r[m] != timeInt[k] {
          if m < lo {
            assert r[m] == timeInt[m];
          } else {
            assert r[m] == timeInt[m - lo + hi + 1];
          }
        }
      }
    }
  }

  /** On a grid without repeats no token occurs more than once. */
  lemma {:induction false} DistinctAtMostOnce(s: seq<TimeToken>, x: TimeToken)
    requires Distinct(s)
    ensures multiset(s)[x] <= 1
    ensures x in s ==> multiset(s)[x] == 1
  {
    if s != [] {
      var p := s[..|s| - 1];
      assert s == p + [s[|s| - 1]];
      assert Distinct(p);
      DistinctAtMostOnce(p, x);
      if s[|s| - 1] == x {
        assert x !in p by {
          forall m | 0 <= m < |p| ensures p[m] != x {
            assert s[m] != s[|s| - 1];
          }
        }
      }
    }
  }
}
