/** The sliding window over yawn timestamps. */
module YawnWindow {
  import opened Config

  ghost predicate Sorted(s: seq<real>)
  {
    forall i, j :: 0 <= i < j < |s| ==> s[i] <= s[j]
  }

  /** True when xs can be obtained from ys by deleting elements, keeping the order. */
  predicate IsSubsequence(xs: seq<real>, ys: seq<real>)
    decreases |ys|
  {
    if xs == [] then true
    else if ys == [] then false
    else if xs[0] == ys[0] then IsSubsequence(xs[1..], ys[1..])
    else IsSubsequence(xs, ys[1..])
  }

  /** The timestamps no more than TimeWindow seconds before now, in their original order. */
  function Prune(timestamps: seq<real>, now: real): (r: seq<real>)
    ensures |r| <= |timestamps|
    ensures forall t :: t in r <==> t in timestamps && now - t <= TimeWindow
    ensures forall t :: multiset(r)[t] == if now - t <= TimeWindow then multiset(timestamps)[t] else 0
  {
    if timestamps == [] then []
    else
      assert timestamps == [timestamps[0]] + timestamps[1..];
      if now - timestamps[0] <= TimeWindow then [timestamps[0]] + Prune(timestamps[1..], now)
      else Prune(timestamps[1..], now)
  }

  /** Pruning distributes over concatenation: survivors stay in their relative order. */
  lemma {:induction false} PruneAppend(a: seq<real>, b: seq<real>, now: real)
    ensures Prune(a + b, now) == Prune(a, now) + Prune(b, now)
  {
    if a == [] {
      assert a + b == b;
    } else {
      assert (a + b)[0] == a[0];
      assert (a + b)[1..] == a[1..] + b;
      PruneAppend(a[1..], b, now);
    }
  }

  /** The pruned log is a subsequence of the log it came from. */
  lemma {:induction false} PruneIsSubsequence(timestamps: seq<real>, now: real)
    ensures IsSubsequence(Prune(timestamps, now), timestamps)
  {
    if timestamps != [] {
      PruneIsSubsequence(timestamps[1..], now);
      var rest := Prune(timestamps[1..], now);
      if now - timestamps[0] <= TimeWindow {
        assert ([timestamps[0]] + rest)[1..] == rest;
      } else {
        SubsequenceOfTail(rest, timestamps);
      }
    }
  }

  lemma {:induction false} SubsequenceOfTail(xs: seq<real>, ys: seq<real>)
    requires ys != [] && IsSubsequence(xs, ys[1..])
    ensures IsSubsequence(xs, ys)
    decreases |ys|, 1
  {
    if xs != [] && xs[0] == ys[0] {
      SubsequenceDropHead(xs, ys[1..]);
    }
  }

  lemma {:induction false} SubsequenceDropHead(xs: seq<real>, ys: seq<real>)
    requires xs != [] && IsSubsequence(xs, ys)
    ensures IsSubsequence(xs[1..], ys)
    decreases |ys|, 2
  {
    if xs[0] != ys[0] {
      SubsequenceDropHead(xs, ys[1..]);
    }
    SubsequenceOfTail(xs[1..], ys);
  }

  /** Pruning a sorted log leaves it sorted. */
  lemma {:induction false} PruneSorted(timestamps: seq<real>, now: real)
    requires Sorted(timestamps)
    ensures Sorted(Prune(timestamps, now))
  {
    if timestamps != [] {
      PruneSorted(timestamps[1..], now);
      var rest := Prune(timestamps[1..], now);
      if now - timestamps[0] <= TimeWindow {
        var r := [timestamps[0]] + rest;
        forall i, j | 0 <= i < j < |r| ensures r[i] <= r[j] {
          if i > 0 {
            assert r[i] == rest[i - 1] && r[j] == rest[j - 1];
          } else {
            assert r[j] in timestamps[1..];
          }
        }
      }
    }
  }

  /** Pruning twice at the same moment is pruning once. */
  lemma {:induction false} PruneIdempotent(timestamps: seq<real>, now: real)
    ensures Prune(Prune(timestamps, now), now) == Prune(timestamps, now)
  {
    if timestamps != [] {
      PruneIdempotent(timestamps[1..], now);
      if now - timestamps[0] <= TimeWindow {
        var rest := Prune(timestamps[1..], now);
        assert ([timestamps[0]] + rest)[1..] == rest;
      }
    }
  }
}
