/** One correlation rule and one aggregation key: the pruned list of match times, the
    threshold and the reset on alert, against a declarative reading of the same stream. */
module CorrelationKey {

  /** The loop that erases old entries from the front. */
  function Prune(ts: seq<int>, start: int): (r: seq<int>)
    ensures |r| <= |ts| && (r != [] ==> r[0] >= start)
  {
    if ts != [] && ts[0] < start then Prune(ts[1..], start) else ts
  }

  /** The list of a match at time t: appended, then pruned to the window. */
  function Window(ts: seq<int>, t: int, w: int): seq<int> { Prune(ts + [t], t - w) }

  /** The list after the threshold test: cleared by an alert. */
  function After(ts: seq<int>, t: int, w: int, threshold: nat): seq<int> {
    if |Window(ts, t, w)| >= threshold then [] else Window(ts, t, w)
  }

  /** The match times kept before match i of a stream. */
  function Kept(w: int, threshold: nat, stream: seq<int>, i: nat): (ts: seq<int>)
    requires i <= |stream|
    ensures ts == [] || |ts| < threshold
  {
    if i == 0 then [] else After(Kept(w, threshold, stream, i - 1), stream[i - 1], w, threshold)
  }

  function MatchCount(w: int, threshold: nat, stream: seq<int>, i: nat): nat
    requires i < |stream|
  {
    |Window(Kept(w, threshold, stream, i), stream[i], w)|
  }

  predicate FiresAt(w: int, threshold: nat, stream: seq<int>, i: nat)
    requires i < |stream|
  {
    MatchCount(w, threshold, stream, i) >= threshold
  }

  /** The first match after the last alert before match i. */
  function Since(w: int, threshold: nat, stream: seq<int>, i: nat): (j: nat)
    requires i <= |stream|
    ensures j <= i
  {
    if i == 0 || FiresAt(w, threshold, stream, i - 1) then i else Since(w, threshold, stream, i - 1)
  }

  /** How many of a list of times lie at or after `start`. */
  function CountFrom(ts: seq<int>, start: int): nat {
    if ts == [] then 0 else (if ts[0] >= start then 1 else 0) + CountFrom(ts[1..], start)
  }

  predicate NonDecreasing(ts: seq<int>) { forall i, j :: 0 <= i < j < |ts| ==> ts[i] <= ts[j] }

  predicate AtMost(ts: seq<int>, bound: int) { forall i :: 0 <= i < |ts| ==> ts[i] <= bound }

  lemma {:induction false} SinceMeaning(w: int, threshold: nat, stream: seq<int>, i: nat)
    requires i <= |stream|
    ensures var j := Since(w, threshold, stream, i);
            && (forall k :: j <= k < i ==> !FiresAt(w, threshold, stream, k))
            && (j > 0 ==> FiresAt(w, threshold, stream, j - 1))
  {
    if i > 0 && !FiresAt(w, threshold, stream, i - 1) { SinceMeaning(w, threshold, stream, i - 1); }
  }

  lemma {:induction false} PruneAgain(a: seq<int>, b: seq<int>, early: int, late: int)
    requires early <= late
    ensures Prune(a + b, late) == Prune(Prune(a, early) + b, late)
  {
    if a != [] && a[0] < early {
      assert (a + b)[1..] == a[1..] + b;
      PruneAgain(a[1..], b, early, late);
    }
  }

  lemma {:induction false} AllCounted(ts: seq<int>, start: int)
    requires forall i :: 0 <= i < |ts| ==> ts[i] >= start
    ensures CountFrom(ts, start) == |ts|
  {
    if ts != [] { AllCounted(ts[1..], start); }
  }

  lemma {:induction false} PruneSorted(ts: seq<int>, start: int)
    requires NonDecreasing(ts)
    ensures |Prune(ts, start)| == CountFrom(ts, start)
  {
    if ts != [] {
      PruneSorted(ts[1..], start);
      if ts[0] >= start { AllCounted(ts, start); }
    }
  }

  lemma {:induction false} WindowGrows(w: int, stream: seq<int>, from: nat, i: nat, kept: seq<int>)
    requires from < i < |stream| && stream[i - 1] <= stream[i] && kept == Prune(stream[from..i], stream[i - 1] - w)
    ensures Window(kept, stream[i], w) == Prune(stream[from..i + 1], stream[i] - w)
  {
    PruneAgain(stream[from..i], [stream[i]], stream[i - 1] - w, stream[i] - w);
    assert stream[from..i + 1] == stream[from..i] + [stream[i]];
  }

  /** The window of a match is what pruning leaves of all matches since the last alert. */
  lemma {:induction false} WindowIsSinceLastAlert(w: int, threshold: nat, stream: seq<int>, i: nat)
    requires i < |stream| && NonDecreasing(stream)
    ensures Window(Kept(w, threshold, stream, i), stream[i], w)
            == Prune(stream[Since(w, threshold, stream, i)..i + 1], stream[i] - w)
  {
    var from := Since(w, threshold, stream, i);
    if from < i {
      WindowIsSinceLastAlert(w, threshold, stream, i - 1);
      WindowGrows(w, stream, from, i, Kept(w, threshold, stream, i));
    } else {
      assert Kept(w, threshold, stream, i) == [];
      assert stream[i..i + 1] == [] + [stream[i]];
    }
  }

  lemma {:induction false} SortedSlice(ts: seq<int>, i: nat, j: nat, start: int)
    requires i <= j <= |ts| && NonDecreasing(ts)
    ensures |Prune(ts[i..j], start)| == CountFrom(ts[i..j], start)
  {
    PruneSorted(ts[i..j], start);
  }

  /** Alert exactness: match i raises an alert if and only if the matches since the last
      alert that lie within the window of match i number at least the threshold. */
  lemma {:induction false} AlertExact(w: int, threshold: nat, stream: seq<int>, i: nat)
    requires i < |stream| && NonDecreasing(stream)
    ensures MatchCount(w, threshold, stream, i)
            == CountFrom(stream[Since(w, threshold, stream, i)..i + 1], stream[i] - w)
    ensures FiresAt(w, threshold, stream, i)
            <==> CountFrom(stream[Since(w, threshold, stream, i)..i + 1], stream[i] - w) >= threshold
  {
    WindowIsSinceLastAlert(w, threshold, stream, i);
    SortedSlice(stream, Since(w, threshold, stream, i), i + 1, stream[i] - w);
  }

  lemma {:induction false} PruneAtMost(ts: seq<int>, start: int, bound: int)
    requires AtMost(ts, bound)
    ensures AtMost(Prune(ts, start), bound)
  {
    if ts != [] && ts[0] < start { PruneAtMost(ts[1..], start, bound); }
  }

  /** For times in any order, the match count of an alert is max(1, threshold) if and only if the
      threshold is positive or the window is not negative.  (A negative window drops even the
      match itself, so a zero threshold then fires with a count of 0.) */
  lemma {:induction false} MatchCountExact(w: int, threshold: nat, stream: seq<int>, i: nat)
    requires i < |stream| && FiresAt(w, threshold, stream, i)
    ensures MatchCount(w, threshold, stream, i) == (if threshold == 0 then 1 else threshold)
        <==> threshold > 0 || w >= 0
  {
    MatchCountBounded(w, threshold, stream, i);
    if threshold == 0 {
      assert Kept(w, threshold, stream, i) == [] && [] + [stream[i]] == [stream[i]] && [stream[i]][1..] == [];
    }
  }

  /** The upper bound needs no order of the times. */
  lemma {:induction false} MatchCountBounded(w: int, threshold: nat, stream: seq<int>, i: nat)
    requires i < |stream|
    ensures MatchCount(w, threshold, stream, i) <= if threshold == 0 then 1 else threshold
  {
    assert |Kept(w, threshold, stream, i) + [stream[i]]| == |Kept(w, threshold, stream, i)| + 1;
  }

  /** AlertExact and MatchCountExact for the last match of a stream. */
  lemma {:induction false} LastMatchExact(w: int, threshold: nat, stream: seq<int>)
    requires stream != [] && NonDecreasing(stream)
    ensures var n := |stream| - 1;
            var recent := CountFrom(stream[Since(w, threshold, stream, n)..], stream[n] - w);
            && MatchCount(w, threshold, stream, n) == recent
            && (FiresAt(w, threshold, stream, n) <==> recent >= threshold)
            && (recent >= threshold
                ==> (recent == (if threshold == 0 then 1 else threshold) <==> threshold > 0 || w >= 0))
  {
    var n := |stream| - 1;
    assert stream[Since(w, threshold, stream, n)..] == stream[Since(w, threshold, stream, n)..n + 1];
    AlertExact(w, threshold, stream, n);
    if FiresAt(w, threshold, stream, n) { MatchCountExact(w, threshold, stream, n); }
  }

  lemma {:induction false} CountSuffix(ts: seq<int>, k: nat, start: int)
    requires k <= |ts| && forall i :: k <= i < |ts| ==> ts[i] >= start
    ensures CountFrom(ts, start) >= |ts| - k
  {
    if k == 0 {
      AllCounted(ts, start);
    } else {
      CountSuffix(ts[1..], k - 1, start);
    }
  }

  /** No missed detection: a span no longer than the window with at least `threshold`
      matches contains an alert. */
  lemma {:induction false} NoMissedDetection(w: int, threshold: nat, stream: seq<int>, i: nat, j: nat)
    requires NonDecreasing(stream) && i <= j < |stream|
    requires threshold >= 1 && j - i + 1 >= threshold && stream[j] - stream[i] <= w
    ensures exists k :: i <= k <= j && FiresAt(w, threshold, stream, k)
  {
    var from := Since(w, threshold, stream, j);
    SinceMeaning(w, threshold, stream, j);
    if from <= i {
      AlertExact(w, threshold, stream, j);
      CountSuffix(stream[from..j + 1], i - from, stream[j] - w);
      assert FiresAt(w, threshold, stream, j);
    } else {
      assert FiresAt(w, threshold, stream, from - 1);
    }
  }

  /** Forgetting a key's times is invisible to its next match, at time t, if and only if all of
      them lie before the window of that match. */
  lemma {:induction false} ErasureVisibleIff(ts: seq<int>, t: int, w: int)
    ensures Window(ts, t, w) == Window([], t, w) <==> forall j :: 0 <= j < |ts| ==> ts[j] < t - w
  {
    assert [] + [t] == [t];
    if ts != [] && ts[0] < t - w {
      assert (ts + [t])[1..] == ts[1..] + [t];
      ErasureVisibleIff(ts[1..], t, w);
      assert forall j :: 1 <= j < |ts| ==> ts[j] == ts[1..][j - 1];
      assert forall j :: 0 <= j < |ts[1..]| ==> ts[1..][j] == ts[j + 1];
    } else if ts != [] {
      assert Window(ts, t, w) == ts + [t] && |ts + [t]| > |Window([], t, w)|;
    }
  }

  // Times in any order.

  /** Match j lies within the window of every match from itself to match i. */
  predicate Unbroken(w: int, stream: seq<int>, j: nat, i: nat)
    requires j <= i < |stream|
  {
    forall k :: j <= k <= i ==> stream[j] >= stream[k] - w
  }

  /** The first match from `from` on that lies within the window of every match up to i. */
  function FirstUnbroken(w: int, stream: seq<int>, from: nat, i: nat): (c: nat)
    requires from <= i + 1 && i < |stream|
    ensures from <= c <= i + 1
    ensures forall j :: from <= j < c ==> !Unbroken(w, stream, j, i)
    ensures c <= i ==> Unbroken(w, stream, c, i)
    decreases i + 1 - from
  {
    if from == i + 1 || Unbroken(w, stream, from, i) then from else FirstUnbroken(w, stream, from + 1, i)
  }

  lemma {:induction false} FirstUnbrokenIs(w: int, stream: seq<int>, from: nat, i: nat, c: nat)
    requires from <= c <= i + 1 && i < |stream|
    requires (forall j :: from <= j < c ==> !Unbroken(w, stream, j, i)) && (c <= i ==> Unbroken(w, stream, c, i))
    ensures FirstUnbroken(w, stream, from, i) == c
    decreases c - from
  {
    if from < c { FirstUnbrokenIs(w, stream, from + 1, i, c); }
  }

  lemma {:induction false} UnbrokenNext(w: int, stream: seq<int>, j: nat, i: nat)
    requires j < i < |stream|
    ensures Unbroken(w, stream, j, i) <==> Unbroken(w, stream, j, i - 1) && stream[j] >= stream[i] - w
  {
  }

  lemma {:induction false} UnbrokenHigher(w: int, stream: seq<int>, j: nat, k: nat, i: nat)
    requires j <= k <= i < |stream| && Unbroken(w, stream, j, i) && stream[j] <= stream[k]
    ensures Unbroken(w, stream, k, i)
  {
  }

  /** Pruning stream[c..end] leaves it from its first time at or after `start` on. */
  lemma {:induction false} Erased(stream: seq<int>, c: nat, end: nat, start: int) returns (c': nat)
    requires c <= end <= |stream|
    ensures c <= c' <= end && Prune(stream[c..end], start) == stream[c'..end]
    ensures (forall j :: c <= j < c' ==> stream[j] < start) && (c' < end ==> stream[c'] >= start)
    decreases end - c
  {
    c' := c;
    if c < end && stream[c] < start {
      assert stream[c..end][1..] == stream[c + 1..end];
      c' := Erased(stream, c + 1, end, start);
    }
  }

  /** What the erasing at match i takes out of a list that starts at c is exactly what lies
      outside the window of match i or was outside an earlier one. */
  lemma {:induction false} FrontMoves(w: int, stream: seq<int>, from: nat, c: nat, i: nat, c': nat)
    requires from <= c <= c' <= i + 1 && c <= i < |stream|
    requires c == if from < i then FirstUnbroken(w, stream, from, i - 1) else i
    requires (forall j :: c <= j < c' ==> stream[j] < stream[i] - w) && (c' <= i ==> stream[c'] >= stream[i] - w)
    ensures FirstUnbroken(w, stream, from, i) == c'
  {
    forall j | from <= j < c' ensures !Unbroken(w, stream, j, i) {
      if j < i { UnbrokenNext(w, stream, j, i); }
    }
    if c' < i {
      if c < c' { UnbrokenHigher(w, stream, c, c', i - 1); }
      UnbrokenNext(w, stream, c', i);
    }
    FirstUnbrokenIs(w, stream, from, i, c');
  }

  /** For times in any order: the window of a match starts at the first match since the last
      alert that lies within the window of every match from itself to this one, and holds all
      matches from there on. */
  lemma {:induction false} WindowAnyOrder(w: int, threshold: nat, stream: seq<int>, i: nat)
    requires i < |stream|
    ensures Window(Kept(w, threshold, stream, i), stream[i], w)
         == stream[FirstUnbroken(w, stream, Since(w, threshold, stream, i), i)..i + 1]
  {
    var from := Since(w, threshold, stream, i);
    if from < i {
      WindowAnyOrder(w, threshold, stream, i - 1);
      var c := FirstUnbroken(w, stream, from, i - 1);
      WindowMoves(w, stream, from, c, i, Kept(w, threshold, stream, i));
    } else {
      assert stream[i..i] == [];
      WindowMoves(w, stream, from, i, i, []);
    }
  }

  lemma {:induction false} WindowMoves(w: int, stream: seq<int>, from: nat, c: nat, i: nat, kept: seq<int>)
    requires from <= c <= i < |stream| && kept == stream[c..i]
    requires c == if from < i then FirstUnbroken(w, stream, from, i - 1) else i
    ensures Window(kept, stream[i], w) == stream[FirstUnbroken(w, stream, from, i)..i + 1]
  {
    assert kept + [stream[i]] == stream[c..i + 1];
    var c' := Erased(stream, c, i + 1, stream[i] - w);
    FrontMoves(w, stream, from, c, i, c');
  }

  /** The times at or after `start`, in their order. */
  function From(ts: seq<int>, start: int): (r: seq<int>)
    ensures |r| == CountFrom(ts, start) && forall t :: t in r ==> t >= start
  {
    if ts == [] then [] else (if ts[0] >= start then [ts[0]] else []) + From(ts[1..], start)
  }

  predicate AllBefore(ts: seq<int>, start: int) { forall j :: 0 <= j < |ts| ==> ts[j] < start }

  predicate AllFrom(ts: seq<int>, start: int) { forall j :: 0 <= j < |ts| ==> ts[j] >= start }

  lemma {:induction false} FromConcat(a: seq<int>, b: seq<int>, start: int)
    ensures From(a + b, start) == From(a, start) + From(b, start)
  {
    if a == [] {
      assert a + b == b;
    } else {
      assert (a + b)[1..] == a[1..] + b;
      FromConcat(a[1..], b, start);
    }
  }

  lemma {:induction false} FromNoneIff(ts: seq<int>, start: int)
    ensures From(ts, start) == [] <==> AllBefore(ts, start)
  {
    if ts != [] {
      FromNoneIff(ts[1..], start);
      if AllBefore(ts[1..], start) && ts[0] < start {
        forall j | 0 <= j < |ts| ensures ts[j] < start { if j > 0 { assert ts[j] == ts[1..][j - 1]; } }
      }
    }
  }

  lemma {:induction false} FromAllIff(ts: seq<int>, start: int)
    ensures From(ts, start) == ts <==> AllFrom(ts, start)
  {
    if AllFrom(ts, start) {
      if ts != [] { FromAllIff(ts[1..], start); }
    } else {
      var j :| 0 <= j < |ts| && ts[j] < start;
      assert ts[j] in ts && ts[j] !in From(ts, start);
    }
  }

  lemma {:induction false} FromShorter(ts: seq<int>, start: int)
    ensures |From(ts, start)| <= |ts| && (|From(ts, start)| == |ts| ==> From(ts, start) == ts)
  {
    if ts != [] { FromShorter(ts[1..], start); }
  }

  /** The end of a list is its times at or after `start` exactly when it has all of them and
      nothing else. */
  lemma {:induction false} EndIsFromIff(a: seq<int>, b: seq<int>, start: int)
    ensures From(a + b, start) == b <==> AllBefore(a, start) && AllFrom(b, start)
  {
    FromConcat(a, b, start);
    FromNoneIff(a, start);
    FromAllIff(b, start);
    FromShorter(b, start);
    if From(a + b, start) == b { forall j | 0 <= j < |b| ensures b[j] >= start { assert b[j] in From(a + b, start); } }
  }

  /** Behind the first unbroken match is behind some unbroken match. */
  lemma {:induction false} BehindUnbroken(w: int, stream: seq<int>, from: nat, j: nat, i: nat)
    requires from <= j <= i < |stream|
    ensures FirstUnbroken(w, stream, from, i) <= j <==> exists k :: from <= k <= j && Unbroken(w, stream, k, i)
  {
  }

  /** Match j lies within the window of match i exactly when it stands at or behind a match
      that lies within the window of every match from itself to match i. */
  predicate InBoth(w: int, stream: seq<int>, from: nat, j: nat, i: nat)
    requires from <= j <= i < |stream|
  {
    stream[j] >= stream[i] - w <==> exists k :: from <= k <= j && Unbroken(w, stream, k, i)
  }

  predicate AllInBoth(w: int, stream: seq<int>, from: nat, i: nat)
    requires from <= i < |stream|
  {
    forall j :: from <= j <= i ==> InBoth(w, stream, from, j, i)
  }

  /** Before c the times are before `start`, from c on they are not. */
  predicate SplitsAt(stream: seq<int>, from: nat, c: nat, end: nat, start: int)
    requires from <= c <= end <= |stream|
  {
    (forall j :: from <= j < c ==> stream[j] < start) && forall j :: c <= j < end ==> stream[j] >= start
  }

  lemma {:induction false} InBothIff(w: int, stream: seq<int>, from: nat, i: nat, c: nat)
    requires from <= i < |stream| && c == FirstUnbroken(w, stream, from, i)
    ensures AllInBoth(w, stream, from, i) <==> SplitsAt(stream, from, c, i + 1, stream[i] - w)
  {
    forall j | from <= j <= i ensures InBoth(w, stream, from, j, i) <==> (stream[j] >= stream[i] - w <==> c <= j) {
      BehindUnbroken(w, stream, from, j, i);
    }
    if SplitsAt(stream, from, c, i + 1, stream[i] - w) {
      forall j | from <= j <= i ensures InBoth(w, stream, from, j, i) { assert stream[j] >= stream[i] - w <==> c <= j; }
    }
  }

  /** Exactness for times in any order: the window of match i holds exactly the matches since
      the last alert that lie within it if and only if each of them lies within the window of
      match i exactly when it stands at or behind a match that lies within the window of every
      match from itself to match i. */
  lemma {:induction false} WindowExactIff(w: int, threshold: nat, stream: seq<int>, i: nat)
    requires i < |stream|
    ensures var from := Since(w, threshold, stream, i);
      Window(Kept(w, threshold, stream, i), stream[i], w) == From(stream[from..i + 1], stream[i] - w)
      <==> AllInBoth(w, stream, from, i)
  {
    var from := Since(w, threshold, stream, i);
    var c := FirstUnbroken(w, stream, from, i);
    WindowAnyOrder(w, threshold, stream, i);
    SliceIsFromIff(stream, from, c, i + 1, stream[i] - w);
    InBothIff(w, stream, from, i, c);
  }

  lemma {:induction false} SliceIsFromIff(stream: seq<int>, from: nat, c: nat, end: nat, start: int)
    requires from <= c <= end <= |stream|
    ensures stream[c..end] == From(stream[from..end], start) <==> SplitsAt(stream, from, c, end, start)
  {
    var a, b := stream[from..c], stream[c..end];
    assert a + b == stream[from..end];
    EndIsFromIff(a, b, start);
    if AllBefore(a, start) { forall j | from <= j < c ensures stream[j] < start { assert a[j - from] < start; } }
    if AllFrom(b, start) { forall j | c <= j < end ensures stream[j] >= start { assert b[j - c] >= start; } }
  }

  /** Out of order both errors occur: with a window of 5 and a threshold of 3, the times 10, 0,
      10 raise an alert on two matches, and 0, 100, 3 raise none on three. */
  lemma {:induction false} OutOfOrderBothWays()
    ensures FiresAt(5, 3, [10, 0, 10], 2) && CountFrom([10, 0, 10][Since(5, 3, [10, 0, 10], 2)..3], 10 - 5) == 2
    ensures !FiresAt(5, 3, [0, 100, 3], 2) && CountFrom([0, 100, 3][Since(5, 3, [0, 100, 3], 2)..3], 3 - 5) == 3
  {
    ShortStream(10, 0, 10);
    assert Unbroken(5, [10, 0, 10], 0, 2);
    ShortStream(0, 100, 3);
    var stream := [0, 100, 3];
    assert stream[0] < stream[1] - 5 && !Unbroken(5, stream, 0, 2);
  }

  lemma {:induction false} ShortStream(a: int, b: int, c: int)
    ensures var stream := [a, b, c];
      && Since(5, 3, stream, 2) == 0 && MatchCount(5, 3, stream, 2) == 3 - FirstUnbroken(5, stream, 0, 2)
      && CountFrom(stream[0..3], c - 5) == (if a >= c - 5 then 1 else 0) + (if b >= c - 5 then 1 else 0) + 1
  {
    var stream := [a, b, c];
    NoneYet(stream);
    WindowAnyOrder(5, 3, stream, 2);
    assert stream[0..3] == stream && stream[1..] == [b, c] && [b, c][1..] == [c] && [c][1..] == [];
    assert CountFrom([c], c - 5) == 1 + CountFrom([], c - 5);
    assert CountFrom([b, c], c - 5) == (if b >= c - 5 then 1 else 0) + CountFrom([c], c - 5);
  }

  lemma {:induction false} NoneYet(stream: seq<int>)
    requires |stream| == 3
    ensures Since(5, 3, stream, 2) == 0
  {
    assert Since(5, 3, stream, 0) == 0;
    FewFire(stream, 0);
    FewFire(stream, 1);
  }

  lemma {:induction false} FewFire(stream: seq<int>, i: nat)
    requires i < 2 && |stream| == 3
    ensures !FiresAt(5, 3, stream, i)
  {
    WindowAnyOrder(5, 3, stream, i);
  }
}
