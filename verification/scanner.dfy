/**
 * The scan throttle of the camera screens (`useScanner().canHandle`): a read is handled only
 * when at least `throttleMs` milliseconds have passed since the last handled read, and only a
 * handled read moves that mark. The clock is a parameter.
 */
module Scanner {
  /** `useScanner(throttleMs = 800)`. */
  const DefaultThrottle: nat := 800

  /** `lastScanRef.current` starts at 0. */
  const Initial: int := 0

  /** `canHandle()` at time `now`: whether the read is handled, and the new mark. */
  function CanHandle(last: int, throttleMs: nat, now: int): (r: (bool, int))
    ensures r.0 <==> now - last >= throttleMs
    ensures r.0 ==> r.1 == now
    ensures !r.0 ==> r.1 == last
  {
    if now - last < throttleMs then (false, last) else (true, now)
  }

  /** The reads handled, in order, when `canHandle` is called at each of `times` from mark `last`. */
  function Handled(last: int, throttleMs: nat, times: seq<int>): seq<int>
    decreases |times|
  {
    if |times| == 0 then []
    else
      var (ok, next) := CanHandle(last, throttleMs, times[0]);
      if ok then [times[0]] + Handled(next, throttleMs, times[1..]) else Handled(next, throttleMs, times[1..])
  }

  /** The mark after calling `canHandle` at each of `times`. */
  function MarkAfter(last: int, throttleMs: nat, times: seq<int>): int
    decreases |times|
  {
    if |times| == 0 then last else MarkAfter(CanHandle(last, throttleMs, times[0]).1, throttleMs, times[1..])
  }

  /**
   * Handled reads are spaced: the first is at least `throttleMs` after the starting mark, and
   * each one at least `throttleMs` after the one before.
   */
  lemma {:induction false} HandledSpaced(last: int, throttleMs: nat, times: seq<int>)
    ensures var h := Handled(last, throttleMs, times);
            && (|h| > 0 ==> h[0] - last >= throttleMs)
            && (forall k :: 0 < k < |h| ==> h[k] - h[k - 1] >= throttleMs)
    decreases |times|
  {
    if |times| > 0 {
      var (ok, next) := CanHandle(last, throttleMs, times[0]);
      HandledSpaced(next, throttleMs, times[1..]);
      var rest := Handled(next, throttleMs, times[1..]);
      if ok {
        var h := [times[0]] + rest;
        assert Handled(last, throttleMs, times) == h;
        forall k | 0 < k < |h| ensures h[k] - h[k - 1] >= throttleMs {
          if k > 1 { assert h[k] == rest[k - 1] && h[k - 1] == rest[k - 2]; }
        }
      } else {
        assert next == last;
      }
    }
  }

  /** Over any stretch of handled reads, the time between the first and the last is at least one throttle per step. */
  lemma {:induction false} HandledWindow(h: seq<int>, throttleMs: nat, i: nat, j: nat)
    requires forall k :: 0 < k < |h| ==> h[k] - h[k - 1] >= throttleMs
    requires i <= j < |h|
    ensures h[j] - h[i] >= (j - i) * throttleMs
    decreases j - i
  {
    if i < j {
      HandledWindow(h, throttleMs, i, j - 1);
    }
  }

  /**
   * A burst of reads shorter than the throttle is handled at most once: if every read falls
   * within `throttleMs` of the first one, no two are handled.
   */
  lemma OnePerBurst(last: int, throttleMs: nat, times: seq<int>)
    requires |times| > 0 && forall k :: 0 <= k < |times| ==> times[0] <= times[k] < times[0] + throttleMs
    ensures |Handled(last, throttleMs, times)| <= 1
  {
    var h := Handled(last, throttleMs, times);
    HandledSpaced(last, throttleMs, times);
    HandledFrom(last, throttleMs, times);
    FirstGap(h, throttleMs);
  }

  /** The spacing between the first two handled reads. */
  lemma FirstGap(h: seq<int>, throttleMs: nat)
    requires forall k :: 0 < k < |h| ==> h[k] - h[k - 1] >= throttleMs
    ensures |h| >= 2 ==> h[1] - h[0] >= throttleMs
  {
  }

  /** Every handled read is one of the reads. */
  lemma {:induction false} HandledFrom(last: int, throttleMs: nat, times: seq<int>)
    ensures var h := Handled(last, throttleMs, times);
            forall k :: 0 <= k < |h| ==> h[k] in times
    decreases |times|
  {
    if |times| > 0 {
      var (ok, next) := CanHandle(last, throttleMs, times[0]);
      HandledFrom(next, throttleMs, times[1..]);
      assert var rest := Handled(next, throttleMs, times[1..]);
             forall k :: 0 <= k < |rest| ==> rest[k] in times[1..];
      var rest := Handled(next, throttleMs, times[1..]);
      var h := Handled(last, throttleMs, times);
      forall k | 0 <= k < |h| ensures h[k] in times {
        var j := if ok then k - 1 else k;
        if j >= 0 {
          assert j < |rest|;
          assert h[k] == rest[j] && rest[j] in times[1..];
        } else {
          assert h[k] == times[0];
        }
      }
    }
  }

  /** The mark is the time of the last handled read, or the starting mark when none was handled. */
  lemma {:induction false} MarkIsLastHandled(last: int, throttleMs: nat, times: seq<int>)
    ensures var h := Handled(last, throttleMs, times);
            MarkAfter(last, throttleMs, times) == if |h| == 0 then last else h[|h| - 1]
    decreases |times|
  {
    if |times| > 0 {
      var next := CanHandle(last, throttleMs, times[0]).1;
      MarkIsLastHandled(next, throttleMs, times[1..]);
    }
  }

  /** Handled reads after `times` then `more` are those of `times`, then those of `more` from the mark `times` left. */
  lemma {:induction false} HandledAppend(last: int, throttleMs: nat, times: seq<int>, more: seq<int>)
    ensures Handled(last, throttleMs, times + more)
            == Handled(last, throttleMs, times) + Handled(MarkAfter(last, throttleMs, times), throttleMs, more)
    ensures MarkAfter(last, throttleMs, times + more) == MarkAfter(MarkAfter(last, throttleMs, times), throttleMs, more)
    decreases |times|
  {
    if |times| > 0 {
      var next := CanHandle(last, throttleMs, times[0]).1;
      assert (times + more)[1..] == times[1..] + more;
      HandledAppend(next, throttleMs, times[1..], more);
    } else {
      assert times + more == more;
    }
  }

  /**
   * The screen calling `canHandle` at each read in turn from the initial mark: it keeps the
   * reads handled and the mark, and handled reads come at least `throttleMs` apart.
   */
  method HandleAll(throttleMs: nat, times: seq<int>) returns (handled: seq<int>, mark: int)
    ensures handled == Handled(Initial, throttleMs, times)
    ensures mark == MarkAfter(Initial, throttleMs, times)
    ensures forall k :: 0 < k < |handled| ==> handled[k] - handled[k - 1] >= throttleMs
    ensures mark == if |handled| == 0 then Initial else handled[|handled| - 1]
  {
    handled, mark := [], Initial;
    var i := 0;
    while i < |times|
      invariant 0 <= i <= |times|
      invariant handled == Handled(Initial, throttleMs, times[..i])
      invariant mark == MarkAfter(Initial, throttleMs, times[..i])
      invariant mark == if |handled| == 0 then Initial else handled[|handled| - 1]
      invariant forall k :: 0 < k < |handled| ==> handled[k] - handled[k - 1] >= throttleMs
    {
      var (ok, next) := CanHandle(mark, throttleMs, times[i]);
      HandledAppend(Initial, throttleMs, times[..i], [times[i]]);
      assert times[..i + 1] == times[..i] + [times[i]];
      if ok {
        handled := handled + [times[i]];
      }
      mark := next;
      i := i + 1;
    }
    assert times[..i] == times;
  }
}
