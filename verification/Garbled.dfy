/** Garbled-frame accounting: a bounded sliding window that decides as the whole history would. */
module Garbled {
  import opened Wire

  /** A monotonic instant, and an age, both in clock ticks. */
  type Instant = nat

  datatype Verdict = Tolerated | LimitReached

  /** One call: the frames observed at an instant. */
  datatype Batch = Batch(now: Instant, frames: nat)

  predicate Sorted(times: seq<Instant>) {
    forall i, j :: 0 <= i < j < |times| ==> times[i] <= times[j]
  }

  predicate Nondecreasing(calls: seq<Batch>) {
    forall i, j :: 0 <= i < j < |calls| ==> calls[i].now <= calls[j].now
  }

  // ----- the specification: every frame ever recorded -----

  /** An instant the window no longer holds at `now`; one after `now` has not aged at all. */
  predicate AgedOut(arrived: Instant, now: Instant, window: nat) {
    arrived <= now && now - arrived >= window
  }

  /** Frames of the whole history inside the window at `now`. */
  function Inside(calls: seq<Batch>, now: Instant, window: nat): nat {
    if calls == [] then 0
    else Inside(calls[..|calls| - 1], now, window)
         + (if AgedOut(calls[|calls| - 1].now, now, window) then 0 else calls[|calls| - 1].frames)
  }

  /** The verdict the whole history calls for after its last call. */
  function Decide(calls: seq<Batch>, max: nat, window: nat): Verdict
    requires calls != []
  {
    if Inside(calls, calls[|calls| - 1].now, window) >= max then LimitReached else Tolerated
  }

  /** Times of a list inside the window. */
  function CountInside(times: seq<Instant>, now: Instant, window: nat): nat {
    if times == [] then 0
    else CountInside(times[..|times| - 1], now, window) + if AgedOut(times[|times| - 1], now, window) then 0 else 1
  }

  lemma {:induction false} AllInside(times: seq<Instant>, now: Instant, window: nat)
    requires forall i :: 0 <= i < |times| ==> !AgedOut(times[i], now, window)
    ensures CountInside(times, now, window) == |times|
  {
    if times != [] {
      AllInside(times[..|times| - 1], now, window);
    }
  }

  /** Dropping times from the front that are aged out does not change the count. */
  lemma {:induction false} DropsAged(times: seq<Instant>, k: nat, now: Instant, window: nat)
    requires k <= |times| && forall i :: 0 <= i < k ==> AgedOut(times[i], now, window)
    ensures CountInside(times, now, window) == CountInside(times[k..], now, window)
  {
    if k == |times| {
      NoneInside(times, now, window);
    } else {
      var last := |times| - 1;
      DropsAged(times[..last], k, now, window);
      assert times[..last][k..] == times[k..][..|times[k..]| - 1];
      assert times[k..][|times[k..]| - 1] == times[last];
    }
  }

  lemma {:induction false} NoneInside(times: seq<Instant>, now: Instant, window: nat)
    requires forall i :: 0 <= i < |times| ==> AgedOut(times[i], now, window)
    ensures CountInside(times, now, window) == 0
  {
    if times != [] {
      NoneInside(times[..|times| - 1], now, window);
    }
  }

  /** What aged out once stays out for any later instant. */
  lemma StaysAgedOut(arrived: Instant, now: Instant, later: Instant, window: nat)
    requires AgedOut(arrived, now, window) && now <= later
    ensures AgedOut(arrived, later, window)
  {
  }

  function Repeated(now: Instant, n: nat): (times: seq<Instant>)
    ensures |times| == n && forall i :: 0 <= i < n ==> times[i] == now
  {
    if n == 0 then [] else Repeated(now, n - 1) + [now]
  }

  lemma {:induction false} CountAppended(times: seq<Instant>, now: Instant, n: nat, at: Instant, window: nat)
    ensures CountInside(times + Repeated(now, n), at, window)
            == CountInside(times, at, window) + if AgedOut(now, at, window) then 0 else n
  {
    if n == 0 {
      assert times + [] == times;
    } else {
      var all := times + Repeated(now, n);
      assert all[..|all| - 1] == times + Repeated(now, n - 1);
      CountAppended(times, now, n - 1, at, window);
    }
  }

  /** From the last call on, the times count as the whole history does. */
  ghost predicate Faithful(times: seq<Instant>, calls: seq<Batch>, window: nat) {
    forall at: nat :: (calls == [] || calls[|calls| - 1].now <= at) ==> CountInside(times, at, window) == Inside(calls, at, window)
  }

  lemma StaysFaithful(times: seq<Instant>, calls: seq<Batch>, window: nat, k: nat, batch: Batch)
    requires Faithful(times, calls, window) && (calls == [] || calls[|calls| - 1].now <= batch.now)
    requires k <= |times| && forall i :: 0 <= i < k ==> AgedOut(times[i], batch.now, window)
    ensures Faithful(times[k..] + Repeated(batch.now, batch.frames), calls + [batch], window)
    ensures CountInside(times[k..], batch.now, window) == Inside(calls, batch.now, window)
  {
    var all := calls + [batch];
    assert all[..|all| - 1] == calls;
    DropsAged(times, k, batch.now, window);
    forall at: nat | batch.now <= at
      ensures CountInside(times[k..] + Repeated(batch.now, batch.frames), at, window) == Inside(all, at, window)
    {
      forall i | 0 <= i < k ensures AgedOut(times[i], at, window) {
        StaysAgedOut(times[i], batch.now, at, window);
      }
      DropsAged(times, k, at, window);
      CountAppended(times[k..], batch.now, batch.frames, at, window);
    }
  }

  /** A window of at most `max` sorted times that, until it is full, stands for the whole history. */
  ghost predicate Keeps(times: seq<Instant>, calls: seq<Batch>, max: nat, window: nat) {
    && |times| <= max
    && Sorted(times) && Nondecreasing(calls)
    && (forall i :: 0 <= i < |times| ==> calls != [] && times[i] <= calls[|calls| - 1].now)
    && (|times| < max ==> Faithful(times, calls, window))
  }

  /** What a recorded call makes of the window: `k` frames aged out, then as many pushed as fit. */
  ghost predicate Records(before: seq<Instant>, calls: seq<Batch>, max: nat, window: nat, k: nat, batch: Batch, after: seq<Instant>) {
    && window > 0 && Keeps(before, calls, max, window) && |before| < max
    && (calls == [] || calls[|calls| - 1].now <= batch.now)
    && k <= |before| && (forall i :: 0 <= i < k ==> AgedOut(before[i], batch.now, window))
    && CountInside(before[k..], batch.now, window) == |before| - k
    && |before| - k <= |after| == (if |before| - k + batch.frames < max then |before| - k + batch.frames else max)
    && after == before[k..] + Repeated(batch.now, |after| - (|before| - k))
  }

  /** Ageing out and pushing keeps the window, and fills it exactly when the history calls for it. */
  lemma RecordedKeeps(before: seq<Instant>, calls: seq<Batch>, max: nat, window: nat, k: nat, batch: Batch, after: seq<Instant>)
    requires Records(before, calls, max, window, k, batch, after)
    ensures Keeps(after, calls + [batch], max, window)
    ensures Decide(calls + [batch], max, window) == if |after| >= max then LimitReached else Tolerated
  {
    var all := calls + [batch];
    assert all[|all| - 1] == batch;
    StaysFaithful(before, calls, window, k, batch);
    CallsStayOrdered(calls, batch);
    WindowStaysSorted(before, calls, max, window, k, batch, after);
    RecordedDecides(before, calls, max, window, k, batch, after);
  }

  lemma CallsStayOrdered(calls: seq<Batch>, batch: Batch)
    requires Nondecreasing(calls) && (calls == [] || calls[|calls| - 1].now <= batch.now)
    ensures Nondecreasing(calls + [batch])
  {
    assert forall i :: 0 <= i < |calls| ==> calls[i].now <= calls[|calls| - 1].now;
  }

  lemma WindowStaysSorted(before: seq<Instant>, calls: seq<Batch>, max: nat, window: nat, k: nat, batch: Batch, after: seq<Instant>)
    requires Records(before, calls, max, window, k, batch, after)
    ensures Sorted(after) && forall i :: 0 <= i < |after| ==> after[i] <= batch.now
  {
    var kept := before[k..];
    assert forall i :: 0 <= i < |after| ==> after[i] == if i < |kept| then before[k + i] else batch.now;
  }

  lemma RecordedDecides(before: seq<Instant>, calls: seq<Batch>, max: nat, window: nat, k: nat, batch: Batch, after: seq<Instant>)
    requires Records(before, calls, max, window, k, batch, after)
    ensures Decide(calls + [batch], max, window) == if |after| >= max then LimitReached else Tolerated
  {
    var all := calls + [batch];
    assert all[..|all| - 1] == calls && all[|all| - 1] == batch;
    StaysFaithful(before, calls, window, k, batch);
  }

  lemma EarlierCalls(calls: seq<Batch>, batch: Batch)
    requires Nondecreasing(calls + [batch])
    ensures Nondecreasing(calls) && (calls == [] || calls[|calls| - 1].now <= batch.now)
  {
    var all := calls + [batch];
    assert forall i :: 0 <= i < |calls| ==> all[i] == calls[i];
    assert calls != [] ==> all[|calls| - 1].now <= all[|calls|].now;
  }

  // ----- the window -----

  class GarbledFrameWindow {
    const max: nat
    const window: nat
    /** Arrival times still inside the window, oldest first. */
    var seen: seq<Instant>
    /** Every call recorded, and whether one of them reached the limit. */
    ghost var history: seq<Batch>
    ghost var reached: bool

    ghost predicate Valid()
      reads this
    {
      && max > 0 && window > 0 && |seen| <= max
      && (!reached ==> |seen| < max)
      && (!reached && Nondecreasing(history) ==> Keeps(seen, history, max, window))
    }

    constructor (limit: nat, span: nat)
      requires limit > 0 && span > 0
      ensures Valid() && max == limit && window == span && history == [] && seen == [] && !reached
    {
      max, window, seen, history, reached := limit, span, [], [], false;
    }

    predicate IsFull()
      reads this
    {
      |seen| >= max
    }

    /** Pops from the front the frames that have aged out at `now`; one recorded after `now` has not. */
    method DropAged(now: Instant) returns (ghost k: nat)
      modifies this`seen
      ensures k <= |old(seen)| && seen == old(seen)[k..]
      ensures forall i :: 0 <= i < k ==> AgedOut(old(seen)[i], now, window)
      ensures seen != [] ==> !AgedOut(seen[0], now, window)
    {
      k := 0;
      while seen != [] && now >= seen[0] && now - seen[0] >= window
        invariant k <= |old(seen)| && seen == old(seen)[k..]
        invariant forall i :: 0 <= i < k ==> AgedOut(old(seen)[i], now, window)
        decreases |seen|
      {
        k := k + 1;
        seen := seen[1..];
      }
    }

    /**
     Records `frames` garbled frames observed at `now`; recording stops at the limit. As long as the
     clock never stepped back, the verdict up to and including the first `LimitReached` is the one the
     whole history calls for.
     */
    method Record(now: Instant, frames: nat) returns (verdict: Verdict)
      requires Valid()
      modifies this
      ensures Valid() && history == old(history) + [Batch(now, frames)]
      ensures verdict == if IsFull() then LimitReached else Tolerated
      ensures reached == (old(reached) || verdict == LimitReached)
      ensures !old(reached) && Nondecreasing(history) ==> verdict == Decide(history, max, window)
    {
      ghost var before, batch := seen, Batch(now, frames);
      ghost var k := DropAged(now);
      ghost var kept := seen;
      Push(now, frames);
      if !reached && Nondecreasing(history + [batch]) {
        EarlierCalls(history, batch);
        AllInside(kept, now, window);
        RecordedKeeps(before, history, max, window, k, batch, seen);
      }
      history := history + [batch];
      verdict := if IsFull() then LimitReached else Tolerated;
      reached := reached || verdict == LimitReached;
    }

    /** Pushes `frames` arrivals at `now`, stopping once the window is full. */
    method Push(now: Instant, frames: nat)
      requires |seen| <= max
      modifies this`seen
      ensures |seen| <= max && |seen| == if |old(seen)| + frames < max then |old(seen)| + frames else max
      ensures seen == old(seen) + Repeated(now, |seen| - |old(seen)|)
    {
      var n := 0;
      while n < frames && !IsFull()
        invariant n <= frames && seen == old(seen) + Repeated(now, n) && |seen| <= max
      {
        seen := seen + [now];
        n := n + 1;
      }
    }
  }

  /** Records a run of batches until the limit is reached; every verdict is the one the whole history calls for. */
  method Watch(calls: seq<Batch>, max: nat, window: nat) returns (closed: Option<nat>)
    requires max > 0 && window > 0 && Nondecreasing(calls)
    ensures closed.None? ==> forall k :: 0 < k <= |calls| ==> Decide(calls[..k], max, window) == Tolerated
    ensures closed.Some? ==>
              && closed.value < |calls| && Decide(calls[..closed.value + 1], max, window) == LimitReached
              && forall k :: 0 < k <= closed.value ==> Decide(calls[..k], max, window) == Tolerated
  {
    var state := new GarbledFrameWindow(max, window);
    for i := 0 to |calls|
      invariant state.Valid() && !state.reached && state.history == calls[..i]
      invariant state.max == max && state.window == window
      invariant forall k :: 0 < k <= i ==> Decide(calls[..k], max, window) == Tolerated
    {
      assert calls[..i + 1] == calls[..i] + [Batch(calls[i].now, calls[i].frames)];
      var verdict := state.Record(calls[i].now, calls[i].frames);
      assert Nondecreasing(calls[..i + 1]);
      if verdict == LimitReached {
        return Some(i);
      }
    }
    return None;
  }
}
