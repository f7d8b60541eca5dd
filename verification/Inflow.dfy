/** The transaction inflow counter (internal/explorer/inflow.go): six rotating ten-second buckets against
    the whole history of events. Times are nanoseconds since the epoch and never run backwards. */
module Inflow {
  import opened Common
  import opened Options
  import opened Rounding

  const BUCKET_SECONDS: int := 10
  const BUCKETS: int := 6

  function SlotOf(now: int): int {
    now / SECOND / BUCKET_SECONDS
  }

  // Events in the slots from `lo` to `hi`.
  ghost function CountIn(events: seq<int>, lo: int, hi: int): nat {
    if events == [] then 0
    else CountIn(events[..|events| - 1], lo, hi) + if lo <= events[|events| - 1] <= hi then 1 else 0
  }

  lemma CountNew(events: seq<int>, e: int, lo: int, hi: int)
    ensures CountIn(events + [e], lo, hi) == CountIn(events, lo, hi) + if lo <= e <= hi then 1 else 0
  {
    assert (events + [e])[..|events|] == events;
  }

  lemma {:induction false} CountSplit(events: seq<int>, lo: int, mid: int, hi: int)
    requires lo <= mid < hi
    ensures CountIn(events, lo, hi) == CountIn(events, lo, mid) + CountIn(events, mid + 1, hi)
  {
    if events != [] {
      CountSplit(events[..|events| - 1], lo, mid, hi);
    }
  }

  lemma {:induction false} NoneAfter(events: seq<int>, lo: int, hi: int)
    requires forall i :: 0 <= i < |events| ==> events[i] < lo || hi < events[i]
    ensures CountIn(events, lo, hi) == 0
  {
    if events != [] {
      NoneAfter(events[..|events| - 1], lo, hi);
    }
  }

  // The bucket a slot is counted in.
  function At(slot: int): (k: int)
    ensures 0 <= k < BUCKETS
  {
    slot % BUCKETS
  }

  // Every slot of the window that ends at `slot` is counted under its own remainder.
  ghost predicate Counts(counts: seq<int>, events: seq<int>, slot: int) {
    && |counts| == BUCKETS
    && (forall i :: 0 <= i < |events| ==> events[i] <= slot)
    && (forall s :: slot - BUCKETS < s <= slot ==> counts[At(s)] == CountIn(events, s, s))
  }

  lemma SameRemainder(a: int, b: int)
    requires At(a) == At(b) && -BUCKETS < a - b < BUCKETS
    ensures a == b
  {
  }

  // Six consecutive slots take each bucket once.
  lemma RingSum(c: seq<int>, slot: int)
    requires |c| == BUCKETS
    ensures c[0] + c[1] + c[2] + c[3] + c[4] + c[5]
         == c[At(slot - 5)] + c[At(slot - 4)] + c[At(slot - 3)] + c[At(slot - 2)] + c[At(slot - 1)] + c[At(slot)]
  {
  }

  lemma WindowSum(c: seq<int>, events: seq<int>, slot: int)
    requires Counts(c, events, slot)
    ensures SumTo(c, BUCKETS) == CountIn(events, slot - 5, slot)
  {
    RingSum(c, slot);
    CountSplit(events, slot - 5, slot - 1, slot);
    CountSplit(events, slot - 5, slot - 2, slot - 1);
    CountSplit(events, slot - 5, slot - 3, slot - 2);
    CountSplit(events, slot - 5, slot - 4, slot - 3);
    CountSplit(events, slot - 5, slot - 5, slot - 4);
    assert SumTo(c, 1) == c[0] && SumTo(c, 2) == c[0] + c[1];
    assert SumTo(c, 3) == SumTo(c, 2) + c[2] && SumTo(c, 4) == SumTo(c, 3) + c[3];
    assert SumTo(c, 5) == SumTo(c, 4) + c[4] && SumTo(c, 6) == SumTo(c, 5) + c[5];
  }

  class InflowCounter {
    var started: Option<int>
    var slot: int
    const counts: array<int>
    // The slot of every event noted.
    ghost var events: seq<int>

    ghost predicate Valid()
      reads this, counts
    {
      && counts.Length == BUCKETS && slot >= 0
      && Counts(counts[..], events, slot)
      && (started.None? ==> events == [])
    }

    constructor ()
      ensures Valid() && events == [] && slot == 0 && started == None && fresh(counts)
    {
      started, slot, events := None, 0, [];
      counts := new int[BUCKETS](_ => 0);
    }

    // Moves the window up to `now`: the buckets whose slots have left it are empty again.
    method Rotate(now: int)
      requires Valid() && 0 <= now
      modifies this`slot, counts
      ensures Valid() && slot == if now <= old(slot) then old(slot) else now
    {
      if now <= slot {
        return;
      }
      var steps := if now - slot <= BUCKETS then now - slot else BUCKETS;
      ghost var was := counts[..];
      ClearSkipped(steps);
      Rotated(was, counts[..], events, slot, now, steps);
      slot := now;
    }

    method ClearSkipped(steps: int)
      requires counts.Length == BUCKETS && 0 <= steps <= BUCKETS
      modifies counts
      ensures forall k :: 0 <= k < BUCKETS ==> counts[k] == Cleared(old(counts[..]), slot, steps, k)
    {
      ghost var was := counts[..];
      for i := 1 to steps + 1
        invariant forall k :: 0 <= k < BUCKETS ==> counts[k] == Cleared(was, slot, i - 1, k)
      {
        ClearedNext(was, slot, i);
        counts[(slot + i) % BUCKETS] := 0;
      }
    }

    static function Cleared(was: seq<int>, slot: int, n: int, k: int): int
      requires |was| == BUCKETS && 0 <= k < BUCKETS
    {
      if Skipped(k, slot, n) then 0 else was[k]
    }

    static lemma ClearedNext(was: seq<int>, slot: int, i: int)
      requires |was| == BUCKETS && 1 <= i <= BUCKETS
      ensures forall k :: 0 <= k < BUCKETS ==>
                Cleared(was, slot, i, k) == if k == (slot + i) % BUCKETS then 0 else Cleared(was, slot, i - 1, k)
    {
      forall k | 0 <= k < BUCKETS {
        NextSkipped(k, slot, i);
      }
    }

    static lemma NextSkipped(k: int, slot: int, i: int)
      requires 0 <= k < BUCKETS && 1 <= i <= BUCKETS
      ensures Skipped(k, slot, i) <==> Skipped(k, slot, i - 1) || k == (slot + i) % BUCKETS
    {
    }

    // Bucket `k` is that of one of the first `n` slots after `slot`.
    static predicate Skipped(k: int, slot: int, n: int) {
      At(k - slot - 1) < n
    }

    static lemma Rotated(was: seq<int>, c: seq<int>, events: seq<int>, slot: int, now: int, steps: int)
      requires Counts(was, events, slot) && slot < now && |c| == BUCKETS
      requires steps == if now - slot <= BUCKETS then now - slot else BUCKETS
      requires forall k :: 0 <= k < BUCKETS ==> c[k] == Cleared(was, slot, steps, k)
      ensures Counts(c, events, now)
    {
      forall s | now - BUCKETS < s <= now
        ensures c[At(s)] == CountIn(events, s, s)
      {
        SkippedIff(s, slot, steps);
        if s > slot {
          NoneAfter(events, s, s);
        }
      }
    }

    // Which slots around `slot` lie in a bucket that was skipped over.
    static lemma SkippedIff(s: int, slot: int, steps: int)
      requires 0 < steps <= BUCKETS && slot + steps - BUCKETS < s
      ensures s > slot && (steps == BUCKETS || s <= slot + steps) ==> Skipped(At(s), slot, steps)
      ensures s <= slot ==> !Skipped(At(s), slot, steps)
    {
    }

    // Records one accepted transaction.
    method Note(now: int)
      requires Valid() && 0 <= now && slot <= SlotOf(now)
      modifies this, counts
      ensures Valid() && slot == SlotOf(now) && events == old(events) + [slot]
      ensures started == if old(started).None? then Some(now) else old(started)
    {
      if started.None? {
        started := Some(now);
      }
      var s := now / SECOND / BUCKET_SECONDS;
      Rotate(s);
      ghost var before := counts[..];
      counts[s % BUCKETS] := counts[s % BUCKETS] + 1;
      Bumped(before, counts[..], events, s);
      events := events + [s];
    }

    static lemma Bumped(was: seq<int>, c: seq<int>, events: seq<int>, slot: int)
      requires Counts(was, events, slot)
      requires c == was[At(slot) := was[At(slot)] + 1]
      ensures Counts(c, events + [slot], slot)
    {
      forall s | slot - BUCKETS < s <= slot
        ensures c[At(s)] == CountIn(events + [slot], s, s)
      {
        CountNew(events, slot, s, s);
        if At(s) == At(slot) {
          SameRemainder(s, slot);
        }
      }
    }

    // Events of the last minute, per minute of the time counted so far, to one decimal.
    method RatePerMin(now: int) returns (rate: real)
      requires Valid() && 0 <= now && slot <= SlotOf(now)
      modifies this`slot, counts
      ensures Valid()
      ensures started.None? ==> rate == 0.0
      ensures started.Some? ==>
                var recent := CountIn(events, SlotOf(now) - 5, SlotOf(now));
                rate == Round1(recent as real / WindowSeconds(started.value, now) * 60.0)
    {
      if started.None? {
        return 0.0;
      }
      Rotate(now / SECOND / BUCKET_SECONDS);
      var total := 0;
      WindowSum(counts[..], events, slot);
      for i := 0 to BUCKETS
        invariant total == SumTo(counts[..], i)
      {
        total := total + counts[i];
      }
      var window := if now - started.value <= 60 * SECOND then now - started.value else 60 * SECOND;
      window := if window >= BUCKET_SECONDS * SECOND then window else BUCKET_SECONDS * SECOND;
      rate := Round1(total as real / (window as real / SECOND as real) * 60.0);
    }
  }

  function SumTo(c: seq<int>, n: nat): int
    requires n <= |c|
  {
    if n == 0 then 0 else SumTo(c, n - 1) + c[n - 1]
  }

  // The time counted so far: at least one bucket, at most a minute.
  function WindowSeconds(started: int, now: int): (w: real)
    ensures 10.0 <= w <= 60.0
  {
    var w := now - started;
    (if w < BUCKET_SECONDS * SECOND then BUCKET_SECONDS * SECOND
     else if w > 60 * SECOND then 60 * SECOND else w) as real / SECOND as real
  }

  // The window in time: it reaches back at least fifty seconds and less than a minute.
  lemma WindowInTime(past: int, now: int)
    requires 0 <= past <= now
    ensures var inside := SlotOf(now) - 5 <= SlotOf(past);
            && (now - past <= 50 * 1_000_000_000 ==> inside)
            && (inside ==> now - past < 60 * 1_000_000_000)
  {
  }

  // The rate by how long has been counted: a full minute of events as they are, six times those of the first
  // ten seconds, and in between in proportion.
  lemma RateTells(count: nat, started: int, now: int)
    requires started <= now
    ensures var rate := count as real / WindowSeconds(started, now) * 60.0;
            var elapsed := (now - started) as real / 1_000_000_000.0;
            && (elapsed >= 60.0 ==> rate == count as real)
            && (elapsed <= 10.0 ==> rate == count as real * 6.0)
            && (10.0 < elapsed < 60.0 ==> rate * elapsed == count as real * 60.0)
  {
    var w := WindowSeconds(started, now);
    Divides(count as real, w);
  }

  lemma Divides(x: real, w: real)
    requires w > 0.0
    ensures x / w * 60.0 * w == x * 60.0
  {
    assert x / w * w == x;
  }
}
