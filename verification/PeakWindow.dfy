/** The rolling recent peak of mempool depth (internal/explorer/mempool.go:27-37 and 113-137).

    A list of per-bucket maxima, pruned to the last hour, against the whole history of notes. The clock
    never runs backwards. */
module PeakWindow {
  import opened Common

  const PEAK_BUCKET_DUR: int := 600 * SECOND
  const PEAK_BUCKETS: int := 6

  datatype PeakBucket = PeakBucket(start: int, max: int)

  datatype Note = Note(bucket: int, total: int)

  ghost predicate Rising(peaks: seq<PeakBucket>) {
    forall i, j :: 0 <= i < j < |peaks| ==> peaks[i].start < peaks[j].start
  }

  // The list holds, per bucket of the window that ends at `now`, the highest total noted in it.
  ghost predicate Represents(peaks: seq<PeakBucket>, notes: seq<Note>, now: int) {
    && Rising(peaks) && InWindow(peaks, now) && Noted(peaks, notes)
    && (forall n :: n in notes ==> n.bucket <= now)
    && AllCovered(peaks, notes, now - (PEAK_BUCKETS - 1))
  }

  ghost predicate InWindow(peaks: seq<PeakBucket>, now: int) {
    forall p :: p in peaks ==> now - (PEAK_BUCKETS - 1) <= p.start <= now
  }

  // Every maximum was noted in its bucket.
  ghost predicate Noted(peaks: seq<PeakBucket>, notes: seq<Note>) {
    forall p :: p in peaks ==> Note(p.start, p.max) in notes
  }

  ghost predicate AllCovered(peaks: seq<PeakBucket>, notes: seq<Note>, lo: int) {
    forall n :: n in notes && lo <= n.bucket ==> Covered(peaks, n)
  }

  ghost predicate Covered(peaks: seq<PeakBucket>, n: Note) {
    exists p :: p in peaks && p.start == n.bucket && n.total <= p.max
  }

  // The highest total noted in the last six buckets.
  ghost predicate IsPeak(notes: seq<Note>, now: int, peak: int) {
    && (exists n :: n in notes && now - (PEAK_BUCKETS - 1) <= n.bucket && n.total == peak)
    && (forall n :: n in notes && now - (PEAK_BUCKETS - 1) <= n.bucket ==> n.total <= peak)
  }

  function Max(a: int, b: int): int {
    if a >= b then a else b
  }

  function Recorded(peaks: seq<PeakBucket>, n: Note): seq<PeakBucket> {
    var k := |peaks|;
    if k > 0 && peaks[k - 1].start == n.bucket
    then peaks[k - 1 := PeakBucket(n.bucket, Max(peaks[k - 1].max, n.total))]
    else peaks + [PeakBucket(n.bucket, n.total)]
  }

  function Pruned(peaks: seq<PeakBucket>, cutoff: int): seq<PeakBucket> {
    if peaks != [] && peaks[0].start < cutoff then Pruned(peaks[1..], cutoff) else peaks
  }

  // The list after a note: recorded, and without the buckets that have left the window.
  function Updated(peaks: seq<PeakBucket>, n: Note): seq<PeakBucket> {
    Pruned(Recorded(peaks, n), n.bucket - (PEAK_BUCKETS - 1))
  }

  // At most six buckets are ever kept.
  lemma {:induction false} WindowIsSmall(peaks: seq<PeakBucket>, lo: int, hi: int)
    requires Rising(peaks) && forall p :: p in peaks ==> lo <= p.start <= hi
    requires lo <= hi + 1
    ensures |peaks| <= hi - lo + 1
  {
    if peaks != [] {
      var rest := peaks[..|peaks| - 1];
      WindowIsSmall(rest, lo, peaks[|peaks| - 1].start - 1);
    }
  }

  // Recording touches at most the last bucket, which it may add.
  lemma RecordedIs(peaks: seq<PeakBucket>, n: Note)
    ensures var r, k := Recorded(peaks, n), |peaks|;
            && |r| >= 1 && r[|r| - 1].start == n.bucket && r[|r| - 1].max >= n.total
            && (forall i :: 0 <= i < k ==> i < |r| && r[i].start == peaks[i].start && r[i].max >= peaks[i].max)
            && (forall p :: p in r ==> p in peaks || p == PeakBucket(n.bucket, n.total))
  {
  }

  lemma RecordedRises(peaks: seq<PeakBucket>, n: Note)
    requires Rising(peaks) && forall p :: p in peaks ==> p.start <= n.bucket
    ensures Rising(Recorded(peaks, n))
  {
  }

  lemma RecordedCovers(peaks: seq<PeakBucket>, n: Note, m: Note)
    requires m == n || Covered(peaks, m)
    ensures Covered(Recorded(peaks, n), m)
  {
    var r := Recorded(peaks, n);
    RecordedIs(peaks, n);
    if m == n {
      assert r[|r| - 1] in r;
    } else {
      var p :| p in peaks && p.start == m.bucket && m.total <= p.max;
      var i :| 0 <= i < |peaks| && peaks[i] == p;
      assert r[i] in r;
    }
  }

  lemma {:induction false} PrunedKeeps(peaks: seq<PeakBucket>, cutoff: int)
    requires Rising(peaks)
    ensures Rising(Pruned(peaks, cutoff))
    ensures forall p :: p in Pruned(peaks, cutoff) <==> p in peaks && p.start >= cutoff
  {
    if peaks != [] && peaks[0].start < cutoff {
      PrunedKeeps(peaks[1..], cutoff);
      assert forall p :: p in peaks ==> p == peaks[0] || p in peaks[1..];
    }
  }

  // One note keeps the representation, moving the window to its bucket.
  lemma NotedRepresents(peaks: seq<PeakBucket>, notes: seq<Note>, was: int, n: Note)
    requires Represents(peaks, notes, was) && was <= n.bucket
    ensures Represents(Updated(peaks, n), notes + [n], n.bucket)
  {
    UpdatedFits(peaks, notes, was, n);
    UpdatedCovers(peaks, notes, was, n);
  }

  lemma UpdatedFits(peaks: seq<PeakBucket>, notes: seq<Note>, was: int, n: Note)
    requires Represents(peaks, notes, was) && was <= n.bucket
    ensures Rising(Updated(peaks, n)) && InWindow(Updated(peaks, n), n.bucket) && Noted(Updated(peaks, n), notes + [n])
  {
    RecordedFits(peaks, notes, was, n);
    PrunedKeeps(Recorded(peaks, n), n.bucket - (PEAK_BUCKETS - 1));
  }

  lemma UpdatedCovers(peaks: seq<PeakBucket>, notes: seq<Note>, was: int, n: Note)
    requires Represents(peaks, notes, was) && was <= n.bucket
    ensures AllCovered(Updated(peaks, n), notes + [n], n.bucket - (PEAK_BUCKETS - 1))
  {
    forall m | m in notes + [n] && n.bucket - (PEAK_BUCKETS - 1) <= m.bucket
      ensures Covered(Updated(peaks, n), m)
    {
      assert m != n ==> m in notes && Covered(peaks, m);
      UpdatedCoversOne(peaks, n, m);
    }
  }

  lemma UpdatedCoversOne(peaks: seq<PeakBucket>, n: Note, m: Note)
    requires Rising(peaks) && forall p :: p in peaks ==> p.start <= n.bucket
    requires m == n || Covered(peaks, m)
    requires n.bucket - (PEAK_BUCKETS - 1) <= m.bucket
    ensures Covered(Updated(peaks, n), m)
  {
    RecordedRises(peaks, n);
    RecordedCovers(peaks, n, m);
    PrunedCovers(Recorded(peaks, n), n.bucket - (PEAK_BUCKETS - 1), m);
  }

  lemma PrunedCovers(peaks: seq<PeakBucket>, cutoff: int, m: Note)
    requires Rising(peaks) && Covered(peaks, m) && cutoff <= m.bucket
    ensures Covered(Pruned(peaks, cutoff), m)
  {
    PrunedKeeps(peaks, cutoff);
    var p :| p in peaks && p.start == m.bucket && m.total <= p.max;
    assert p in Pruned(peaks, cutoff);
  }

  lemma RecordedFits(peaks: seq<PeakBucket>, notes: seq<Note>, was: int, n: Note)
    requires Represents(peaks, notes, was) && was <= n.bucket
    ensures Rising(Recorded(peaks, n))
    ensures forall p :: p in Recorded(peaks, n) ==> p.start <= n.bucket
    ensures Noted(Recorded(peaks, n), notes + [n])
  {
    RecordedIs(peaks, n);
    RecordedRises(peaks, n);
  }

  // The highest maximum on the list is the recent peak.
  lemma PeakIs(peaks: seq<PeakBucket>, notes: seq<Note>, now: int, total: int, peak: int)
    requires Represents(peaks, notes, now) && Note(now, total) in notes
    requires peak >= total && forall p :: p in peaks ==> p.max <= peak
    requires peak == total || exists p :: p in peaks && p.max == peak
    ensures IsPeak(notes, now, peak) && |peaks| <= PEAK_BUCKETS
  {
    WindowIsSmall(peaks, now - (PEAK_BUCKETS - 1), now);
    if peak == total {
      var n := Note(now, total);
      assert n in notes && n.total == peak;
    } else {
      var p :| p in peaks && p.max == peak;
      assert Note(p.start, p.max) in notes && Note(p.start, p.max).total == peak;
    }
  }

  // The window in time: it reaches back at least fifty minutes and less than an hour.
  lemma WindowInTime(past: int, now: int)
    requires past <= now
    ensures var inside := now / PEAK_BUCKET_DUR - (PEAK_BUCKETS - 1) <= past / PEAK_BUCKET_DUR;
            && (now - past <= 50 * 60 * 1_000_000_000 ==> inside)
            && (inside ==> now - past < 60 * 60 * 1_000_000_000)
  {
  }

  class PeakWindow {
    var peaks: seq<PeakBucket>
    // Everything ever noted, and the bucket of the last note.
    ghost var notes: seq<Note>
    ghost var now: int

    ghost predicate Valid()
      reads this
    {
      Represents(peaks, notes, now)
    }

    constructor ()
      ensures Valid() && peaks == [] && notes == []
    {
      peaks, notes, now := [], [], 0;
    }

    // Records the current depth and returns the recent peak.
    method NotePeak(total: int, time: int) returns (peak: int)
      requires Valid() && now <= time / PEAK_BUCKET_DUR
      modifies this
      ensures Valid()
      ensures now == time / PEAK_BUCKET_DUR && notes == old(notes) + [Note(now, total)]
      ensures IsPeak(notes, now, peak) && peak >= total && |peaks| <= PEAK_BUCKETS
    {
      Add(Note(time / PEAK_BUCKET_DUR, total));
      assert notes[|notes| - 1] == Note(now, total);
      peak := Highest(total);
      PeakIs(peaks, notes, now, total, peak);
    }

    method Add(n: Note)
      requires Valid() && now <= n.bucket
      modifies this
      ensures Valid() && now == n.bucket && notes == old(notes) + [n]
    {
      NotedRepresents(peaks, notes, now, n);
      Record(n);
      notes, now := notes + [n], n.bucket;
    }

    method Record(n: Note)
      modifies this`peaks
      ensures peaks == Updated(old(peaks), n)
    {
      if |peaks| > 0 && peaks[|peaks| - 1].start == n.bucket {
        peaks := peaks[|peaks| - 1 := PeakBucket(n.bucket, Max(peaks[|peaks| - 1].max, n.total))];
      } else {
        peaks := peaks + [PeakBucket(n.bucket, n.total)];
      }
      ghost var recorded := peaks;
      var cutoff := n.bucket - (PEAK_BUCKETS - 1);
      while |peaks| > 0 && peaks[0].start < cutoff
        invariant Pruned(peaks, cutoff) == Pruned(recorded, cutoff)
        decreases |peaks|
      {
        peaks := peaks[1..];
      }
    }

    method Highest(total: int) returns (peak: int)
      ensures peak >= total && forall p :: p in peaks ==> p.max <= peak
      ensures peak == total || exists p :: p in peaks && p.max == peak
    {
      peak := total;
      for i := 0 to |peaks|
        invariant peak >= total && forall j :: 0 <= j < i ==> peaks[j].max <= peak
        invariant peak == total || exists p :: p in peaks && p.max == peak
      {
        peak := Max(peak, peaks[i].max);
      }
    }
  }
}
