/** The shared mempool snapshot (internal/explorer/mempool.go).

    The fetch runs with no lock held, so the cache is a set of critical sections that interleave with
    fetches and with marks from the node's notifications. Each section is a method here; the module
    RefreshProtocol looks at whole interleavings. Times are nanoseconds; None is Go's zero time. */
module MempoolCache {
  import opened Options
  import opened Common
  import opened Volume
  import Queue
  import opened PeakWindow

  const SNAPSHOT_MAX_AGE: int := 5 * SECOND
  const SNAPSHOT_MIN_AGE: int := SECOND
  const FETCH_STUCK: int := 120 * SECOND

  // ---------- the fetch state ----------

  datatype Fetching = Fetching(entries: Option<Snapshot>, fetched: Option<int>, dirty: bool, gen: nat,
                               fetching: bool, fetchStarted: int)

  const COLD := Fetching(None, None, false, 0, false, 0)

  // A copy worth serving: young enough, and not both dirty and past the throttle.
  predicate Fresh(m: Fetching, now: int) {
    && m.entries.Some? && m.fetched.Some?
    && now - m.fetched.value < SNAPSHOT_MAX_AGE
    && !(m.dirty && now - m.fetched.value >= SNAPSHOT_MIN_AGE)
  }

  // Whether a reader fetches: not when fresh, nor while a fetch that is not stuck is refreshing a warm copy.
  predicate Fetches(m: Fetching, now: int) {
    !Fresh(m, now) && !(m.fetching && now - m.fetchStarted < FETCH_STUCK && m.entries.Some?)
  }

  function Begun(m: Fetching, now: int): Fetching {
    if Fetches(m, now) then m.(fetching := true, fetchStarted := now) else m
  }

  function Failed(m: Fetching): Fetching {
    m.(fetching := false)
  }

  function Installed(m: Fetching, gen: nat, entries: Snapshot, now: int): Fetching {
    m.(fetching := false, entries := Some(entries), fetched := Some(now), dirty := m.dirty && m.gen != gen)
  }

  function Marked(m: Fetching): Fetching {
    m.(dirty := true, gen := m.gen + 1)
  }

  function Invalidated(m: Fetching): Fetching {
    Marked(m).(fetched := None)
  }

  // ---------- the cache, section by section ----------

  // The histogram with the recent peak it is drawn against.
  datatype Line = Line(queue: Queue.Queue, peakVbytes: int)

  class Mempool {
    var entries: Option<Snapshot>
    var fetched: Option<int>
    var dirty: bool
    var gen: nat
    var fetching: bool
    var fetchStarted: int
    var queue: Option<Line>
    const peaks: PeakWindow

    ghost function State(): Fetching
      reads this
    {
      Fetching(entries, fetched, dirty, gen, fetching, fetchStarted)
    }

    // The memoised histogram always derives from the entries it is served with, and its peak covers it.
    ghost predicate Valid()
      reads this, peaks
    {
      && peaks.Valid()
      && (queue.Some? ==> IsLine(queue.value))
    }

    ghost predicate IsLine(line: Line)
      reads this, peaks
    {
      && Queue.IsQueue(line.queue, Entries(Copy()))
      && line.peakVbytes >= line.queue.totalVbytes
    }

    // The histogram's total has been noted, and its peak is the highest total of the last six buckets.
    ghost predicate DrawnNow(line: Line, noted: seq<Note>)
      reads peaks
    {
      && peaks.notes == noted + [Note(peaks.now, line.queue.totalVbytes)]
      && IsPeak(peaks.notes, peaks.now, line.peakVbytes)
    }

    // What readers are handed: the current copy, empty before the first fetch.
    ghost function Copy(): Snapshot
      reads this
    {
      if entries.Some? then entries.value else map[]
    }

    constructor ()
      ensures Valid() && State() == COLD && fresh(peaks)
    {
      entries, fetched, dirty, gen, fetching, fetchStarted := None, None, false, 0, false, 0;
      queue := None;
      peaks := new PeakWindow();
    }

    // The section before the fetch; the result carries the generation to install under.
    method Begin(now: int) returns (fetch: Option<nat>)
      requires Valid()
      modifies this`fetching, this`fetchStarted
      ensures Valid() && State() == Begun(old(State()), now)
      ensures fetch == if Fetches(old(State()), now) then Some(gen) else None
    {
      if entries.Some? && fetched.Some? {
        var age := now - fetched.value;
        if age < SNAPSHOT_MAX_AGE && !(dirty && age >= SNAPSHOT_MIN_AGE) {
          return None;
        }
      }
      if fetching && now - fetchStarted < FETCH_STUCK && entries.Some? {
        return None;
      }
      fetching, fetchStarted := true, now;
      return Some(gen);
    }

    method Fail()
      requires Valid()
      modifies this`fetching
      ensures Valid() && State() == Failed(old(State()))
    {
      fetching := false;
    }

    method Install(began: nat, fetchedEntries: Snapshot, now: int)
      requires Valid()
      modifies this
      ensures Valid() && State() == Installed(old(State()), began, fetchedEntries, now)
    {
      fetching := false;
      entries := Some(fetchedEntries);
      queue := None;
      fetched := Some(now);
      if gen == began {
        dirty := false;
      }
    }

    method MarkDirty()
      requires Valid()
      modifies this`dirty, this`gen
      ensures Valid() && State() == Marked(old(State()))
    {
      dirty, gen := true, gen + 1;
    }

    method Invalidate()
      requires Valid()
      modifies this`dirty, this`gen, this`fetched
      ensures Valid() && State() == Invalidated(old(State()))
    {
      fetched := None;
      dirty, gen := true, gen + 1;
    }

    // The locked read: entries and histogram of one and the same copy.
    method SnapshotAndQueue(now: int) returns (copy: Snapshot, line: Line)
      requires Valid() && peaks.now <= now / PEAK_BUCKET_DUR
      modifies this`queue, peaks
      ensures Valid() && State() == old(State())
      ensures copy == Copy() && IsLine(line) && queue == Some(line)
      ensures old(queue).Some? ==> line == old(queue).value
      ensures old(queue).None? ==> DrawnNow(line, old(peaks.notes))
    {
      copy := if entries.Some? then entries.value else map[];
      if queue.None? {
        var drawn := Draw(copy, now);
        queue := Some(drawn);
      }
      line := queue.value;
    }

    method Draw(copy: Snapshot, now: int) returns (line: Line)
      requires peaks.Valid() && peaks.now <= now / PEAK_BUCKET_DUR && copy == Copy()
      modifies peaks
      ensures peaks.Valid() && IsLine(line) && DrawnNow(line, old(peaks.notes))
    {
      var q := Queue.QueueFromSnapshot(copy);
      var peak := peaks.NotePeak(q.totalVbytes, now);
      line := Line(q, peak);
    }
  }
}
