/** Background refreshes behind cached answers: the live feeds (internal/explorer/live.go:18-72) and the
    sync probe (internal/explorer/stats.go:47-139). Both share one scheme, `Gate`, with their own interval.
    Times are nanoseconds on a clock that never runs backwards; None is Go's zero time. */
module LiveRefresh {
  import opened Common
  import opened Options

  const LIVE_EVERY: int := 5 * SECOND
  const SYNC_EVERY: int := 10 * SECOND
  const STUCK: int := 120 * SECOND
  const SYNCED_MAX_TIP_AGE: int := 4 * 3600 * SECOND

  // A fresh value, or the previous one.
  function Or<T>(latest: Option<T>, previous: Option<T>): Option<T> {
    if latest.Some? then latest else previous
  }

  datatype Gate = Gate(attemptAt: Option<int>, kickedAt: int, inFlight: bool)

  const IDLE := Gate(None, 0, false)

  // A refresh is due, and none is in flight or the one that is looks stuck.
  predicate Due(g: Gate, every: int, now: int) {
    && (g.attemptAt.Some? ==> now - g.attemptAt.value >= every)
    && (!g.inFlight || now - g.kickedAt >= STUCK)
  }

  function Polled(g: Gate, every: int, now: int): Gate {
    if Due(g, every, now) then g.(inFlight := true, kickedAt := now) else g
  }

  function Finished(g: Gate, now: int): Gate {
    g.(inFlight := false, attemptAt := Some(now))
  }

  // ---------- the live feeds ----------

  datatype Live<+S, +F, +U> = Live(stats: Option<S>, fees: Option<F>, update: Option<U>)

  class LiveCache<S, F, U> {
    var liveAttemptAt: Option<int>
    var liveKickedAt: int
    var liveInFlight: bool
    var live: Live<S, F, U>

    ghost function State(): Gate
      reads this
    {
      Gate(liveAttemptAt, liveKickedAt, liveInFlight)
    }

    constructor ()
      ensures State() == IDLE && live == Live(None, None, None)
    {
      liveAttemptAt, liveKickedAt, liveInFlight := None, 0, false;
      live := Live(None, None, None);
    }

    // Answers at once from the cache; `kick` starts a refresh in the background.
    method LiveSnapshot(now: int) returns (answer: Live<S, F, U>, kick: bool)
      modifies this`liveInFlight, this`liveKickedAt
      ensures answer == live && kick == Due(old(State()), LIVE_EVERY, now)
      ensures State() == Polled(old(State()), LIVE_EVERY, now)
    {
      kick := false;
      if (liveAttemptAt.None? || now - liveAttemptAt.value >= LIVE_EVERY)
         && (!liveInFlight || now - liveKickedAt >= STUCK) {
        liveInFlight, liveKickedAt, kick := true, now, true;
      }
      answer := live;
    }

    // A refresh lands; a feed that failed keeps its previous value.
    method RefreshLive(stats: Option<S>, fees: Option<F>, update: Option<U>, now: int)
      modifies this
      ensures State() == Finished(old(State()), now)
      ensures live == Live(Or(stats, old(live).stats), Or(fees, old(live).fees), Or(update, old(live).update))
    {
      liveInFlight, liveAttemptAt := false, Some(now);
      if stats.Some? {
        live := live.(stats := stats);
      }
      if fees.Some? {
        live := live.(fees := fees);
      }
      if update.Some? {
        live := live.(update := update);
      }
    }
  }

  // ---------- the sync probe ----------

  datatype Probe = Unreachable | Tip(height: int, time: int)

  datatype SyncStatus = SyncStatus(syncing: bool, tipHeight: int, checkedAt: Option<int>)

  // What one answered probe says; an unanswered one keeps the last answer.
  function Probed(s: SyncStatus, gated: bool, p: Probe, now: int): SyncStatus {
    match p
    case Unreachable => s
    case Tip(height, time) => SyncStatus(gated && now - time > SYNCED_MAX_TIP_AGE, height, Some(now))
  }

  class SyncCache {
    const gated: bool  // whether tip age means anything on this network
    var syncAttemptAt: Option<int>
    var syncKickedAt: int
    var syncInFlight: bool
    var syncing: bool
    var syncTip: int
    var syncCheckedAt: Option<int>

    ghost function State(): Gate
      reads this
    {
      Gate(syncAttemptAt, syncKickedAt, syncInFlight)
    }

    ghost function Status(): SyncStatus
      reads this
    {
      SyncStatus(syncing, syncTip, syncCheckedAt)
    }

    // Until the first answer a gated network counts as syncing.
    constructor (gated: bool)
      ensures State() == IDLE && Status() == SyncStatus(gated, 0, None) && this.gated == gated
    {
      this.gated := gated;
      syncAttemptAt, syncKickedAt, syncInFlight := None, 0, false;
      syncing, syncTip, syncCheckedAt := gated, 0, None;
    }

    method GetSyncStatus(now: int) returns (s: SyncStatus, kick: bool)
      modifies this`syncInFlight, this`syncKickedAt
      ensures s == Status() && kick == Due(old(State()), SYNC_EVERY, now)
      ensures State() == Polled(old(State()), SYNC_EVERY, now)
    {
      kick := false;
      if (syncAttemptAt.None? || now - syncAttemptAt.value >= SYNC_EVERY)
         && (!syncInFlight || now - syncKickedAt >= STUCK) {
        syncInFlight, syncKickedAt, kick := true, now, true;
      }
      s := SyncStatus(syncing, syncTip, syncCheckedAt);
    }

    method RefreshSync(p: Probe, now: int)
      modifies this
      ensures State() == Finished(old(State()), now)
      ensures Status() == Probed(old(Status()), gated, p, now)
    {
      syncInFlight, syncAttemptAt := false, Some(now);
      if p.Unreachable? {
        return;
      }
      syncTip, syncCheckedAt := p.height, Some(now);
      syncing := gated && now - p.time > SYNCED_MAX_TIP_AGE;
    }
  }

  // ---------- whole runs ----------

  datatype Step = Poll(now: int) | Finish(id: nat, now: int)

  // The gate, the refreshes in the air by number with their start times, and the time of every kick.
  datatype World = World(g: Gate, flights: map<nat, int>, kicks: seq<int>)

  ghost function Next(w: World, every: int, s: Step): World {
    match s
    case Poll(now) =>
      if Due(w.g, every, now)
      then World(Polled(w.g, every, now), w.flights[|w.kicks| := now], w.kicks + [now])
      else w
    case Finish(id, now) =>
      if id in w.flights then World(Finished(w.g, now), w.flights - {id}, w.kicks) else w
  }

  ghost function Run(steps: seq<Step>, every: int): World {
    if steps == [] then World(IDLE, map[], []) else Next(Run(steps[..|steps| - 1], every), every, steps[|steps| - 1])
  }

  ghost predicate Ordered(steps: seq<Step>) {
    forall i, j :: 0 <= i < j < |steps| ==> steps[i].now <= steps[j].now
  }

  // Kicks are spaced, and since the last one either nothing has finished or the gate dates from then.
  ghost predicate Spaced(w: World, every: int) {
    && (forall i, j :: 0 <= i < j < |w.kicks| ==> w.kicks[j] - w.kicks[i] >= every)
    && (w.kicks == [] ==> !w.g.inFlight && w.flights == map[])
    && (w.kicks != [] ==>
          var last := w.kicks[|w.kicks| - 1];
          w.g.kickedAt == last && (w.g.inFlight || (w.g.attemptAt.Some? && w.g.attemptAt.value >= last)))
    && (forall id :: id in w.flights ==> id < |w.kicks| && w.flights[id] == w.kicks[id])
  }

  ghost predicate NotAfter(w: World, now: int) {
    forall i :: 0 <= i < |w.kicks| ==> w.kicks[i] <= now
  }

  lemma StepSpaced(w: World, every: int, s: Step)
    requires 0 <= every <= STUCK && Spaced(w, every) && NotAfter(w, s.now)
    ensures Spaced(Next(w, every, s), every)
    ensures forall now :: s.now <= now ==> NotAfter(Next(w, every, s), now)
  {
    if s.Poll? && Due(w.g, every, s.now) {
      var w' := Next(w, every, s);
      forall i | 0 <= i < |w.kicks| ensures s.now - w.kicks[i] >= every {
        var last := w.kicks[|w.kicks| - 1];
        assert w.kicks[i] <= last;
      }
      assert forall i :: 0 <= i < |w'.kicks| ==> w'.kicks[i] == if i < |w.kicks| then w.kicks[i] else s.now;
    }
  }

  // In every run, successive refreshes start at least `every` apart, however late old ones finish.
  lemma {:induction false} KicksAreSpaced(steps: seq<Step>, every: int)
    requires 0 <= every <= STUCK && Ordered(steps)
    ensures Spaced(Run(steps, every), every)
    ensures steps != [] ==> NotAfter(Run(steps, every), steps[|steps| - 1].now)
  {
    if steps != [] {
      var before, s := steps[..|steps| - 1], steps[|steps| - 1];
      KicksAreSpaced(before, every);
      if before != [] {
        assert before[|before| - 1].now <= s.now;
      }
      StepSpaced(Run(before, every), every, s);
    }
  }

  // At every poll, whatever is in the air started less than two minutes ago.
  ghost predicate Timely(steps: seq<Step>, every: int) {
    forall i :: 0 <= i < |steps| && steps[i].Poll? ==> Young(Run(steps[..i], every), steps[i].now)
  }

  ghost predicate Young(w: World, now: int) {
    forall id :: id in w.flights ==> now - w.flights[id] < STUCK
  }

  // At most one refresh is in the air, and the flag says whether one is.
  ghost predicate Single(w: World) {
    if w.g.inFlight then w.kicks != [] && w.flights.Keys == {|w.kicks| - 1} else w.flights == map[]
  }

  // If refreshes end within two minutes, there is never more than one in flight.
  lemma {:induction false} AtMostOneInFlight(steps: seq<Step>, every: int)
    requires 0 <= every <= STUCK && Ordered(steps) && Timely(steps, every)
    ensures Single(Run(steps, every)) && |Run(steps, every).flights| <= 1
  {
    if steps != [] {
      var before, s := steps[..|steps| - 1], steps[|steps| - 1];
      assert forall i :: 0 <= i < |before| ==> before[..i] == steps[..i] && before[i] == steps[i];
      AtMostOneInFlight(before, every);
      KicksAreSpaced(before, every);
      SingleStep(Run(before, every), every, s);
    }
  }

  lemma SingleStep(w: World, every: int, s: Step)
    requires Single(w) && Spaced(w, every) && (s.Poll? ==> Young(w, s.now))
    ensures Single(Next(w, every, s)) && |Next(w, every, s).flights| <= 1
  {
    var w' := Next(w, every, s);
    if s.Finish? && s.id in w.flights {
      assert (w.flights - {s.id}).Keys == w.flights.Keys - {s.id};
    }
    if w.g.inFlight {
      assert w.flights[|w.kicks| - 1] == w.g.kickedAt;
    }
    assert w'.flights == map[] || |w'.flights.Keys| == 1;
  }

  ghost predicate FinishedAt(steps: seq<Step>, now: int) {
    exists s :: s in steps && s.Finish? && s.now == now
  }

  lemma {:induction false} AttemptWasAFinish(steps: seq<Step>, every: int)
    ensures Run(steps, every).g.attemptAt.Some? ==> FinishedAt(steps, Run(steps, every).g.attemptAt.value)
  {
    if steps != [] {
      var before, s := steps[..|steps| - 1], steps[|steps| - 1];
      AttemptWasAFinish(before, every);
      assert steps == before + [s];
      if Run(before, every).g.attemptAt.Some? {
        var f :| f in before && f.Finish? && f.now == Run(before, every).g.attemptAt.value;
        assert f in steps;
      }
      assert s in steps;
    }
  }

  // The cache never freezes: a poll that starts nothing comes less than `every` after a refresh ended, or
  // less than two minutes after one started.
  lemma NeverFrozen(steps: seq<Step>, every: int, now: int)
    requires 0 <= every <= STUCK && Ordered(steps)
    requires var w := Run(steps, every); Next(w, every, Poll(now)).kicks == w.kicks
    ensures var w := Run(steps, every);
            || (w.kicks != [] && now - w.kicks[|w.kicks| - 1] < STUCK)
            || (exists f :: f in steps && f.Finish? && now - f.now < every)
  {
    KicksAreSpaced(steps, every);
    AttemptWasAFinish(steps, every);
  }

  // ---------- what is served ----------

  // A probe, and when it was answered.
  datatype Probing = Probing(p: Probe, now: int)

  ghost function StatusAfter(gated: bool, probes: seq<Probing>): SyncStatus {
    if probes == [] then SyncStatus(gated, 0, None)
    else
      var last := probes[|probes| - 1];
      Probed(StatusAfter(gated, probes[..|probes| - 1]), gated, last.p, last.now)
  }

  // No probe from `i` on was answered.
  ghost predicate NoneAnswered(probes: seq<Probing>, i: nat) {
    forall j :: i <= j < |probes| ==> probes[j].p.Unreachable?
  }

  // Before the first answer a node counts as syncing where tip age means something.
  lemma {:induction false} StatusBeforeAnswer(gated: bool, probes: seq<Probing>)
    requires NoneAnswered(probes, 0)
    ensures StatusAfter(gated, probes).checkedAt.None? && (StatusAfter(gated, probes).syncing <==> gated)
  {
    if probes != [] {
      StatusBeforeAnswer(gated, probes[..|probes| - 1]);
    }
  }

  // The status says what the last answered probe found, however many have failed since: the tip's height, and
  // syncing if and only if tip age means something here and the tip was more than four hours old.
  lemma {:induction false} StatusTells(gated: bool, probes: seq<Probing>, i: nat)
    requires i < |probes| && probes[i].p.Tip? && NoneAnswered(probes, i + 1)
    ensures var (s, answer) := (StatusAfter(gated, probes), probes[i]);
            && s.checkedAt == Some(answer.now) && s.tipHeight == answer.p.height
            && (s.syncing <==> gated && answer.now - answer.p.time > 4 * 3600 * 1_000_000_000)
  {
    if i < |probes| - 1 {
      StatusTells(gated, probes[..|probes| - 1], i);
    }
  }

  // What a feed shows after a series of refreshes, each fresh or failed.
  function Feed<T>(results: seq<Option<T>>): Option<T> {
    if results == [] then None else Or(results[|results| - 1], Feed(results[..|results| - 1]))
  }

  // A feed shows the value of the last refresh that brought one.
  lemma {:induction false} FeedIsLatest<T(!new)>(results: seq<Option<T>>, i: nat)
    requires i < |results| && results[i].Some? && forall j :: i < j < |results| ==> results[j].None?
    ensures Feed(results) == results[i]
  {
    if i < |results| - 1 {
      FeedIsLatest(results[..|results| - 1], i);
    }
  }

  // When the last refresh ended.
  ghost function LastEnd(steps: seq<Step>, every: int): Option<int> {
    if steps == [] then None
    else
      var before := steps[..|steps| - 1];
      match steps[|steps| - 1]
      case Finish(id, now) => if id in Run(before, every).flights then Some(now) else LastEnd(before, every)
      case Poll(_) => LastEnd(before, every)
  }

  // Whether a refresh has ended since the last one began.
  ghost function EndedSince(steps: seq<Step>, every: int): bool {
    if steps == [] then true
    else
      var before := steps[..|steps| - 1];
      match steps[|steps| - 1]
      case Finish(id, now) => id in Run(before, every).flights || EndedSince(before, every)
      case Poll(now) => !Due(Run(before, every).g, every, now) && EndedSince(before, every)
  }

  lemma {:induction false} GateTells(steps: seq<Step>, every: int)
    ensures var w := Run(steps, every);
            && w.g.attemptAt == LastEnd(steps, every) && (w.g.inFlight <==> !EndedSince(steps, every))
            && (w.g.inFlight ==> w.kicks != [] && w.g.kickedAt == w.kicks[|w.kicks| - 1])
  {
    if steps != [] {
      GateTells(steps[..|steps| - 1], every);
    }
  }

  // Told from the run alone: a poll starts a refresh if and only if the last one to end did so at least the
  // interval ago, and none is running or the last one to start did so at least two minutes ago.
  lemma PollKicksExactlyWhen(steps: seq<Step>, every: int, now: int)
    ensures var (w, w') := (Run(steps, every), Next(Run(steps, every), every, Poll(now)));
            && (w'.kicks == w.kicks + [now] || w'.kicks == w.kicks)
            && (w'.kicks != w.kicks <==>
                  && (LastEnd(steps, every).Some? ==> now - LastEnd(steps, every).value >= every)
                  && (EndedSince(steps, every)
                      || (w.kicks != [] && now - w.kicks[|w.kicks| - 1] >= 120_000_000_000)))
  {
    GateTells(steps, every);
  }

  // The two intervals in plain numbers.
  lemma KicksInNumbers(steps: seq<Step>, i: nat, j: nat)
    requires Ordered(steps)
    ensures var kicks := Run(steps, LIVE_EVERY).kicks; i < j < |kicks| ==> kicks[j] - kicks[i] >= 5_000_000_000
    ensures var kicks := Run(steps, SYNC_EVERY).kicks; i < j < |kicks| ==> kicks[j] - kicks[i] >= 10_000_000_000
  {
    KicksAreSpaced(steps, LIVE_EVERY);
    KicksAreSpaced(steps, SYNC_EVERY);
  }
}
