/** Every interleaving of mempool fetches with marks (internal/explorer/mempool.go:139-227).

    A tick counts the steps. What happened when is recorded beside the cache: when each fetch began, when
    the last mark was made, when the fetch began that produced the installed copy, and when the fetch began
    that last cleared the dirty flag. Nothing in the cache reads these; the theorems speak of them. */
module RefreshProtocol {
  import opened Options
  import opened Volume
  import opened MempoolCache

  datatype Flight = Flight(gen: nat, at: int)

  datatype World = World(
    m: Fetching,
    flights: map<nat, Flight>,  // fetches in the air, by the tick they began at
    tick: nat,
    lastMark: nat,              // 0 before the first mark
    copyBegan: nat,             // 0 before the first install
    clearedBy: nat)             // 0 before the first clean install

  const START := World(COLD, map[], 1, 0, 0, 0)

  datatype Step =
    | Read(now: int)
    | Lands(began: nat, entries: Snapshot, now: int)
    | Fails(began: nat)
    | Mark
    | Invalidate

  ghost function Next(w: World, s: Step): World {
    var t := w.(tick := w.tick + 1);
    match s
    case Read(now) =>
      t.(m := Begun(w.m, now),
         flights := if Fetches(w.m, now) then w.flights[w.tick := Flight(w.m.gen, now)] else w.flights)
    case Lands(began, entries, now) =>
      if began !in w.flights then t
      else
        var gen := w.flights[began].gen;
        t.(m := Installed(w.m, gen, entries, now), flights := w.flights - {began}, copyBegan := began,
           clearedBy := if w.m.gen == gen then began else w.clearedBy)
    case Fails(began) =>
      if began !in w.flights then t else t.(m := Failed(w.m), flights := w.flights - {began})
    case Mark => t.(m := Marked(w.m), lastMark := w.tick)
    case Invalidate => t.(m := Invalidated(w.m), lastMark := w.tick)
  }

  ghost function RunFrom(w: World, steps: seq<Step>): World {
    if steps == [] then w else Next(RunFrom(w, steps[..|steps| - 1]), steps[|steps| - 1])
  }

  ghost function Run(steps: seq<Step>): World {
    RunFrom(START, steps)
  }

  // The generation counter tells time: a fetch still carries the current one iff no mark came after it
  // began. A clean flag means some fetch begun after the last mark has landed since.
  ghost predicate Sound(w: World) {
    && w.lastMark < w.tick && w.copyBegan < w.tick && w.clearedBy < w.tick
    && (forall b :: b in w.flights ==> 0 < b < w.tick && b != w.lastMark && w.flights[b].gen <= w.m.gen)
    && (forall b :: b in w.flights ==> (w.flights[b].gen == w.m.gen <==> w.lastMark < b))
    && (!w.m.dirty ==> w.lastMark == 0 || w.lastMark < w.clearedBy)
  }

  lemma StepSound(w: World, s: Step)
    requires Sound(w)
    ensures Sound(Next(w, s))
  {
  }

  lemma {:induction false} RunSound(steps: seq<Step>)
    ensures Sound(Run(steps))
  {
    if steps != [] {
      RunSound(steps[..|steps| - 1]);
      StepSound(Run(steps[..|steps| - 1]), steps[|steps| - 1]);
    }
  }

  // In every interleaving: a dirty mark is cleared only by the landing of a fetch begun after the last mark.
  lemma ClearedOnlyByALaterFetch(steps: seq<Step>, s: Step)
    requires Run(steps).m.dirty && !Next(Run(steps), s).m.dirty
    ensures s.Lands? && s.began in Run(steps).flights && Run(steps).lastMark < s.began
  {
    RunSound(steps);
  }

  // ---------- clean means current ----------

  // If the flag is clean, the copy comes from a fetch begun after the last mark.
  ghost predicate CleanIsCurrent(w: World) {
    !w.m.dirty && w.m.entries.Some? ==> w.lastMark == 0 || w.lastMark < w.copyBegan
  }

  // A step breaks it exactly when an older fetch lands on a clean copy.
  lemma BrokenExactlyByAStaleLanding(w: World, s: Step)
    requires Sound(w) && CleanIsCurrent(w)
    ensures CleanIsCurrent(Next(w, s)) <==>
            !(s.Lands? && s.began in w.flights && w.flights[s.began].gen != w.m.gen && !w.m.dirty)
  {
  }

  // It happens: two fetches on a cold start, a mark between them, the older one landing last.
  lemma StaleLandingHappens(older: Snapshot, newer: Snapshot)
    ensures var w := Run([Read(0), Mark, Read(1), Lands(3, newer, 2), Lands(1, older, 3)]);
            !w.m.dirty && w.m.entries == Some(older) && !CleanIsCurrent(w)
  {
    var c, d := [Read(0), Mark, Read(1)], [Read(0), Mark, Read(1), Lands(3, newer, 2)];
    TwoInTheAir();
    assert c + [Lands(3, newer, 2)] == d;
    RunOne(c, Lands(3, newer, 2));
    RunOne(d, Lands(1, older, 3));
    assert d + [Lands(1, older, 3)] == [Read(0), Mark, Read(1), Lands(3, newer, 2), Lands(1, older, 3)];
  }

  lemma TwoInTheAir()
    ensures Run([Read(0), Mark, Read(1)]) ==
            World(Fetching(None, None, true, 1, true, 1), map[1 := Flight(0, 0), 3 := Flight(1, 1)], 4, 2, 0, 0)
  {
    var a, b := [Read(0)], [Read(0), Mark];
    assert [] + [Read(0)] == a && a + [Mark] == b && b + [Read(1)] == [Read(0), Mark, Read(1)];
    RunOne([], Read(0));
    RunOne(a, Mark);
    RunOne(b, Read(1));
  }

  lemma RunOne(steps: seq<Step>, s: Step)
    ensures Run(steps + [s]) == Next(Run(steps), s)
  {
    assert (steps + [s])[..|steps|] == steps;
  }

  ghost predicate NeverOverlaps(steps: seq<Step>) {
    forall i :: 0 <= i <= |steps| ==> |Run(steps[..i]).flights| <= 1
  }

  // A lone fetch that has been overtaken by a mark flies over a dirty flag.
  ghost predicate LoneFlight(w: World) {
    && |w.flights| <= 1
    && (forall b :: b in w.flights && b < w.lastMark ==> w.m.dirty)
  }

  // If fetches never overlap, a clean copy always comes from a fetch begun after the last mark.
  lemma {:induction false} CurrentUnlessOverlapping(steps: seq<Step>)
    requires NeverOverlaps(steps)
    ensures CleanIsCurrent(Run(steps)) && LoneFlight(Run(steps))
  {
    if steps != [] {
      var before, s := steps[..|steps| - 1], steps[|steps| - 1];
      assert forall i :: 0 <= i <= |before| ==> before[..i] == steps[..i];
      assert steps[..|steps|] == steps;
      CurrentUnlessOverlapping(before);
      RunSound(before);
      LoneStep(Run(before), s);
    }
  }

  lemma LoneStep(w: World, s: Step)
    requires Sound(w) && CleanIsCurrent(w) && LoneFlight(w) && |Next(w, s).flights| <= 1
    ensures CleanIsCurrent(Next(w, s)) && LoneFlight(Next(w, s))
  {
    BrokenExactlyByAStaleLanding(w, s);
    if s.Lands? && s.began in w.flights {
      OneKey(w.flights, s.began);
    }
  }

  lemma OneKey<V>(m: map<nat, V>, a: nat)
    requires |m| <= 1 && a in m
    ensures m.Keys == {a}
  {
    assert |m.Keys - {a}| == |m.Keys| - 1;
  }

  // ---------- when fetches cannot overlap ----------

  // The fetching flag tells whether the one fetch is in the air and since when.
  ghost predicate Tracked(w: World) {
    && (w.m.fetching <==> w.flights != map[])
    && |w.flights| <= 1
    && (forall b :: b in w.flights ==> w.flights[b].at == w.m.fetchStarted)
  }

  // A reader finds nothing in the air, or a warm copy and a fetch that is less than two minutes old.
  ghost predicate Orderly(w: World, s: Step) {
    s.Read? && w.flights != map[] ==>
      w.m.entries.Some? && forall b :: b in w.flights ==> s.now - w.flights[b].at < FETCH_STUCK
  }

  lemma StepTracked(w: World, s: Step)
    requires Tracked(w) && Orderly(w, s)
    ensures Tracked(Next(w, s))
  {
    if (s.Lands? || s.Fails?) && s.began in w.flights {
      OneKey(w.flights, s.began);
      assert (w.flights - {s.began}).Keys == {};
    }
  }

  ghost predicate AllOrderly(w: World, steps: seq<Step>) {
    forall i :: 0 <= i < |steps| ==> Orderly(RunFrom(w, steps[..i]), steps[i])
  }

  // Such runs never have two fetches in the air, and a clean copy in them is always current.
  lemma {:induction false} OrderlyStaysCurrent(w: World, steps: seq<Step>)
    requires Sound(w) && Tracked(w) && CleanIsCurrent(w) && LoneFlight(w) && AllOrderly(w, steps)
    ensures var w' := RunFrom(w, steps); Sound(w') && Tracked(w') && CleanIsCurrent(w') && LoneFlight(w')
  {
    if steps != [] {
      var before, s := steps[..|steps| - 1], steps[|steps| - 1];
      assert forall i :: 0 <= i < |before| ==> before[..i] == steps[..i] && before[i] == steps[i];
      assert AllOrderly(w, before);
      OrderlyStaysCurrent(w, before);
      StepSound(RunFrom(w, before), s);
      StepTracked(RunFrom(w, before), s);
      LoneStep(RunFrom(w, before), s);
    }
  }

  // From a cold start: if no reader comes during the fetch that warms the copy up, and fetches end within
  // two minutes after that, then no two fetches ever overlap and a clean copy is always current.
  lemma OrderlyNeverOverlaps(steps: seq<Step>)
    requires AllOrderly(START, steps)
    ensures NeverOverlaps(steps) && CleanIsCurrent(Run(steps))
  {
    OrderlyStaysCurrent(START, steps);
    forall i | 0 <= i <= |steps| ensures |Run(steps[..i]).flights| <= 1 {
      assert forall j :: 0 <= j < i ==> steps[..i][..j] == steps[..j];
      OrderlyStaysCurrent(START, steps[..i]);
    }
  }

  // Once a copy is warm it stays warm.
  lemma {:induction false} WarmStaysWarm(w: World, steps: seq<Step>)
    requires w.m.entries.Some?
    ensures RunFrom(w, steps).m.entries.Some?
  {
    if steps != [] {
      WarmStaysWarm(w, steps[..|steps| - 1]);
    }
  }

  // Whenever a reader comes, whatever is in the air is less than two minutes old.
  ghost predicate Timely(w: World, steps: seq<Step>) {
    forall i :: 0 <= i < |steps| && steps[i].Read? ==> Young(RunFrom(w, steps[..i]), steps[i].now)
  }

  ghost predicate Young(w: World, now: int) {
    forall b :: b in w.flights ==> now - w.flights[b].at < FETCH_STUCK
  }

  // Once warm, fetches that end within two minutes never overlap, and a clean copy is current, for ever after.
  lemma WarmNeverOverlaps(w: World, steps: seq<Step>)
    requires Sound(w) && Tracked(w) && CleanIsCurrent(w) && LoneFlight(w) && w.m.entries.Some?
    requires Timely(w, steps)
    ensures var w' := RunFrom(w, steps);
            |w'.flights| <= 1 && Sound(w') && Tracked(w') && CleanIsCurrent(w') && LoneFlight(w')
  {
    forall i | 0 <= i < |steps| ensures Orderly(RunFrom(w, steps[..i]), steps[i]) {
      WarmStaysWarm(w, steps[..i]);
    }
    OrderlyStaysCurrent(w, steps);
  }

  // ---------- what a block forces ----------

  // Readers are served the warm copy while a young fetch is refreshing it.
  ghost predicate YoungFetch(m: Fetching, now: int) {
    m.fetching && now - m.fetchStarted < FETCH_STUCK && m.entries.Some?
  }

  // A copy that landed less than the throttle ago.
  ghost predicate JustLanded(m: Fetching, now: int) {
    m.entries.Some? && m.fetched.Some? && now - m.fetched.value < SNAPSHOT_MIN_AGE
  }

  lemma {:induction false} LastMarkOnlyGrows(w: World, steps: seq<Step>)
    requires Sound(w)
    ensures Sound(RunFrom(w, steps)) && w.lastMark <= RunFrom(w, steps).lastMark
  {
    if steps != [] {
      LastMarkOnlyGrows(w, steps[..|steps| - 1]);
      StepSound(RunFrom(w, steps[..|steps| - 1]), steps[|steps| - 1]);
    }
  }

  // Until a fetch begun after the block has landed, a read fetches if and only if no young fetch is refreshing
  // a warm copy and nothing has landed within the throttle: a fetch begun before the block may have.
  lemma BlockForces(w: World, steps: seq<Step>, now: int)
    requires Sound(w) && RunFrom(Next(w, Invalidate), steps).clearedBy < w.tick
    ensures var m := RunFrom(Next(w, Invalidate), steps).m;
            Fetches(m, now) <==> !YoungFetch(m, now) && !JustLanded(m, now)
  {
    StepSound(w, Invalidate);
    LastMarkOnlyGrows(Next(w, Invalidate), steps);
  }

  lemma {:induction false} NothingFetched(w: World, steps: seq<Step>)
    requires w.m.fetched.None? && forall s :: s in steps ==> !s.Lands?
    ensures RunFrom(w, steps).m.fetched.None?
  {
    if steps != [] {
      NothingFetched(w, steps[..|steps| - 1]);
    }
  }

  // As long as nothing lands, that is whenever no young fetch is refreshing a warm copy.
  lemma BlockForcesUntilALanding(w: World, steps: seq<Step>, now: int)
    requires forall s :: s in steps ==> !s.Lands?
    ensures var m := RunFrom(Next(w, Invalidate), steps).m; Fetches(m, now) <==> !YoungFetch(m, now)
  {
    NothingFetched(Next(w, Invalidate), steps);
  }

  // The next read after a block can be served what was fetched before it: a warm copy, a fetch, a block, the
  // landing of that fetch, and a read.
  lemma BlockNeedNotForce(copy: Snapshot, older: Snapshot)
    ensures var now := SNAPSHOT_MAX_AGE;
            var w := Run([Read(0), Lands(1, copy, 0), Read(now), Invalidate, Lands(3, older, now)]);
            !Fetches(w.m, now) && w.m.entries == Some(older) && w.copyBegan < w.lastMark
  {
    var now := SNAPSHOT_MAX_AGE;
    var a, b := [Read(0), Lands(1, copy, 0)], [Read(0), Lands(1, copy, 0), Read(now)];
    var c := [Read(0), Lands(1, copy, 0), Read(now), Invalidate];
    WarmCopy(copy);
    assert a + [Read(now)] == b && b + [Invalidate] == c;
    assert c + [Lands(3, older, now)] == [Read(0), Lands(1, copy, 0), Read(now), Invalidate, Lands(3, older, now)];
    RunOne(a, Read(now));
    RunOne(b, Invalidate);
    RunOne(c, Lands(3, older, now));
  }

  lemma WarmCopy(copy: Snapshot)
    ensures Run([Read(0), Lands(1, copy, 0)]) ==
            World(Fetching(Some(copy), Some(0), false, 0, false, 0), map[], 3, 0, 1, 1)
  {
    assert [] + [Read(0)] == [Read(0)] && [Read(0)] + [Lands(1, copy, 0)] == [Read(0), Lands(1, copy, 0)];
    RunOne([], Read(0));
    RunOne([Read(0)], Lands(1, copy, 0));
  }

  // ---------- which reads fetch ----------

  // When the copy in the cache landed, if no block has come since.
  ghost function LandedAt(steps: seq<Step>): Option<int> {
    if steps == [] then None
    else
      var before := steps[..|steps| - 1];
      match steps[|steps| - 1]
      case Lands(began, _, now) => if began in Run(before).flights then Some(now) else LandedAt(before)
      case Invalidate => None
      case _ => LandedAt(before)
  }

  // What the last fetch to land brought.
  ghost function LastCopy(steps: seq<Step>): Option<Snapshot> {
    if steps == [] then None
    else
      var before := steps[..|steps| - 1];
      match steps[|steps| - 1]
      case Lands(began, entries, _) => if began in Run(before).flights then Some(entries) else LastCopy(before)
      case _ => LastCopy(before)
  }

  // When the last fetch began, if neither it nor one before it has ended since.
  ghost function FetchingSince(steps: seq<Step>): Option<int> {
    if steps == [] then None
    else
      var before := steps[..|steps| - 1];
      match steps[|steps| - 1]
      case Read(now) => if Fetches(Run(before).m, now) then Some(now) else FetchingSince(before)
      case Lands(began, _, _) => if began in Run(before).flights then None else FetchingSince(before)
      case Fails(began) => if began in Run(before).flights then None else FetchingSince(before)
      case _ => FetchingSince(before)
  }

  lemma {:induction false} CacheTells(steps: seq<Step>)
    ensures var m := Run(steps).m;
            && m.fetched == LandedAt(steps) && m.entries == LastCopy(steps)
            && (m.fetching <==> FetchingSince(steps).Some?)
            && (m.fetching ==> m.fetchStarted == FetchingSince(steps).value)
            && (m.fetched.Some? ==> m.entries.Some?)
  {
    if steps != [] {
      CacheTells(steps[..|steps| - 1]);
    }
  }

  // Told from the run alone: a read fetches unless the copy landed less than five seconds ago (one, when a mark
  // is outstanding) with no block since, or a fetch less than two minutes old is refreshing a copy.
  lemma ReadFetchesExactlyWhen(steps: seq<Step>, t: int)
    ensures Fetches(Run(steps).m, t) <==>
            && !(LandedAt(steps).Some?
                 && t - LandedAt(steps).value < if Run(steps).m.dirty then 1_000_000_000 else 5_000_000_000)
            && !(LastCopy(steps).Some? && FetchingSince(steps).Some?
                 && t - FetchingSince(steps).value < 120_000_000_000)
  {
    CacheTells(steps);
  }

  // A copy is as old as its landing, however long its fetch took: the next fetch is due five seconds after it,
  // or one when the copy landed dirty.
  lemma LandingServes(w: World, began: nat, entries: Snapshot, now: int, t: int)
    requires began in w.flights
    ensures var m := Next(w, Lands(began, entries, now)).m;
            && m.entries == Some(entries) && !m.fetching
            && (m.dirty <==> w.m.dirty && w.flights[began].gen != w.m.gen)
            && (Fetches(m, t) <==> t - now >= if m.dirty then 1_000_000_000 else 5_000_000_000)
  {
  }
}
