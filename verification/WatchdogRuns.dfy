/** What the watchdog keeps over every run (deploy/btcd-sync-watchdog.sh:83-162). */
module WatchdogRuns {
  import opened Options
  import opened Watchdog

  // ---------- the stall clock and the counters ----------

  // The state file tells the present stall: its height, when it was first read, and how many interventions
  // and give-ups it has seen.
  ghost predicate TellsStall(cfg: Config, s: State, ticks: seq<Tick>) {
    match StallOf(ticks)
    case NoStall => s == NO_STATE
    case Stall(h, start) =>
      var (n, g) := (Times(cfg, ticks, start, Intervened), Times(cfg, ticks, start, GaveUp));
      && s.height == Some(h) && s.since == ticks[start].now
      && s.count == n + g && g <= 1
      && (n == 0 || n <= cfg.maxInterventions)
      && (g == 1 ==> n == cfg.maxInterventions)
  }

  lemma ReportOfLast(cfg: Config, before: seq<Tick>, t: Tick)
    ensures ReportAt(cfg, before + [t], |before|) == Decide(cfg, Run(cfg, before).0, t)
    ensures Run(cfg, before + [t]) == Stepped(cfg, Run(cfg, before).0, Run(cfg, before).1, t)
  {
    assert (before + [t])[..|before|] == before;
  }

  lemma TimesOfLast(cfg: Config, before: seq<Tick>, t: Tick, from: nat, r: Report)
    ensures Times(cfg, before + [t], from, r) ==
            if from > |before| then 0
            else Times(cfg, before, from, r) + if Decide(cfg, Run(cfg, before).0, t) == r then 1 else 0
  {
    assert (before + [t])[..|before|] == before;
  }

  lemma {:induction false} RunTellsStall(cfg: Config, ticks: seq<Tick>)
    ensures TellsStall(cfg, Run(cfg, ticks).0, ticks)
  {
    if ticks != [] {
      var before, t := ticks[..|ticks| - 1], ticks[|ticks| - 1];
      assert ticks == before + [t];
      RunTellsStall(cfg, before);
      ReportOfLast(cfg, before, t);
      var stall := StallOf(ticks);
      if stall.Stall? {
        TimesOfLast(cfg, before, t, stall.start, Intervened);
        TimesOfLast(cfg, before, t, stall.start, GaveUp);
      }
    }
  }

  // A stall's readings really are all of one height.
  lemma {:induction false} StallIsOneHeight(ticks: seq<Tick>, i: nat)
    requires StallOf(ticks).Stall? && StallOf(ticks).start <= i < |ticks|
    ensures ticks[StallOf(ticks).start].height == Some(StallOf(ticks).height)
    ensures ticks[i].height.Some? ==> ticks[i].height.value == StallOf(ticks).height
  {
    var before := ticks[..|ticks| - 1];
    if StallOf(before).Stall? && StallOf(before).start == StallOf(ticks).start {
      StallIsOneHeight(before, if i < |before| then i else StallOf(before).start);
    }
  }

  // At most MAX_INTERVENTIONS interventions and one give-up between height changes.
  lemma CappedPerStall(cfg: Config, ticks: seq<Tick>)
    requires StallOf(ticks).Stall?
    ensures var start := StallOf(ticks).start;
            var (n, g) := (Times(cfg, ticks, start, Intervened), Times(cfg, ticks, start, GaveUp));
            (n == 0 || n <= cfg.maxInterventions) && g <= 1 && (g == 1 ==> n == cfg.maxInterventions)
  {
    RunTellsStall(cfg, ticks);
  }

  // ---------- the log ----------

  // At most the last line is pending, and exactly when the state file says so.
  ghost predicate LogFits(s: State, log: seq<Line>) {
    && (forall i :: 0 <= i < |log| - 1 ==> !log[i].outcome.Pending?)
    && s.last == (if log == [] then 0 else log[|log| - 1].when)
    && (s.pending.Some? <==> log != [] && log[|log| - 1].outcome.Pending?)
    && (s.pending.Some? ==> s.pending.value == log[|log| - 1].when && s.height == Some(log[|log| - 1].height))
  }

  // What a reading does to a line: a pending one is settled, the others stay.
  function Read(l: Line, t: Tick): Line {
    if l.outcome.Pending? && t.height.Some?
    then l.(outcome := if t.height.value != l.height then Recovered else NoEffect)
    else l
  }

  function ReadAll(log: seq<Line>, t: Tick): seq<Line> {
    if log == [] then [] else [Read(log[0], t)] + ReadAll(log[1..], t)
  }

  lemma {:induction false} PatchedIsRead(s: State, log: seq<Line>, t: Tick)
    requires LogFits(s, log) && t.height.Some?
    ensures Settled(s, log, t.height.value) == ReadAll(log, t)
  {
    if s.pending.Some? {
      PatchedFrom(s, log, t, 0);
      assert log[0..] == log;
    } else {
      NothingPending(log, t);
    }
  }

  lemma {:induction false} PatchedFrom(s: State, log: seq<Line>, t: Tick, i: nat)
    requires LogFits(s, log) && s.pending.Some? && t.height.Some? && i <= |log|
    ensures Patched(log[i..], s.pending.value, if t.height != s.height then Recovered else NoEffect)
         == ReadAll(log[i..], t)
    decreases |log| - i
  {
    if i < |log| {
      PatchedFrom(s, log, t, i + 1);
      assert log[i..][1..] == log[i + 1..];
    }
  }

  lemma {:induction false} NothingPending(log: seq<Line>, t: Tick)
    requires forall i :: 0 <= i < |log| ==> !log[i].outcome.Pending?
    ensures ReadAll(log, t) == log
  {
    if log != [] {
      NothingPending(log[1..], t);
    }
  }

  lemma {:induction false} ReadAllAt(log: seq<Line>, t: Tick)
    ensures |ReadAll(log, t)| == |log|
    ensures forall i :: 0 <= i < |log| ==> ReadAll(log, t)[i] == Read(log[i], t)
  {
    if log != [] {
      ReadAllAt(log[1..], t);
    }
  }

  lemma Joined(a: seq<Line>, b: seq<Line>, c: seq<Line>)
    ensures a + (b + c) == a + b + c
  {
  }

  lemma {:induction false} ReadAllConcat(a: seq<Line>, b: seq<Line>, t: Tick)
    ensures ReadAll(a + b, t) == ReadAll(a, t) + ReadAll(b, t)
  {
    if a == [] {
      assert a + b == b;
    } else {
      var x, rest := a[0], a[1..];
      ReadAllConcat(rest, b, t);
      assert (a + b)[0] == x && (a + b)[1..] == rest + b;
      Joined([Read(x, t)], ReadAll(rest, t), ReadAll(b, t));
    }
  }

  lemma {:induction false} VerdictOfLast(later: seq<Tick>, t: Tick, l: Line)
    requires l.outcome == Verdict(later, l.height)
    ensures Verdict(later + [t], l.height) == Read(l, t).outcome
  {
    if later == [] {
      assert [t][1..] == [];
    } else if later[0].height.None? {
      VerdictOfLast(later[1..], t, l);
      assert (later + [t])[1..] == later[1..] + [t];
    }
  }

  lemma LineAtMore(cfg: Config, before: seq<Tick>, t: Tick, k: nat)
    requires k < |before|
    ensures LineAt(cfg, before + [t], k) == ReadAll(LineAt(cfg, before, k), t)
  {
    assert (before + [t])[..k] == before[..k];
    assert (before + [t])[k + 1..] == before[k + 1..] + [t];
    if ReportAt(cfg, before, k) == Intervened {
      var l := LineAt(cfg, before, k)[0];
      VerdictOfLast(before[k + 1..], t, l);
      assert ReadAll([l], t) == [Read(l, t)];
    }
  }

  // One more tick reads every line that was there before it.
  lemma {:induction false} LogOfMore(cfg: Config, before: seq<Tick>, t: Tick, n: nat)
    requires n <= |before|
    ensures LogOf(cfg, before + [t], n) == ReadAll(LogOf(cfg, before, n), t)
  {
    if n > 0 {
      LogOfMore(cfg, before, t, n - 1);
      LineAtMore(cfg, before, t, n - 1);
      ReadAllConcat(LogOf(cfg, before, n - 1), LineAt(cfg, before, n - 1), t);
    }
  }

  // The line an intervening tick adds.
  function NewLine(cfg: Config, s: State, t: Tick): seq<Line> {
    if Decide(cfg, s, t) == Intervened
    then [Line(t.now, t.dry, t.height.value, t.peers.outbound.value, Pending)]
    else []
  }

  lemma SteppedLog(cfg: Config, s: State, log: seq<Line>, t: Tick)
    requires LogFits(s, log)
    ensures Stepped(cfg, s, log, t).1 == ReadAll(log, t) + NewLine(cfg, s, t)
  {
    if t.height.Some? {
      PatchedIsRead(s, log, t);
    } else {
      Unread(log, t);
    }
  }

  lemma StepFits(cfg: Config, s: State, log: seq<Line>, t: Tick)
    requires LogFits(s, log) && (s.count > cfg.maxInterventions ==> s.pending.None?)
    ensures var s' := Stepped(cfg, s, log, t).0;
            && LogFits(s', Stepped(cfg, s, log, t).1)
            && (s'.count > cfg.maxInterventions ==> s'.pending.None?)
  {
    SteppedLog(cfg, s, log, t);
    ReadAllAt(log, t);
  }

  // In every run the log holds exactly one line per intervention, in order, and each says what the first
  // reading after it showed: recovered iff the height had changed, pending until then. At most one line is
  // pending at any time.
  lemma {:induction false} LogTellsTheRun(cfg: Config, ticks: seq<Tick>)
    ensures var s := Run(cfg, ticks).0;
            LogFits(s, Run(cfg, ticks).1) && (s.count > cfg.maxInterventions ==> s.pending.None?)
    ensures Run(cfg, ticks).1 == LogOf(cfg, ticks, |ticks|)
  {
    if ticks != [] {
      var before, t := ticks[..|ticks| - 1], ticks[|ticks| - 1];
      var s, log := Run(cfg, before).0, Run(cfg, before).1;
      assert ticks == before + [t];
      LogTellsTheRun(cfg, before);
      StepFits(cfg, s, log, t);
      SteppedLog(cfg, s, log, t);
      LogOfMore(cfg, before, t, |before|);
      assert ticks[|before| + 1..] == [];
      assert LineAt(cfg, ticks, |before|) == NewLine(cfg, s, t);
    }
  }

  lemma {:induction false} Unread(log: seq<Line>, t: Tick)
    requires t.height.None?
    ensures ReadAll(log, t) == log
  {
    if log != [] {
      Unread(log[1..], t);
    }
  }

  // Interventions are at least INTERVAL_MIN minutes apart, even across stalls and whatever the clock does.
  lemma {:induction false} InterventionsAreSpaced(cfg: Config, ticks: seq<Tick>)
    requires cfg.intervalMin >= 0
    ensures Spaced(Run(cfg, ticks).1, cfg.intervalMin * 60)
  {
    if ticks != [] {
      var before, t := ticks[..|ticks| - 1], ticks[|ticks| - 1];
      InterventionsAreSpaced(cfg, before);
      LogTellsTheRun(cfg, before);
      StepSpaced(cfg, Run(cfg, before).0, Run(cfg, before).1, t);
    }
  }

  ghost predicate Spaced(log: seq<Line>, gap: int) {
    forall i, j :: 0 <= i < j < |log| ==> log[j].when - log[i].when >= gap
  }

  lemma StepSpaced(cfg: Config, s: State, log: seq<Line>, t: Tick)
    requires cfg.intervalMin >= 0 && LogFits(s, log) && Spaced(log, cfg.intervalMin * 60)
    ensures Spaced(Stepped(cfg, s, log, t).1, cfg.intervalMin * 60)
  {
    SteppedLog(cfg, s, log, t);
    ReadAllAt(log, t);
    if Decide(cfg, s, t) == Intervened && log != [] {
      var last := log[|log| - 1].when;
      assert t.now - last >= cfg.intervalMin * 60;
      assert forall i :: 0 <= i < |log| ==> log[i].when <= last;
    }
  }

  // When the last intervention was logged; 0 before the first.
  ghost function LastAt(cfg: Config, ticks: seq<Tick>): int {
    var log := Run(cfg, ticks).1;
    if log == [] then 0 else log[|log| - 1].when
  }

  // A tick intervenes exactly when the readings since the stall began have not moved for STALL_MIN minutes,
  // no sync peer is left to wait for, this stall has had fewer than MAX_INTERVENTIONS, the last one is
  // INTERVAL_MIN minutes back, and there is an outbound peer that can be disconnected.
  lemma IntervenesExactlyWhen(cfg: Config, before: seq<Tick>, t: Tick)
    ensures var stall := StallOf(before);
            Decide(cfg, Run(cfg, before).0, t) == Intervened <==>
            && stall.Stall? && t.height == Some(stall.height)
            && t.now - before[stall.start].now >= cfg.stallMin * 60
            && t.peers.Peers? && !t.peers.syncnode && t.peers.outbound.Some?
            && Times(cfg, before, stall.start, Intervened) < cfg.maxInterventions
            && t.now - LastAt(cfg, before) >= cfg.intervalMin * 60
            && (t.dry || t.disconnects)
  {
    FileTells(cfg, before);
  }

  // The state file carries what the decision needs to know of the past.
  lemma FileTells(cfg: Config, before: seq<Tick>)
    ensures var (s, stall) := (Run(cfg, before).0, StallOf(before));
            && s.last == LastAt(cfg, before)
            && (stall.NoStall? ==> s.height.None?)
            && (stall.Stall? ==>
                  && s.height == Some(stall.height) && s.since == before[stall.start].now
                  && (s.count < cfg.maxInterventions <==>
                        Times(cfg, before, stall.start, Intervened) < cfg.maxInterventions))
  {
    FileTellsStall(cfg, before);
    LogTellsTheRun(cfg, before);
  }

  lemma FileTellsStall(cfg: Config, before: seq<Tick>)
    ensures var (s, stall) := (Run(cfg, before).0, StallOf(before));
            && (stall.NoStall? ==> s.height.None?)
            && (stall.Stall? ==>
                  && s.height == Some(stall.height) && s.since == before[stall.start].now
                  && (s.count < cfg.maxInterventions <==>
                        Times(cfg, before, stall.start, Intervened) < cfg.maxInterventions))
  {
    RunTellsStall(cfg, before);
  }

  // The give-up is announced exactly once the stall has had all its interventions and would want another,
  // unless it has been announced already.
  lemma GivesUpExactlyWhen(cfg: Config, before: seq<Tick>, t: Tick)
    ensures var stall := StallOf(before);
            Decide(cfg, Run(cfg, before).0, t) == GaveUp <==>
            && stall.Stall? && t.height == Some(stall.height)
            && t.now - before[stall.start].now >= cfg.stallMin * 60
            && t.peers.Peers? && !t.peers.syncnode
            && Times(cfg, before, stall.start, Intervened) == cfg.maxInterventions
            && Times(cfg, before, stall.start, GaveUp) == 0
  {
    RunTellsStall(cfg, before);
  }

  // A disconnect that was wanted and did not happen leaves no line and is not counted: the next tick may try.
  lemma FailureIsFree(cfg: Config, before: seq<Tick>, t: Tick)
    requires var r := Decide(cfg, Run(cfg, before).0, t);
             r in {NoOutbound, DisconnectFailed, Waiting, LeftToNode, PeersUnknown, NotYet}
    ensures var (s, s') := (Run(cfg, before).0, Run(cfg, before + [t]).0);
            && s' == s.(pending := None)
            && |Run(cfg, before + [t]).1| == |Run(cfg, before).1|
  {
    ReportOfLast(cfg, before, t);
    LogTellsTheRun(cfg, before);
    SteppedLog(cfg, Run(cfg, before).0, Run(cfg, before).1, t);
    ReadAllAt(Run(cfg, before).1, t);
  }

  // The stall has lasted long enough to act on.
  ghost predicate Stuck(cfg: Config, before: seq<Tick>, t: Tick) {
    var stall := StallOf(before);
    stall.Stall? && t.height == Some(stall.height) && t.now - before[stall.start].now >= cfg.stallMin * 60
  }

  // How the other ticks end, told from the readings.
  lemma ReportsExactlyWhen(cfg: Config, before: seq<Tick>, t: Tick)
    ensures var (r, stall) := (Decide(cfg, Run(cfg, before).0, t), StallOf(before));
            && (r == Unreadable <==> t.height.None?)
            && (r == Progress <==> t.height.Some? && (stall.NoStall? || t.height.value != stall.height))
            && (r == NotYet <==> stall.Stall? && t.height == Some(stall.height) && !Stuck(cfg, before, t))
            && (r == PeersUnknown <==> Stuck(cfg, before, t) && t.peers.Unknown?)
            && (r == LeftToNode <==> Stuck(cfg, before, t) && t.peers.Peers? && t.peers.syncnode)
  {
    RunTellsStall(cfg, before);
  }

  // Nothing was read from `i` up to `j`.
  ghost predicate Silent(ticks: seq<Tick>, i: nat, j: nat) {
    forall k :: i <= k < j && k < |ticks| ==> ticks[k].height.None?
  }

  // A stall reaches as far back as it can: the last reading before it was of another height. There is none only
  // when nothing was ever read.
  lemma {:induction false} StallReachesBack(ticks: seq<Tick>)
    ensures StallOf(ticks).NoStall? <==> Silent(ticks, 0, |ticks|)
    ensures StallOf(ticks).Stall? ==>
              var start := StallOf(ticks).start;
              forall i :: 0 <= i < start && ticks[i].height.Some? && Silent(ticks, i + 1, start)
                ==> ticks[i].height.value != StallOf(ticks).height
  {
    if ticks != [] {
      var before, t := ticks[..|ticks| - 1], ticks[|ticks| - 1];
      StallReachesBack(before);
      var (was, now) := (StallOf(before), StallOf(ticks));
      if now == was && now.Stall? {
        forall i | 0 <= i < now.start && ticks[i].height.Some? && Silent(ticks, i + 1, now.start)
          ensures ticks[i].height.value != now.height
        {
          assert before[i] == ticks[i] && Silent(before, i + 1, now.start);
        }
      } else if now.Stall? {
        forall i | 0 <= i < now.start && ticks[i].height.Some? && Silent(ticks, i + 1, now.start)
          ensures ticks[i].height.value != now.height
        {
          LastReading(before, i);
        }
      }
      if t.height.None? && was.NoStall? {
        assert forall k :: 0 <= k < |before| ==> before[k] == ticks[k];
      }
      if was.Stall? {
        StallIsOneHeight(before, was.start);
        assert ticks[was.start].height.Some?;
      }
    }
  }

  // The present stall is of the last height read.
  lemma LastReading(ticks: seq<Tick>, i: nat)
    requires i < |ticks| && ticks[i].height.Some? && Silent(ticks, i + 1, |ticks|)
    ensures StallOf(ticks).Stall? && StallOf(ticks).height == ticks[i].height.value
    decreases |ticks|
  {
    if i < |ticks| - 1 {
      var before := ticks[..|ticks| - 1];
      assert ticks[|ticks| - 1].height.None?;
      assert forall k :: 0 <= k < |before| ==> before[k] == ticks[k];
      LastReading(before, i);
    }
  }

  // An intervention is judged by the first reading after it: recovered if that is another height, without effect
  // if it is the same, pending as long as there is none.
  lemma {:induction false} VerdictIs(later: seq<Tick>, h: Height)
    ensures Verdict(later, h) == Pending <==> Silent(later, 0, |later|)
    ensures forall i :: 0 <= i < |later| && later[i].height.Some? && Silent(later, 0, i) ==>
              Verdict(later, h) == if later[i].height.value != h then Recovered else NoEffect
  {
    if later != [] && later[0].height.None? {
      var rest := later[1..];
      VerdictIs(rest, h);
      assert forall k :: 0 <= k < |rest| ==> rest[k] == later[k + 1];
      forall i | 0 <= i < |later| && later[i].height.Some? && Silent(later, 0, i)
        ensures Verdict(later, h) == if later[i].height.value != h then Recovered else NoEffect
      {
        assert rest[i - 1] == later[i] && Silent(rest, 0, i - 1);
      }
      if Silent(rest, 0, |rest|) {
        assert forall k :: 0 < k < |later| ==> later[k] == rest[k - 1];
      }
    }
  }
}
