/** The sync-stall watchdog (deploy/btcd-sync-watchdog.sh), one tick at a time.

    A tick reads the state file and the node, may disconnect a peer, and leaves the state file and the
    intervention log behind. Node answers are inputs. Times are epoch seconds; heights are opaque strings,
    as the script only compares them. */
module Watchdog {
  import opened Options

  type Height = string

  datatype Config = Config(stallMin: int, intervalMin: int, maxInterventions: int)

  datatype State = State(height: Option<Height>, since: int, last: int, count: int, pending: Option<int>)

  const NO_STATE := State(None, 0, 0, 0, None)

  datatype Outcome = Pending | Recovered | NoEffect

  datatype Line = Line(when: int, dry: bool, height: Height, peer: string, outcome: Outcome)

  datatype Peers = Unknown | Peers(syncnode: bool, outbound: Option<string>)

  // One run of the script: the clock, the flag, and what the node answers if asked.
  datatype Tick = Tick(now: int, dry: bool, height: Option<Height>, peers: Peers, disconnects: bool)

  // How a tick ended.
  datatype Report =
    | Unreadable | Progress | NotYet | PeersUnknown | LeftToNode | GaveUp | Quiet | Waiting
    | NoOutbound | DisconnectFailed | Intervened

  // ---------- one tick ----------

  // The pending line of `when` gets its outcome.
  function Patched(log: seq<Line>, when: int, outcome: Outcome): seq<Line> {
    if log == [] then []
    else
      [if log[0].when == when && log[0].outcome.Pending? then log[0].(outcome := outcome) else log[0]]
      + Patched(log[1..], when, outcome)
  }

  // The outcome of the previous intervention is settled as soon as the height can be read.
  function Settled(s: State, log: seq<Line>, height: Height): seq<Line> {
    if s.pending.None? then log
    else Patched(log, s.pending.value, if Some(height) != s.height then Recovered else NoEffect)
  }

  // Which way the tick goes.
  function Decide(cfg: Config, s: State, t: Tick): Report {
    if t.height.None? then Unreadable
    else if t.height != s.height then Progress
    else if t.now - s.since < cfg.stallMin * 60 then NotYet
    else if t.peers.Unknown? then PeersUnknown
    else if t.peers.syncnode then LeftToNode
    else if s.count >= cfg.maxInterventions then (if s.count == cfg.maxInterventions then GaveUp else Quiet)
    else if t.now - s.last < cfg.intervalMin * 60 then Waiting
    else if t.peers.outbound.None? then NoOutbound
    else if !t.dry && !t.disconnects then DisconnectFailed
    else Intervened
  }

  function Stepped(cfg: Config, s: State, log: seq<Line>, t: Tick): (State, seq<Line>) {
    var settled := s.(pending := None);
    match Decide(cfg, s, t)
    case Unreadable => (s, log)
    case Progress => (State(t.height, t.now, s.last, 0, None), Settled(s, log, t.height.value))
    case GaveUp => (settled.(count := s.count + 1), Settled(s, log, t.height.value))
    // The one path that does not save.
    case Quiet => (s, Settled(s, log, t.height.value))
    case Intervened =>
      (settled.(last := t.now, count := s.count + 1, pending := Some(t.now)),
       Settled(s, log, t.height.value) + [Line(t.now, t.dry, t.height.value, t.peers.outbound.value, Pending)])
    case _ => (settled, Settled(s, log, t.height.value))
  }

  class Watchdog {
    const cfg: Config
    var state: State       // the state file
    var log: seq<Line>     // interventions.log

    constructor (cfg: Config)
      ensures this.cfg == cfg && state == NO_STATE && log == []
    {
      this.cfg := cfg;
      state, log := NO_STATE, [];
    }

    method RunTick(t: Tick) returns (report: Report)
      modifies this
      ensures report == Decide(cfg, old(state), t)
      ensures (state, log) == Stepped(cfg, old(state), old(log), t)
    {
      var height, since, last, count, pending := state.height, state.since, state.last, state.count, state.pending;
      if t.height.None? {
        return Unreadable;
      }
      if pending.Some? {
        log := Patched(log, pending.value, if t.height != height then Recovered else NoEffect);
        pending := None;
      }
      if t.height != height {
        height, since, count := t.height, t.now, 0;
        state := State(height, since, last, count, pending);
        return Progress;
      }
      var stuck := t.now - since;
      if stuck < cfg.stallMin * 60 {
        state := State(height, since, last, count, pending);
        return NotYet;
      }
      if t.peers.Unknown? {
        state := State(height, since, last, count, pending);
        return PeersUnknown;
      }
      if t.peers.syncnode {
        state := State(height, since, last, count, pending);
        return LeftToNode;
      }
      if count >= cfg.maxInterventions {
        if count == cfg.maxInterventions {
          count := count + 1;
          state := State(height, since, last, count, pending);
          return GaveUp;
        }
        return Quiet;
      }
      if t.now - last < cfg.intervalMin * 60 {
        state := State(height, since, last, count, pending);
        return Waiting;
      }
      if t.peers.outbound.None? {
        state := State(height, since, last, count, pending);
        return NoOutbound;
      }
      if !t.dry && !t.disconnects {
        state := State(height, since, last, count, pending);
        return DisconnectFailed;
      }
      log := log + [Line(t.now, t.dry, t.height.value, t.peers.outbound.value, Pending)];
      last, count, pending := t.now, count + 1, Some(t.now);
      state := State(height, since, last, count, pending);
      return Intervened;
    }
  }

  // ---------- whole runs ----------

  ghost function Run(cfg: Config, ticks: seq<Tick>): (State, seq<Line>) {
    if ticks == [] then (NO_STATE, [])
    else
      var (s, log) := Run(cfg, ticks[..|ticks| - 1]);
      Stepped(cfg, s, log, ticks[|ticks| - 1])
  }

  // What tick `k` of a run reported.
  ghost function ReportAt(cfg: Config, ticks: seq<Tick>, k: nat): Report
    requires k < |ticks|
  {
    Decide(cfg, Run(cfg, ticks[..k]).0, ticks[k])
  }

  // A stall, told from the readings alone: the height last read, and the tick that first read it without
  // any other height since.
  datatype Stall = NoStall | Stall(height: Height, start: nat)

  ghost function StallOf(ticks: seq<Tick>): (s: Stall)
    ensures s.Stall? ==> s.start < |ticks|
  {
    if ticks == [] then NoStall
    else
      var before, t := StallOf(ticks[..|ticks| - 1]), ticks[|ticks| - 1];
      if t.height.None? || before == NoStall || before.height != t.height.value
      then (if t.height.None? then before else Stall(t.height.value, |ticks| - 1))
      else before
  }

  // How often the ticks from `from` on ended in `r`.
  ghost function Times(cfg: Config, ticks: seq<Tick>, from: nat, r: Report): nat {
    if |ticks| <= from then 0
    else
      Times(cfg, ticks[..|ticks| - 1], from, r)
      + if ReportAt(cfg, ticks, |ticks| - 1) == r then 1 else 0
  }

  // What the readings after an intervention at height `h` say about it.
  ghost function Verdict(later: seq<Tick>, h: Height): Outcome {
    if later == [] then Pending
    else if later[0].height.None? then Verdict(later[1..], h)
    else if later[0].height.value != h then Recovered else NoEffect
  }

  // The line tick `k` added to the log, if it did, with its verdict so far.
  ghost function LineAt(cfg: Config, ticks: seq<Tick>, k: nat): seq<Line>
    requires k < |ticks|
  {
    var t := ticks[k];
    if ReportAt(cfg, ticks, k) == Intervened
    then [Line(t.now, t.dry, t.height.value, t.peers.outbound.value, Verdict(ticks[k + 1..], t.height.value))]
    else []
  }

  // The log as it should read: one line per intervention.
  ghost function LogOf(cfg: Config, ticks: seq<Tick>, n: nat): seq<Line>
    requires n <= |ticks|
  {
    if n == 0 then [] else LogOf(cfg, ticks, n - 1) + LineAt(cfg, ticks, n - 1)
  }
}
