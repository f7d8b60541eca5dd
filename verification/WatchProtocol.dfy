/** Browser socket, wire and hub together (web/src/api/ws.ts:72-153 with internal/api/hub.go:146-181
    and internal/api/ws.go:78-128).

    One page among many: its sockets come and go, each has a FIFO of frames sent and not yet handled,
    and the hub registers, serves, turns away or drops the connection behind each socket at any time.
    Everything the other pages do is one step that leaves this page's connections alone. */
module WatchProtocol {
  import opened Options
  import opened Common
  import opened Hub
  import opened Socket

  // The hub's clients: this page's connections, and everybody else's.
  datatype Client = Mine(id: SocketId) | Other(id: nat)

  type Reg = map<Client, set<Txid>>

  datatype Net = Net(
    page: Page,
    wires: map<SocketId, seq<Frame>>,  // frames sent on each socket, not yet handled by the hub
    joining: set<SocketId>,            // sockets whose connection the hub has not registered (yet)
    reg: Reg)                          // the hub's registry

  datatype Step =
    | Watch(txid: Txid, cb: Callback)
    | Unwatch(txid: Txid, cb: Callback)
    | Subscribe
    | SocketOpens(order: seq<Txid>)
    | SocketCloses
    | TimerFires
    | HubRegisters(id: SocketId)
    | HubNeverHears(id: SocketId)
    | HubHandles(id: SocketId)
    | HubDrops(id: SocketId)
    | Others(reg: Reg)

  const QUIET := Net(START, map[], {}, map[])

  // Frames go out on the current socket.
  function Send(n: Net, page: Page, frames: seq<Frame>): Net {
    if frames != [] && n.page.ws.Some? && n.page.ws.value in n.wires
    then n.(page := page, wires := n.wires[n.page.ws.value := n.wires[n.page.ws.value] + frames])
    else n.(page := page)
  }

  // A socket created by the page starts with an empty wire, not yet registered.
  function Dial(n: Net, before: nat): Net {
    if n.page.sockets == before then n
    else n.(wires := n.wires[before := []], joining := n.joining + {before})
  }

  // Whether a step can happen; one that cannot leaves everything as it is.
  ghost predicate Enabled(n: Net, s: Step) {
    match s
    case SocketOpens(order) => n.page.ws.Some? && !n.page.open && Lists(order, n.page.watches)
    case SocketCloses => n.page.ws.Some?
    case TimerFires => n.page.timer
    case HubRegisters(id) => id in n.joining
    case HubNeverHears(id) => id in n.joining
    case HubHandles(id) => id in n.wires && n.wires[id] != [] && id !in n.joining
    case Others(reg) =>
      forall id :: if Mine(id) in n.reg then Mine(id) in reg && reg[Mine(id)] == n.reg[Mine(id)] else Mine(id) !in reg
    case _ => true
  }

  ghost function Next(n: Net, max: int, s: Step): Net {
    if Enabled(n, s) then Fire(n, max, s) else n
  }

  ghost function Fire(n: Net, max: int, s: Step): Net
    requires Enabled(n, s)
  {
    var sockets := n.page.sockets;
    match s
    case Watch(t, cb) => Dial(Send(n, Watched(n.page, t, cb).0, Watched(n.page, t, cb).1), sockets)
    case Unwatch(t, cb) => Send(n, Unwatched(n.page, t, cb).0, Unwatched(n.page, t, cb).1)
    case Subscribe => Dial(n.(page := Ensured(n.page)), sockets)
    case SocketOpens(order) => Send(n, Opened(n.page), Replay(order))
    case SocketCloses => n.(page := Closed(n.page))
    case TimerFires => Dial(n.(page := TimerFired(n.page)), sockets)
    case HubRegisters(id) => n.(reg := Registered(n.reg, max, Mine(id)), joining := n.joining - {id})
    case HubNeverHears(id) => n.(joining := n.joining - {id})
    case HubHandles(id) =>
      var f := n.wires[id][0];
      n.(wires := n.wires[id := n.wires[id][1..]], reg := Commanded(n.reg, Mine(id), f.watch, f.txid))
    case HubDrops(id) => n.(reg := n.reg - {Mine(id)})
    case Others(reg) => n.(reg := reg)
  }

  // What the hub's watch set becomes once it has handled `frames`.
  function Fold(watched: set<Txid>, frames: seq<Frame>): set<Txid>
    decreases |frames|
  {
    if frames == [] then watched
    else Fold(WatchIn(watched, frames[0].watch, frames[0].txid), frames[1..])
  }

  // The page's current connection as the hub will see it when everything sent has been handled;
  // None when the hub has dropped it or turned it away.
  ghost function Pending(n: Net): Option<set<Txid>>
    requires n.page.ws.Some? && n.page.ws.value in n.wires
  {
    var id := n.page.ws.value;
    if id in n.joining then Some(Fold({}, n.wires[id]))
    else if Mine(id) in n.reg then Some(Fold(n.reg[Mine(id)], n.wires[id]))
    else None
  }

  // ---------- what every step keeps ----------

  // The page never has a second socket: one is open or opening, or a timer is running, not both.
  ghost predicate Shape(n: Net) {
    && (n.page.timer ==> n.page.ws.None?)
    && (n.page.open ==> n.page.ws.Some?)
    && INITIAL_BACKOFF_MS <= n.page.backoff <= MAX_BACKOFF_MS
    && (forall id: SocketId :: id in n.wires <==> id < n.page.sockets)
    && (forall id: SocketId :: id in n.joining ==> id < n.page.sockets && Mine(id) !in n.reg)
    && (forall c :: c in n.reg && c.Mine? ==> c.id < n.page.sockets)
    && (n.page.ws.Some? ==> n.page.ws.value + 1 == n.page.sockets)
    && (forall t :: t in n.page.watches ==> n.page.watches[t] != {})
    && (n.page.ws.Some? && !n.page.open ==>
          && n.wires[n.page.ws.value] == []
          && (Mine(n.page.ws.value) in n.reg ==> n.reg[Mine(n.page.ws.value)] == {}))
  }

  // Nothing the hub will hold once it has handled what is in flight is unwatched on the page.
  ghost predicate Sound(n: Net)
    requires Shape(n)
  {
    n.page.open && Pending(n).Some? ==> Pending(n).value <= n.page.watches.Keys
  }

  // Hub and page agree, up to what is in flight.
  ghost predicate InSync(n: Net)
    requires Shape(n)
  {
    n.page.open && Pending(n).Some? ==> Pending(n).value == n.page.watches.Keys
  }

  lemma {:induction false} FoldSnoc(w: set<Txid>, frames: seq<Frame>, f: Frame)
    ensures Fold(w, frames + [f]) == WatchIn(Fold(w, frames), f.watch, f.txid)
    decreases |frames|
  {
    if frames == [] {
      assert [f][1..] == [];
    } else {
      FoldSnoc(WatchIn(w, frames[0].watch, frames[0].txid), frames[1..], f);
      assert (frames + [f])[1..] == frames[1..] + [f];
    }
  }

  lemma {:induction false} DistinctSize(order: seq<Txid>)
    requires forall i, j :: 0 <= i < j < |order| ==> order[i] != order[j]
    ensures |set t | t in order| == |order|
  {
    if order == [] {
      assert (set t | t in order) == {};
    } else {
      var init, last := order[..|order| - 1], order[|order| - 1];
      DistinctSize(init);
      assert order == init + [last];
      assert (set t | t in order) == (set t | t in init) + {last};
    }
  }

  // A replay on a fresh connection registers what it lists, as far as the hub's bound allows.
  lemma {:induction false} FoldReplay(order: seq<Txid>)
    requires forall i, j :: 0 <= i < j < |order| ==> order[i] != order[j]
    ensures forall t :: t in Fold({}, Replay(order)) ==> t in order
    ensures |Fold({}, Replay(order))| == if |order| <= MAX_WATCHED then |order| else MAX_WATCHED
  {
    if order != [] {
      var init, last := order[..|order| - 1], order[|order| - 1];
      FoldReplay(init);
      assert order == init + [last];
      ReplaySnoc(init, last);
      FoldSnoc({}, Replay(init), Frame(true, last));
      assert last !in init;
    }
  }

  ghost predicate ByPage(s: Step) {
    s.Watch? || s.Unwatch? || s.Subscribe? || s.SocketOpens? || s.SocketCloses? || s.TimerFires?
  }

  lemma StepShape(n: Net, max: int, s: Step)
    requires Shape(n)
    ensures Shape(Next(n, max, s))
  {
    if !Enabled(n, s) {
    } else if ByPage(s) {
      PageShape(n, max, s);
    } else {
      HubShape(n, max, s);
    }
  }

  lemma PageShape(n: Net, max: int, s: Step)
    requires Shape(n) && Enabled(n, s) && ByPage(s)
    ensures Shape(Fire(n, max, s))
  {
    match s
    case Watch(t, cb) =>
      SendShape(n, Watched(n.page, t, cb).0.(ws := n.page.ws, sockets := n.page.sockets), Watched(n.page, t, cb).1);
    case Unwatch(t, cb) =>
      SendShape(n, Unwatched(n.page, t, cb).0, Unwatched(n.page, t, cb).1);
    case SocketOpens(order) =>
      SendShape(n, Opened(n.page), Replay(order));
    case _ =>
  }

  lemma SendShape(n: Net, page: Page, frames: seq<Frame>)
    requires Shape(n)
    requires page.ws == n.page.ws && page.sockets == n.page.sockets && page.timer == n.page.timer
    requires page.open || (frames == [] && !n.page.open)
    requires page.open ==> page.ws.Some?
    requires INITIAL_BACKOFF_MS <= page.backoff <= MAX_BACKOFF_MS
    requires forall t :: t in page.watches ==> page.watches[t] != {}
    ensures Shape(Send(n, page, frames))
  {
  }

  lemma HubShape(n: Net, max: int, s: Step)
    requires Shape(n) && Enabled(n, s) && !ByPage(s)
    ensures Shape(Fire(n, max, s))
  {
  }

  // What a step of a page whose socket stays open adds to what the hub will end up with.
  ghost function Effect(n: Net, s: Step, w: set<Txid>): set<Txid> {
    match s
    case Watch(t, _) => if t in n.page.watches then w else WatchIn(w, true, t)
    case Unwatch(t, cb) =>
      if t in n.page.watches && n.page.watches[t] - {cb} == {} then WatchIn(w, false, t) else w
    case _ => w
  }

  lemma SentPending(n: Net, page: Page, f: Frame)
    requires Shape(n) && n.page.open && page.ws == n.page.ws
    ensures Pending(n).Some? <==> Pending(Send(n, page, [f])).Some?
    ensures Pending(n).Some? ==> Pending(Send(n, page, [f])).value == WatchIn(Pending(n).value, f.watch, f.txid)
  {
    var id := n.page.ws.value;
    FoldSnoc({}, n.wires[id], f);
    if Mine(id) in n.reg {
      FoldSnoc(n.reg[Mine(id)], n.wires[id], f);
    }
  }

  lemma StepPending(n: Net, max: int, s: Step)
    requires Shape(n) && n.page.open
    ensures var n' := Next(n, max, s);
            && Shape(n')
            && (n'.page.open && Pending(n').Some? ==>
                  Pending(n).Some? && Pending(n').value == Effect(n, s, Pending(n).value))
  {
    StepShape(n, max, s);
    match s
    case Watch(t, cb) =>
      SentPending(n, Watched(n.page, t, cb).0, Frame(true, t));
    case Unwatch(t, cb) =>
      SentPending(n, Unwatched(n.page, t, cb).0, Frame(false, t));
    case _ =>
      OtherPending(n, max, s);
  }

  // The other steps leave what the hub will end up with as it is, or end the connection.
  lemma OtherPending(n: Net, max: int, s: Step)
    requires Shape(n) && n.page.open && !s.Watch? && !s.Unwatch?
    ensures var n' := Next(n, max, s);
            && Shape(n')
            && (n'.page.open && Pending(n').Some? ==> Pending(n) == Pending(n'))
  {
    StepShape(n, max, s);
  }

  lemma OpensPending(n: Net, max: int, order: seq<Txid>)
    requires Shape(n) && Enabled(n, SocketOpens(order))
    ensures var n' := Next(n, max, SocketOpens(order));
            && Shape(n')
            && n'.page.watches == n.page.watches
            && (Pending(n').Some? ==>
                  var keys := n.page.watches.Keys;
                  Pending(n').value <= keys && (Pending(n').value == keys <==> |keys| <= MAX_WATCHED))
  {
    StepShape(n, max, SocketOpens(order));
    OpensWire(n, max, order);
    assert (set t | t in order) == n.page.watches.Keys;
    ReplayRegisters(order);
  }

  // What an opening leaves in flight: the replay, on a wire that was empty.
  lemma OpensWire(n: Net, max: int, order: seq<Txid>)
    requires Shape(n) && Enabled(n, SocketOpens(order))
    ensures var n' := Next(n, max, SocketOpens(order));
            && n'.page == Opened(n.page)
            && Shape(n') && (Pending(n').Some? ==> Pending(n').value == Fold({}, Replay(order)))
  {
    StepShape(n, max, SocketOpens(order));
    var id := n.page.ws.value;
    assert n.wires[id] + Replay(order) == Replay(order);
  }

  // The hub ends up with what is replayed, up to its bound.
  lemma ReplayRegisters(order: seq<Txid>)
    requires forall i, j :: 0 <= i < j < |order| ==> order[i] != order[j]
    ensures var (keys, held) := ((set t | t in order), Fold({}, Replay(order)));
            held <= keys && (held == keys <==> |keys| <= MAX_WATCHED)
  {
    var keys, held := (set t | t in order), Fold({}, Replay(order));
    FoldReplay(order);
    DistinctSize(order);
    if |keys| <= MAX_WATCHED {
      SubsetSame(held, keys);
    }
  }

  // What a step does to the page's own watches.
  ghost function KeysAfter(p: Page, s: Step): set<Txid> {
    var keys := p.watches.Keys;
    match s
    case Watch(t, _) => keys + {t}
    case Unwatch(t, cb) => if t in keys && p.watches[t] - {cb} == {} then keys - {t} else keys
    case _ => keys
  }

  // The one way to fall out of step: the page asks for more than the hub keeps for one client.
  ghost predicate Overfull(n: Net, s: Step) {
    && Enabled(n, s)
    && (s.SocketOpens? || (s.Watch? && n.page.open && s.txid !in n.page.watches))
    && |KeysAfter(n.page, s)| > MAX_WATCHED
  }

  lemma StepKeys(n: Net, max: int, s: Step)
    requires Enabled(n, s)
    ensures Next(n, max, s).page.watches.Keys == KeysAfter(n.page, s)
  {
    match s
    case Watch(t, cb) => WatchedKeys(n.page, t, cb);
    case Unwatch(t, cb) => UnwatchedKeys(n.page, t, cb);
    case _ =>
  }

  lemma WatchedKeys(p: Page, t: Txid, cb: Callback)
    ensures Watched(p, t, cb).0.watches.Keys == p.watches.Keys + {t}
  {
  }

  lemma UnwatchedKeys(p: Page, t: Txid, cb: Callback)
    ensures Unwatched(p, t, cb).0.watches.Keys == KeysAfter(p, Unwatch(t, cb))
  {
    if t in p.watches && p.watches[t] - {cb} != {} {
      assert p.watches[t := p.watches[t] - {cb}].Keys == p.watches.Keys;
    }
  }

  lemma EffectBelow(n: Net, s: Step, w: set<Txid>)
    requires n.page.open && w <= n.page.watches.Keys
    ensures Effect(n, s, w) <= KeysAfter(n.page, s)
  {
  }

  lemma EffectKeys(n: Net, s: Step)
    requires n.page.open && Enabled(n, s)
    ensures Effect(n, s, n.page.watches.Keys) == KeysAfter(n.page, s) <==> !Overfull(n, s)
  {
    if s.Watch? {
      WatchInKeys(n.page.watches.Keys, s.txid);
    }
  }

  lemma WatchInKeys(keys: set<Txid>, t: Txid)
    ensures t in keys ==> keys + {t} == keys
    ensures t !in keys ==> (WatchIn(keys, true, t) == keys + {t} <==> |keys + {t}| <= MAX_WATCHED)
  {
    if t in keys {
      assert keys + {t} == keys;
    } else {
      assert |keys + {t}| == |keys| + 1;
    }
  }

  // No step makes the hub end up, once it has handled what is in flight, with a watch the page has given up.
  lemma StepSound(n: Net, max: int, s: Step)
    requires Shape(n) && Sound(n)
    ensures Shape(Next(n, max, s)) && Sound(Next(n, max, s))
  {
    StepShape(n, max, s);
    if Enabled(n, s) {
      if n.page.open {
        StepPending(n, max, s);
        StepKeys(n, max, s);
        if Pending(n).Some? {
          EffectBelow(n, s, Pending(n).value);
        }
      } else if s.SocketOpens? {
        OpensPending(n, max, s.order);
      }
    }
  }

  // A page and hub in step stay in step, except exactly when the page goes past the hub's bound.
  lemma StepInSync(n: Net, max: int, s: Step)
    requires Shape(n) && InSync(n)
    ensures var n' := Next(n, max, s);
            && Shape(n')
            && (n'.page.open && Pending(n').Some? ==> (InSync(n') <==> !Overfull(n, s)))
  {
    StepShape(n, max, s);
    if Enabled(n, s) {
      if n.page.open {
        StepPending(n, max, s);
        StepKeys(n, max, s);
        EffectKeys(n, s);
      } else if s.SocketOpens? {
        OpensPending(n, max, s.order);
      }
    }
  }

  // ---------- whole runs ----------

  ghost function RunFrom(n: Net, max: int, steps: seq<Step>): Net {
    if steps == [] then n else Next(RunFrom(n, max, steps[..|steps| - 1]), max, steps[|steps| - 1])
  }

  ghost function Run(steps: seq<Step>, max: int): Net {
    RunFrom(QUIET, max, steps)
  }

  // At no point of the run does the page ask for more than the hub keeps for one client.
  ghost predicate NeverOverfull(n: Net, max: int, steps: seq<Step>) {
    forall i :: 0 <= i < |steps| ==> !Overfull(RunFrom(n, max, steps[..i]), steps[i])
  }

  lemma {:induction false} SoundFrom(n: Net, max: int, steps: seq<Step>)
    requires Shape(n)
    ensures Shape(RunFrom(n, max, steps)) && (Sound(n) ==> Sound(RunFrom(n, max, steps)))
  {
    if steps != [] {
      var before, s := steps[..|steps| - 1], steps[|steps| - 1];
      SoundFrom(n, max, before);
      StepShape(RunFrom(n, max, before), max, s);
      if Sound(n) {
        StepSound(RunFrom(n, max, before), max, s);
      }
    }
  }

  lemma NeverOverfullBefore(n: Net, max: int, steps: seq<Step>)
    requires steps != [] && NeverOverfull(n, max, steps)
    ensures NeverOverfull(n, max, steps[..|steps| - 1])
    ensures !Overfull(RunFrom(n, max, steps[..|steps| - 1]), steps[|steps| - 1])
  {
    var before := steps[..|steps| - 1];
    assert forall i :: 0 <= i < |before| ==> before[..i] == steps[..i] && before[i] == steps[i];
  }

  lemma {:induction false} InSyncFrom(n: Net, max: int, steps: seq<Step>)
    requires Shape(n) && InSync(n) && NeverOverfull(n, max, steps)
    ensures Shape(RunFrom(n, max, steps)) && InSync(RunFrom(n, max, steps))
  {
    if steps != [] {
      var before, s := steps[..|steps| - 1], steps[|steps| - 1];
      NeverOverfullBefore(n, max, steps);
      InSyncFrom(n, max, before);
      StepInSync(RunFrom(n, max, before), max, s);
    }
  }

  // From any state at all: the page keeps to one socket, and what the hub will hold once the frames in flight
  // are handled stays within what the page watches if it was; from a state in step, a run that never goes past
  // the bound ends in step.
  lemma AgreementFrom(n: Net, max: int, steps: seq<Step>)
    requires Shape(n)
    ensures var n' := RunFrom(n, max, steps);
            && Shape(n')
            && (Sound(n) ==> Sound(n'))
            && (InSync(n) && NeverOverfull(n, max, steps) ==> InSync(n'))
  {
    SoundFrom(n, max, steps);
    if InSync(n) && NeverOverfull(n, max, steps) {
      InSyncFrom(n, max, steps);
    }
  }

  // Every run keeps the page to one socket, and the hub ends up, once the frames in flight are handled, with
  // nothing the page does not watch; a run that never goes past the bound keeps the two in step, across drops,
  // slow-client disconnects, refusals and reconnects.
  lemma Agreement(steps: seq<Step>, max: int)
    ensures Shape(Run(steps, max)) && Sound(Run(steps, max))
    ensures NeverOverfull(QUIET, max, steps) ==> InSync(Run(steps, max))
  {
    assert QUIET.page.sockets == 0 && QUIET.wires == map[] && QUIET.page == START;
    AgreementFrom(QUIET, max, steps);
  }

  // However far out of step a page has been, a reopen with no more watches than the hub keeps puts it right:
  // it is in step then, and stays so until it goes past the bound again.
  lemma ReopenRestores(steps: seq<Step>, max: int, order: seq<Txid>, later: seq<Step>)
    requires Enabled(Run(steps, max), SocketOpens(order)) && |Run(steps, max).page.watches| <= MAX_WATCHED
    requires NeverOverfull(Next(Run(steps, max), max, SocketOpens(order)), max, later)
    ensures var n := RunFrom(Next(Run(steps, max), max, SocketOpens(order)), max, later);
            Shape(n) && InSync(n)
  {
    Agreement(steps, max);
    OpensPending(Run(steps, max), max, order);
    AgreementFrom(Next(Run(steps, max), max, SocketOpens(order)), max, later);
  }

  lemma RunNext(steps: seq<Step>, max: int, s: Step)
    ensures Run(steps + [s], max) == Next(Run(steps, max), max, s)
  {
    assert (steps + [s])[..|steps|] == steps;
  }

  // One watch after the other.
  function WatchAll(txids: seq<Txid>): seq<Step> {
    if txids == [] then [] else WatchAll(txids[..|txids| - 1]) + [Watch(txids[|txids| - 1], 0)]
  }

  // A page that dials and is not connected yet just takes note of its watches.
  lemma {:induction false} WatchAllNoted(txids: seq<Txid>, max: int)
    ensures var n := Run(WatchAll(txids), max);
            n.page.watches.Keys == (set t | t in txids) && (if txids == [] then n == QUIET else Dialling(n))
  {
    if txids != [] {
      var before, t := txids[..|txids| - 1], txids[|txids| - 1];
      var n := Run(WatchAll(before), max);
      WatchAllNoted(before, max);
      RunNext(WatchAll(before), max, Watch(t, 0));
      StepKeys(n, max, Watch(t, 0));
      DiallingNext(n, max, t);
      assert txids == before + [t];
    }
  }

  // The page's first socket, its connection not yet registered.
  ghost predicate Dialling(n: Net) {
    !n.page.open && n.page.ws == Some(0) && 0 in n.joining
  }

  lemma DiallingNext(n: Net, max: int, t: Txid)
    requires n == QUIET || Dialling(n)
    ensures Dialling(Next(n, max, Watch(t, 0)))
  {
  }

  // A connection the hub has yet to register agrees with the page, once open, up to the bound.
  lemma FreshOpens(n: Net, max: int, order: seq<Txid>)
    requires Shape(n) && Enabled(n, SocketOpens(order)) && n.page.ws.value in n.joining
    ensures var n' := Next(n, max, SocketOpens(order));
            && Shape(n') && n'.page.open && Pending(n').Some?
            && (InSync(n') <==> |n.page.watches.Keys| <= MAX_WATCHED)
  {
    OpensPending(n, max, order);
  }

  // Past the bound the two really do part: a page that watches these txids and then connects agrees with
  // the hub if and only if there are no more of them than the hub keeps.
  lemma PartsPastTheBound(txids: seq<Txid>, max: int)
    requires txids != [] && forall i, j :: 0 <= i < j < |txids| ==> txids[i] != txids[j]
    ensures var n := Run(WatchAll(txids) + [SocketOpens(txids)], max);
            && Shape(n) && n.page.open && Pending(n).Some?
            && (InSync(n) <==> |txids| <= 32)
  {
    var n, opens := Run(WatchAll(txids), max), SocketOpens(txids);
    WatchAllNoted(txids, max);
    DistinctSize(txids);
    Agreement(WatchAll(txids), max);
    assert Lists(txids, n.page.watches);
    FreshOpens(n, max, txids);
    RunNext(WatchAll(txids), max, opens);
  }

  // With nothing left in flight, the hub watches for the page exactly what the page watches.
  lemma AgreementAtRest(steps: seq<Step>, max: int)
    requires NeverOverfull(QUIET, max, steps)
    ensures var n := Run(steps, max);
            && Shape(n)
            && (n.page.open && Mine(n.page.ws.value) in n.reg && n.wires[n.page.ws.value] == [] ==>
                  n.reg[Mine(n.page.ws.value)] == n.page.watches.Keys)
  {
    Agreement(steps, max);
  }

  // The hub handling everything in flight on one connection.
  ghost function HandledAll(n: Net, max: int, id: SocketId): (n': Net)
    requires id in n.wires && id !in n.joining
    ensures id in n'.wires
    decreases |n.wires[id]|
  {
    if n.wires[id] == [] then n else HandledAll(Next(n, max, HubHandles(id)), max, id)
  }

  // Handling what is in flight is all it takes, whatever state the page and hub are in.
  lemma {:induction false} HandlingSettles(n: Net, max: int)
    requires Shape(n) && n.page.open
    requires Mine(n.page.ws.value) in n.reg
    ensures var n', id := HandledAll(n, max, n.page.ws.value), n.page.ws.value;
            && n'.page == n.page && n'.wires[id] == []
            && Mine(id) in n'.reg && n'.reg[Mine(id)] == Pending(n).value
            && forall c :: c in n.reg && c != Mine(id) ==> c in n'.reg && n'.reg[c] == n.reg[c]
    decreases |n.wires[n.page.ws.value]|
  {
    var id := n.page.ws.value;
    if n.wires[id] != [] {
      StepShape(n, max, HubHandles(id));
      HandlingSettles(Next(n, max, HubHandles(id)), max);
    }
  }

  // ---------- the page keeps trying ----------

  // A page that has been asked for live data has a socket, or a timer that will make one.
  ghost predicate Alive(n: Net) {
    n.page.ws.Some? || n.page.timer
  }

  ghost predicate Asks(s: Step) {
    s.Watch? || s.Subscribe?
  }

  lemma StepAlive(n: Net, max: int, s: Step)
    requires Shape(n) && (Alive(n) || Asks(s))
    ensures Alive(Next(n, max, s))
  {
  }

  // From the first watch or subscription on there is always a socket, or a reconnect is due.
  lemma {:induction false} KeepsTrying(steps: seq<Step>, max: int)
    requires exists s :: s in steps && Asks(s)
    ensures Alive(Run(steps, max))
  {
    var before, s := steps[..|steps| - 1], steps[|steps| - 1];
    assert steps == before + [s];
    Agreement(before, max);
    if !Asks(s) {
      KeepsTrying(before, max);
    }
    StepAlive(Run(before, max), max, s);
  }

  // A lost connection leads to a timer, and the timer to a new socket, dialling, with every watch kept for
  // its replay.
  lemma Reconnects(n: Net, max: int)
    requires Shape(n) && n.page.ws.Some?
    ensures var n1 := Next(n, max, SocketCloses);
            var n2 := Next(n1, max, TimerFires);
            && n1.page.ws.None? && n1.page.timer && !n1.page.open
            && n2.page.ws == Some(n.page.sockets) && n.page.sockets !in n.wires && n.page.sockets in n2.joining
            && !n2.page.timer && !n2.page.open && n2.page.watches == n.page.watches
  {
  }

  // The latest thing asked of one callback on one txid: that it watch, or that it stop.
  ghost function Wanted(steps: seq<Step>, t: Txid, cb: Callback): bool {
    if steps == [] then false
    else
      match steps[|steps| - 1]
      case Watch(t', cb') => if t' == t && cb' == cb then true else Wanted(steps[..|steps| - 1], t, cb)
      case Unwatch(t', cb') => if t' == t && cb' == cb then false else Wanted(steps[..|steps| - 1], t, cb)
      case _ => Wanted(steps[..|steps| - 1], t, cb)
  }

  ghost predicate Called(p: Page, t: Txid, cb: Callback) {
    t in p.watches && cb in p.watches[t]
  }

  lemma StepCalled(n: Net, max: int, s: Step, t: Txid, cb: Callback)
    ensures Called(Next(n, max, s).page, t, cb) ==
            if s == Watch(t, cb) then true else if s == Unwatch(t, cb) then false else Called(n.page, t, cb)
  {
    match s
    case Watch(t', cb') => WatchedCalls(n.page, t', cb', t, cb);
    case Unwatch(t', cb') => UnwatchedCalls(n.page, t', cb', t, cb);
    case _ => assert Next(n, max, s).page.watches == n.page.watches;
  }

  lemma WatchedCalls(p: Page, t': Txid, cb': Callback, t: Txid, cb: Callback)
    ensures Called(Watched(p, t', cb').0, t, cb) <==> (t' == t && cb' == cb) || Called(p, t, cb)
  {
  }

  lemma UnwatchedCalls(p: Page, t': Txid, cb': Callback, t: Txid, cb: Callback)
    ensures Called(Unwatched(p, t', cb').0, t, cb) <==> !(t' == t && cb' == cb) && Called(p, t, cb)
  {
    if t' in p.watches && t' == t && cb in p.watches[t] && cb != cb' {
      assert cb in p.watches[t] - {cb'};
    }
  }

  // An update for a txid reaches exactly the callbacks that asked for it and have not stopped since, however
  // connections come and go.
  lemma {:induction false} CallbacksAre(steps: seq<Step>, max: int, t: Txid, cb: Callback)
    ensures Called(Run(steps, max).page, t, cb) <==> Wanted(steps, t, cb)
  {
    if steps != [] {
      var before, s := steps[..|steps| - 1], steps[|steps| - 1];
      CallbacksAre(before, max, t, cb);
      StepCalled(Run(before, max), max, s, t, cb);
    }
  }
}
