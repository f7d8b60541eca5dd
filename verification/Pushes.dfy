/** What wakes the hub, and how it pushes (internal/api/hub.go:108-204 and 313-331; internal/api/ws.go:52-66).

    Notifiers never wait for the loop: a block replaces the one not yet handled, and mempool notifications
    merge into one token, then into one dirty flag that a ticker clears. */
module Pushes {
  import opened Options
  import opened Hub

  const UNREGISTER_QUEUE: nat := 8

  // The two one-slot channels and the loop's flag. `H` stands for block hashes.
  datatype Signals<+H> = Signals(blocks: Option<H>, mempoolCh: bool, mempoolDirty: bool)

  function Drained<H>(s: Signals<H>): Signals<H> {
    s.(blocks := None)
  }

  function BlockPut<H>(s: Signals<H>, hash: H): Signals<H> {
    s.(blocks := Some(hash))
  }

  function BlockTaken<H>(s: Signals<H>): Signals<H> {
    s.(blocks := None, mempoolDirty := false)
  }

  function TokenPut<H>(s: Signals<H>): Signals<H> {
    s.(mempoolCh := true)
  }

  function TokenTaken<H>(s: Signals<H>): Signals<H> {
    s.(mempoolCh := false, mempoolDirty := true)
  }

  function Ticked<H>(s: Signals<H>): Signals<H> {
    s.(mempoolDirty := false)
  }

  class Notifications {
    var blocks: Option<string>
    var mempoolCh: bool
    var mempoolDirty: bool
    var unregister: seq<WsClient>

    ghost function State(): Signals<string>
      reads this
    {
      Signals(blocks, mempoolCh, mempoolDirty)
    }

    constructor ()
      ensures State() == Signals(None, false, false) && unregister == []
    {
      blocks, mempoolCh, mempoolDirty, unregister := None, false, false, [];
    }

    method NotifyBlock(hash: string)
      modifies this`blocks
      ensures State() == BlockPut(Drained(old(State())), hash)
    {
      if blocks.Some? {
        blocks := None;
      }
      blocks := Some(hash);
    }

    method NotifyMempool()
      modifies this`mempoolCh
      ensures State() == TokenPut(old(State()))
    {
      if !mempoolCh {
        mempoolCh := true;
      }
    }

    // The loop takes a block: everybody gets the flash and a mempool push right away.
    method OnBlock(clients: set<WsClient>) returns (hash: string, targets: set<WsClient>)
      requires blocks.Some?
      modifies this`blocks, this`mempoolDirty
      ensures State() == BlockTaken(old(State())) && Some(hash) == old(blocks) && targets == clients
    {
      hash, blocks := blocks.value, None;
      mempoolDirty := false;
      targets := clients;
    }

    method OnMempool()
      requires mempoolCh
      modifies this`mempoolCh, this`mempoolDirty
      ensures State() == TokenTaken(old(State()))
    {
      mempoolCh, mempoolDirty := false, true;
    }

    method OnMempoolTick(clients: set<WsClient>) returns (targets: set<WsClient>)
      modifies this`mempoolDirty
      ensures State() == Ticked(old(State())) && targets == if old(mempoolDirty) then clients else {}
    {
      if !mempoolDirty {
        return {};
      }
      mempoolDirty := false;
      return clients;
    }

    // Fans a message out. Whoever is live and has room gets it; whoever is live and has none is put up for
    // dropping, unless that queue is full too; nobody else is.
    method Send(clients: seq<WsClient>, msg: string)
      requires forall i, j :: 0 <= i < j < |clients| ==> clients[i] != clients[j]
      modifies this`unregister, clients`send
      ensures forall i :: 0 <= i < |clients| ==> Served(clients[i], old(clients[i].send), msg)
      ensures forall i :: 0 <= i < |clients| && Slow(clients[i], old(clients[i].send)) ==>
                clients[i] in unregister || |unregister| >= UNREGISTER_QUEUE
      ensures old(unregister) <= unregister
      ensures |old(unregister)| <= UNREGISTER_QUEUE ==> |unregister| <= UNREGISTER_QUEUE
      ensures forall i :: 0 <= i < |clients| && clients[i] in unregister ==>
                clients[i] in old(unregister) || Slow(clients[i], old(clients[i].send))
      ensures forall c :: c in unregister ==> c in old(unregister) || c in clients
    {
      for i := 0 to |clients|
        invariant forall j :: 0 <= j < i ==> Served(clients[j], old(clients[j].send), msg)
        invariant forall j :: i <= j < |clients| ==> clients[j].send == old(clients[j].send)
        invariant forall j :: 0 <= j < i && Slow(clients[j], old(clients[j].send)) ==>
                    clients[j] in unregister || |unregister| >= UNREGISTER_QUEUE
        invariant old(unregister) <= unregister
        invariant |old(unregister)| <= UNREGISTER_QUEUE ==> |unregister| <= UNREGISTER_QUEUE
        invariant forall j :: 0 <= j < |clients| && clients[j] in unregister ==>
                    clients[j] in old(unregister) || (j < i && Slow(clients[j], old(clients[j].send)))
        invariant forall c :: c in unregister ==> c in old(unregister) || c in clients
      {
        var ok := clients[i].TrySend(msg);
        if !ok && |unregister| < UNREGISTER_QUEUE {
          unregister := unregister + [clients[i]];
        }
      }
    }

    // A live client whose buffer, which held `was`, was full.
    static ghost predicate Slow(c: WsClient, was: seq<string>)
      reads c
    {
      !c.done && |was| >= SEND_BUFFER
    }

    static ghost predicate Served(c: WsClient, was: seq<string>, msg: string)
      reads c
    {
      && (!c.done && |was| < SEND_BUFFER ==> c.send == was + [msg])
      && (c.send == was || (|was| < SEND_BUFFER && c.send == was + [msg]))
    }
  }

  // ---------- whole runs ----------

  // The single block notifier drains, then puts; the loop may run in between.
  datatype Step = BlockDrains | BlockPuts | LoopBlock | MempoolNoted | LoopMempool | LoopTick

  // Blocks are told apart by the number of their notification. A tick counts the steps; `noted`, `tokened`
  // and `pushed` are the ticks of the last mempool notification, the last token taken and the last mempool
  // push, and `notes`, `tokens` and `pushes` how many there were (those that came with a block not counted).
  datatype Notices = Notices(
    sig: Signals<nat>, notifying: bool, announced: nat, taken: seq<nat>,
    tick: nat, noted: nat, tokened: nat, pushed: nat,
    notes: nat, tokens: nat, pushes: nat)

  const START := Notices(Signals(None, false, false), false, 0, [], 1, 0, 0, 0, 0, 0, 0)

  function Next(w: Notices, s: Step): Notices {
    var t := w.(tick := w.tick + 1);
    match s
    case BlockDrains =>
      if w.notifying then t else t.(sig := Drained(w.sig), notifying := true, announced := w.announced + 1)
    case BlockPuts =>
      if !w.notifying then t else t.(sig := BlockPut(w.sig, w.announced), notifying := false)
    case LoopBlock =>
      if w.sig.blocks.None? then t
      else t.(sig := BlockTaken(w.sig), taken := w.taken + [w.sig.blocks.value], pushed := w.tick)
    case MempoolNoted => t.(sig := TokenPut(w.sig), noted := w.tick, notes := w.notes + 1)
    case LoopMempool =>
      if !w.sig.mempoolCh then t else t.(sig := TokenTaken(w.sig), tokened := w.tick, tokens := w.tokens + 1)
    case LoopTick =>
      if !w.sig.mempoolDirty then t else t.(sig := Ticked(w.sig), pushed := w.tick, pushes := w.pushes + 1)
  }

  function Run(steps: seq<Step>): Notices {
    if steps == [] then START else Next(Run(steps[..|steps| - 1]), steps[|steps| - 1])
  }

  // The latest block wins: what waits in the slot is the latest announced, a notifier always finds the slot
  // free, and with nothing waiting the loop has handled the latest. Blocks are handled in order, each at most
  // once.
  ghost predicate LatestBlock(w: Notices) {
    && (w.sig.blocks.Some? ==> w.sig.blocks.value == w.announced && !w.notifying)
    && (w.sig.blocks.None? && !w.notifying && w.announced > 0 ==>
          w.taken != [] && w.taken[|w.taken| - 1] == w.announced)
    && (forall i, j :: 0 <= i < j < |w.taken| ==> w.taken[i] < w.taken[j])
    && (forall i :: 0 <= i < |w.taken| ==>
          w.taken[i] + (if w.sig.blocks.Some? || w.notifying then 1 else 0) <= w.announced)
  }

  // The flags tell exactly what is outstanding: the channel a notification the loop has not seen, the dirty
  // flag one it has seen but not pushed. Pushes never outnumber notifications.
  ghost predicate NothingLost(w: Notices) {
    && w.noted < w.tick && w.tokened < w.tick && w.pushed < w.tick
    && (w.noted > 0 ==> w.noted != w.tokened) && (w.tokened > 0 ==> w.tokened != w.pushed)
    && (w.sig.mempoolCh <==> w.tokened < w.noted)
    && (w.sig.mempoolDirty <==> w.pushed < w.tokened)
    && w.pushes + (if w.sig.mempoolDirty then 1 else 0) <= w.tokens
    && w.tokens + (if w.sig.mempoolCh then 1 else 0) <= w.notes
  }

  lemma StepLatest(w: Notices, s: Step)
    requires LatestBlock(w)
    ensures LatestBlock(Next(w, s))
  {
  }

  lemma StepLosesNothing(w: Notices, s: Step)
    requires NothingLost(w)
    ensures NothingLost(Next(w, s))
  {
  }

  lemma {:induction false} RunTells(steps: seq<Step>)
    ensures LatestBlock(Run(steps)) && NothingLost(Run(steps))
  {
    if steps != [] {
      RunTells(steps[..|steps| - 1]);
      StepLatest(Run(steps[..|steps| - 1]), steps[|steps| - 1]);
      StepLosesNothing(Run(steps[..|steps| - 1]), steps[|steps| - 1]);
    }
  }

  // Whatever has happened, once the loop has looked at the channel and the ticker has fired, a mempool push
  // has gone out since the last notification.
  lemma EveryNoteIsPushed(steps: seq<Step>)
    ensures var w := Run(steps + [LoopMempool] + [LoopTick]);
            w.noted == 0 || w.noted < w.pushed
  {
    var a, b := steps + [LoopMempool], steps + [LoopMempool] + [LoopTick];
    RunTells(steps);
    RunTells(b);
    assert b[..|b| - 1] == a && a[..|a| - 1] == steps;
  }
}
