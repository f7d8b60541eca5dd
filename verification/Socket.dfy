/** The browser's live socket (web/src/api/ws.ts).

    One socket at a time, reconnected with exponential backoff; watches are counted by their callbacks
    and replayed on every reopen. Callbacks are opaque identifiers and do not call back into the
    socket. Each handler is proved against a function on the socket's fields. */
module Socket {
  import opened Options
  import opened Common
  import opened Hub

  const INITIAL_BACKOFF_MS: nat := 1000
  const MAX_BACKOFF_MS: nat := 30_000

  type Callback = nat
  type SocketId = nat

  datatype Frame = Frame(watch: bool, txid: Txid)

  // The fields of the singleton; `sockets` counts the sockets created so far.
  datatype Page = Page(ws: Option<SocketId>, open: bool, backoff: nat, timer: bool,
                       watches: map<Txid, set<Callback>>, sockets: nat)

  const START := Page(None, false, INITIAL_BACKOFF_MS, false, map[], 0)

  function Sent(p: Page, f: Frame): seq<Frame> {
    if p.open && p.ws.Some? then [f] else []
  }

  function Connected(p: Page): Page {
    p.(ws := Some(p.sockets), sockets := p.sockets + 1)
  }

  function Ensured(p: Page): Page {
    if p.ws.Some? || p.timer then p else Connected(p)
  }

  function Watched(p: Page, txid: Txid, cb: Callback): (Page, seq<Frame>) {
    var subs := if txid in p.watches then p.watches[txid] else {};
    (Ensured(p.(watches := p.watches[txid := subs + {cb}])),
     if txid in p.watches then [] else Sent(p, Frame(true, txid)))
  }

  function Unwatched(p: Page, txid: Txid, cb: Callback): (Page, seq<Frame>) {
    if txid !in p.watches then (p, [])
    else if p.watches[txid] - {cb} == {} then (p.(watches := p.watches - {txid}), Sent(p, Frame(false, txid)))
    else (p.(watches := p.watches[txid := p.watches[txid] - {cb}]), [])
  }

  function Opened(p: Page): Page {
    p.(open := true, backoff := INITIAL_BACKOFF_MS)
  }

  function Closed(p: Page): Page {
    p.(ws := None, open := false, timer := true, backoff := Min(p.backoff * 2, MAX_BACKOFF_MS))
  }

  function TimerFired(p: Page): Page {
    Connected(p.(timer := false))
  }

  // The watch frames for `txids`, in that order.
  function Replay(txids: seq<Txid>): seq<Frame> {
    if txids == [] then [] else [Frame(true, txids[0])] + Replay(txids[1..])
  }

  // The replay names every watched txid, once.
  ghost predicate Lists(txids: seq<Txid>, watches: map<Txid, set<Callback>>) {
    && (forall t :: t in txids <==> t in watches)
    && (forall i, j :: 0 <= i < j < |txids| ==> txids[i] != txids[j])
  }

  class LiveSocket {
    var ws: Option<SocketId>
    var open: bool
    var backoff: nat
    var reconnectTimer: bool
    var watches: map<Txid, set<Callback>>
    var sockets: nat

    ghost function State(): Page
      reads this
    {
      Page(ws, open, backoff, reconnectTimer, watches, sockets)
    }

    constructor ()
      ensures State() == START
    {
      ws, open, backoff, reconnectTimer := None, false, INITIAL_BACKOFF_MS, false;
      watches, sockets := map[], 0;
    }

    method Send(f: Frame) returns (sent: seq<Frame>)
      ensures sent == Sent(State(), f)
    {
      sent := if open && ws.Some? then [f] else [];
    }

    method Connect()
      modifies this`ws, this`sockets
      ensures State() == Connected(old(State()))
    {
      ws, sockets := Some(sockets), sockets + 1;
    }

    method Ensure()
      modifies this`ws, this`sockets
      ensures State() == Ensured(old(State()))
    {
      if ws.Some? || reconnectTimer {
        return;
      }
      Connect();
    }

    method Watch(txid: Txid, cb: Callback) returns (sent: seq<Frame>)
      modifies this
      ensures (State(), sent) == Watched(old(State()), txid, cb)
    {
      sent := [];
      if txid !in watches {
        watches := watches[txid := {}];
        sent := Send(Frame(true, txid));
      }
      watches := watches[txid := watches[txid] + {cb}];
      assert watches == old(watches)[txid := (if txid in old(watches) then old(watches)[txid] else {}) + {cb}];
      Ensure();
    }

    // What `watch` returns: drops one callback, and the watch with the last of them.
    method Unwatch(txid: Txid, cb: Callback) returns (sent: seq<Frame>)
      modifies this`watches
      ensures (State(), sent) == Unwatched(old(State()), txid, cb)
    {
      sent := [];
      if txid !in watches {
        return;
      }
      watches := watches[txid := watches[txid] - {cb}];
      if watches[txid] == {} {
        watches := watches - {txid};
        assert watches == old(watches) - {txid};
        sent := Send(Frame(false, txid));
      }
    }

    method OnOpen() returns (ghost order: seq<Txid>, sent: seq<Frame>)
      modifies this`open, this`backoff
      ensures State() == Opened(old(State()))
      ensures Lists(order, watches) && sent == Replay(order)
    {
      open, backoff := true, INITIAL_BACKOFF_MS;
      var todo := watches.Keys;
      order, sent := [], [];
      while todo != {}
        invariant todo <= watches.Keys
        invariant forall t :: t in order <==> t in watches && t !in todo
        invariant forall i, j :: 0 <= i < j < |order| ==> order[i] != order[j]
        invariant sent == Replay(order)
        modifies {}
        decreases todo
      {
        var txid :| txid in todo;
        ReplaySnoc(order, txid);
        order, sent, todo := order + [txid], sent + [Frame(true, txid)], todo - {txid};
      }
    }

    method OnClose() returns (delay: nat)
      modifies this
      ensures State() == Closed(old(State())) && delay == old(backoff)
    {
      ws := None;
      if open {
        open := false;
      }
      reconnectTimer, delay := true, backoff;
      backoff := Min(backoff * 2, MAX_BACKOFF_MS);
    }

    method OnTimer()
      modifies this
      ensures State() == TimerFired(old(State()))
    {
      reconnectTimer := false;
      Connect();
    }
  }

  lemma {:induction false} ReplaySnoc(txids: seq<Txid>, t: Txid)
    ensures Replay(txids + [t]) == Replay(txids) + [Frame(true, t)]
  {
    if txids == [] {
      assert [t][1..] == [];
    } else {
      ReplaySnoc(txids[1..], t);
      assert (txids + [t])[1..] == txids[1..] + [t];
    }
  }

  // ---------- backoff ----------

  // `k` failed attempts in a row.
  function Failures(p: Page, k: nat): Page {
    if k == 0 then p else TimerFired(Closed(Failures(p, k - 1)))
  }

  function Pow2(k: nat): nat {
    if k == 0 then 1 else 2 * Pow2(k - 1)
  }

  // The wait before the next attempt doubles with every failure since the last open, up to the cap.
  lemma {:induction false} BackoffDoubles(p: Page, k: nat)
    ensures Failures(Opened(p), k).backoff == Min(1000 * Pow2(k), 30_000)
  {
    if k > 0 {
      BackoffDoubles(p, k - 1);
    }
  }
}
