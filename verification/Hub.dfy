/** The WebSocket hub's registry (internal/api/hub.go, internal/api/ws.go).

    One event loop owns the client set, each client's watch set and a reverse index from txid to
    watching clients. What the registry means is a map from registered clients to the txids they
    watch; the index is a redundant copy of it. The methods work on the fields as the loop does and
    are proved against functions on the map. */
module Hub {
  import opened Common

  type Txid = string

  const MAX_WATCHED: nat := 32

  // ---------- what the loop does to the registry ----------

  function WatchIn(watched: set<Txid>, watch: bool, txid: Txid): set<Txid> {
    if !watch then watched - {txid}
    else if |watched| >= MAX_WATCHED && txid !in watched then watched
    else watched + {txid}
  }

  function Registered<C>(reg: map<C, set<Txid>>, max: int, c: C): map<C, set<Txid>> {
    if max > 0 && |reg| >= max then reg else reg[c := {}]
  }

  function Commanded<C>(reg: map<C, set<Txid>>, c: C, watch: bool, txid: Txid): map<C, set<Txid>> {
    if c in reg then reg[c := WatchIn(reg[c], watch, txid)] else reg
  }

  // ---------- the reverse index ----------

  // `watchers` is the reverse of `reg`, with no empty set in it.
  ghost predicate IndexOf<C>(watchers: map<Txid, set<C>>, reg: map<C, set<Txid>>) {
    && (forall t :: t in watchers ==> watchers[t] != {} && watchers[t] <= reg.Keys)
    && (forall c, t :: c in reg ==> (t in reg[c] <==> t in watchers && c in watchers[t]))
  }

  function Added<C>(watchers: map<Txid, set<C>>, txid: Txid, c: C): map<Txid, set<C>> {
    watchers[txid := (if txid in watchers then watchers[txid] else {}) + {c}]
  }

  function Removed<C>(watchers: map<Txid, set<C>>, txid: Txid, c: C): map<Txid, set<C>> {
    if txid !in watchers then watchers
    else if watchers[txid] - {c} == {} then watchers - {txid}
    else watchers[txid := watchers[txid] - {c}]
  }

  lemma JoinedIsIndex<C>(watchers: map<Txid, set<C>>, reg: map<C, set<Txid>>, c: C)
    requires IndexOf(watchers, reg) && c !in reg
    ensures IndexOf(watchers, reg[c := {}])
  {
    assert reg[c := {}].Keys == reg.Keys + {c};
  }

  lemma AddedIsIndex<C>(watchers: map<Txid, set<C>>, reg: map<C, set<Txid>>, c: C, txid: Txid)
    requires IndexOf(watchers, reg) && c in reg
    ensures IndexOf(Added(watchers, txid, c), reg[c := reg[c] + {txid}])
  {
    assert reg[c := reg[c] + {txid}].Keys == reg.Keys;
  }

  lemma RemovedIsIndex<C>(watchers: map<Txid, set<C>>, reg: map<C, set<Txid>>, c: C, txid: Txid)
    requires IndexOf(watchers, reg) && c in reg
    ensures IndexOf(Removed(watchers, txid, c), reg[c := reg[c] - {txid}])
  {
    assert reg[c := reg[c] - {txid}].Keys == reg.Keys;
    var after := Removed(watchers, txid, c);
    assert forall t :: t != txid ==> (t in after <==> t in watchers) && (t in after ==> after[t] == watchers[t]);
    assert txid in after ==> txid in watchers && after[txid] == watchers[txid] - {c};
    assert txid in watchers && txid !in after ==> watchers[txid] <= {c};
  }

  lemma DepartedIsIndex<C>(watchers: map<Txid, set<C>>, reg: map<C, set<Txid>>, c: C)
    requires IndexOf(watchers, reg) && c in reg && reg[c] == {}
    ensures IndexOf(watchers, reg - {c})
  {
    forall t | t in watchers ensures c !in watchers[t] {
      assert t !in reg[c];
    }
  }

  // ---------- the loop's own data ----------

  const SEND_BUFFER: nat := 32

  class WsClient {
    var watched: set<Txid>
    var send: seq<string>
    var done: bool
    // How often shutdown was called; only the first call closes `done` and the connection.
    ghost var shutdowns: nat

    constructor ()
      ensures watched == {} && send == [] && !done && shutdowns == 0
    {
      watched, send, done, shutdowns := {}, [], false, 0;
    }

    // Fails only for a live client with a full buffer. For one that is shutting down and still has room, either
    // ready case of the select may be chosen, so the message may or may not be queued.
    method TrySend(msg: string) returns (ok: bool)
      modifies this`send
      ensures ok <==> done || |old(send)| < SEND_BUFFER
      ensures ok && !done ==> send == old(send) + [msg]
      ensures send == old(send) || (|old(send)| < SEND_BUFFER && send == old(send) + [msg])
    {
      var swallow: bool := *;
      if done && (swallow || |send| >= SEND_BUFFER) {
        return true;
      }
      if |send| >= SEND_BUFFER {
        return false;
      }
      send := send + [msg];
      return true;
    }

    method Shutdown()
      modifies this`done, this`shutdowns
      ensures done && shutdowns == old(shutdowns) + 1
    {
      done, shutdowns := true, shutdowns + 1;
    }
  }

  class Hub {
    // 0 = unlimited.
    const maxClients: int
    var clients: set<WsClient>
    var watchers: map<Txid, set<WsClient>>

    ghost predicate Valid()
      reads this, clients
    {
      && (maxClients > 0 ==> |clients| <= maxClients)
      && (forall c | c in clients :: |c.watched| <= MAX_WATCHED && !c.done && c.shutdowns == 0)
      && IndexOf<WsClient>(watchers, Registry())
    }

    ghost function Registry(): (reg: map<WsClient, set<Txid>>)
      reads this`clients, clients`watched
      ensures reg.Keys == clients && |reg| == |clients|
      ensures forall c | c in clients :: reg[c] == c.watched
    {
      var reg := map c | c in clients :: c.watched;
      assert reg.Keys == clients;
      reg
    }

    lemma RegistryIs(reg: map<WsClient, set<Txid>>)
      requires reg.Keys == clients && forall c | c in clients :: c.watched == reg[c]
      ensures Registry() == reg
    {
    }

    constructor (maxClients: int)
      ensures Valid() && Registry() == map[] && this.maxClients == maxClients
    {
      this.maxClients := maxClients;
      clients := {};
      watchers := map[];
    }

    method Register(c: WsClient)
      requires Valid() && c !in clients
      requires c.watched == {} && !c.done && c.shutdowns == 0
      modifies this`clients, c`done, c`shutdowns
      ensures Valid()
      ensures Registry() == Registered(old(Registry()), maxClients, c)
      ensures c !in clients ==> c.shutdowns == 1 && c.done
    {
      if maxClients > 0 && |clients| >= maxClients {
        c.Shutdown();
        return;
      }
      Add(c);
    }

    method Add(c: WsClient)
      requires Valid() && c !in clients && (maxClients > 0 ==> |clients| < maxClients)
      requires c.watched == {} && !c.done && c.shutdowns == 0
      modifies this`clients
      ensures Valid() && clients == old(clients) + {c}
      ensures Registry() == old(Registry())[c := {}]
    {
      ghost var reg: map<WsClient, set<Txid>> := Registry();
      JoinedIsIndex(watchers, reg, c);
      clients := clients + {c};
      RegistryIs(reg[c := {}]);
    }

    method Command(c: WsClient, watch: bool, txid: Txid)
      requires Valid()
      modifies this`watchers, c`watched
      ensures Valid()
      ensures Registry() == Commanded(old(Registry()), c, watch, txid)
      ensures c !in clients ==> c.watched == old(c.watched)
    {
      if c !in clients {
        return;
      }
      if watch {
        if |c.watched| >= MAX_WATCHED && txid !in c.watched {
          return;
        }
        AddWatch(c, txid);
      } else {
        DropWatch(c, txid);
      }
    }

    method AddWatch(c: WsClient, txid: Txid)
      requires Valid() && c in clients && |c.watched + {txid}| <= MAX_WATCHED
      modifies this`watchers, c`watched
      ensures Valid() && Registry() == old(Registry())[c := old(c.watched) + {txid}]
    {
      ghost var reg: map<WsClient, set<Txid>> := Registry();
      AddedIsIndex(watchers, reg, c, txid);
      var watching := if txid in watchers then watchers[txid] else {};
      watchers := watchers[txid := watching + {c}];
      c.watched := c.watched + {txid};
      RegistryIs(reg[c := reg[c] + {txid}]);
    }

    method DropWatch(c: WsClient, txid: Txid)
      requires Valid() && c in clients
      modifies this`watchers, c`watched
      ensures Valid() && Registry() == old(Registry())[c := old(c.watched) - {txid}]
    {
      ghost var reg: map<WsClient, set<Txid>> := Registry();
      SubsetSize(c.watched - {txid}, c.watched);
      RemovedIsIndex(watchers, reg, c, txid);
      c.watched := c.watched - {txid};
      RemoveWatcher(txid, c);
      RegistryIs(reg[c := reg[c] - {txid}]);
    }

    method RemoveWatcher(txid: Txid, c: WsClient)
      modifies this`watchers
      ensures watchers == Removed(old(watchers), txid, c)
    {
      if txid in watchers {
        var rest := watchers[txid] - {c};
        watchers := if rest == {} then watchers - {txid} else watchers[txid := rest];
      }
    }

    // Unregistering: the client leaves the set and the index, and is shut down.
    method Drop(c: WsClient)
      requires Valid()
      modifies this`clients, this`watchers, c`done, c`shutdowns
      ensures Valid()
      ensures Registry() == old(Registry()) - {c}
      ensures c.shutdowns == old(c.shutdowns) + if c in old(clients) then 1 else 0
      ensures c in old(clients) ==> c.done
      ensures c !in old(clients) ==> c.done == old(c.done)
    {
      if c !in clients {
        return;
      }
      Remove(c);
      c.Shutdown();
    }

    method Remove(c: WsClient)
      requires Valid() && c in clients
      modifies this`clients, this`watchers
      ensures Valid() && clients == old(clients) - {c}
      ensures Registry() == old(Registry()) - {c}
    {
      ghost var reg: map<WsClient, set<Txid>> := Registry();
      clients := clients - {c};
      RemoveEverywhere(c, reg);
      RegistryIs(reg - {c});
    }

    // The index forgets `c`, txid by txid.
    method RemoveEverywhere(c: WsClient, ghost reg: map<WsClient, set<Txid>>)
      requires IndexOf(watchers, reg) && c in reg && reg[c] == c.watched
      modifies this`watchers
      ensures IndexOf(watchers, reg - {c})
    {
      var todo := c.watched;
      assert reg[c := todo] == reg;
      while todo != {}
        invariant todo <= c.watched
        invariant IndexOf(watchers, reg[c := todo])
        decreases todo
      {
        var txid :| txid in todo;
        ghost var before := reg[c := todo];
        RemovedIsIndex(watchers, before, c, txid);
        RemoveWatcher(txid, c);
        todo := todo - {txid};
        assert reg[c := todo] == before[c := todo];
      }
      DepartedIsIndex(watchers, reg[c := {}], c);
      assert reg[c := {}] - {c} == reg - {c};
    }

    // The context is cancelled: every client still registered is shut down.
    method Stop()
      requires Valid()
      modifies clients
      ensures clients == old(clients)
      ensures forall c | c in clients :: c.done && c.shutdowns == 1
    {
      var todo := clients;
      while todo != {}
        invariant todo <= clients
        invariant forall c | c in clients :: c.shutdowns == if c in todo then 0 else 1
        invariant forall c | c in clients :: c in todo || c.done
        decreases todo
      {
        var c :| c in todo;
        c.Shutdown();
        todo := todo - {c};
      }
    }

    // A push for a txid goes to exactly the registered clients that watch it.
    method Targets(txid: Txid) returns (targets: set<WsClient>)
      requires Valid()
      ensures targets == set c | c in Registry() && txid in Registry()[c]
    {
      targets := if txid in watchers then watchers[txid] else {};
    }

    // The index is bounded by the clients, however hostile they are.
    lemma IndexBounded()
      requires Valid()
      ensures |watchers| <= MAX_WATCHED * |clients|
    {
      var reg := Registry();
      TxidsBounded(reg);
      forall t | t in watchers ensures t in Txids(reg) {
        var c :| c in watchers[t];
        TxidsHas(reg, c, t);
      }
      SubsetSize(watchers.Keys, Txids(reg));
    }
  }

  // ---------- whole runs of the loop ----------

  datatype Event<+C> = Join(client: C) | Leave(client: C) | Ask(client: C, watch: bool, txid: Txid)

  // The registry, and every call of shutdown made so far.
  datatype World<!C> = World(reg: map<C, set<Txid>>, shutdowns: multiset<C>)

  ghost function Handle<C>(w: World<C>, max: int, e: Event<C>): World<C> {
    match e
    case Join(c) =>
      var reg := Registered(w.reg, max, c);
      World(reg, if c in reg then w.shutdowns else w.shutdowns + multiset{c})
    case Leave(c) =>
      World(w.reg - {c}, if c in w.reg then w.shutdowns + multiset{c} else w.shutdowns)
    case Ask(c, watch, txid) =>
      World(Commanded(w.reg, c, watch, txid), w.shutdowns)
  }

  ghost function HandleAll<C>(events: seq<Event<C>>, max: int): World<C> {
    if events == [] then World(map[], multiset{})
    else Handle(HandleAll(events[..|events| - 1], max), max, events[|events| - 1])
  }

  // Each connection is registered once, by the request that opened it.
  ghost predicate JoinsOnce<C>(events: seq<Event<C>>) {
    forall i, j :: 0 <= i < j < |events| && events[i].Join? ==> events[j] != events[i]
  }

  // The client bound and the per-client bound hold, a registered client was never shut down, and one
  // that joined and is not registered was shut down exactly once.
  ghost predicate Safe<C(!new)>(w: World<C>, max: int, joined: set<C>) {
    && (max > 0 ==> |w.reg| <= max)
    && (forall c :: c in w.reg ==> |w.reg[c]| <= MAX_WATCHED && c in joined)
    && (forall c :: w.shutdowns[c] == if c in joined && c !in w.reg then 1 else 0)
  }

  lemma HandleSafe<C(!new)>(w: World<C>, max: int, joined: set<C>, e: Event<C>)
    requires Safe(w, max, joined) && (e.Join? ==> e.client !in joined)
    ensures Safe(Handle(w, max, e), max, if e.Join? then joined + {e.client} else joined)
  {
    match e
    case Join(c) =>
    case Leave(c) =>
      LeaveSafe(w, max, joined, c);
    case Ask(c, watch, txid) =>
      AskSafe(w, max, joined, c, watch, txid);
  }

  lemma LeaveSafe<C(!new)>(w: World<C>, max: int, joined: set<C>, c: C)
    requires Safe(w, max, joined)
    ensures Safe(Handle(w, max, Leave(c)), max, joined)
  {
    assert (w.reg - {c}).Keys == w.reg.Keys - {c};
    SubsetSize((w.reg - {c}).Keys, w.reg.Keys);
  }

  lemma AskSafe<C(!new)>(w: World<C>, max: int, joined: set<C>, c: C, watch: bool, txid: Txid)
    requires Safe(w, max, joined)
    ensures Safe(Handle(w, max, Ask(c, watch, txid)), max, joined)
  {
    if c in w.reg {
      SubsetSize(w.reg[c] - {txid}, w.reg[c]);
      assert |WatchIn(w.reg[c], watch, txid)| <= MAX_WATCHED;
      assert Commanded(w.reg, c, watch, txid).Keys == w.reg.Keys;
    }
  }

  ghost function Joined<C>(events: seq<Event<C>>): set<C> {
    set e | e in events && e.Join? :: e.client
  }

  // Every run is safe.
  lemma {:induction false} RunSafe<C(!new)>(events: seq<Event<C>>, max: int)
    requires JoinsOnce(events)
    ensures Safe(HandleAll(events, max), max, Joined(events))
  {
    if events != [] {
      var before, e := events[..|events| - 1], events[|events| - 1];
      RunSafe(before, max);
      assert events == before + [e];
      assert e.Join? ==> e !in before;
      HandleSafe(HandleAll(before, max), max, Joined(before), e);
      assert Joined(events) == if e.Join? then Joined(before) + {e.client} else Joined(before);
    }
  }

  // A new connection is let in if and only if there is no limit or room under it, and starts with no watches;
  // nobody else notices.
  lemma JoinsIffRoom<C(!new)>(w: World<C>, max: int, c: C)
    requires c !in w.reg
    ensures var w' := Handle(w, max, Join(c));
            && (c in w'.reg <==> max <= 0 || |w.reg| < max)
            && (c in w'.reg ==> w'.reg[c] == {} && w'.shutdowns == w.shutdowns)
            && (c !in w'.reg ==> w'.shutdowns[c] == w.shutdowns[c] + 1)
            && forall d :: d != c ==> (d in w'.reg <==> d in w.reg) && (d in w.reg ==> w'.reg[d] == w.reg[d])
  {
  }

  // A watch is taken from a registered client, and only from one, unless it holds 32 others; an unwatch always is.
  lemma AskedIff<C(!new)>(w: World<C>, max: int, c: C, watch: bool, txid: Txid)
    requires c in w.reg
    ensures var w' := Handle(w, max, Ask(c, watch, txid));
            && w'.reg.Keys == w.reg.Keys && w'.shutdowns == w.shutdowns
            && (txid in w'.reg[c] <==> watch && (txid in w.reg[c] || |w.reg[c]| < 32))
            && (forall t :: t != txid ==> (t in w'.reg[c] <==> t in w.reg[c]))
            && forall d :: d in w.reg && d != c ==> w'.reg[d] == w.reg[d]
  {
  }

  // ---------- counting ----------

  // Every txid anyone watches.
  ghost function Txids<C>(reg: map<C, set<Txid>>): set<Txid> {
    if reg == map[] then {}
    else
      var c :| c in reg;
      reg[c] + Txids(reg - {c})
  }

  lemma {:induction false} TxidsHas<C>(reg: map<C, set<Txid>>, c: C, t: Txid)
    requires c in reg && t in reg[c]
    ensures t in Txids(reg)
  {
    var d :| d in reg && Txids(reg) == reg[d] + Txids(reg - {d});
    if d != c {
      TxidsHas(reg - {d}, c, t);
    }
  }

  lemma {:induction false} TxidsBounded<C>(reg: map<C, set<Txid>>)
    requires forall c :: c in reg ==> |reg[c]| <= MAX_WATCHED
    ensures |Txids(reg)| <= MAX_WATCHED * |reg|
  {
    if reg != map[] {
      var c :| c in reg && Txids(reg) == reg[c] + Txids(reg - {c});
      TxidsBounded(reg - {c});
      assert (reg - {c}).Keys == reg.Keys - {c};
      assert |reg - {c}| == |reg| - 1;
      UnionSize(reg[c], Txids(reg - {c}));
    }
  }

  lemma UnionSize<T>(a: set<T>, b: set<T>)
    ensures |a + b| <= |a| + |b|
  {
    assert a + b == a + (b - a);
    SubsetSize(b - a, b);
  }
}
