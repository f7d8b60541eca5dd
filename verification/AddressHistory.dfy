/** Address totals, activity rows and their paging (internal/explorer/address.go; web/src/state.ts:125-151).

    The node serves an address's history, newest first, in pages; a page past the end is empty. Amounts are
    satoshis. A history does not change while it is being read. */
module AddressHistory {
  import opened Options
  import opened Common
  import Paging

  const SCAN_CHUNK: nat := 100

  type Addr = string

  datatype Output = Output(addrs: seq<Addr>, sats: int)

  // An input with the output it spends, when the node could inline it.
  datatype Input = Input(prevOut: Option<Output>)

  datatype Tx = Tx(txid: string, vin: seq<Input>, vout: seq<Output>)

  // ---------- one transaction ----------

  // What an output pays the address: its value, once for each time it lists it.
  function PaysTo(addr: Addr, addrs: seq<Addr>, sats: int): int {
    if addrs == [] then 0
    else PaysTo(addr, addrs[..|addrs| - 1], sats) + if addrs[|addrs| - 1] == addr then sats else 0
  }

  function Received(addr: Addr, outs: seq<Output>): int {
    if outs == [] then 0
    else
      var o := outs[|outs| - 1];
      Received(addr, outs[..|outs| - 1]) + PaysTo(addr, o.addrs, o.sats)
  }

  // The outputs the inputs spend, those known.
  function Spent(vin: seq<Input>): seq<Output> {
    if vin == [] then []
    else Spent(vin[..|vin| - 1]) + Origin(vin[|vin| - 1])
  }

  function Origin(i: Input): seq<Output> {
    match i.prevOut
    case None => []
    case Some(o) => [o]
  }

  lemma SpentNext(vin: seq<Input>, i: nat)
    requires i < |vin|
    ensures Spent(vin[..i + 1]) == Spent(vin[..i]) + Origin(vin[i])
  {
    assert vin[..i + 1][..i] == vin[..i];
  }

  lemma ReceivedSnoc(addr: Addr, outs: seq<Output>, o: Output)
    ensures Received(addr, outs + [o]) == Received(addr, outs) + PaysTo(addr, o.addrs, o.sats)
  {
    assert (outs + [o])[..|outs|] == outs;
  }

  lemma SumSnoc(outs: seq<Output>, o: Output)
    ensures Sum(outs + [o]) == Sum(outs) + o.sats
  {
    assert (outs + [o])[..|outs|] == outs;
  }

  method AddressDelta(addr: Addr, tx: Tx) returns (recv: int, sent: int)
    ensures recv == Received(addr, tx.vout) && sent == Received(addr, Spent(tx.vin))
  {
    recv, sent := 0, 0;
    for i := 0 to |tx.vout|
      invariant recv == Received(addr, tx.vout[..i])
    {
      var paid := Matching(addr, tx.vout[i]);
      recv := recv + paid;
      ReceivedSnoc(addr, tx.vout[..i], tx.vout[i]);
      assert tx.vout[..i + 1] == tx.vout[..i] + [tx.vout[i]];
    }
    assert tx.vout[..|tx.vout|] == tx.vout;
    for i := 0 to |tx.vin|
      invariant sent == Received(addr, Spent(tx.vin[..i]))
    {
      SpentNext(tx.vin, i);
      if tx.vin[i].prevOut.None? {
        assert Spent(tx.vin[..i + 1]) == Spent(tx.vin[..i]);
        continue;
      }
      var paid := Matching(addr, tx.vin[i].prevOut.value);
      sent := sent + paid;
      ReceivedSnoc(addr, Spent(tx.vin[..i]), tx.vin[i].prevOut.value);
    }
    assert tx.vin[..|tx.vin|] == tx.vin;
  }

  method Matching(addr: Addr, o: Output) returns (paid: int)
    ensures paid == PaysTo(addr, o.addrs, o.sats)
  {
    paid := 0;
    for i := 0 to |o.addrs|
      invariant paid == PaysTo(addr, o.addrs[..i], o.sats)
    {
      assert o.addrs[..i + 1][..i] == o.addrs[..i];
      if o.addrs[i] == addr {
        paid := paid + o.sats;
      }
    }
    assert o.addrs[..|o.addrs|] == o.addrs;
  }

  function Sum(outs: seq<Output>): int {
    if outs == [] then 0 else Sum(outs[..|outs| - 1]) + outs[|outs| - 1].sats
  }

  predicate AllKnown(vin: seq<Input>) {
    forall i :: 0 <= i < |vin| ==> vin[i].prevOut.Some?
  }

  // Inputs minus outputs; unknown for a coinbase or when any origin is missing.
  function Fee(tx: Tx): Option<int> {
    if AllKnown(tx.vin) then Some(Sum(Spent(tx.vin)) - Sum(tx.vout)) else None
  }

  method TxFee(tx: Tx) returns (fee: Option<int>)
    ensures fee == Fee(tx)
  {
    var ins := SumInputs(tx.vin);
    if ins.None? {
      return None;
    }
    var outs := SumOutputs(tx.vout);
    return Some(ins.value - outs);
  }

  method SumInputs(vin: seq<Input>) returns (ins: Option<int>)
    ensures ins == if AllKnown(vin) then Some(Sum(Spent(vin))) else None
  {
    var sum := 0;
    for i := 0 to |vin|
      invariant forall j :: 0 <= j < i ==> vin[j].prevOut.Some?
      invariant sum == SpentSum(vin, i)
    {
      if vin[i].prevOut.None? {
        return None;
      }
      sum := sum + vin[i].prevOut.value.sats;
    }
    SpentSumAll(vin);
    return Some(sum);
  }

  // The value of the first `n` inputs, those known.
  function SpentSum(vin: seq<Input>, n: nat): int
    requires n <= |vin|
  {
    if n == 0 then 0
    else SpentSum(vin, n - 1) + if vin[n - 1].prevOut.Some? then vin[n - 1].prevOut.value.sats else 0
  }

  lemma {:induction false} SpentSumIs(vin: seq<Input>, n: nat)
    requires n <= |vin|
    ensures SpentSum(vin, n) == Sum(Spent(vin[..n]))
  {
    if n > 0 {
      var i := n - 1;
      SpentSumIs(vin, i);
      SpentNext(vin, i);
      if vin[i].prevOut.Some? {
        SumSnoc(Spent(vin[..i]), vin[i].prevOut.value);
      } else {
        assert Spent(vin[..i]) + [] == Spent(vin[..i]);
      }
    }
  }

  lemma SpentSumAll(vin: seq<Input>)
    ensures SpentSum(vin, |vin|) == Sum(Spent(vin))
  {
    SpentSumIs(vin, |vin|);
    assert vin[..|vin|] == vin;
  }

  method SumOutputs(vout: seq<Output>) returns (outs: int)
    ensures outs == Sum(vout)
  {
    outs := 0;
    for i := 0 to |vout|
      invariant outs == Sum(vout[..i])
    {
      outs := outs + vout[i].sats;
      SumSnoc(vout[..i], vout[i]);
      assert vout[..i + 1] == vout[..i] + [vout[i]];
    }
    assert vout[..|vout|] == vout;
  }

  // ---------- activity rows ----------

  datatype Direction = In | Out | Self

  datatype Activity = Activity(txid: string, direction: Direction, amount: int)

  function ActivityOf(addr: Addr, tx: Tx): Activity {
    ActivityFrom(tx.txid, Received(addr, tx.vout), Received(addr, Spent(tx.vin)), Fee(tx))
  }

  function ActivityFrom(txid: string, recv: int, sent: int, fee: Option<int>): Activity {
    if sent == 0 then Activity(txid, In, recv)
    else if recv == 0 then Activity(txid, Out, sent)
    else if fee.Some? && sent - recv <= fee.value then Activity(txid, Self, sent - recv)
    else Activity(txid, Out, sent - recv)
  }

  lemma SignedFrom(txid: string, recv: int, sent: int, fee: Option<int>)
    ensures Signed(ActivityFrom(txid, recv, sent, fee)) == recv - sent
  {
  }

  method ActivityFor(addr: Addr, tx: Tx) returns (a: Activity)
    ensures a == ActivityOf(addr, tx)
  {
    var recv, sent := AddressDelta(addr, tx);
    a := RowFor(tx, recv, sent);
  }

  // The case split on what the address received and spent.
  method RowFor(tx: Tx, recv: int, sent: int) returns (a: Activity)
    ensures a == ActivityFrom(tx.txid, recv, sent, Fee(tx))
  {
    if sent == 0 {
      return Activity(tx.txid, In, recv);
    }
    if recv == 0 {
      return Activity(tx.txid, Out, sent);
    }
    var net := sent - recv;
    var fee := TxFee(tx);
    if fee.Some? && net <= fee.value {
      return Activity(tx.txid, Self, net);
    }
    return Activity(tx.txid, Out, net);
  }

  // The direction carries the sign.
  function Signed(a: Activity): int {
    if a.direction == In then a.amount else -a.amount
  }

  // What the rest of the transaction's outputs get, and what the rest of its inputs put in.
  function OthersGet(addr: Addr, tx: Tx): int {
    Sum(tx.vout) - Received(addr, tx.vout)
  }

  function OthersPut(addr: Addr, tx: Tx): int {
    Sum(Spent(tx.vin)) - Received(addr, Spent(tx.vin))
  }

  // A row is incoming if and only if the address put nothing in, and to oneself if and only if it put in and got
  // back, every origin is known, and nobody else ends up with more.
  lemma DirectionIs(addr: Addr, tx: Tx)
    ensures var (a, recv, sent) := (ActivityOf(addr, tx), Received(addr, tx.vout), Received(addr, Spent(tx.vin)));
            && a.txid == tx.txid
            && (a.direction == In <==> sent == 0)
            && (a.direction == Self <==>
                  sent != 0 && recv != 0 && AllKnown(tx.vin) && OthersGet(addr, tx) <= OthersPut(addr, tx))
  {
    DirectionFrom(tx.txid, Received(addr, tx.vout), Received(addr, Spent(tx.vin)), Fee(tx));
  }

  lemma DirectionFrom(txid: string, recv: int, sent: int, fee: Option<int>)
    ensures var a := ActivityFrom(txid, recv, sent, fee);
            && a.txid == txid
            && (a.direction == In <==> sent == 0)
            && (a.direction == Self <==> sent != 0 && recv != 0 && fee.Some? && sent - recv <= fee.value)
  {
  }

  // An output pays an address its value once for each time it lists it.
  lemma {:induction false} PaysPerListing(addr: Addr, addrs: seq<Addr>, sats: int)
    ensures PaysTo(addr, addrs, sats) == sats * multiset(addrs)[addr]
  {
    if addrs != [] {
      var before := addrs[..|addrs| - 1];
      PaysPerListing(addr, before, sats);
      assert addrs == before + [addrs[|addrs| - 1]];
      Distributes(sats, multiset(before)[addr], if addrs[|addrs| - 1] == addr then 1 else 0);
    }
  }

  lemma Distributes(x: int, a: int, b: int)
    ensures x * (a + b) == x * a + x * b
  {
  }

  // A row's signed amount is the transaction's net effect on the address, whichever case it falls in.
  lemma SignedIsNet(addr: Addr, tx: Tx)
    ensures Signed(ActivityOf(addr, tx)) == Received(addr, tx.vout) - Received(addr, Spent(tx.vin))
  {
    SignedFrom(tx.txid, Received(addr, tx.vout), Received(addr, Spent(tx.vin)), Fee(tx));
  }

  lemma {:induction false} PaysNonnegative(addr: Addr, addrs: seq<Addr>, sats: int)
    requires sats >= 0
    ensures PaysTo(addr, addrs, sats) >= 0
  {
    if addrs != [] {
      PaysNonnegative(addr, addrs[..|addrs| - 1], sats);
    }
  }

  lemma {:induction false} ReceivedNonnegative(addr: Addr, outs: seq<Output>)
    requires forall o :: o in outs ==> o.sats >= 0
    ensures Received(addr, outs) >= 0
  {
    if outs != [] {
      ReceivedNonnegative(addr, outs[..|outs| - 1]);
      PaysNonnegative(addr, outs[|outs| - 1].addrs, outs[|outs| - 1].sats);
    }
  }

  lemma {:induction false} SpentFrom(vin: seq<Input>)
    ensures forall o :: o in Spent(vin) ==> Input(Some(o)) in vin
  {
    if vin != [] {
      SpentFrom(vin[..|vin| - 1]);
      assert vin == vin[..|vin| - 1] + [vin[|vin| - 1]];
    }
  }

  // The documented "always positive" fails exactly when the address got more than it spent in a
  // transaction it spent in (or when the transaction did not touch it or evened out).
  lemma AmountSign(addr: Addr, tx: Tx)
    requires forall o :: o in tx.vout || Input(Some(o)) in tx.vin ==> o.sats >= 0
    ensures var (recv, sent) := (Received(addr, tx.vout), Received(addr, Spent(tx.vin)));
            var amount := ActivityOf(addr, tx).amount;
            && (amount < 0 <==> 0 < sent < recv)
            && (amount == 0 <==> sent == recv)
  {
    SpentFrom(tx.vin);
    ReceivedNonnegative(addr, tx.vout);
    ReceivedNonnegative(addr, Spent(tx.vin));
  }

  lemma AmountCanBeNegative()
    ensures var (mine, theirs) := (Output(["a"], 1), Output(["b"], 9));
            ActivityOf("a", Tx("t", [Input(Some(mine)), Input(Some(theirs))], [Output(["a"], 10)])).amount == -9
  {
    var (mine, theirs, paid) := (Output(["a"], 1), Output(["b"], 9), Output(["a"], 10));
    var vin := [Input(Some(mine)), Input(Some(theirs))];
    assert ["a"][..0] == [] && ["b"][..0] == [];
    SpentOfTwo(mine, theirs);
    assert [] + [paid] == [paid];
    ReceivedSnoc("a", [], paid);
    assert Received("a", [paid]) == 10;
    assert [] + [mine] == [mine];
    ReceivedSnoc("a", [], mine);
    ReceivedSnoc("a", [mine], theirs);
    assert Received("a", Spent(vin)) == 1;
  }

  lemma SpentOfTwo(a: Output, b: Output)
    ensures Spent([Input(Some(a)), Input(Some(b))]) == [a] + [b]
  {
    var vin := [Input(Some(a)), Input(Some(b))];
    SpentNext(vin, 0);
    SpentNext(vin, 1);
    assert vin[..2] == vin && vin[..0] == [];
  }

  // ---------- the whole history ----------

  datatype Totals = Totals(received: int, sent: int, txCount: nat, approximate: bool)

  function AllReceived(addr: Addr, h: seq<Tx>): int {
    if h == [] then 0 else AllReceived(addr, h[..|h| - 1]) + Received(addr, h[|h| - 1].vout)
  }

  function AllSent(addr: Addr, h: seq<Tx>): int {
    if h == [] then 0 else AllSent(addr, h[..|h| - 1]) + Received(addr, Spent(h[|h| - 1].vin))
  }

  // One page of the history, as the node serves it.
  function Page(h: seq<Tx>, skip: nat, count: nat): seq<Tx> {
    h[Min(skip, |h|)..Min(skip + count, |h|)]
  }

  // The totals of the newest `n` transactions.
  ghost predicate Scanned(addr: Addr, h: seq<Tx>, n: nat, received: int, sent: int) {
    n <= |h| && received == AllReceived(addr, h[..n]) && sent == AllSent(addr, h[..n])
  }

  // The totals a scan capped at `maxScan` must come to.
  ghost predicate IsTotals(addr: Addr, h: seq<Tx>, maxScan: nat, t: Totals) {
    && t.txCount == Min(|h|, maxScan)
    && Scanned(addr, h, t.txCount, t.received, t.sent)
    && (t.approximate <==> |h| >= maxScan)
  }

  // The chunked scan. `down` holds the offsets whose page the node fails to serve.
  method AddressTotals(addr: Addr, h: seq<Tx>, maxScan: nat, down: set<nat>) returns (r: Option<Totals>)
    ensures r.Some? ==> IsTotals(addr, h, maxScan, r.value)
    ensures r.None? <==> PageFails(h, maxScan, down)
  {
    var received, sent, txCount := 0, 0, 0;
    var skip := 0;
    while skip < maxScan
      invariant txCount == Min(skip, maxScan) && Scanned(addr, h, txCount, received, sent)
      invariant NoneDown(h, maxScan, down, skip)
      decreases maxScan - skip
    {
      var count := Min(SCAN_CHUNK, maxScan - skip);
      NextDown(h, maxScan, down, skip);
      if skip in down {
        return None;
      }
      var got;
      received, sent, got := ScanPage(addr, h, skip, count, received, sent);
      txCount := txCount + got;
      if got < count {
        AreTotals(addr, h, maxScan, txCount, received, sent);
        return Some(Totals(received, sent, txCount, false));
      }
      skip := skip + SCAN_CHUNK;
    }
    NoneFails(h, maxScan, down, skip);
    AreTotals(addr, h, maxScan, txCount, received, sent);
    return Some(Totals(received, sent, txCount, true));
  }

  lemma AreTotals(addr: Addr, h: seq<Tx>, maxScan: nat, n: nat, received: int, sent: int)
    requires Scanned(addr, h, n, received, sent) && n == Min(|h|, maxScan)
    ensures IsTotals(addr, h, maxScan, Totals(received, sent, n, |h| >= maxScan))
  {
  }

  // One page of the scan.
  method ScanPage(addr: Addr, h: seq<Tx>, skip: nat, count: nat, received: int, sent: int)
    returns (received': int, sent': int, got: nat)
    requires Scanned(addr, h, skip, received, sent)
    ensures got == Min(count, |h| - skip) && Scanned(addr, h, skip + got, received', sent')
  {
    var page := Page(h, skip, count);
    var recv, spent := PageDelta(addr, page);
    received', sent', got := received + recv, sent + spent, |page|;
    ScanNext(addr, h, skip, count, received, sent, received', sent', got);
  }

  // The offsets the scan asks for: one a chunk, up to the cap or the page that ends the history.
  predicate Asked(h: seq<Tx>, maxScan: nat, k: nat) {
    k % SCAN_CHUNK == 0 && k < maxScan && k <= |h|
  }

  // Nothing asked for before `skip` has failed.
  ghost predicate NoneDown(h: seq<Tx>, maxScan: nat, down: set<nat>, skip: nat) {
    skip % SCAN_CHUNK == 0 && forall k :: k in down && k < skip ==> !Asked(h, maxScan, k)
  }

  lemma NextDown(h: seq<Tx>, maxScan: nat, down: set<nat>, skip: nat)
    requires NoneDown(h, maxScan, down, skip) && skip < maxScan && skip <= |h|
    ensures skip in down ==> PageFails(h, maxScan, down)
    ensures skip !in down ==> NoneDown(h, maxScan, down, skip + SCAN_CHUNK)
    ensures skip !in down && |h| < skip + SCAN_CHUNK ==> !PageFails(h, maxScan, down)
  {
    if skip in down {
      assert Asked(h, maxScan, skip);
    }
  }

  lemma NoneFails(h: seq<Tx>, maxScan: nat, down: set<nat>, skip: nat)
    requires NoneDown(h, maxScan, down, skip) && maxScan <= skip
    ensures !PageFails(h, maxScan, down)
  {
  }

  // The node fails to serve a page the scan asks for.
  ghost predicate PageFails(h: seq<Tx>, maxScan: nat, down: set<nat>) {
    exists k :: k in down && Asked(h, maxScan, k)
  }

  lemma ScanNext(addr: Addr, h: seq<Tx>, n: nat, count: nat, received: int, sent: int,
                 received': int, sent': int, got: nat)
    requires Scanned(addr, h, n, received, sent) && got == |Page(h, n, count)|
    requires received' == received + AllReceived(addr, Page(h, n, count))
    requires sent' == sent + AllSent(addr, Page(h, n, count))
    ensures got == Min(count, |h| - n) && Scanned(addr, h, n + got, received', sent')
  {
    PageNext(h, n, count);
    AllOf(addr, h[..n], Page(h, n, count), h[..n + got]);
  }

  lemma AllOf(addr: Addr, a: seq<Tx>, b: seq<Tx>, whole: seq<Tx>)
    requires whole == a + b
    ensures AllReceived(addr, whole) == AllReceived(addr, a) + AllReceived(addr, b)
    ensures AllSent(addr, whole) == AllSent(addr, a) + AllSent(addr, b)
  {
    AllConcat(addr, a, b);
  }

  // A page continues the history where the previous ones ended.
  lemma PageNext(h: seq<Tx>, n: nat, count: nat)
    requires n <= |h|
    ensures |Page(h, n, count)| == Min(count, |h| - n)
    ensures h[..n + |Page(h, n, count)|] == h[..n] + Page(h, n, count)
  {
  }

  method PageDelta(addr: Addr, page: seq<Tx>) returns (received: int, sent: int)
    ensures received == AllReceived(addr, page) && sent == AllSent(addr, page)
  {
    received, sent := 0, 0;
    for i := 0 to |page|
      invariant received == AllReceived(addr, page[..i]) && sent == AllSent(addr, page[..i])
    {
      var recv, s := AddressDelta(addr, page[i]);
      received, sent := received + recv, sent + s;
      assert page[..i + 1][..i] == page[..i];
    }
    assert page[..|page|] == page;
  }

  lemma {:induction false} AllConcat(addr: Addr, a: seq<Tx>, b: seq<Tx>)
    ensures AllReceived(addr, a + b) == AllReceived(addr, a) + AllReceived(addr, b)
    ensures AllSent(addr, a + b) == AllSent(addr, a) + AllSent(addr, b)
  {
    if b == [] {
      assert a + b == a;
    } else {
      var before, tx := b[..|b| - 1], b[|b| - 1];
      AllConcat(addr, a, before);
      assert (a + b)[..|a + b| - 1] == a + before && (a + b)[|a + b| - 1] == tx;
    }
  }

  // The flag is meant to say that more history exists; it is also up when the scan covered everything and
  // the history ends exactly at the cap.
  lemma FlagUpWithNothingMissed(addr: Addr, h: seq<Tx>, maxScan: nat, t: Totals)
    requires IsTotals(addr, h, maxScan, t)
    ensures t.approximate && t.txCount == |h| <==> |h| == maxScan
    ensures t.txCount == |h| ==> t.received == AllReceived(addr, h) && t.sent == AllSent(addr, h)
  {
    assert h[..|h|] == h;
  }

  function Rows(addr: Addr, h: seq<Tx>): seq<Activity> {
    seq(|h|, i requires 0 <= i < |h| => ActivityOf(addr, h[i]))
  }

  function SignedSum(rows: seq<Activity>): int {
    if rows == [] then 0 else SignedSum(rows[..|rows| - 1]) + Signed(rows[|rows| - 1])
  }

  lemma RowsNext(addr: Addr, h: seq<Tx>, i: nat)
    requires i < |h|
    ensures Rows(addr, h[..i + 1]) == Rows(addr, h[..i]) + [ActivityOf(addr, h[i])]
  {
  }

  lemma SignedSumNext(rows: seq<Activity>, a: Activity)
    ensures SignedSum(rows + [a]) == SignedSum(rows) + Signed(a)
  {
    assert (rows + [a])[..|rows|] == rows;
  }

  lemma {:induction false} RowsNet(addr: Addr, h: seq<Tx>)
    ensures SignedSum(Rows(addr, h)) == AllReceived(addr, h) - AllSent(addr, h)
  {
    if h != [] {
      var i := |h| - 1;
      RowsNet(addr, h[..i]);
      SignedIsNet(addr, h[i]);
      RowsNext(addr, h, i);
      assert h[..i + 1] == h;
      SignedSumNext(Rows(addr, h[..i]), ActivityOf(addr, h[i]));
    }
  }

  // When the totals are not approximate, the rows add up to the balance.
  lemma RowsAddUpToTheBalance(addr: Addr, h: seq<Tx>, maxScan: nat, t: Totals)
    requires IsTotals(addr, h, maxScan, t) && !t.approximate
    ensures SignedSum(Rows(addr, h)) == t.received - t.sent
  {
    RowsNet(addr, h);
    FlagUpWithNothingMissed(addr, h, maxScan, t);
  }

  // ---------- paging ----------

  // The answer to one request: the totals of the whole history, and one page of it as rows.
  datatype Summary = Summary(totals: Totals, balance: int, page: Paging.View<Activity>)

  // The page of a summary: a page of the history, each transaction made a row.
  function AddressPage(addr: Addr, h: seq<Tx>, t: Totals, limit: nat, offset: nat): Paging.View<Activity> {
    var rows := Rows(addr, Page(h, offset, limit));
    Paging.View(addr, rows, if t.approximate then |rows| == limit else offset + |rows| < t.txCount)
  }

  // `down` holds the offsets the scan cannot read; `pageDown` tells whether reading the page itself fails.
  method Address(addr: Addr, h: seq<Tx>, maxScan: nat, down: set<nat>, pageDown: bool, offset: nat, limit: nat)
    returns (r: Option<Summary>)
    ensures r.None? <==> pageDown || PageFails(h, maxScan, down)
    ensures r.Some? ==>
              var t := r.value.totals;
              && IsTotals(addr, h, maxScan, t) && r.value.balance == t.received - t.sent
              && r.value.page == AddressPage(addr, h, t, limit, offset)
  {
    var totals := AddressTotals(addr, h, maxScan, down);
    if totals.None? || pageDown {
      return None;
    }
    var t, page := totals.value, Page(h, offset, limit);
    var rows := [];
    for i := 0 to |page|
      invariant rows == Rows(addr, page[..i])
    {
      var row := ActivityFor(addr, page[i]);
      RowsNext(addr, page, i);
      rows := rows + [row];
    }
    assert page[..|page|] == page;
    var hasMore := if t.approximate then |rows| == limit else offset + |rows| < t.txCount;
    return Some(Summary(t, t.received - t.sent, Paging.View(addr, rows, hasMore)));
  }

  // The rows of a page of the history are a page of the rows of the history.
  lemma PageOfRows(addr: Addr, h: seq<Tx>, offset: nat, limit: nat)
    ensures Rows(addr, Page(h, offset, limit)) == Paging.Slice(Rows(addr, h), offset, limit)
  {
  }

  function Server(addr: Addr, h: seq<Tx>, t: Totals, limit: nat): Paging.Server<Activity> {
    (offset: nat) => AddressPage(addr, h, t, limit, offset)
  }

  function RowList(addr: Addr, h: seq<Tx>, t: Totals, limit: nat): Paging.Listing<Activity> {
    Paging.Listing(addr, Rows(addr, h), t.approximate, t.txCount, limit)
  }

  // The server, which makes rows of pages, serves the list of all rows page by page, and what it says of
  // the list's size is right whenever it claims to know it.
  lemma ServesRows(addr: Addr, h: seq<Tx>, maxScan: nat, t: Totals, limit: nat)
    requires IsTotals(addr, h, maxScan, t) && limit >= 1
    ensures Paging.Serves(Server(addr, h, t, limit), RowList(addr, h, t, limit)) && RowList(addr, h, t, limit).Ok()
  {
    forall offset ensures Server(addr, h, t, limit)(offset) == RowList(addr, h, t, limit).Answer(offset) {
      PageOfRows(addr, h, offset, limit);
    }
  }

  // Loading the server's pages until the button is gone shows every row of the history once, in order.
  lemma LoadAllShowsHistory(addr: Addr, h: seq<Tx>, maxScan: nat, t: Totals, limit: nat)
    requires IsTotals(addr, h, maxScan, t) && limit >= 1
    ensures var (server, list) := (Server(addr, h, t, limit), RowList(addr, h, t, limit));
            && Paging.Serves(server, list) && list.Ok()
            && Paging.LoadAll(server, list) == Paging.View(addr, Rows(addr, h), false)
  {
    ServesRows(addr, h, maxScan, t, limit);
    Paging.LoadAllShowsEverything(Server(addr, h, t, limit), RowList(addr, h, t, limit));
  }

  // The sums are sums: of what one output is worth, and of what one transaction pays and spends.
  lemma OneOfEach(addr: Addr, o: Output, tx: Tx)
    ensures Sum([o]) == o.sats && Received(addr, [o]) == PaysTo(addr, o.addrs, o.sats)
    ensures AllReceived(addr, [tx]) == Received(addr, tx.vout) && AllSent(addr, [tx]) == Received(addr, Spent(tx.vin))
  {
    assert [o][..0] == [] && [tx][..0] == [];
  }
}
