/** Where a transaction stands in the queue: the server's answer from the snapshot
    (internal/explorer/tx.go:502-550), the browser's estimate from the histogram
    (web/src/components/MempoolQueue.tsx:68-85), and how the two compare. */
module Position {
  import opened Options
  import opened Volume
  import opened Queue

  datatype Pending = Pending(txsAhead: nat, vbytesAhead: nat, etaBlocks: nat, fraction: real)

  // What the derivation must come to: everything paying strictly more is ahead.
  ghost function PendingAt(s: multiset<Entry>, rate: real): Pending {
    var ahead := Vbytes(s, Above(rate));
    Pending(Count(s, Above(rate)), ahead, EtaBlocks(s, rate), Fraction(ahead, Vbytes(s, All)))
  }

  function Fraction(part: nat, whole: nat): real {
    if whole > 0 then part as real / whole as real else 0.0
  }

  ghost function EtaBlocks(s: multiset<Entry>, rate: real): nat {
    Vbytes(s, Above(rate)) / BLOCK + 1
  }

  // The rate a transaction is placed by: its own entry's, else the one computed from its inputs.
  function RateOf(m: Snapshot, txid: Txid, own: Option<real>): real {
    if txid in m then m[txid].rate else if own.Some? then own.value else 0.0
  }

  // `first` and `second` are what the shared mempool answers when asked and when asked again: a transaction
  // missing from the first snapshot may have come in after it, so it is invalidated and read once more.
  method DerivePending(first: Option<Snapshot>, second: Option<Snapshot>, txid: Txid, own: Option<real>)
    returns (p: Option<Pending>, invalidated: bool)
    ensures invalidated <==> first.Some? && txid !in first.value
    ensures p.None? <==> first.None? || (invalidated && second.None?)
    ensures p.Some? ==>
              var m := if invalidated then second.value else first.value;
              p.value == PendingAt(Entries(m), RateOf(m, txid, own))
  {
    if first.None? {
      return None, false;
    }
    var m := first.value;
    invalidated := txid !in m;
    if invalidated {
      if second.None? {
        return None, true;
      }
      m := second.value;
    }
    var at := PlaceIn(m, txid, own);
    p := Some(at);
  }

  // The walk skips the transaction's own entry; it would not have counted as ahead of itself anyway.
  method PlaceIn(m: Snapshot, txid: Txid, own: Option<real>) returns (p: Pending)
    ensures p == PendingAt(Entries(m), RateOf(m, txid, own))
  {
    var myRate := RateOf(m, txid, own);
    var txsAhead: nat, vbytesAhead: nat, total: nat := 0, 0, 0;
    var todo := m.Keys;
    assert m - todo == map[];
    while todo != {}
      invariant todo <= m.Keys
      invariant Tallied(Entries(m - todo), myRate, total, txsAhead, vbytesAhead)
      decreases todo
    {
      var t :| t in todo;
      var e := m[t];
      TallyStep(m, todo, t, myRate, total, txsAhead, vbytesAhead);
      todo := todo - {t};
      total := total + e.vsize;
      if t == txid {
        continue;
      }
      if e.rate > myRate {
        txsAhead := txsAhead + 1;
        vbytesAhead := vbytesAhead + e.vsize;
      }
    }
    assert m - todo == m;
    p := Pending(txsAhead, vbytesAhead, vbytesAhead / BLOCK + 1,
                 if total > 0 then vbytesAhead as real / total as real else 0.0);
  }

  ghost predicate Tallied(s: multiset<Entry>, rate: real, total: nat, txs: nat, vbytes: nat) {
    total == Vbytes(s, All) && txs == Count(s, Above(rate)) && vbytes == Vbytes(s, Above(rate))
  }

  lemma TallyStep(m: Snapshot, todo: set<Txid>, t: Txid, rate: real, total: nat, txs: nat, vbytes: nat)
    requires t in todo && todo <= m.Keys
    requires Tallied(Entries(m - todo), rate, total, txs, vbytes)
    ensures var (n, v) := if m[t].rate > rate then (1, m[t].vsize) else (0, 0);
            Tallied(Entries(m - (todo - {t})), rate, total + m[t].vsize, txs + n, vbytes + v)
  {
    WalkSum(m, todo, t, All, Bytes);
    WalkSum(m, todo, t, Above(rate), Bytes);
    WalkSum(m, todo, t, Above(rate), Txs);
  }

  // ---------- the histogram is a function of the entries ----------

  lemma NextBlockRateUnique(s: multiset<Entry>, a: real, b: real)
    requires IsNextBlockRate(s, a) && IsNextBlockRate(s, b)
    ensures a == b
  {
    if s != multiset{} && Vbytes(s, All) >= BLOCK {
      if a < b {
        Wider(s, AtLeast(b), Above(a), Bytes);
      } else if b < a {
        Wider(s, AtLeast(a), Above(b), Bytes);
      }
    }
  }

  // Map order and sort ties cannot show: two histograms of the same entries are the same histogram.
  lemma QueueDetermined(p: Queue, q: Queue, s: multiset<Entry>)
    requires IsQueue(p, s) && IsQueue(q, s)
    ensures p == q
  {
    NextBlockRateUnique(s, p.nextBlockRate, q.nextBlockRate);
    forall b: BandNo ensures p.bands[b] == q.bands[b] {
    }
    assert p.bands == q.bands;
  }

  // The bands share out the whole mempool.
  lemma BandsTotal(q: Queue, s: multiset<Entry>)
    requires IsQueue(q, s)
    ensures q.bands[0].vbytes + q.bands[1].vbytes + q.bands[2].vbytes + q.bands[3].vbytes + q.bands[4].vbytes
         == q.totalVbytes
  {
    BandsSum(s, Bytes);
  }

  // ---------- the next-block rate says who makes the next block ----------

  lemma NextBlock(q: Queue, s: multiset<Entry>, rate: real)
    requires IsQueue(q, s)
    ensures q.totalVbytes >= BLOCK ==> (EtaBlocks(s, rate) == 1 <==> rate >= q.nextBlockRate)
    ensures q.totalVbytes < BLOCK ==> EtaBlocks(s, rate) == 1
  {
    var r := q.nextBlockRate;
    if q.totalVbytes >= BLOCK {
      if rate >= r {
        Wider(s, Above(rate), Above(r), Bytes);
      } else {
        Wider(s, AtLeast(r), Above(rate), Bytes);
      }
    } else {
      Wider(s, Above(rate), All, Bytes);
    }
  }

  // Paying more never means waiting longer.
  lemma EtaMonotone(s: multiset<Entry>, a: real, b: real)
    requires a <= b
    ensures EtaBlocks(s, b) <= EtaBlocks(s, a)
  {
    Wider(s, Above(b), Above(a), Bytes);
  }

  // ---------- the browser's estimate ----------

  method BandIndex(q: Queue, rate: real) returns (i: nat)
    requires |q.bands| == BANDS && forall b: BandNo :: q.bands[b].min == BandMin(b)
    ensures i == BandOf(rate)
  {
    i := 0;
    while i < |q.bands| - 1
      invariant i <= BandOf(rate)
    {
      if rate >= q.bands[i].min {
        return;
      }
      i := i + 1;
    }
  }

  ghost function BandEta(q: Queue, rate: real): nat
    requires |q.bands| == BANDS
    requires forall b: BandNo :: q.bands[b].vbytes >= 0
    requires q.cutoffFraction < 1.0 ==> Capacity(q) > 0.0
  {
    if q.cutoffFraction >= 1.0 then 1 else (BandsAhead(q, BandOf(rate)) as real / Capacity(q)).Floor + 1
  }

  // The vbytes of one block, as the histogram encodes them.
  function Capacity(q: Queue): real {
    q.totalVbytes as real * q.cutoffFraction
  }

  ghost function BandsAhead(q: Queue, b: nat): (n: nat)
    requires b <= |q.bands| == BANDS
    requires forall b: BandNo :: q.bands[b].vbytes >= 0
  {
    if b == 0 then 0 else BandsAhead(q, b - 1) + q.bands[b - 1].vbytes
  }

  method BandEtaBlocks(q: Queue, rate: real, ghost s: multiset<Entry>) returns (blocks: nat)
    requires IsQueue(q, s)
    ensures BlockVbytes(q, s) && blocks == BandEta(q, rate)
  {
    CutoffIsABlock(q, s);
    if q.cutoffFraction >= 1.0 {
      return 1;
    }
    var band := BandIndex(q, rate);
    var ahead := 0;
    for i := 0 to band
      invariant ahead == BandsAhead(q, i)
    {
      ahead := ahead + q.bands[i].vbytes;
    }
    var blockVbytes := Capacity(q);
    blocks := (ahead as real / blockVbytes).Floor + 1;
  }

  // The capacity the server encodes in the cutoff fraction decodes to one block.
  ghost predicate BlockVbytes(q: Queue, s: multiset<Entry>) {
    && |q.bands| == BANDS
    && (forall b: BandNo :: q.bands[b].vbytes >= 0)
    && (q.cutoffFraction < 1.0 <==> q.totalVbytes > BLOCK)
    && (q.cutoffFraction < 1.0 ==> Capacity(q) == BLOCK as real)
  }

  lemma CutoffIsABlock(q: Queue, s: multiset<Entry>)
    requires IsQueue(q, s)
    ensures BlockVbytes(q, s)
  {
    if q.totalVbytes > BLOCK {
      var t, b := q.totalVbytes as real, BLOCK as real;
      assert b / t < 1.0;
      assert t * (b / t) == b;
    }
  }

  lemma {:induction false} AheadIsAtLeast(q: Queue, s: multiset<Entry>, b: BandNo)
    requires IsQueue(q, s) && BlockVbytes(q, s) && b > 0
    ensures BandsAhead(q, b) == Vbytes(s, AtLeast(BandMin(b - 1)))
  {
    if b > 1 {
      AheadIsAtLeast(q, s, b - 1);
    }
    NextBand(s, b - 1);
  }

  lemma {:induction false} NextBand(s: multiset<Entry>, b: BandNo)
    requires b < BANDS - 1
    ensures Vbytes(s, AtLeast(BandMin(b)))
         == Vbytes(s, Band(b)) + if b == 0 then 0 else Vbytes(s, AtLeast(BandMin(b - 1)))
    decreases |s|
  {
    if s != multiset{} {
      var e := Pick(s);
      NextBand(s - multiset{e}, b);
      TakeOut(s, e, AtLeast(BandMin(b)), Bytes);
      TakeOut(s, e, Band(b), Bytes);
      if b > 0 {
        TakeOut(s, e, AtLeast(BandMin(b - 1)), Bytes);
      }
    }
  }

  // Nobody in the rate's own band pays strictly more.
  ghost predicate TopOfBand(s: multiset<Entry>, rate: real) {
    forall e :: e in s && e.rate > rate ==> BandOf(e.rate) != BandOf(rate)
  }

  // The browser's estimate never exceeds the server's for the same snapshot, and equals it whenever the
  // mempool exceeds a block and the rate tops its band.
  lemma BandEtaBelowServer(q: Queue, s: multiset<Entry>, rate: real)
    requires IsQueue(q, s)
    ensures BlockVbytes(q, s) && BandEta(q, rate) <= EtaBlocks(s, rate)
    ensures q.totalVbytes > BLOCK && TopOfBand(s, rate) ==> BandEta(q, rate) == EtaBlocks(s, rate)
  {
    CutoffIsABlock(q, s);
    var b := BandOf(rate);
    if q.totalVbytes > BLOCK {
      if b > 0 {
        AheadIsAtLeast(q, s, b);
        Wider(s, AtLeast(BandMin(b - 1)), Above(rate), Bytes);
        if TopOfBand(s, rate) {
          Wider(s, Above(rate), AtLeast(BandMin(b - 1)), Bytes);
        }
      } else if TopOfBand(s, rate) {
        assert forall e :: e in s ==> !In(e, Above(rate));
        NoneAbove(s, rate);
      }
      WholeBlocks(BandsAhead(q, b));
    }
  }

  lemma {:induction false} NoneAbove(s: multiset<Entry>, rate: real)
    requires forall e :: e in s ==> e.rate <= rate
    ensures Vbytes(s, Above(rate)) == 0
    decreases |s|
  {
    if s != multiset{} {
      var e := Pick(s);
      NoneAbove(s - multiset{e}, rate);
      TakeOut(s, e, Above(rate), Bytes);
    }
  }

  lemma WholeBlocks(n: nat)
    ensures (n as real / BLOCK as real).Floor == n / BLOCK
  {
    var k := n / BLOCK;
    assert k * BLOCK <= n < (k + 1) * BLOCK;
    assert k as real <= n as real / BLOCK as real < (k + 1) as real;
  }

  // ---------- what the answers mean ----------

  // The bands tile the rates: 15, 10, 6, 4 and 1 sat/vB up, each reaching to the next, the front one open above.
  lemma BandsTile(q: Queue, s: multiset<Entry>)
    requires IsQueue(q, s)
    ensures |q.bands| == 5 && q.bands[0].max == 0.0
    ensures forall b :: 0 <= b < 4 ==> q.bands[b + 1].max == q.bands[b].min
    ensures q.bands[0].min == 15.0 && q.bands[1].min == 10.0 && q.bands[2].min == 6.0
    ensures q.bands[3].min == 4.0 && q.bands[4].min == 1.0
  {
    assert BANDS == 5;
    var b0: BandNo, b1: BandNo, b2: BandNo, b3: BandNo, b4: BandNo := 0, 1, 2, 3, 4;
    assert q.bands[b0].min == 15.0 && q.bands[b1].min == 10.0 && q.bands[b2].min == 6.0 && q.bands[b3].min == 4.0;
    assert q.bands[b4].min == 1.0 && q.bands[b4].max == 4.0;
  }

  // A rate is counted in the band between whose printed ends it lies; below 1 it is in the last one.
  lemma BandEnds(q: Queue, s: multiset<Entry>, rate: real)
    requires IsQueue(q, s)
    ensures var band := q.bands[BandOf(rate)];
            (rate >= 1.0 ==> band.min <= rate) && (band.max == 0.0 || rate < band.max)
  {
  }

  // One block is a million vbytes, and the wait is the whole blocks ahead and the one after.
  lemma EtaInBlocks(s: multiset<Entry>, rate: real)
    ensures 1_000_000 * (EtaBlocks(s, rate) - 1) <= Vbytes(s, Above(rate)) < 1_000_000 * EtaBlocks(s, rate)
  {
  }

  // The fraction is the place in the queue on a scale from front to back.
  lemma FractionIs(s: multiset<Entry>, rate: real)
    ensures var (p, all) := (PendingAt(s, rate), Vbytes(s, All));
            0.0 <= p.fraction <= 1.0 && IsShare(p.fraction, p.vbytesAhead, all)
  {
    var (ahead, all) := (Vbytes(s, Above(rate)), Vbytes(s, All));
    Wider(s, Above(rate), All, Bytes);
    Quotient(ahead, all);
    assert PendingAt(s, rate).fraction == Fraction(ahead, all);
  }

  // The share of the whole that the part is; none of nothing.
  ghost predicate IsShare(share: real, part: nat, whole: nat) {
    share * whole as real == part as real && (whole == 0 ==> share == 0.0)
  }

  lemma Quotient(part: nat, whole: nat)
    requires part <= whole
    ensures 0.0 <= Fraction(part, whole) <= 1.0 && IsShare(Fraction(part, whole), part, whole)
  {
    if whole > 0 {
      var x, y := part as real, whole as real;
      assert x / y * y == x;
      assert 0.0 <= x / y <= 1.0;
    }
  }

  // A queued transaction is placed by its own entry among the others, whatever its caller computed; one that
  // is not in the snapshot by what its caller computed, and behind everything that pays at all without it.
  lemma PlacedBy(m: Snapshot, txid: Txid, own: Option<real>)
    ensures var p := PendingAt(Entries(m), RateOf(m, txid, own));
            && (txid in m ==>
                  var others := Entries(m - {txid});
                  && p.vbytesAhead == Vbytes(others, Above(m[txid].rate))
                  && p.txsAhead == Count(others, Above(m[txid].rate)))
            && (txid !in m && own.Some? ==>
                  && p.vbytesAhead == Vbytes(Entries(m), Above(own.value))
                  && p.txsAhead == Count(Entries(m), Above(own.value)))
            && (txid !in m && own.None? ==>
                  && p.vbytesAhead == Vbytes(Entries(m), Above(0.0))
                  && p.txsAhead == Count(Entries(m), Above(0.0)))
  {
    if txid in m {
      TakeOutKey(m, txid);
      PutIn(Entries(m - {txid}), m[txid], Above(m[txid].rate), Bytes);
      PutIn(Entries(m - {txid}), m[txid], Above(m[txid].rate), Txs);
    }
  }

  // The transactions ahead are some of those queued, and those not ahead pay no more.
  lemma AheadCounts(s: multiset<Entry>, rate: real)
    ensures PendingAt(s, rate).txsAhead + Count(s, AtMost(rate)) == |s|
    ensures PendingAt(s, rate).vbytesAhead + Vbytes(s, AtMost(rate)) == Vbytes(s, All)
  {
    CountAll(s);
    AheadOrNot(s, rate, Txs);
    AheadOrNot(s, rate, Bytes);
  }
}
