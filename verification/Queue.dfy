/** The mempool as a queue: histogram and next-block cutoff (internal/explorer/queue.go). Rates and
    fractions are reals. */
module Queue {
  import opened Volume

  datatype QueueBand = QueueBand(min: real, max: real, vbytes: int)

  datatype Queue = Queue(txCount: nat, totalVbytes: int, bands: seq<QueueBand>,
                         cutoffFraction: real, nextBlockRate: real)

  // An empty band; a maximum of 0 marks the open-ended front one.
  function NewBand(b: BandNo): QueueBand {
    QueueBand(BandMin(b), if b == 0 then 0.0 else BandMin(b - 1), 0)
  }

  // ---------- what the histogram means ----------

  // The lowest rate still inside the next block; the lowest rate there is when everything fits.
  ghost predicate IsNextBlockRate(s: multiset<Entry>, r: real) {
    if s == multiset{} then r == 1.0
    else
      && (exists e :: e in s && e.rate == r)
      && if Vbytes(s, All) >= BLOCK
         then Vbytes(s, AtLeast(r)) >= BLOCK > Vbytes(s, Above(r))
         else forall e :: e in s ==> e.rate >= r
  }

  ghost predicate IsQueue(q: Queue, s: multiset<Entry>) {
    && q.txCount == |s|
    && q.totalVbytes == Vbytes(s, All)
    && |q.bands| == BANDS
    && (forall b: BandNo ::
          q.bands[b] == NewBand(b).(vbytes := Vbytes(s, Band(b))))
    && q.cutoffFraction == (if q.totalVbytes <= BLOCK then 1.0 else BLOCK as real / q.totalVbytes as real)
    && IsNextBlockRate(s, q.nextBlockRate)
  }

  // ---------- sorting ----------

  predicate Before(a: Entry, b: Entry, desc: bool) {
    if desc then a.rate >= b.rate else a.rate <= b.rate
  }

  ghost predicate Sorted(s: seq<Entry>, desc: bool) {
    forall i, j :: 0 <= i < j < |s| ==> Before(s[i], s[j], desc)
  }

  function Inserted(s: seq<Entry>, e: Entry, desc: bool): seq<Entry> {
    if s == [] || Before(e, s[0], desc) then [e] + s
    else [s[0]] + Inserted(s[1..], e, desc)
  }

  lemma {:induction false} InsertedKeeps(s: seq<Entry>, e: Entry, desc: bool)
    ensures multiset(Inserted(s, e, desc)) == multiset(s) + multiset{e}
  {
    if s != [] && !Before(e, s[0], desc) {
      InsertedKeeps(s[1..], e, desc);
      assert s == [s[0]] + s[1..];
    }
  }

  lemma {:induction false} InsertedSorted(s: seq<Entry>, e: Entry, desc: bool)
    requires Sorted(s, desc)
    ensures Sorted(Inserted(s, e, desc), desc)
  {
    if s != [] && !Before(e, s[0], desc) {
      var rest := Inserted(s[1..], e, desc);
      InsertedSorted(s[1..], e, desc);
      InsertedKeeps(s[1..], e, desc);
      forall i | 0 <= i < |rest| ensures Before(s[0], rest[i], desc) {
        assert rest[i] in multiset(rest);
        assert rest[i] == e || rest[i] in s[1..];
      }
    }
  }

  // The library's sort: some arrangement of the same entries, in rate order.
  method Sort(entries: seq<Entry>, desc: bool) returns (s: seq<Entry>)
    ensures Sorted(s, desc) && multiset(s) == multiset(entries)
  {
    s := [];
    for i := 0 to |entries|
      invariant Sorted(s, desc) && multiset(s) == multiset(entries[..i])
    {
      InsertedSorted(s, entries[i], desc);
      InsertedKeeps(s, entries[i], desc);
      s := Inserted(s, entries[i], desc);
      assert entries[..i + 1] == entries[..i] + [entries[i]];
    }
    assert entries[..|entries|] == entries;
  }

  // Collecting a snapshot's entries, in whatever order the map yields them.
  method Collect(m: Snapshot) returns (entries: seq<Entry>)
    ensures multiset(entries) == Entries(m)
  {
    entries := [];
    var todo := m.Keys;
    assert m - todo == map[];
    while todo != {}
      invariant todo <= m.Keys
      invariant multiset(entries) == Entries(m - todo)
      decreases todo
    {
      var t :| t in todo;
      WalkKey(m, todo, t);
      entries, todo := entries + [m[t]], todo - {t};
    }
    assert m - todo == m;
  }

  // ---------- the walk ----------

  const NO_BANDS := [NewBand(0), NewBand(1), NewBand(2), NewBand(3), NewBand(4)]

  // The histogram after the entries in `done`.
  ghost predicate Filled(bands: seq<QueueBand>, done: multiset<Entry>) {
    && |bands| == BANDS
    && forall b: BandNo ::
         bands[b] == NewBand(b).(vbytes := Vbytes(done, Band(b)))
  }

  // The rate at which one block's worth of the front of the line has gone by.
  ghost predicate CutoffAt(entries: seq<Entry>, c: nat) {
    && c < |entries|
    && Vbytes(multiset(entries[..c]), All) < BLOCK <= Vbytes(multiset(entries[..c + 1]), All)
  }

  lemma PrefixGrows(entries: seq<Entry>, i: nat, c: Cut)
    requires i < |entries|
    ensures Vbytes(multiset(entries[..i + 1]), c) == Vbytes(multiset(entries[..i]), c) + Weight(entries[i], c, Bytes)
  {
    assert entries[..i + 1] == entries[..i] + [entries[i]];
    PutIn(multiset(entries[..i]), entries[i], c, Bytes);
  }

  lemma FillBand(bands: seq<QueueBand>, done: multiset<Entry>, e: Entry)
    requires Filled(bands, done)
    ensures var b := BandOf(e.rate);
            Filled(bands[b := bands[b].(vbytes := bands[b].vbytes + e.vsize)], done + multiset{e})
  {
    forall b: BandNo
      ensures Vbytes(done + multiset{e}, Band(b)) == Vbytes(done, Band(b)) + if b == BandOf(e.rate) then e.vsize else 0
    {
      PutIn(done, e, Band(b), Bytes);
      BandOfIs(e.rate, b);
    }
  }

  method QueueFromSnapshot(snapshot: Snapshot) returns (q: Queue)
    ensures IsQueue(q, Entries(snapshot))
  {
    EntriesSize(snapshot);
    q := Queue(0, 0, NO_BANDS, 1.0, 1.0);
    if |snapshot| == 0 {
      return;
    }
    var entries := Collect(snapshot);
    entries := Sort(entries, true);
    q := Walk(entries);
  }

  method Walk(entries: seq<Entry>) returns (q: Queue)
    requires entries != [] && Sorted(entries, true)
    ensures IsQueue(q, multiset(entries))
  {
    var bands, total, band, cum := NO_BANDS, 0, 0, 0;
    var cutoffRate, cutoffSeen := entries[|entries| - 1].rate, false;
    ghost var cut, done := 0, multiset{};
    for i := 0 to |entries|
      invariant done == multiset(entries[..i])
      invariant Walked(done, bands, total) && cum == total
      invariant 0 <= band < BANDS && (i < |entries| ==> band <= BandOf(entries[i].rate))
      invariant Cutting(entries, total, cutoffSeen, cutoffRate, cut)
    {
      var e := entries[i];
      band := Advance(bands, done, band, e.rate);
      StepAt(entries, i, done);
      cum := cum + e.vsize;
      cutoffSeen, cutoffRate, cut := NoteCutoff(entries, i, cum, cutoffSeen, cutoffRate, cut, done);
      bands, total := Pour(e, band, bands, total, done);
      done := done + multiset{e};
    }
    assert entries[..|entries|] == entries;
    WalkDone(entries, done, bands, total, cutoffSeen, cutoffRate, cut);
    q := Drawn(entries, bands, total, cutoffRate);
  }

  // Whether one block has gone by with the entry at `i`, and the rate of the entry it went by with.
  method NoteCutoff(entries: seq<Entry>, i: nat, cum: int, seen: bool, rate: real, ghost cut: nat,
                    ghost done: multiset<Entry>)
    returns (seen': bool, rate': real, ghost cut': nat)
    requires i < |entries| && done == multiset(entries[..i]) && cum == Vbytes(done, All) + entries[i].vsize
    requires Cutting(entries, Vbytes(done, All), seen, rate, cut)
    ensures Cutting(entries, cum, seen', rate', cut')
  {
    seen', rate', cut' := seen, rate, cut;
    PrefixGrows(entries, i, All);
    if !seen && cum >= BLOCK {
      seen', rate', cut' := true, entries[i].rate, i;
    }
  }

  // One entry's vbytes go to its band and to the total.
  method Pour(e: Entry, band: nat, bands: seq<QueueBand>, total: int, ghost done: multiset<Entry>)
    returns (bands': seq<QueueBand>, total': int)
    requires Walked(done, bands, total) && band == BandOf(e.rate)
    ensures Walked(done + multiset{e}, bands', total') && total' == total + e.vsize
  {
    WalkStep(done, e, bands, total);
    bands' := bands[band := bands[band].(vbytes := bands[band].vbytes + e.vsize)];
    total' := total + e.vsize;
  }

  // From any band at or before that of the rate, stepping forward stops in the band the rate belongs to.
  method Advance(bands: seq<QueueBand>, ghost done: multiset<Entry>, from: nat, rate: real) returns (band: nat)
    requires Filled(bands, done) && from <= BandOf(rate)
    ensures band == BandOf(rate)
  {
    band := from;
    while band < |bands| - 1 && rate < bands[band].min
      invariant band <= BandOf(rate)
    {
      band := band + 1;
    }
  }

  // Half of the walk's invariant: what has been poured into the bands.
  ghost predicate Walked(done: multiset<Entry>, bands: seq<QueueBand>, total: int) {
    Filled(bands, done) && total == Vbytes(done, All)
  }

  // The other half: whether the cutoff has gone by, and where.
  ghost predicate Cutting(entries: seq<Entry>, total: int, seen: bool, rate: real, cut: nat)
    requires 0 < |entries|
  {
    && (seen <==> total >= BLOCK)
    && if seen then CutoffAt(entries, cut) && rate == entries[cut].rate else rate == entries[|entries| - 1].rate
  }

  // The front grows by one entry, and the next one's band is no further forward.
  lemma StepAt(entries: seq<Entry>, i: nat, done: multiset<Entry>)
    requires i < |entries| && Sorted(entries, true) && done == multiset(entries[..i])
    ensures done + multiset{entries[i]} == multiset(entries[..i + 1])
    ensures i + 1 < |entries| ==> BandOf(entries[i].rate) <= BandOf(entries[i + 1].rate)
  {
    if i + 1 < |entries| {
      BandFalls(entries[i].rate, entries[i + 1].rate);
    }
    assert entries[..i + 1] == entries[..i] + [entries[i]];
  }

  lemma WalkStep(done: multiset<Entry>, e: Entry, bands: seq<QueueBand>, total: int)
    requires Walked(done, bands, total)
    ensures var b := BandOf(e.rate);
            Walked(done + multiset{e}, bands[b := bands[b].(vbytes := bands[b].vbytes + e.vsize)], total + e.vsize)
  {
    FillBand(bands, done, e);
    PutIn(done, e, All, Bytes);
  }

  // The histogram the walk returns.
  function Drawn(entries: seq<Entry>, bands: seq<QueueBand>, total: int, rate: real): Queue {
    Queue(|entries|, total, bands, if total > BLOCK then BLOCK as real / total as real else 1.0, rate)
  }

  lemma WalkDone(entries: seq<Entry>, done: multiset<Entry>, bands: seq<QueueBand>, total: int,
                 seen: bool, rate: real, cut: nat)
    requires entries != [] && Sorted(entries, true)
    requires done == multiset(entries) && Walked(done, bands, total) && Cutting(entries, total, seen, rate, cut)
    ensures IsQueue(Drawn(entries, bands, total, rate), multiset(entries))
  {
    WalkEnds(entries, done, bands, total, seen, rate, cut);
  }

  lemma WalkEnds(entries: seq<Entry>, done: multiset<Entry>, bands: seq<QueueBand>, total: int,
                 seen: bool, rate: real, cut: nat)
    requires entries != [] && Sorted(entries, true)
    requires done == multiset(entries) && Walked(done, bands, total) && Cutting(entries, total, seen, rate, cut)
    ensures Filled(bands, multiset(entries)) && total == Vbytes(multiset(entries), All)
    ensures IsNextBlockRate(multiset(entries), rate)
  {
    assert entries[..|entries|] == entries;
    if seen {
      CutoffIsRate(entries, cut);
    } else {
      LastIsLowest(entries);
    }
  }

  // A mempool that fits into the next block lets in its lowest rate.
  lemma LastIsLowest(entries: seq<Entry>)
    requires entries != [] && Sorted(entries, true) && Vbytes(multiset(entries), All) < BLOCK
    ensures IsNextBlockRate(multiset(entries), entries[|entries| - 1].rate)
  {
    assert entries[|entries| - 1] in multiset(entries);
    forall e | e in multiset(entries) ensures e.rate >= entries[|entries| - 1].rate {
      var i :| 0 <= i < |entries| && entries[i] == e;
      assert i < |entries| - 1 ==> Before(e, entries[|entries| - 1], true);
    }
  }

  // The entry that completes the block has the next-block rate.
  lemma CutoffIsRate(entries: seq<Entry>, c: nat)
    requires Sorted(entries, true) && CutoffAt(entries, c)
    ensures IsNextBlockRate(multiset(entries), entries[c].rate)
  {
    var r := entries[c].rate;
    Vanishes(entries, c, Above(r));
    Wider(multiset(entries[..c]), Above(r), All, Bytes);
    Reached(entries, c);
    assert entries[c] in multiset(entries);
  }

  lemma Reached(entries: seq<Entry>, c: nat)
    requires Sorted(entries, true) && CutoffAt(entries, c)
    ensures Vbytes(multiset(entries), AtLeast(entries[c].rate)) >= BLOCK
    ensures Vbytes(multiset(entries), All) >= BLOCK
  {
    assert forall e :: e in entries[..c + 1] ==> e.rate >= entries[c].rate;
    AllThere(entries[..c + 1], AtLeast(entries[c].rate));
    Prefix(entries, c + 1, AtLeast(entries[c].rate));
    Prefix(entries, c + 1, All);
  }

  lemma AllThere(entries: seq<Entry>, c: Cut)
    requires forall e :: e in entries ==> In(e, c)
    ensures Vbytes(multiset(entries), c) >= Vbytes(multiset(entries), All)
  {
    Wider(multiset(entries), All, c, Bytes);
  }

  lemma Prefix(entries: seq<Entry>, n: nat, c: Cut)
    requires n <= |entries|
    ensures Vbytes(multiset(entries), c) == Vbytes(multiset(entries[..n]), c) + Vbytes(multiset(entries[n..]), c)
  {
    assert entries == entries[..n] + entries[n..];
    SplitSum(multiset(entries[..n]), multiset(entries[n..]), c, Bytes);
  }

  // From `n` on nothing is in the cut.
  lemma Vanishes(entries: seq<Entry>, n: nat, c: Cut)
    requires n <= |entries| && forall i :: n <= i < |entries| ==> !In(entries[i], c)
    ensures Vbytes(multiset(entries), c) == Vbytes(multiset(entries[..n]), c)
  {
    Prefix(entries, n, c);
    NoneIn(entries[n..], c);
  }

  lemma {:induction false} NoneIn(entries: seq<Entry>, c: Cut)
    requires forall e :: e in entries ==> !In(e, c)
    ensures Vbytes(multiset(entries), c) == 0
  {
    if entries != [] {
      var i := |entries| - 1;
      NoneIn(entries[..i], c);
      PrefixGrows(entries, i, c);
      assert entries[..i + 1] == entries;
    }
  }
}
