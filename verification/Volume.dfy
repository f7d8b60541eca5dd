/** Mempool entries and the vbytes they add up to (internal/explorer/mempool.go:39-47).

    A snapshot is a Go map, iterated in no particular order, and the walks over it sort unstably. Every
    quantity they compute is stated here on the multiset of entries, where order does not exist. */
module Volume {

  const BLOCK: int := 1_000_000  // vbytesPerBlock

  type Txid = string

  datatype Entry = Entry(rate: real, vsize: nat)

  type Snapshot = map<Txid, Entry>

  const BANDS: nat := 5

  type BandNo = b: nat | b < BANDS

  // queueBandMins: the floors of the five display bands, front first.
  function BandMin(b: BandNo): real {
    match b
    case 0 => 15.0
    case 1 => 10.0
    case 2 => 6.0
    case 3 => 4.0
    case _ => 1.0
  }

  // The rates of a band: from its floor up to the next floor; the front band is open above and the
  // last one takes everything below 1 as well.
  predicate InBand(rate: real, b: BandNo) {
    (b == BANDS - 1 || rate >= BandMin(b)) && (b == 0 || rate < BandMin(b - 1))
  }

  // Which entries count: all, those at or above a rate, strictly above it, at or below it, or in a band.
  datatype Cut = All | AtLeast(rate: real) | Above(rate: real) | AtMost(rate: real) | Band(b: BandNo)

  predicate In(e: Entry, c: Cut) {
    match c
    case All => true
    case AtLeast(r) => e.rate >= r
    case Above(r) => e.rate > r
    case AtMost(r) => e.rate <= r
    case Band(b) => InBand(e.rate, b)
  }

  // What is added up: vbytes, or transactions.
  datatype Unit = Bytes | Txs

  function Weight(e: Entry, c: Cut, u: Unit): nat {
    if !In(e, c) then 0 else if u.Bytes? then e.vsize else 1
  }

  ghost function Sum(s: multiset<Entry>, c: Cut, u: Unit): nat
    decreases |s|
  {
    if s == multiset{} then 0
    else
      var e := Pick(s);
      Weight(e, c, u) + Sum(s - multiset{e}, c, u)
  }

  ghost function Pick<T>(s: multiset<T>): (e: T)
    requires s != multiset{}
    ensures e in s
  {
    var e :| e in s; e
  }

  // The vbytes of the entries in the cut.
  ghost function Vbytes(s: multiset<Entry>, c: Cut): nat {
    Sum(s, c, Bytes)
  }

  // How many entries are in the cut.
  ghost function Count(s: multiset<Entry>, c: Cut): nat {
    Sum(s, c, Txs)
  }

  // Any entry may be taken out first.
  lemma {:induction false} TakeOut(s: multiset<Entry>, e: Entry, c: Cut, u: Unit)
    requires e in s
    ensures Sum(s, c, u) == Weight(e, c, u) + Sum(s - multiset{e}, c, u)
    decreases |s|
  {
    var d := Pick(s);
    if d != e {
      TakeOut(s - multiset{d}, e, c, u);
      TakeOut(s - multiset{e}, d, c, u);
      RemoveBoth(s, d, e);
    }
  }

  lemma RemoveBoth<T>(s: multiset<T>, d: T, e: T)
    ensures s - multiset{d} - multiset{e} == s - multiset{e} - multiset{d}
  {
  }

  lemma AddBoth<T>(s: multiset<T>, d: T, e: T)
    ensures s + multiset{d} + multiset{e} == s + multiset{e} + multiset{d}
  {
  }

  lemma DropBoth<K, V>(m: map<K, V>, d: K, e: K)
    ensures m - {d} - {e} == m - {e} - {d}
  {
  }

  lemma PutIn(s: multiset<Entry>, e: Entry, c: Cut, u: Unit)
    ensures Sum(s + multiset{e}, c, u) == Sum(s, c, u) + Weight(e, c, u)
  {
    TakeOut(s + multiset{e}, e, c, u);
    assert s + multiset{e} - multiset{e} == s;
  }

  lemma {:induction false} SplitSum(a: multiset<Entry>, b: multiset<Entry>, c: Cut, u: Unit)
    ensures Sum(a + b, c, u) == Sum(a, c, u) + Sum(b, c, u)
    decreases |b|
  {
    if b == multiset{} {
      assert a + b == a;
    } else {
      var e := Pick(b);
      SplitSum(a, b - multiset{e}, c, u);
      TakeOut(b, e, c, u);
      PutIn(a + (b - multiset{e}), e, c, u);
      assert a + (b - multiset{e}) + multiset{e} == a + b;
    }
  }

  ghost predicate Within(s: multiset<Entry>, a: Cut, b: Cut) {
    forall e :: e in s && In(e, a) ==> In(e, b)
  }

  // A wider cut holds at least as much.
  lemma {:induction false} Wider(s: multiset<Entry>, a: Cut, b: Cut, u: Unit)
    requires Within(s, a, b)
    ensures Sum(s, a, u) <= Sum(s, b, u)
    decreases |s|
  {
    if s != multiset{} {
      var e := Pick(s);
      TakeOut(s, e, a, u);
      TakeOut(s, e, b, u);
      Wider(s - multiset{e}, a, b, u);
    }
  }

  // The entries of a snapshot, without their txids.
  ghost function Entries(m: Snapshot): multiset<Entry>
    decreases |m|
  {
    if m == map[] then multiset{}
    else
      var t := AnyKey(m);
      Entries(m - {t}) + multiset{m[t]}
  }

  ghost function AnyKey<K, V>(m: map<K, V>): (k: K)
    requires m != map[]
    ensures k in m
  {
    var k :| k in m; k
  }

  lemma {:induction false} TakeOutKey(m: Snapshot, t: Txid)
    requires t in m
    ensures Entries(m) == Entries(m - {t}) + multiset{m[t]}
    decreases |m|
  {
    var u := AnyKey(m);
    if u != t {
      TakeOutKey(m - {u}, t);
      TakeOutKey(m - {t}, u);
      DropBoth(m, u, t);
      AddBoth(Entries(m - {u} - {t}), m[t], m[u]);
    }
  }

  // Walking a snapshot key by key, in any order.
  lemma WalkKey(m: Snapshot, todo: set<Txid>, t: Txid)
    requires t in todo && todo <= m.Keys
    ensures Entries(m - (todo - {t})) == Entries(m - todo) + multiset{m[t]}
  {
    TakeOutKey(m - (todo - {t}), t);
    assert m - (todo - {t}) - {t} == m - todo;
  }

  lemma WalkSum(m: Snapshot, todo: set<Txid>, t: Txid, c: Cut, u: Unit)
    requires t in todo && todo <= m.Keys
    ensures Sum(Entries(m - (todo - {t})), c, u) == Sum(Entries(m - todo), c, u) + Weight(m[t], c, u)
  {
    WalkKey(m, todo, t);
    PutIn(Entries(m - todo), m[t], c, u);
  }

  lemma {:induction false} EntriesSize(m: Snapshot)
    ensures |Entries(m)| == |m|
    decreases |m|
  {
    if m != map[] {
      var t := AnyKey(m);
      EntriesSize(m - {t});
      assert m.Keys == (m - {t}).Keys + {t};
    }
  }

  // ---------- bands ----------

  // The band whose floor is the first one at or below the rate, searched from the front.
  function BandOf(rate: real): BandNo {
    if rate >= BandMin(0) then 0
    else if rate >= BandMin(1) then 1
    else if rate >= BandMin(2) then 2
    else if rate >= BandMin(3) then 3
    else 4
  }

  // The search finds the one band the rate is in.
  lemma BandOfIs(rate: real, c: BandNo)
    ensures InBand(rate, c) <==> c == BandOf(rate)
  {
  }

  // A lower rate is in the same band or one further back.
  lemma BandFalls(high: real, low: real)
    requires high >= low
    ensures BandOf(high) <= BandOf(low)
  {
  }

  // The bands share out the whole.
  lemma {:induction false} BandsSum(s: multiset<Entry>, u: Unit)
    ensures Sum(s, Band(0), u) + Sum(s, Band(1), u) + Sum(s, Band(2), u) + Sum(s, Band(3), u) + Sum(s, Band(4), u)
         == Sum(s, All, u)
    decreases |s|
  {
    if s != multiset{} {
      var e := Pick(s);
      BandsSum(s - multiset{e}, u);
      forall c ensures Sum(s, c, u) == Weight(e, c, u) + Sum(s - multiset{e}, c, u) {
        TakeOut(s, e, c, u);
      }
      forall b: BandNo ensures In(e, Band(b)) <==> b == BandOf(e.rate) {
        BandOfIs(e.rate, b);
      }
    }
  }

  // ---------- what the sums mean ----------

  // An entry weighs its vbytes, or one, in the cuts it is in.
  lemma OneEntry(e: Entry, rate: real)
    ensures Vbytes(multiset{e}, All) == e.vsize && Count(multiset{e}, All) == 1
    ensures Vbytes(multiset{e}, Above(rate)) == (if e.rate > rate then e.vsize else 0)
    ensures Count(multiset{e}, Above(rate)) == (if e.rate > rate then 1 else 0)
  {
    forall c, u ensures Sum(multiset{e}, c, u) == Weight(e, c, u) {
      PutIn(multiset{}, e, c, u);
      assert multiset{} + multiset{e} == multiset{e};
    }
  }

  // Everything is counted once.
  lemma {:induction false} CountAll(s: multiset<Entry>)
    ensures Count(s, All) == |s|
    decreases |s|
  {
    if s != multiset{} {
      var e := Pick(s);
      CountAll(s - multiset{e});
    }
  }

  // What is ahead of a rate and what is not make up the whole.
  lemma {:induction false} AheadOrNot(s: multiset<Entry>, rate: real, u: Unit)
    ensures Sum(s, Above(rate), u) + Sum(s, AtMost(rate), u) == Sum(s, All, u)
    decreases |s|
  {
    if s != multiset{} {
      var e := Pick(s);
      AheadOrNot(s - multiset{e}, rate, u);
      TakeOut(s, e, Above(rate), u);
      TakeOut(s, e, AtMost(rate), u);
      TakeOut(s, e, All, u);
    }
  }
}
