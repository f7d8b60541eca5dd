/** Fee tiers from the mempool (internal/explorer/fees.go:64-110). Rates are reals. */
module Fees {
  import opened Volume
  import opened Rounding
  import Queue

  datatype Floors = Floors(slow: real, standard: real, urgent: real)

  datatype Source = FromMempool | FromFloors

  datatype Tiers = Tiers(slow: real, standard: real, urgent: real, source: Source)

  function Max(a: real, b: real): real {
    if a >= b then a else b
  }

  // The least rate in the mempool at or below which `target` vbytes sit.
  ghost predicate LeastReaching(s: multiset<Entry>, target: real, r: real) {
    && (exists e :: e in s && e.rate == r)
    && Vbytes(s, AtMost(r)) as real >= target
    && forall e :: e in s && e.rate < r ==> (Vbytes(s, AtMost(e.rate)) as real) < target
  }

  ghost function Share(s: multiset<Entry>, p: real): real {
    p * Vbytes(s, All) as real
  }

  // There is only one such rate, so neither map order nor ties can show, and a larger target needs at
  // least as high a rate.
  lemma LeastMonotone(s: multiset<Entry>, t: real, u: real, a: real, b: real)
    requires t <= u && LeastReaching(s, t, a) && LeastReaching(s, u, b)
    ensures a <= b && (t == u ==> a == b)
  {
  }

  lemma ShareMonotone(s: multiset<Entry>, p: real, q: real)
    requires p <= q <= 1.0
    ensures Share(s, p) <= Share(s, q) <= Vbytes(s, All) as real
  {
    MulMonotone(p, q, Vbytes(s, All) as real);
    MulMonotone(q, 1.0, Vbytes(s, All) as real);
  }

  lemma MulMonotone(x: real, y: real, k: real)
    requires x <= y && k >= 0.0
    ensures x * k <= y * k
  {
    assert (y - x) * k >= 0.0;
  }

  // Past the whole mempool the walk falls through to its highest rate.
  method Percentile(entries: seq<Entry>, target: real) returns (r: real)
    requires entries != [] && Queue.Sorted(entries, false)
    ensures target <= Vbytes(multiset(entries), All) as real ==> LeastReaching(multiset(entries), target, r)
    ensures target > Vbytes(multiset(entries), All) as real ==> r == entries[|entries| - 1].rate
  {
    var cum: nat := 0;
    for i := 0 to |entries|
      invariant cum == Vbytes(multiset(entries[..i]), All)
      invariant i > 0 ==> (cum as real) < target
    {
      Queue.PrefixGrows(entries, i, All);
      cum := cum + entries[i].vsize;
      if cum as real >= target {
        Reached(entries, i, target);
        return entries[i].rate;
      }
    }
    assert entries[..|entries|] == entries;
    r := entries[|entries| - 1].rate;
  }

  lemma Reached(entries: seq<Entry>, i: nat, target: real)
    requires Queue.Sorted(entries, false) && i < |entries|
    requires i > 0 ==> (Vbytes(multiset(entries[..i]), All) as real) < target
    requires Vbytes(multiset(entries[..i + 1]), All) as real >= target
    ensures LeastReaching(multiset(entries), target, entries[i].rate)
    ensures Vbytes(multiset(entries), All) as real >= target
  {
    var s, r := multiset(entries), entries[i].rate;
    assert entries[i] in s;
    Enough(entries, i, target);
    forall e | e in s && e.rate < r
      ensures (Vbytes(s, AtMost(e.rate)) as real) < target
    {
      assert e in entries;
      ShortOf(entries, i, e, target);
    }
  }

  // At the rate at `i` enough has accumulated.
  lemma Enough(entries: seq<Entry>, i: nat, target: real)
    requires Queue.Sorted(entries, false) && i < |entries|
    requires Vbytes(multiset(entries[..i + 1]), All) as real >= target
    ensures Vbytes(multiset(entries), AtMost(entries[i].rate)) as real >= target
    ensures Vbytes(multiset(entries), All) as real >= target
  {
    FrontAtMost(entries, i);
    Queue.Prefix(entries, i + 1, AtMost(entries[i].rate));
    Queue.Prefix(entries, i + 1, All);
  }

  lemma FrontAtMost(entries: seq<Entry>, i: nat)
    requires Queue.Sorted(entries, false) && i < |entries|
    ensures Vbytes(multiset(entries[..i + 1]), AtMost(entries[i].rate)) >= Vbytes(multiset(entries[..i + 1]), All)
  {
    var front := entries[..i + 1];
    forall e | e in front ensures In(e, AtMost(entries[i].rate)) {
      var j :| 0 <= j < |front| && front[j] == e;
      assert entries[j] == e;
    }
    Queue.AllThere(front, AtMost(entries[i].rate));
  }

  // Rates below the one at `i` all lie before it, where too little has accumulated.
  lemma ShortOf(entries: seq<Entry>, i: nat, e: Entry, target: real)
    requires Queue.Sorted(entries, false) && i < |entries|
    requires i > 0 ==> (Vbytes(multiset(entries[..i]), All) as real) < target
    requires e in entries && e.rate < entries[i].rate
    ensures (Vbytes(multiset(entries), AtMost(e.rate)) as real) < target
  {
    var j :| 0 <= j < |entries| && entries[j] == e;
    assert j < i;
    Queue.Vanishes(entries, i, AtMost(e.rate));
    Wider(multiset(entries[..i]), AtMost(e.rate), All, Bytes);
  }

  // ---------- the tiers ----------

  method TierRates(snapshot: Snapshot, floors: Floors) returns (t: Tiers)
    ensures IsTiers(Entries(snapshot), floors, t)
  {
    EntriesSize(snapshot);
    var slow, standard, urgent, source := floors.slow, floors.standard, floors.urgent, FromFloors;
    if |snapshot| != 0 {
      var entries := Queue.Collect(snapshot);
      var total: nat := 0;
      for i := 0 to |entries|
        invariant total == Vbytes(multiset(entries[..i]), All)
      {
        Queue.PrefixGrows(entries, i, All);
        total := total + entries[i].vsize;
      }
      assert entries[..|entries|] == entries;
      entries := Queue.Sort(entries, false);
      ghost var s := Entries(snapshot);
      ShareMonotone(s, 0.25, 0.5);
      ShareMonotone(s, 0.5, 0.9);
      slow := Percentile(entries, 0.25 * total as real);
      standard := Percentile(entries, 0.5 * total as real);
      urgent := Percentile(entries, 0.9 * total as real);
      assert ArePercentiles(s, slow, standard, urgent);
      slow, standard, urgent := Max(slow, floors.slow), Max(standard, floors.standard), Max(urgent, floors.urgent);
      source := FromMempool;
    }
    slow := Max(Round1(slow), 1.0);
    standard := Max(Round1(standard), slow);
    urgent := Max(Round1(urgent), standard);
    t := Tiers(slow, standard, urgent, source);
  }

  ghost predicate ArePercentiles(s: multiset<Entry>, p25: real, p50: real, p90: real) {
    && LeastReaching(s, Share(s, 0.25), p25)
    && LeastReaching(s, Share(s, 0.5), p50)
    && LeastReaching(s, Share(s, 0.9), p90)
  }

  // The three percentiles, or the floors themselves of an empty mempool, each raised to its floor,
  // rounded, and raised to the tier below.
  ghost predicate IsTiers(s: multiset<Entry>, floors: Floors, t: Tiers) {
    if s == multiset{} then t == Raised(floors.slow, floors.standard, floors.urgent, FromFloors)
    else exists a, b, c ::
           && ArePercentiles(s, a, b, c)
           && t == Raised(Max(a, floors.slow), Max(b, floors.standard), Max(c, floors.urgent), FromMempool)
  }

  function Raised(slow: real, standard: real, urgent: real, source: Source): Tiers {
    var s := Max(Round1(slow), 1.0);
    var m := Max(Round1(standard), s);
    Tiers(s, m, Max(Round1(urgent), m), source)
  }

  // Tiers are ordered, at least 1, and none is below its floor rounded to one decimal, whatever the floors.
  lemma TiersOrdered(s: multiset<Entry>, floors: Floors, t: Tiers)
    requires IsTiers(s, floors, t)
    ensures 1.0 <= t.slow <= t.standard <= t.urgent
    ensures Round1(floors.slow) <= t.slow && Round1(floors.standard) <= t.standard && Round1(floors.urgent) <= t.urgent
    ensures t.source == if s == multiset{} then FromFloors else FromMempool
  {
    if s != multiset{} {
      var a, b, c :|
        && ArePercentiles(s, a, b, c)
        && t == Raised(Max(a, floors.slow), Max(b, floors.standard), Max(c, floors.urgent), FromMempool);
      RoundMonotone(floors.slow, Max(a, floors.slow));
      RoundMonotone(floors.standard, Max(b, floors.standard));
      RoundMonotone(floors.urgent, Max(c, floors.urgent));
    }
  }

  // The tiers are a function of the entries.
  lemma TiersDetermined(s: multiset<Entry>, floors: Floors, t: Tiers, u: Tiers)
    requires IsTiers(s, floors, t) && IsTiers(s, floors, u)
    ensures t == u
  {
    if s != multiset{} {
      var a, b, c :|
        && ArePercentiles(s, a, b, c)
        && t == Raised(Max(a, floors.slow), Max(b, floors.standard), Max(c, floors.urgent), FromMempool);
      var d, e, f :|
        && ArePercentiles(s, d, e, f)
        && u == Raised(Max(d, floors.slow), Max(e, floors.standard), Max(f, floors.urgent), FromMempool);
      LeastMonotone(s, Share(s, 0.25), Share(s, 0.25), a, d);
      LeastMonotone(s, Share(s, 0.5), Share(s, 0.5), b, e);
      LeastMonotone(s, Share(s, 0.9), Share(s, 0.9), c, f);
    }
  }

  predicate NotBelow(t: Tiers, floors: Floors) {
    floors.slow <= t.slow && floors.standard <= t.standard && floors.urgent <= t.urgent
  }

  // No floor loses by rounding: it is at most 1, rounds up, or is covered by a floor before it.
  predicate SurvivesRounding(floors: Floors) {
    && (floors.slow <= 1.0 || floors.slow <= Round1(floors.slow))
    && (floors.standard <= 1.0 || floors.standard <= Round1(floors.standard) || floors.standard <= Round1(floors.slow))
    && (floors.urgent <= 1.0 || floors.urgent <= Round1(floors.urgent) || floors.urgent <= Round1(floors.standard)
        || floors.urgent <= Round1(floors.slow))
  }

  // Tiers stay at or above the raw floors, whatever the mempool, exactly when the floors survive rounding.
  lemma RawFloorsHoldIff(floors: Floors)
    ensures (forall s, t :: IsTiers(s, floors, t) ==> NotBelow(t, floors)) <==> SurvivesRounding(floors)
  {
    if SurvivesRounding(floors) {
      forall s, t | IsTiers(s, floors, t) ensures NotBelow(t, floors) {
        TiersOrdered(s, floors, t);
      }
    } else {
      assert IsTiers(multiset{}, floors, Raised(floors.slow, floors.standard, floors.urgent, FromFloors));
    }
  }

  // A raw floor can be undercut: rounding is to the nearest tenth, not up.
  lemma RawFloorCanBeUndercut()
    ensures Raised(1.04, 1.04, 1.04, FromFloors).slow < 1.04
  {
    assert Round1(1.04) == 1.0;
  }

  // A tier is its rate to the nearest tenth, unless `least` is more.
  ghost predicate Near(tier: real, rate: real, least: real) {
    && tier >= least && tier >= rate - 0.05
    && (tier == least || (tier <= rate + 0.05 && InTenths(tier)))
  }

  lemma RaisedIsNear(rate: real, least: real)
    ensures Near(Max(Round1(rate), least), rate, least)
  {
    Round1IsNearest(rate);
  }

  // The higher of the two.
  ghost predicate IsHigher(r: real, a: real, b: real) {
    r >= a && r >= b && (r == a || r == b)
  }

  // Every tier is its percentile, or its floor if that is higher, to the nearest tenth, unless the tier below
  // it (1 for the slowest) is more.
  lemma TiersAreNear(s: multiset<Entry>, floors: Floors, t: Tiers)
    requires IsTiers(s, floors, t)
    ensures s != multiset{} ==>
              exists a, b, c, x, y, z ::
                && LeastReaching(s, 0.25 * Vbytes(s, All) as real, a)
                && LeastReaching(s, 0.5 * Vbytes(s, All) as real, b)
                && LeastReaching(s, 0.9 * Vbytes(s, All) as real, c)
                && IsHigher(x, a, floors.slow) && IsHigher(y, b, floors.standard) && IsHigher(z, c, floors.urgent)
                && Near(t.slow, x, 1.0) && Near(t.standard, y, t.slow) && Near(t.urgent, z, t.standard)
    ensures s == multiset{} ==>
              && Near(t.slow, floors.slow, 1.0) && Near(t.standard, floors.standard, t.slow)
              && Near(t.urgent, floors.urgent, t.standard)
  {
    if s == multiset{} {
      TiersFromRates(floors.slow, floors.standard, floors.urgent, FromFloors);
    } else {
      var a, b, c :|
        && ArePercentiles(s, a, b, c)
        && t == Raised(Max(a, floors.slow), Max(b, floors.standard), Max(c, floors.urgent), FromMempool);
      var x, y, z := Max(a, floors.slow), Max(b, floors.standard), Max(c, floors.urgent);
      TiersFromRates(x, y, z, FromMempool);
      assert IsHigher(x, a, floors.slow) && IsHigher(y, b, floors.standard) && IsHigher(z, c, floors.urgent);
    }
  }

  lemma TiersFromRates(x: real, y: real, z: real, source: Source)
    ensures var t := Raised(x, y, z, source);
            Near(t.slow, x, 1.0) && Near(t.standard, y, t.slow) && Near(t.urgent, z, t.standard)
  {
    var t := Raised(x, y, z, source);
    RaisedIsNear(x, 1.0);
    RaisedIsNear(y, t.slow);
    RaisedIsNear(z, t.standard);
  }

  // Where the least rate splits the mempool: the target sits at or below it, and less than that strictly below.
  lemma LeastSplits(s: multiset<Entry>, target: real, r: real)
    requires LeastReaching(s, target, r) && target > 0.0
    ensures Vbytes(s, AtMost(r)) as real >= target
    ensures (Vbytes(s, All) - Vbytes(s, AtLeast(r))) as real < target
  {
    if e :| e in s && e.rate < r {
      var best := HighestBelow(s, r, e.rate);
      BelowOrNot(s, r, best);
    } else {
      AllAtLeast(s, r);
    }
  }

  // The highest rate strictly below `r`.
  lemma {:induction false} HighestBelow(s: multiset<Entry>, r: real, at: real) returns (best: real)
    requires at < r && exists e :: e in s && e.rate == at
    ensures best < r && (exists e :: e in s && e.rate == best)
    ensures forall e :: e in s && e.rate < r ==> e.rate <= best
    decreases |s|
  {
    var e :| e in s && e.rate == at;
    var rest := s - multiset{e};
    best := at;
    if d :| d in rest && d.rate < r {
      best := HighestBelow(rest, r, d.rate);
      best := if at >= best then at else best;
    }
    assert forall d :: d in s ==> d == e || d in rest;
  }

  lemma {:induction false} BelowOrNot(s: multiset<Entry>, r: real, best: real)
    requires best < r && forall e :: e in s && e.rate < r ==> e.rate <= best
    ensures Vbytes(s, AtMost(best)) + Vbytes(s, AtLeast(r)) == Vbytes(s, All)
    decreases |s|
  {
    if s != multiset{} {
      var e := Pick(s);
      BelowOrNot(s - multiset{e}, r, best);
      TakeOut(s, e, AtMost(best), Bytes);
      TakeOut(s, e, AtLeast(r), Bytes);
      TakeOut(s, e, All, Bytes);
    }
  }

  lemma AllAtLeast(s: multiset<Entry>, r: real)
    requires forall e :: e in s ==> e.rate >= r
    ensures Vbytes(s, AtLeast(r)) == Vbytes(s, All)
  {
    Wider(s, All, AtLeast(r), Bytes);
    Wider(s, AtLeast(r), All, Bytes);
  }
}
