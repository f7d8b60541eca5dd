/** Amount, recipients, change and fee of a transaction (internal/explorer/tx.go:334-420). Amounts are
    satoshis; addresses and script-type codes are opaque strings. */
module TxOutputs {
  import opened Options

  type Addr = string

  const NON_STANDARD: Addr := "(non-standard output)"

  datatype Vout = Vout(addrs: seq<Addr>, sats: int, code: string)

  datatype Row = Row(address: Addr, sats: int, change: bool)

  // ---------- first-seen deduplication ----------

  function Dedup(s: seq<Addr>): seq<Addr> {
    if s == [] then []
    else
      var d, x := Dedup(s[..|s| - 1]), s[|s| - 1];
      if x in d then d else d + [x]
  }

  // Same addresses, none twice, in the order of first sight.
  lemma {:induction false} DedupIs(s: seq<Addr>)
    ensures forall x :: x in Dedup(s) <==> x in s
    ensures forall i, j :: 0 <= i < j < |Dedup(s)| ==> Dedup(s)[i] != Dedup(s)[j]
    ensures forall n :: 0 <= n <= |s| ==> Dedup(s[..n]) <= Dedup(s)
  {
    if s != [] {
      DedupIs(s[..|s| - 1]);
      forall n | 0 <= n <= |s| ensures Dedup(s[..n]) <= Dedup(s) {
        if n < |s| {
          assert s[..|s| - 1][..n] == s[..n];
        } else {
          assert s[..n] == s;
        }
      }
    }
  }

  lemma DedupNext(s: seq<Addr>, more: seq<Addr>, i: nat)
    requires i < |more|
    ensures var d, x := Dedup(s + more[..i]), more[i];
            Dedup(s + more[..i + 1]) == if x in d then d else d + [x]
  {
    var t := s + more[..i + 1];
    assert t[..|t| - 1] == s + more[..i];
  }

  // ---------- what counts ----------

  // An output is change when it has addresses and every one of them is a sender.
  predicate IsChange(from: set<Addr>, coinbase: bool, v: Vout) {
    !coinbase && v.addrs != [] && forall a :: a in v.addrs ==> a in from
  }

  // A self-send: every output looks like change.
  predicate SelfSend(from: set<Addr>, coinbase: bool, vouts: seq<Vout>) {
    forall v :: v in vouts ==> IsChange(from, coinbase, v)
  }

  function Labels(addrs: seq<Addr>): seq<Addr> {
    if addrs == [] then [NON_STANDARD] else addrs
  }

  function FirstAddr(addrs: seq<Addr>): Addr {
    if addrs == [] then NON_STANDARD else addrs[0]
  }

  function RowOf(v: Vout, change: bool): Row {
    Row(FirstAddr(v.addrs), v.sats, change)
  }

  function Sum(rows: seq<Row>): int {
    if rows == [] then 0 else Sum(rows[..|rows| - 1]) + rows[|rows| - 1].sats
  }

  // The sum of the rows not flagged as change.
  function Unflagged(rows: seq<Row>): int {
    if rows == [] then 0
    else Unflagged(rows[..|rows| - 1]) + if rows[|rows| - 1].change then 0 else rows[|rows| - 1].sats
  }

  // The addresses of the outputs whose rows are not flagged, in order, repeats included.
  function Recipients(vouts: seq<Vout>, rows: seq<Row>): seq<Addr>
    requires |vouts| == |rows|
  {
    if rows == [] then []
    else
      Recipients(vouts[..|rows| - 1], rows[..|rows| - 1])
      + if rows[|rows| - 1].change then [] else Labels(vouts[|rows| - 1].addrs)
  }

  function Codes(vouts: seq<Vout>, rows: seq<Row>): seq<string>
    requires |vouts| == |rows|
  {
    if rows == [] then []
    else
      Codes(vouts[..|rows| - 1], rows[..|rows| - 1])
      + if rows[|rows| - 1].change then [] else [vouts[|rows| - 1].code]
  }

  datatype Outputs = Outputs(rows: seq<Row>, amount: int, to: seq<Addr>, fee: Option<int>, codes: seq<string>)

  // Each output's row, flagged as change unless the whole transaction is a self-send; everything else is
  // told from the rows.
  ghost predicate IsOutputs(o: Outputs, from: set<Addr>, coinbase: bool, vouts: seq<Vout>, sumIn: int) {
    && FlagsAre(from, coinbase, vouts, o.rows)
    && o.amount == Unflagged(o.rows)
    && o.to == Dedup(Recipients(vouts, o.rows))
    && o.codes == Codes(vouts, o.rows)
    && o.fee == (if coinbase then None else Some(sumIn - Sum(o.rows)))
  }

  // Adds the addresses not seen yet.
  method AddTo(to: seq<Addr>, addrs: seq<Addr>) returns (to': seq<Addr>)
    ensures to' == AddAll(to, Labels(addrs), |Labels(addrs)|)
  {
    var labels := if |addrs| == 0 then [NON_STANDARD] else addrs;
    to' := to;
    for i := 0 to |labels|
      invariant to' == AddAll(to, labels, i)
    {
      if labels[i] !in to' {
        to' := to' + [labels[i]];
      }
    }
  }

  function AddAll(to: seq<Addr>, labels: seq<Addr>, n: nat): seq<Addr>
    requires n <= |labels|
  {
    if n == 0 then to
    else
      var d, x := AddAll(to, labels, n - 1), labels[n - 1];
      if x in d then d else d + [x]
  }

  lemma {:induction false} AddAllIsDedup(all: seq<Addr>, labels: seq<Addr>, n: nat)
    requires n <= |labels|
    ensures AddAll(Dedup(all), labels, n) == Dedup(all + labels[..n])
  {
    if n == 0 {
      assert all + labels[..0] == all;
    } else {
      var i := n - 1;
      AddAllIsDedup(all, labels, i);
      DedupNext(all, labels, i);
      var d, x := Dedup(all + labels[..i]), labels[i];
      assert AddAll(Dedup(all), labels, n) == if x in d then d else d + [x];
    }
  }

  // The rows of the first `n` outputs, flagged by the heuristic alone.
  function Flagged(from: set<Addr>, coinbase: bool, vouts: seq<Vout>, n: nat): (rows: seq<Row>)
    requires n <= |vouts|
    ensures |rows| == n
  {
    seq(n, i requires 0 <= i < n => RowOf(vouts[i], IsChange(from, coinbase, vouts[i])))
  }

  function Unflag(vouts: seq<Vout>, n: nat): (rows: seq<Row>)
    requires n <= |vouts|
    ensures |rows| == n
  {
    seq(n, i requires 0 <= i < n => RowOf(vouts[i], false))
  }

  method DeriveOutputs(from: set<Addr>, vouts: seq<Vout>, coinbase: bool, sumIn: int) returns (o: Outputs)
    ensures IsOutputs(o, from, coinbase, vouts, sumIn)
  {
    var sumOut, amount, to, codes, rows := FirstPass(from, vouts, coinbase);
    TallyIsAll(vouts, rows);
    AllChange(from, coinbase, vouts, rows);
    if |to| == 0 {
      amount := sumOut;
      ghost var flagged := rows;
      to, codes, rows := CountAll(vouts, rows);
      SameSum(flagged, rows);
      RowsAre(from, coinbase, vouts, rows);
    } else {
      RowsAre(from, coinbase, vouts, rows);
    }
    o := Outputs(rows, amount, to, if coinbase then None else Some(sumIn - sumOut), codes);
  }

  // The flags an output's row may carry.
  ghost predicate FlagsAre(from: set<Addr>, coinbase: bool, vouts: seq<Vout>, rows: seq<Row>) {
    && |rows| == |vouts|
    && forall i :: 0 <= i < |vouts| ==>
         rows[i] == RowOf(vouts[i], !SelfSend(from, coinbase, vouts) && IsChange(from, coinbase, vouts[i]))
  }

  lemma RowsAre(from: set<Addr>, coinbase: bool, vouts: seq<Vout>, rows: seq<Row>)
    requires if SelfSend(from, coinbase, vouts) then rows == Unflag(vouts, |vouts|)
             else rows == Flagged(from, coinbase, vouts, |vouts|)
    ensures FlagsAre(from, coinbase, vouts, rows)
  {
  }

  // The running totals of a pass, one row at a time.
  datatype Totals = Totals(sum: int, amount: int, to: seq<Addr>, codes: seq<string>)

  function Counted(t: Totals, v: Vout): Totals {
    Totals(t.sum + v.sats, t.amount + v.sats, AddAll(t.to, Labels(v.addrs), |Labels(v.addrs)|), t.codes + [v.code])
  }

  function Tally(vouts: seq<Vout>, rows: seq<Row>, n: nat): Totals
    requires n <= |vouts| == |rows|
  {
    if n == 0 then Totals(0, 0, [], [])
    else
      var t := Tally(vouts, rows, n - 1);
      if rows[n - 1].change then t.(sum := t.sum + vouts[n - 1].sats) else Counted(t, vouts[n - 1])
  }

  // Each row is that of its output.
  ghost predicate RowsOf(vouts: seq<Vout>, rows: seq<Row>) {
    |rows| == |vouts| && forall i :: 0 <= i < |rows| ==> rows[i] == RowOf(vouts[i], rows[i].change)
  }

  // What the sums over the first `n` rows come to.
  ghost function Told(vouts: seq<Vout>, rows: seq<Row>, n: nat): Totals
    requires n <= |vouts| == |rows|
  {
    Totals(Sum(rows[..n]), Unflagged(rows[..n]), Dedup(Recipients(vouts[..n], rows[..n])), Codes(vouts[..n], rows[..n]))
  }

  lemma ToldNext(vouts: seq<Vout>, rows: seq<Row>, i: nat)
    requires i < |vouts| && RowsOf(vouts, rows)
    ensures Told(vouts, rows, i + 1) ==
            var t := Told(vouts, rows, i);
            if rows[i].change then t.(sum := t.sum + vouts[i].sats) else Counted(t, vouts[i])
  {
    assert rows[..i + 1][..i] == rows[..i] && vouts[..i + 1][..i] == vouts[..i];
    var all, labels := Recipients(vouts[..i], rows[..i]), Labels(vouts[i].addrs);
    AddAllIsDedup(all, labels, |labels|);
    assert labels[..|labels|] == labels && all + [] == all;
  }

  // The running totals are told from the rows.
  lemma {:induction false} TallyIs(vouts: seq<Vout>, rows: seq<Row>, n: nat)
    requires n <= |vouts| && RowsOf(vouts, rows)
    ensures Tally(vouts, rows, n) == Told(vouts, rows, n)
  {
    if n > 0 {
      TallyIs(vouts, rows, n - 1);
      ToldNext(vouts, rows, n - 1);
    }
  }

  lemma TallyIsAll(vouts: seq<Vout>, rows: seq<Row>)
    requires RowsOf(vouts, rows)
    ensures Tally(vouts, rows, |vouts|)
         == Totals(Sum(rows), Unflagged(rows), Dedup(Recipients(vouts, rows)), Codes(vouts, rows))
  {
    TallyIs(vouts, rows, |vouts|);
    assert rows[..|rows|] == rows && vouts[..|vouts|] == vouts;
  }

  lemma FlaggedNext(from: set<Addr>, coinbase: bool, vouts: seq<Vout>, i: nat)
    requires i < |vouts|
    ensures Flagged(from, coinbase, vouts, i + 1)
         == Flagged(from, coinbase, vouts, i) + [RowOf(vouts[i], IsChange(from, coinbase, vouts[i]))]
  {
  }

  // One pass with the change heuristic.
  method FirstPass(from: set<Addr>, vouts: seq<Vout>, coinbase: bool)
    returns (sumOut: int, amount: int, to: seq<Addr>, codes: seq<string>, rows: seq<Row>)
    ensures rows == Flagged(from, coinbase, vouts, |vouts|)
    ensures Totals(sumOut, amount, to, codes) == Tally(vouts, rows, |vouts|)
  {
    sumOut, amount, to, codes, rows := 0, 0, [], [], [];
    ghost var all := Flagged(from, coinbase, vouts, |vouts|);
    for i := 0 to |vouts|
      invariant rows == Flagged(from, coinbase, vouts, i)
      invariant Totals(sumOut, amount, to, codes) == Tally(vouts, all, i)
    {
      var v := vouts[i];
      var row := RowOf(v, IsChange(from, coinbase, v));
      FlaggedNext(from, coinbase, vouts, i);
      assert all[i] == row;
      sumOut, rows := sumOut + v.sats, rows + [row];
      if !row.change {
        amount, to, codes := Count(v, amount, to, codes, sumOut - v.sats);
      }
    }
  }

  // An output that is not change adds to the amount, the recipients and the codes.
  method Count(v: Vout, amount: int, to: seq<Addr>, codes: seq<string>, ghost sum: int)
    returns (amount': int, to': seq<Addr>, codes': seq<string>)
    ensures Totals(sum + v.sats, amount', to', codes') == Counted(Totals(sum, amount, to, codes), v)
  {
    to' := AddTo(to, v.addrs);
    amount', codes' := amount + v.sats, codes + [v.code];
  }

  // Nobody to pay means every output was taken for change.
  lemma {:induction false} NobodyPaid(from: set<Addr>, coinbase: bool, vouts: seq<Vout>, rows: seq<Row>)
    requires rows == Flagged(from, coinbase, vouts, |vouts|)
    ensures Recipients(vouts, rows) == [] <==> SelfSend(from, coinbase, vouts)
  {
    if vouts != [] {
      var before := vouts[..|vouts| - 1];
      NobodyPaid(from, coinbase, before, rows[..|rows| - 1]);
      assert vouts == before + [vouts[|vouts| - 1]];
    }
  }

  lemma AllChange(from: set<Addr>, coinbase: bool, vouts: seq<Vout>, rows: seq<Row>)
    requires rows == Flagged(from, coinbase, vouts, |vouts|)
    ensures Dedup(Recipients(vouts, rows)) == [] <==> SelfSend(from, coinbase, vouts)
  {
    NobodyPaid(from, coinbase, vouts, rows);
    var r := Recipients(vouts, rows);
    DedupIs(r);
    assert r != [] ==> r[0] in r;
  }

  lemma {:induction false} SameSum(a: seq<Row>, b: seq<Row>)
    requires |a| == |b| && forall i :: 0 <= i < |a| ==> a[i].sats == b[i].sats && !b[i].change
    ensures Sum(a) == Sum(b) == Unflagged(b)
  {
    if a != [] {
      SameSum(a[..|a| - 1], b[..|b| - 1]);
    }
  }

  // A self-send: count them all, and take the flags off the rows.
  method CountAll(vouts: seq<Vout>, flagged: seq<Row>) returns (to: seq<Addr>, codes: seq<string>, rows: seq<Row>)
    requires |flagged| == |vouts|
    requires forall i :: 0 <= i < |vouts| ==> flagged[i].(change := false) == RowOf(vouts[i], false)
    ensures rows == Unflag(vouts, |vouts|)
    ensures to == Dedup(Recipients(vouts, rows)) && codes == Codes(vouts, rows)
  {
    to, codes, rows := [], [], flagged;
    ghost var sum, all := 0, Unflag(vouts, |vouts|);
    for i := 0 to |vouts|
      invariant |rows| == |vouts|
      invariant forall j :: 0 <= j < |rows| ==> rows[j] == if j < i then RowOf(vouts[j], false) else flagged[j]
      invariant Totals(sum, sum, to, codes) == Tally(vouts, all, i)
    {
      to := AddTo(to, vouts[i].addrs);
      codes := codes + [vouts[i].code];
      rows := rows[i := rows[i].(change := false)];
      sum := sum + vouts[i].sats;
    }
    assert rows == all;
    TallyIsAll(vouts, rows);
  }

  // The sums are sums.
  lemma {:induction false} SumsAdd(a: seq<Row>, b: seq<Row>)
    ensures Sum(a + b) == Sum(a) + Sum(b) && Unflagged(a + b) == Unflagged(a) + Unflagged(b)
  {
    if b == [] {
      assert a + b == a;
    } else {
      var before, r := b[..|b| - 1], b[|b| - 1];
      SumsAdd(a, before);
      assert (a + b)[..|a + b| - 1] == a + before && (a + b)[|a + b| - 1] == r;
    }
  }

  lemma OneRow(r: Row)
    ensures Sum([r]) == r.sats && Unflagged([r]) == if r.change then 0 else r.sats
  {
    assert [r][..0] == [];
  }
}
