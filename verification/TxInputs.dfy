/** Resolving inputs through the outpoint cache, and the whole derivation of a transaction
    (internal/explorer/tx.go:246-320 and 460-500).

    What a txid's outputs are never changes (`ledger`); in any one call the node answers for some txids
    (`node`). */
module TxInputs {
  import opened Options
  import opened Common
  import opened Lru
  import opened LruHistory
  import opened TxOutputs
  import TxType

  const PREVOUT_CACHE: nat := 4096

  type Txid = string

  datatype OutPoint = OutPoint(txid: Txid, index: nat)

  // A parent's output: what an input is worth, to whom, and its script type.
  type Ledger = map<Txid, seq<Vout>>

  predicate Resolvable(l: Ledger, o: OutPoint) {
    o.txid in l && o.index < |l[o.txid]|
  }

  function Resolve(l: Ledger, o: OutPoint): Vout {
    if Resolvable(l, o) then l[o.txid][o.index] else Vout([], 0, "")
  }

  function ResolveAll(l: Ledger, os: seq<OutPoint>): seq<Vout> {
    seq(|os|, i requires 0 <= i < |os| => Resolve(l, os[i]))
  }

  ghost predicate CacheTrue(l: Ledger, s: seq<Pair<OutPoint, Vout>>) {
    forall p :: p in s ==> Resolvable(l, p.key) && p.val == Resolve(l, p.key)
  }

  // The node's answers agree with the ledger.
  ghost predicate Part(node: Ledger, l: Ledger) {
    forall t :: t in node ==> t in l && node[t] == l[t]
  }

  // What a cache miss is answered with.
  ghost function Fetch(l: Ledger): OutPoint -> Vout {
    o => Resolve(l, o)
  }

  // The parent to ask for, if the cache does not have the output.
  ghost function Absent(s: seq<Pair<OutPoint, Vout>>, o: OutPoint): set<Txid> {
    if Lookup(s, o).None? then {o.txid} else {}
  }

  // One input looked at: reads made for what the cache and the parents at hand lack, and what is at hand then.
  ghost predicate Asked(absent: set<Txid>, had: set<Txid>, has: set<Txid>, readCount: nat, found: bool) {
    readCount == |absent - had| && (found ==> has == had + absent)
  }

  lemma NothingAsked(had: set<Txid>)
    ensures Asked({}, had, had, 0, true)
  {
    assert {} - had == {};
  }

  lemma NewParent(t: Txid, had: set<Txid>)
    ensures |{t} - had| == if t in had then 0 else 1
    ensures t in had ==> had + {t} == had
  {
    assert {t} - had == if t in had then {} else {t};
  }

  // The parents of the inputs that the cache, starting with `s`, does not have when their turn comes.
  ghost function Missed(l: Ledger, s: seq<Pair<OutPoint, Vout>>, os: seq<OutPoint>): set<Txid> {
    if os == [] then {}
    else
      var before, o := os[..|os| - 1], os[|os| - 1];
      Missed(l, s, before)
      + Absent(RequestAll(s, PREVOUT_CACHE, Fetch(l), before), o)
  }

  function Parents(os: seq<OutPoint>): set<Txid> {
    set o | o in os :: o.txid
  }

  // The first `i` inputs are resolved.
  ghost predicate ResolvedTo(l: Ledger, os: seq<OutPoint>, i: nat, vs: seq<Vout>) {
    i <= |os| && |vs| == i && forall j :: 0 <= j < i ==> Resolvable(l, os[j]) && vs[j] == Resolve(l, os[j])
  }

  lemma ResolvedNext(l: Ledger, os: seq<OutPoint>, i: nat, vs: seq<Vout>)
    requires ResolvedTo(l, os, i, vs) && i < |os| && Resolvable(l, os[i])
    ensures ResolvedTo(l, os, i + 1, vs + [Resolve(l, os[i])])
  {
  }

  lemma ResolvedWhole(l: Ledger, os: seq<OutPoint>, vs: seq<Vout>)
    requires ResolvedTo(l, os, |os|, vs)
    ensures vs == ResolveAll(l, os) && forall i :: 0 <= i < |os| ==> Resolvable(l, os[i])
  {
  }

  lemma RequestTrue(l: Ledger, s: seq<Pair<OutPoint, Vout>>, o: OutPoint)
    requires Distinct(s) && CacheTrue(l, s)
    ensures Lookup(s, o).Some? ==> Resolvable(l, o) && Lookup(s, o).value == Resolve(l, o)
    ensures CacheTrue(l, GetSpec(s, o))
    ensures Resolvable(l, o) ==> CacheTrue(l, PutSpec(s, PREVOUT_CACHE, o, Resolve(l, o)))
    ensures Request(s, PREVOUT_CACHE, Fetch(l), o) ==
            if Lookup(s, o).Some? then GetSpec(s, o) else PutSpec(s, PREVOUT_CACHE, o, Resolve(l, o))
  {
    LookupSound(s, o);
    WithoutKeeps(s, o);
  }

  class Resolver {
    ghost const ledger: Ledger
    const prevouts: LruCache<OutPoint, Vout>

    ghost predicate Valid()
      reads this, prevouts, prevouts.order
    {
      && prevouts.Valid() && prevouts.cap == PREVOUT_CACHE
      && Distinct(prevouts.Contents()) && CacheTrue(ledger, prevouts.Contents())
    }

    constructor (ghost ledger: Ledger)
      ensures Valid() && this.ledger == ledger && fresh(prevouts) && prevouts.Contents() == []
    {
      this.ledger := ledger;
      prevouts := new LruCache(PREVOUT_CACHE);
    }

    // One input: from the cache, else from its parent, read unless this call already has it.
    method ResolveOne(o: OutPoint, node: Ledger, parents: Ledger)
      returns (v: Option<Vout>, parents': Ledger, readCount: nat)
      requires Valid() && Part(node, ledger) && Part(parents, node)
      modifies prevouts, prevouts.order
      ensures Valid() && forall x :: x in prevouts.order ==> x in old(prevouts.order) || fresh(x)
      ensures v.Some? ==> v.value == Resolve(ledger, o) && Resolvable(ledger, o)
      ensures v.None? ==> !Resolvable(node, o)
      ensures v.Some? ==> prevouts.Contents() == Request(old(prevouts.Contents()), PREVOUT_CACHE, Fetch(ledger), o)
      ensures Part(parents', node)
      ensures Asked(Absent(old(prevouts.Contents()), o), parents.Keys, parents'.Keys, readCount, v.Some?)
    {
      parents', readCount := parents, 0;
      v := Cached(o);
      if v.Some? {
        NothingAsked(parents.Keys);
      } else {
        v, parents', readCount := ResolveMiss(o, node, parents);
      }
    }

    // An input the cache does not have.
    method ResolveMiss(o: OutPoint, node: Ledger, parents: Ledger)
      returns (v: Option<Vout>, parents': Ledger, readCount: nat)
      requires Valid() && Part(node, ledger) && Part(parents, node) && Lookup(prevouts.Contents(), o).None?
      modifies prevouts, prevouts.order
      ensures Valid() && forall x :: x in prevouts.order ==> x in old(prevouts.order) || fresh(x)
      ensures v.Some? ==> v.value == Resolve(ledger, o) && Resolvable(ledger, o)
      ensures v.None? ==> !Resolvable(node, o)
      ensures v.Some? ==> prevouts.Contents() == Request(old(prevouts.Contents()), PREVOUT_CACHE, Fetch(ledger), o)
      ensures Part(parents', node) && Asked({o.txid}, parents.Keys, parents'.Keys, readCount, v.Some?)
    {
      v := None;
      parents', readCount := Parent(o.txid, node, parents);
      if o.txid !in parents' || o.index >= |parents'[o.txid]| {
        return;
      }
      v := Some(parents'[o.txid][o.index]);
      Remember(o, v.value);
    }

    // The parent's outputs join `parents` if they are not there yet and the node has them.
    method Parent(t: Txid, node: Ledger, parents: Ledger) returns (parents': Ledger, readCount: nat)
      requires Part(parents, node)
      ensures Part(parents', node) && (t in node ==> t in parents')
      ensures Asked({t}, parents.Keys, parents'.Keys, readCount, t in parents')
    {
      NewParent(t, parents.Keys);
      parents', readCount := parents, 0;
      if t !in parents {
        readCount := 1;
        if t in node {
          parents' := parents[t := node[t]];
        }
      }
    }

    method Cached(o: OutPoint) returns (v: Option<Vout>)
      requires Valid()
      modifies prevouts
      ensures Valid()
      ensures if v.None? then prevouts.order == old(prevouts.order)
              else forall x :: x in prevouts.order <==> x in old(prevouts.order)
      ensures v == Lookup(old(prevouts.Contents()), o)
      ensures v.Some? ==> Resolvable(ledger, o) && v.value == Resolve(ledger, o)
      ensures prevouts.Contents() ==
              if v.None? then old(prevouts.Contents())
              else Request(old(prevouts.Contents()), PREVOUT_CACHE, Fetch(ledger), o)
    {
      RequestTrue(ledger, prevouts.Contents(), o);
      v := prevouts.Get(o);
      LinkedDistinct(prevouts.order, prevouts.items);
    }

    method Remember(o: OutPoint, v: Vout)
      requires Valid() && Resolvable(ledger, o) && v == Resolve(ledger, o)
      requires Lookup(prevouts.Contents(), o).None?
      modifies prevouts, prevouts.order
      ensures Valid() && forall x :: x in prevouts.order ==> x in old(prevouts.order) || fresh(x)
      ensures prevouts.Contents() == Request(old(prevouts.Contents()), PREVOUT_CACHE, Fetch(ledger), o)
    {
      RequestTrue(ledger, prevouts.Contents(), o);
      prevouts.Put(o, v);
      LinkedDistinct(prevouts.order, prevouts.items);
    }

    // Every input resolved in order, as if nothing were cached; exactly the parents of uncached inputs are
    // read, each once. It can only fail on an input the node cannot resolve.
    method ResolvePrevouts(os: seq<OutPoint>, node: Ledger) returns (out: Option<seq<Vout>>, readCount: nat)
      requires Valid() && Part(node, ledger)
      modifies prevouts, prevouts.order
      ensures Valid()
      ensures out.Some? ==>
                out.value == ResolveAll(ledger, os) && forall i :: 0 <= i < |os| ==> Resolvable(ledger, os[i])
      ensures out.None? ==> exists i :: 0 <= i < |os| && !Resolvable(node, os[i])
      ensures out.Some? ==>
                && prevouts.Contents() == RequestAll(old(prevouts.Contents()), PREVOUT_CACHE, Fetch(ledger), os)
                && readCount == |Missed(ledger, old(prevouts.Contents()), os)|
      ensures readCount <= |Parents(os)|
    {
      ghost var was := prevouts.Contents();
      var vs: seq<Vout>, parents: Ledger := [], map[];
      readCount := 0;
      for i := 0 to |os|
        invariant Valid() && forall x :: x in prevouts.order ==> x in old(prevouts.order) || fresh(x)
        invariant Part(parents, node) && ResolvedTo(ledger, os, i, vs)
        invariant Served(was, os, i, prevouts.Contents(), parents.Keys, readCount)
      {
        ghost var had, now := parents.Keys, prevouts.Contents();
        var v, more;
        v, parents, more := ResolveOne(os[i], node, parents);
        ServedNext(was, os, i, now, had, readCount, prevouts.Contents(), parents.Keys, more, v.Some?);
        readCount := readCount + more;
        if v.None? {
          return None, readCount;
        }
        ResolvedNext(ledger, os, i, vs);
        vs := vs + [v.value];
      }
      ResolvedWhole(ledger, os, vs);
      assert os[..|os|] == os;
      SubsetSize(parents.Keys, Parents(os));
      out := Some(vs);
    }

    // The cache, the parents at hand and the reads made, after the first `i` inputs.
    ghost predicate Served(was: seq<Pair<OutPoint, Vout>>, os: seq<OutPoint>, i: nat,
                           now: seq<Pair<OutPoint, Vout>>, had: set<Txid>, readCount: nat)
      requires i <= |os|
    {
      && now == RequestAll(was, PREVOUT_CACHE, Fetch(ledger), os[..i])
      && had == Missed(ledger, was, os[..i]) && had <= Parents(os) && readCount == |had|
    }

    lemma ServedNext(was: seq<Pair<OutPoint, Vout>>, os: seq<OutPoint>, i: nat,
                     now: seq<Pair<OutPoint, Vout>>, had: set<Txid>, readCount: nat,
                     now': seq<Pair<OutPoint, Vout>>, has: set<Txid>, more: nat, found: bool)
      requires i < |os| && Served(was, os, i, now, had, readCount)
      requires Asked(Absent(now, os[i]), had, has, more, found)
      requires found ==> now' == Request(now, PREVOUT_CACHE, Fetch(ledger), os[i])
      ensures found ==> Served(was, os, i + 1, now', has, readCount + more)
      ensures readCount + more <= |Parents(os)|
    {
      var absent := Absent(now, os[i]);
      assert os[..i + 1][..i] == os[..i];
      assert had + absent == had + (absent - had);
      assert os[i].txid in Parents(os);
      SubsetSize(had + absent, Parents(os));
    }
  }

  // ---------- the whole transaction ----------

  datatype Tx = Tx(inputs: seq<Row>, from: seq<Addr>, outputs: Outputs, txType: TxType.TxType)

  // The addresses of the inputs, in order, repeats included.
  function Senders(ins: seq<Vout>): seq<Addr> {
    if ins == [] then [] else Senders(ins[..|ins| - 1]) + ins[|ins| - 1].addrs
  }

  function InputRows(ins: seq<Vout>): seq<Row> {
    seq(|ins|, i requires 0 <= i < |ins| => RowOf(ins[i], false))
  }

  function InputCodes(ins: seq<Vout>): seq<string> {
    seq(|ins|, i requires 0 <= i < |ins| => ins[i].code)
  }

  ghost function Members(s: seq<Addr>): set<Addr> {
    set a | a in s
  }

  // The derivation of a transaction whose inputs are worth `ins` (none for a coinbase).
  ghost predicate IsTx(t: Tx, ins: seq<Vout>, vouts: seq<Vout>, coinbase: bool) {
    && t.inputs == InputRows(ins)
    && t.from == Dedup(Senders(ins))
    && IsOutputs(t.outputs, Members(Senders(ins)), coinbase, vouts, Sum(t.inputs))
    && TxType.IsDominant(InputCodes(ins), t.txType.inCode)
    && TxType.IsDominant(t.outputs.codes, t.txType.outCode)
    && t.txType.code == if t.txType.inCode != "" then t.txType.inCode else t.txType.outCode
  }

  method DeriveTx(r: Resolver, node: Ledger, vin: seq<OutPoint>, vouts: seq<Vout>, coinbase: bool)
    returns (t: Option<Tx>)
    requires r.Valid() && Part(node, r.ledger)
    modifies r.prevouts, r.prevouts.order
    ensures r.Valid()
    ensures t.Some? ==> IsTx(t.value, if coinbase then [] else ResolveAll(r.ledger, vin), vouts, coinbase)
    ensures t.None? ==> !coinbase && exists i :: 0 <= i < |vin| && !Resolvable(node, vin[i])
  {
    var ins: seq<Vout> := [];
    if !coinbase {
      var resolved, _ := r.ResolvePrevouts(vin, node);
      if resolved.None? {
        return None;
      }
      ins := resolved.value;
    }
    var derived := DeriveFrom(ins, vouts, coinbase);
    return Some(derived);
  }

  method DeriveFrom(ins: seq<Vout>, vouts: seq<Vout>, coinbase: bool) returns (t: Tx)
    ensures IsTx(t, ins, vouts, coinbase)
  {
    var sumIn, rows, codes, from := DeriveInputs(ins);
    DedupIs(Senders(ins));
    var fromSet := set a | a in from;
    assert fromSet == Members(Senders(ins));
    var outputs := DeriveOutputs(fromSet, vouts, coinbase, sumIn);
    var _, txType := TxType.DeriveTxType(codes, outputs.codes);
    t := Tx(rows, from, outputs, txType);
  }

  // The running totals of a pass over these inputs.
  ghost predicate Gathered(ins: seq<Vout>, sumIn: int, rows: seq<Row>, codes: seq<string>, from: seq<Addr>) {
    rows == InputRows(ins) && sumIn == Sum(rows) && codes == InputCodes(ins) && from == Dedup(Senders(ins))
  }

  lemma GatherNext(ins: seq<Vout>, v: Vout, sumIn: int, rows: seq<Row>, codes: seq<string>, from: seq<Addr>)
    requires Gathered(ins, sumIn, rows, codes, from)
    ensures var row := RowOf(v, false);
            Gathered(ins + [v], sumIn + v.sats, rows + [row], codes + [v.code], Dedup(Senders(ins) + v.addrs))
  {
    assert (ins + [v])[..|ins|] == ins;
    assert (rows + [RowOf(v, false)])[..|rows|] == rows;
    assert InputRows(ins + [v]) == rows + [RowOf(v, false)];
    assert InputCodes(ins + [v]) == codes + [v.code];
  }

  method DeriveInputs(ins: seq<Vout>) returns (sumIn: int, rows: seq<Row>, codes: seq<string>, from: seq<Addr>)
    ensures Gathered(ins, sumIn, rows, codes, from)
  {
    sumIn, rows, codes, from := 0, [], [], [];
    for i := 0 to |ins|
      invariant Gathered(ins[..i], sumIn, rows, codes, from)
    {
      var v := ins[i];
      GatherNext(ins[..i], v, sumIn, rows, codes, from);
      assert ins[..i + 1] == ins[..i] + [v];
      from := AddSeen(from, Senders(ins[..i]), v.addrs);
      sumIn, rows, codes := sumIn + v.sats, rows + [RowOf(v, false)], codes + [v.code];
    }
    assert ins[..|ins|] == ins;
  }

  // Adds the senders not seen yet.
  method AddSeen(from: seq<Addr>, ghost all: seq<Addr>, addrs: seq<Addr>) returns (from': seq<Addr>)
    requires from == Dedup(all)
    ensures from' == Dedup(all + addrs)
  {
    from' := from;
    for i := 0 to |addrs|
      invariant from' == AddAll(from, addrs, i)
    {
      if addrs[i] !in from' {
        from' := from' + [addrs[i]];
      }
    }
    AddAllIsDedup(all, addrs, |addrs|);
    assert addrs[..|addrs|] == addrs;
  }

  // Nothing is lost: what goes in comes out or is the fee, and the headline amount is what the rows not
  // flagged as change say.
  lemma Conservation(t: Tx, ins: seq<Vout>, vouts: seq<Vout>, coinbase: bool)
    requires IsTx(t, ins, vouts, coinbase)
    ensures coinbase ==> t.outputs.fee.None?
    ensures !coinbase ==> t.outputs.fee.Some? && Sum(t.inputs) == Sum(t.outputs.rows) + t.outputs.fee.value
    ensures t.outputs.amount + Flags(t.outputs.rows) == Sum(t.outputs.rows)
  {
    FlagsAndRest(t.outputs.rows);
  }

  // The headline never counts nothing: a transaction with outputs has one that is not flagged.
  lemma SomeOutputCounts(t: Tx, ins: seq<Vout>, vouts: seq<Vout>, coinbase: bool)
    requires IsTx(t, ins, vouts, coinbase) && vouts != []
    ensures exists i :: 0 <= i < |t.outputs.rows| && !t.outputs.rows[i].change
  {
    var from := Members(Senders(ins));
    if SelfSend(from, coinbase, vouts) {
      assert !t.outputs.rows[0].change;
    } else {
      var v :| v in vouts && !IsChange(from, coinbase, v);
      var i :| 0 <= i < |vouts| && vouts[i] == v;
      assert !t.outputs.rows[i].change;
    }
  }

  // The sum of the rows flagged as change.
  function Flags(rows: seq<Row>): int {
    if rows == [] then 0
    else Flags(rows[..|rows| - 1]) + if rows[|rows| - 1].change then rows[|rows| - 1].sats else 0
  }

  lemma {:induction false} FlagsAndRest(rows: seq<Row>)
    ensures Unflagged(rows) + Flags(rows) == Sum(rows)
  {
    if rows != [] {
      FlagsAndRest(rows[..|rows| - 1]);
    }
  }

  // ---------- what a derived transaction says ----------

  ghost predicate Lists(ins: seq<Vout>, a: Addr) {
    exists i :: 0 <= i < |ins| && a in ins[i].addrs
  }

  lemma ListsNext(ins: seq<Vout>, v: Vout, a: Addr)
    ensures Lists(ins + [v], a) <==> Lists(ins, a) || a in v.addrs
  {
    var more := ins + [v];
    assert more[|ins|] == v && forall i :: 0 <= i < |ins| ==> more[i] == ins[i];
  }

  lemma {:induction false} SendersAre(ins: seq<Vout>, a: Addr)
    ensures a in Senders(ins) <==> Lists(ins, a)
  {
    if ins != [] {
      var before, v := ins[..|ins| - 1], ins[|ins| - 1];
      SendersAre(before, a);
      ListsNext(before, v, a);
      assert ins == before + [v];
    }
  }

  // An output that goes back to the inputs' addresses, and only to them.
  ghost predicate GoesBack(ins: seq<Vout>, v: Vout) {
    v.addrs != [] && forall a :: a in v.addrs ==> Lists(ins, a)
  }

  // A row is change if and only if the transaction is not a coinbase, the output goes back to the inputs'
  // addresses alone, and some other output does not.
  lemma ChangeIs(t: Tx, ins: seq<Vout>, vouts: seq<Vout>, coinbase: bool, i: nat)
    requires IsTx(t, ins, vouts, coinbase) && i < |vouts|
    ensures |t.outputs.rows| == |vouts|
    ensures t.outputs.rows[i].change <==>
            && !coinbase && GoesBack(ins, vouts[i])
            && exists j :: 0 <= j < |vouts| && !GoesBack(ins, vouts[j])
  {
    var from := Members(Senders(ins));
    forall v ensures IsChange(from, coinbase, v) <==> !coinbase && GoesBack(ins, v) {
      forall a ensures a in from <==> Lists(ins, a) {
        SendersAre(ins, a);
      }
    }
    if !SelfSend(from, coinbase, vouts) {
      var v :| v in vouts && !IsChange(from, coinbase, v);
      var j :| 0 <= j < |vouts| && vouts[j] == v;
      assert coinbase || !GoesBack(ins, vouts[j]);
    } else if j :| 0 <= j < |vouts| && !GoesBack(ins, vouts[j]) {
      assert vouts[j] in vouts;
    }
  }

  // Each row shows its output's value and first address, or a label where it has none; input rows likewise, and
  // none of those is change.
  lemma RowsShow(t: Tx, ins: seq<Vout>, vouts: seq<Vout>, coinbase: bool)
    requires IsTx(t, ins, vouts, coinbase)
    ensures |t.outputs.rows| == |vouts| && |t.inputs| == |ins|
    ensures forall i :: 0 <= i < |vouts| ==> Shows(t.outputs.rows[i], vouts[i])
    ensures forall i :: 0 <= i < |ins| ==> Shows(t.inputs[i], ins[i]) && !t.inputs[i].change
  {
  }

  ghost predicate Shows(row: Row, v: Vout) {
    row.sats == v.sats && row.address == if v.addrs == [] then "(non-standard output)" else v.addrs[0]
  }

  // The output pays this name: one of its addresses, or the label where it has none.
  ghost predicate Names(v: Vout, a: Addr) {
    if v.addrs == [] then a == "(non-standard output)" else a in v.addrs
  }

  ghost predicate PaidIn(vouts: seq<Vout>, rows: seq<Row>, a: Addr)
    requires |vouts| == |rows|
  {
    exists i :: 0 <= i < |vouts| && !rows[i].change && Names(vouts[i], a)
  }

  lemma PaidInNext(vouts: seq<Vout>, rows: seq<Row>, v: Vout, r: Row, a: Addr)
    requires |vouts| == |rows|
    ensures PaidIn(vouts + [v], rows + [r], a) <==> PaidIn(vouts, rows, a) || (!r.change && Names(v, a))
  {
    var (vs, rs, k) := (vouts + [v], rows + [r], |vouts|);
    assert vs[k] == v && rs[k] == r && forall i :: 0 <= i < k ==> vs[i] == vouts[i] && rs[i] == rows[i];
  }

  lemma {:induction false} RecipientsAre(vouts: seq<Vout>, rows: seq<Row>, a: Addr)
    requires |vouts| == |rows|
    ensures a in Recipients(vouts, rows) <==> PaidIn(vouts, rows, a)
  {
    if rows != [] {
      var k := |rows| - 1;
      RecipientsAre(vouts[..k], rows[..k], a);
      PaidInNext(vouts[..k], rows[..k], vouts[k], rows[k], a);
      assert vouts == vouts[..k] + [vouts[k]] && rows == rows[..k] + [rows[k]];
    }
  }

  // The senders are the inputs' addresses and the recipients those of the outputs that are not change, each
  // named once.
  lemma PartiesAre(t: Tx, ins: seq<Vout>, vouts: seq<Vout>, coinbase: bool)
    requires IsTx(t, ins, vouts, coinbase)
    ensures |t.outputs.rows| == |vouts|
    ensures forall a :: a in t.from <==> Lists(ins, a)
    ensures forall a :: a in t.outputs.to <==> PaidIn(vouts, t.outputs.rows, a)
    ensures NoRepeats(t.from) && NoRepeats(t.outputs.to)
  {
    DedupIs(Senders(ins));
    DedupIs(Recipients(vouts, t.outputs.rows));
    forall a ensures a in t.from <==> Lists(ins, a) {
      SendersAre(ins, a);
    }
    forall a ensures a in t.outputs.to <==> PaidIn(vouts, t.outputs.rows, a) {
      RecipientsAre(vouts, t.outputs.rows, a);
    }
  }

  // The outputs that are not change and have this script type.
  ghost function Counting(vouts: seq<Vout>, rows: seq<Row>, c: string): set<nat>
    requires |vouts| == |rows|
  {
    set i: nat | i < |rows| && !rows[i].change && vouts[i].code == c
  }

  // The output side of the type counts each output that is not change, once.
  lemma {:induction false} CodesCount(vouts: seq<Vout>, rows: seq<Row>, c: string)
    requires |vouts| == |rows|
    ensures TxType.Count(Codes(vouts, rows), c) == |Counting(vouts, rows, c)|
  {
    if rows != [] {
      var k := |rows| - 1;
      var before := Codes(vouts[..k], rows[..k]);
      CodesCount(vouts[..k], rows[..k], c);
      assert Counting(vouts, rows, c) ==
             Counting(vouts[..k], rows[..k], c) + if !rows[k].change && vouts[k].code == c then {k} else {};
      assert (before + [vouts[k].code])[..|before|] == before;
      assert before + [] == before;
    }
  }

  // An outpoint names one output of one transaction.
  lemma ResolvedIs(l: Ledger, os: seq<OutPoint>, i: nat)
    requires i < |os| && Resolvable(l, os[i])
    ensures |ResolveAll(l, os)| == |os|
    ensures os[i].txid in l && os[i].index < |l[os[i].txid]| && ResolveAll(l, os)[i] == l[os[i].txid][os[i].index]
  {
  }

  // The input side of the type counts each input once.
  lemma InputCodesCount(ins: seq<Vout>, c: string)
    ensures TxType.Count(InputCodes(ins), c) == |set i: nat | i < |ins| && ins[i].code == c|
  {
    TxType.CountIsPlaces(InputCodes(ins), c);
    assert TxType.Places(InputCodes(ins), c) == set i: nat | i < |ins| && ins[i].code == c;
  }
}
