/** The script type of a transaction (internal/explorer/tx.go:651-690). Codes are opaque strings; the empty
    one means "not classified". */
module TxType {

  function Count(codes: seq<string>, c: string): nat {
    if codes == [] then 0
    else Count(codes[..|codes| - 1], c) + if codes[|codes| - 1] == c then 1 else 0
  }

  // `c` first turns up at `i`.
  ghost predicate FirstAt(codes: seq<string>, c: string, i: nat) {
    i < |codes| && codes[i] == c && forall j :: 0 <= j < i ==> codes[j] != c
  }

  // `a` beats `b`: more of it, or as much and seen earlier.
  ghost predicate Beats(codes: seq<string>, a: string, b: string) {
    || Count(codes, a) > Count(codes, b)
    || (Count(codes, a) == Count(codes, b)
        && exists i, j :: FirstAt(codes, a, i) && FirstAt(codes, b, j) && i < j)
  }

  // The most frequent classified code, earliest on ties; nothing when nothing is classified.
  ghost predicate IsDominant(codes: seq<string>, best: string) {
    && (best == "" <==> forall c :: c in codes ==> c == "")
    && (best != "" ==> best in codes)
    && forall c :: c in codes && c != "" && c != best ==> Beats(codes, best, c)
  }

  lemma DominantUnique(codes: seq<string>, a: string, b: string)
    requires IsDominant(codes, a) && IsDominant(codes, b)
    ensures a == b
  {
  }

  // What the loop knows after the first `n` codes.
  ghost predicate Counted(codes: seq<string>, n: nat, counts: map<string, nat>, firstAt: map<string, nat>)
    requires n <= |codes|
  {
    && counts.Keys == firstAt.Keys
    && (forall c :: c in counts <==> c != "" && Count(codes[..n], c) > 0)
    && (forall c :: c in counts ==> counts[c] == Count(codes[..n], c))
    && (forall c :: c in firstAt ==> FirstAt(codes, c, firstAt[c]) && firstAt[c] < n)
  }

  ghost predicate Leads(counts: map<string, nat>, firstAt: map<string, nat>, best: string, bestCount: nat)
    requires counts.Keys == firstAt.Keys
  {
    if counts == map[] then best == "" && bestCount == 0
    else
      && best in counts && bestCount == counts[best]
      && forall c :: c in counts && c != best ==>
           counts[c] < bestCount || (counts[c] == bestCount && firstAt[best] < firstAt[c])
  }

  lemma CountNext(codes: seq<string>, n: nat, c: string)
    requires n < |codes|
    ensures Count(codes[..n + 1], c) == Count(codes[..n], c) + if codes[n] == c then 1 else 0
  {
    assert codes[..n + 1][..n] == codes[..n];
  }

  lemma CountedNext(codes: seq<string>, n: nat, counts: map<string, nat>, firstAt: map<string, nat>)
    requires n < |codes| && Counted(codes, n, counts, firstAt)
    ensures var c := codes[n];
            && (c == "" ==> Counted(codes, n + 1, counts, firstAt))
            && (c != "" ==> Counted(codes, n + 1, Bumped(counts, c), Noted(firstAt, c, n)))
  {
    forall c ensures Count(codes[..n + 1], c) == Count(codes[..n], c) + if codes[n] == c then 1 else 0 {
      CountNext(codes, n, c);
    }
    FirstHere(codes, n);
  }

  lemma {:induction false} CountMember(codes: seq<string>, c: string)
    ensures Count(codes, c) > 0 <==> c in codes
  {
    if codes != [] {
      CountMember(codes[..|codes| - 1], c);
      assert codes == codes[..|codes| - 1] + [codes[|codes| - 1]];
    }
  }

  // A code not counted before first turns up here.
  lemma FirstHere(codes: seq<string>, n: nat)
    requires n < |codes|
    ensures Count(codes[..n], codes[n]) == 0 ==> FirstAt(codes, codes[n], n)
  {
    CountMember(codes[..n], codes[n]);
    forall j | 0 <= j < n && codes[j] == codes[n] ensures codes[n] in codes[..n] {
      assert codes[..n][j] == codes[n];
    }
  }

  function Bumped(counts: map<string, nat>, c: string): map<string, nat> {
    counts[c := (if c in counts then counts[c] else 0) + 1]
  }

  function Noted(firstAt: map<string, nat>, c: string, n: nat): map<string, nat> {
    if c in firstAt then firstAt else firstAt[c := n]
  }

  // First places differ, and all lie before `n`.
  ghost predicate Apart(firstAt: map<string, nat>, n: nat) {
    && (forall d :: d in firstAt ==> firstAt[d] < n)
    && (forall a, b :: a in firstAt && b in firstAt && a != b ==> firstAt[a] != firstAt[b])
  }

  lemma FirstsApart(codes: seq<string>, n: nat, counts: map<string, nat>, firstAt: map<string, nat>)
    requires n <= |codes| && Counted(codes, n, counts, firstAt)
    ensures Apart(firstAt, n)
  {
  }

  // Only the code just counted can overtake.
  lemma LeadsNext(counts: map<string, nat>, firstAt: map<string, nat>, best: string, bestCount: nat, c: string, n: nat)
    requires counts.Keys == firstAt.Keys && Leads(counts, firstAt, best, bestCount)
    requires Apart(firstAt, n)
    ensures var (m, f) := (Bumped(counts, c), Noted(firstAt, c, n));
            if Overtakes(m, f, best, bestCount, c) then Leads(m, f, c, m[c]) else Leads(m, f, best, bestCount)
  {
  }

  // Whether the code just counted overtakes the leader.
  predicate Overtakes(counts: map<string, nat>, firstAt: map<string, nat>, best: string, bestCount: nat, c: string)
    requires c in counts && c in firstAt
  {
    || counts[c] > bestCount
    || (counts[c] == bestCount && firstAt[c] < if best in firstAt then firstAt[best] else 0)
  }

  lemma StepLeads(codes: seq<string>, i: nat, counts: map<string, nat>, firstAt: map<string, nat>,
                  best: string, bestCount: nat)
    requires i < |codes| && codes[i] != ""
    requires Counted(codes, i, counts, firstAt) && Leads(counts, firstAt, best, bestCount)
    ensures var (c, m, f) := (codes[i], Bumped(counts, codes[i]), Noted(firstAt, codes[i], i));
            && Counted(codes, i + 1, m, f)
            && (if Overtakes(m, f, best, bestCount, c) then Leads(m, f, c, m[c]) else Leads(m, f, best, bestCount))
  {
    CountedNext(codes, i, counts, firstAt);
    FirstsApart(codes, i, counts, firstAt);
    LeadsNext(counts, firstAt, best, bestCount, codes[i], i);
  }

  method DominantCode(codes: seq<string>) returns (best: string)
    ensures IsDominant(codes, best)
  {
    var counts: map<string, nat>, firstAt: map<string, nat> := map[], map[];
    var bestCount: nat := 0;
    best := "";
    for i := 0 to |codes|
      invariant Counted(codes, i, counts, firstAt) && Leads(counts, firstAt, best, bestCount)
    {
      var c := codes[i];
      if c == "" {
        CountedNext(codes, i, counts, firstAt);
        continue;
      }
      StepLeads(codes, i, counts, firstAt, best, bestCount);
      firstAt := Noted(firstAt, c, i);
      counts := Bumped(counts, c);
      if Overtakes(counts, firstAt, best, bestCount, c) {
        best, bestCount := c, counts[c];
      }
    }
    LeaderDominates(codes, counts, firstAt, best, bestCount);
  }

  lemma LeaderDominates(codes: seq<string>, counts: map<string, nat>, firstAt: map<string, nat>,
                        best: string, bestCount: nat)
    requires Counted(codes, |codes|, counts, firstAt) && Leads(counts, firstAt, best, bestCount)
    ensures IsDominant(codes, best)
  {
    assert codes[..|codes|] == codes;
    forall c ensures c in counts <==> c != "" && c in codes {
      CountMember(codes, c);
    }
    forall c | c in codes && c != "" && c != best ensures Beats(codes, best, c) {
      assert c in counts && FirstAt(codes, best, firstAt[best]) && FirstAt(codes, c, firstAt[c]);
    }
  }

  datatype TxType = TxType(code: string, inCode: string, outCode: string)

  // The headline is the dominant input code, else the dominant output code; none when neither classifies.
  method DeriveTxType(inCodes: seq<string>, outCodes: seq<string>) returns (unclassified: bool, t: TxType)
    ensures IsDominant(inCodes, t.inCode) && IsDominant(outCodes, t.outCode)
    ensures t.code == if t.inCode != "" then t.inCode else t.outCode
    ensures unclassified <==> forall c :: c in inCodes + outCodes ==> c == ""
  {
    var i := DominantCode(inCodes);
    var o := DominantCode(outCodes);
    t := TxType(if i == "" then o else i, i, o);
    unclassified := t.code == "";
    assert forall c :: c in inCodes + outCodes <==> c in inCodes || c in outCodes;
  }

  // ---------- what the count means ----------

  // The places of a code.
  ghost function Places(codes: seq<string>, c: string): set<nat> {
    set i: nat | i < |codes| && codes[i] == c
  }

  lemma {:induction false} CountIsPlaces(codes: seq<string>, c: string)
    ensures Count(codes, c) == |Places(codes, c)|
  {
    if codes != [] {
      var i := |codes| - 1;
      CountIsPlaces(codes[..i], c);
      assert Places(codes, c) == Places(codes[..i], c) + if codes[i] == c then {i} else {};
    }
  }
}
