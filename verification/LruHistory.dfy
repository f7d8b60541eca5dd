/** What the cache achieves over whole histories of use (internal/explorer/cache.go:31-66). */
module LruHistory {
  import opened Options
  import opened Lru
  import opened Common

  // ---------- any history of get, put and clear ----------

  datatype Op<+K, +V> = Get(key: K) | Put(key: K, val: V) | Clear

  function Run<K(==), V>(ops: seq<Op<K, V>>, cap: nat): seq<Pair<K, V>> {
    if ops == [] then []
    else
      var s := Run(ops[..|ops| - 1], cap);
      match ops[|ops| - 1]
      case Get(k) => GetSpec(s, k)
      case Put(k, v) => PutSpec(s, cap, k, v)
      case Clear => []
  }

  // The value most recently put under `k`, if no clear came after it.
  function LastPut<K(==), V>(ops: seq<Op<K, V>>, k: K): Option<V> {
    if ops == [] then None
    else
      match ops[|ops| - 1]
      case Get(_) => LastPut(ops[..|ops| - 1], k)
      case Put(k', v) => if k' == k then Some(v) else LastPut(ops[..|ops| - 1], k)
      case Clear => None
  }

  lemma {:induction false} LookupSound<K(!new), V(!new)>(s: seq<Pair<K, V>>, k: K)
    ensures Lookup(s, k) == None <==> forall i :: 0 <= i < |s| ==> s[i].key != k
    ensures Lookup(s, k).Some? ==> Pair(k, Lookup(s, k).value) in s
  {
    if s != [] {
      LookupSound(s[1..], k);
      if Lookup(s, k).Some? && s[0].key != k {
        assert Pair(k, Lookup(s, k).value) in s[1..];
      }
      assert forall i :: 0 <= i < |s| ==> s[i] == if i == 0 then s[0] else s[1..][i - 1];
      assert forall i :: 0 <= i < |s| - 1 ==> s[1..][i] == s[i + 1];
    }
  }

  lemma DroppedAt<K(!new), V(!new)>(s: seq<Pair<K, V>>, i: nat)
    requires Distinct(s) && i < |s|
    ensures var w := s[..i] + s[i + 1..];
            Distinct(w) && forall p :: p in w <==> p in s && p.key != s[i].key
  {
    var w := s[..i] + s[i + 1..];
    assert forall j :: 0 <= j < |w| ==> w[j] == s[if j < i then j else j + 1];
    forall p | p in s && p.key != s[i].key ensures p in w {
      var j :| 0 <= j < |s| && s[j] == p;
      assert w[if j < i then j else j - 1] == p;
    }
  }

  lemma InFront<K(!new), V(!new)>(p: Pair<K, V>, s: seq<Pair<K, V>>)
    requires Distinct(s) && forall q :: q in s ==> q.key != p.key
    ensures Distinct([p] + s)
  {
    forall j | 0 < j < |s| + 1 ensures ([p] + s)[j] == s[j - 1] && s[j - 1].key != p.key {
      assert s[j - 1] in s;
    }
  }

  // Dropping a key keeps everything else, in order.
  lemma WithoutKeeps<K(!new), V(!new)>(s: seq<Pair<K, V>>, k: K)
    requires Distinct(s)
    ensures Distinct(Without(s, k))
    ensures forall p :: p in Without(s, k) <==> p in s && p.key != k
    ensures forall v :: Distinct([Pair(k, v)] + Without(s, k))
    ensures |Without(s, k)| == |s| - if Lookup(s, k).Some? then 1 else 0
  {
    LookupSound(s, k);
    if i :| 0 <= i < |s| && s[i].key == k {
      WithoutAt(s, i);
      DroppedAt(s, i);
    } else {
      WithoutAbsent(s, k);
    }
    forall v ensures Distinct([Pair(k, v)] + Without(s, k)) {
      InFront(Pair(k, v), Without(s, k));
    }
  }

  // In every history: the bound holds, no key appears twice, and a hit returns the last value put.
  lemma {:induction false} HitReturnsLastPut<K(!new), V(!new)>(ops: seq<Op<K, V>>, cap: nat)
    ensures |Run(ops, cap)| <= cap && Distinct(Run(ops, cap))
    ensures forall k :: Lookup(Run(ops, cap), k).Some? ==> Lookup(Run(ops, cap), k) == LastPut(ops, k)
    ensures forall p :: p in Run(ops, cap) ==> LastPut(ops, p.key) == Some(p.val)
  {
    if ops != [] {
      var before := ops[..|ops| - 1];
      var s := Run(before, cap);
      HitReturnsLastPut(before, cap);
      match ops[|ops| - 1]
      case Get(k) =>
        LookupSound(s, k);
        WithoutKeeps(s, k);
      case Put(k, _) =>
        WithoutKeeps(s, k);
      case Clear =>
    }
    forall k | Lookup(Run(ops, cap), k).Some?
      ensures Lookup(Run(ops, cap), k) == LastPut(ops, k)
    {
      LookupSound(Run(ops, cap), k);
    }
  }

  // ---------- read-through use: fetch and put after every miss ----------

  function ReadThrough<K(==), V>(reqs: seq<K>, cap: nat, fetch: K -> V): seq<Pair<K, V>> {
    if reqs == [] then []
    else Request(ReadThrough(reqs[..|reqs| - 1], cap, fetch), cap, fetch, reqs[|reqs| - 1])
  }

  function Request<K(==), V>(s: seq<Pair<K, V>>, cap: nat, fetch: K -> V, k: K): seq<Pair<K, V>> {
    if Lookup(s, k).Some? then GetSpec(s, k) else PutSpec(s, cap, k, fetch(k))
  }

  // Every key ever requested, most recent request first.
  function Recent<K(==), V>(reqs: seq<K>, fetch: K -> V): seq<Pair<K, V>> {
    if reqs == [] then []
    else
      var k := reqs[|reqs| - 1];
      [Pair(k, fetch(k))] + Without(Recent(reqs[..|reqs| - 1], fetch), k)
  }

  // The distinct keys requested after the last request of `k`.
  ghost function Since<K>(reqs: seq<K>, k: K): set<K> {
    if reqs == [] || reqs[|reqs| - 1] == k then {}
    else Since(reqs[..|reqs| - 1], k) + {reqs[|reqs| - 1]}
  }

  lemma {:induction false} RecentHoldsRequests<K(!new), V(!new)>(reqs: seq<K>, fetch: K -> V)
    ensures Distinct(Recent(reqs, fetch))
    ensures forall p :: p in Recent(reqs, fetch) <==> p.key in reqs && p.val == fetch(p.key)
  {
    if reqs != [] {
      var before, k := reqs[..|reqs| - 1], reqs[|reqs| - 1];
      RecentHoldsRequests(before, fetch);
      WithoutKeeps(Recent(before, fetch), k);
      assert reqs == before + [k];
    }
  }

  lemma TakeCons<T(!new)>(x: T, s: seq<T>, n: nat)
    ensures Take([x] + s, n + 1) == [x] + Take(s, n)
  {
  }

  lemma {:induction false} TakeWithout<K(!new), V(!new)>(s: seq<Pair<K, V>>, n: nat, k: K)
    requires Distinct(s)
    ensures Take(Without(Take(s, n + 1), k), n) == Take(Without(s, k), n)
  {
    if s != [] {
      var x, rest := s[0], s[1..];
      assert s == [x] + rest;
      TakeCons(x, rest, n);
      assert Take(s, n + 1)[1..] == Take(rest, n);
      if x.key == k {
        WithoutAbsent(rest, k);
        WithoutAbsent(Take(rest, n), k);
      } else if n > 0 {
        TakeWithout(rest, n - 1, k);
        TakeCons(x, Without(rest, k), n - 1);
        TakeCons(x, Without(Take(rest, n), k), n - 1);
      }
    }
  }

  // One request on the truncated recency order is the truncation of one request on the whole of it.
  lemma RequestOnTake<K(!new), V(!new)>(all: seq<Pair<K, V>>, cap: nat, fetch: K -> V, k: K)
    requires Distinct(all)
    requires forall p :: p in all ==> p.val == fetch(p.key)
    ensures Request(Take(all, cap), cap, fetch, k) == Take([Pair(k, fetch(k))] + Without(all, k), cap)
  {
    var s, p := Take(all, cap), Pair(k, fetch(k));
    LookupSound(s, k);
    assert Lookup(s, k).Some? ==> Lookup(s, k).value == fetch(k);
    assert Request(s, cap, fetch, k)
        == if Lookup(s, k).Some? then [p] + Without(s, k) else Take([p] + Without(s, k), cap);
    WithoutKeeps(s, k);
    if cap > 0 {
      TakeCons(p, Without(all, k), cap - 1);
      TakeCons(p, Without(s, k), cap - 1);
      TakeWithout(all, cap - 1, k);
    }
  }

  // Under read-through use the cache holds exactly the `cap` most recently requested distinct keys.
  lemma {:induction false} HoldsMostRecent<K(!new), V(!new)>(reqs: seq<K>, cap: nat, fetch: K -> V)
    ensures ReadThrough(reqs, cap, fetch) == Take(Recent(reqs, fetch), cap)
  {
    if reqs != [] {
      var before := reqs[..|reqs| - 1];
      HoldsMostRecent(before, cap, fetch);
      RecentHoldsRequests(before, fetch);
      RequestOnTake(Recent(before, fetch), cap, fetch, reqs[|reqs| - 1]);
    }
  }

  ghost function KeySet<K, V>(s: seq<Pair<K, V>>): set<K> {
    if s == [] then {} else {s[0].key} + KeySet(s[1..])
  }

  lemma {:induction false} KeySetConcat<K(!new), V(!new)>(a: seq<Pair<K, V>>, b: seq<Pair<K, V>>)
    ensures KeySet(a + b) == KeySet(a) + KeySet(b)
  {
    if a == [] {
      assert a + b == b;
    } else {
      KeySetConcat(a[1..], b);
      assert (a + b)[1..] == a[1..] + b;
    }
  }

  // Dropping the key at `at` and putting it in front leaves the key set of a prefix as it was.
  lemma KeySetMoved<K(!new), V(!new)>(s: seq<Pair<K, V>>, at: nat, i: nat)
    requires at < i <= |s|
    ensures KeySet(s[..i]) == {s[at].key} + KeySet(s[..at] + s[at + 1..i])
  {
    assert s[..i] == s[..at] + ([s[at]] + s[at + 1..i]);
    KeySetConcat(s[..at], [s[at]] + s[at + 1..i]);
    KeySetConcat([s[at]], s[at + 1..i]);
    KeySetConcat(s[..at], s[at + 1..i]);
  }

  // Where an entry other than `k` stood before `k` moved to the front.
  lemma PlaceBefore<K(!new), V(!new)>(was: seq<Pair<K, V>>, k: K, i: nat) returns (j: nat)
    requires Distinct(was) && i < |Without(was, k)|
    ensures j < |was| && was[j] == Without(was, k)[i] && was[j].key != k
    ensures {k} + KeySet(Without(was, k)[..i]) == {k} + KeySet(was[..j])
  {
    if at :| 0 <= at < |was| && was[at].key == k {
      j := PlaceBeforeAt(was, at, i);
    } else {
      WithoutAbsent(was, k);
      j := i;
    }
  }

  lemma PlaceBeforeAt<K(!new), V(!new)>(was: seq<Pair<K, V>>, at: nat, i: nat) returns (j: nat)
    requires Distinct(was) && at < |was| && i < |Without(was, was[at].key)|
    ensures j < |was| && was[j] == Without(was, was[at].key)[i] && j != at
    ensures {was[at].key} + KeySet(Without(was, was[at].key)[..i]) == {was[at].key} + KeySet(was[..j])
  {
    WithoutAt(was, at);
    j := if at <= i then i + 1 else i;
    if at <= i {
      KeySetMoved(was, at, j);
      assert (was[..at] + was[at + 1..])[..i] == was[..at] + was[at + 1..j];
    } else {
      assert (was[..at] + was[at + 1..])[..i] == was[..i];
    }
  }

  lemma FrontKeys<K(!new), V(!new)>(p: Pair<K, V>, s: seq<Pair<K, V>>, i: nat)
    requires 0 < i <= |s| + 1
    ensures KeySet(([p] + s)[..i]) == {p.key} + KeySet(s[..i - 1])
  {
    assert ([p] + s)[..i] == [p] + s[..i - 1];
    assert ([p] + s[..i - 1])[1..] == s[..i - 1];
  }

  // The place of a key in the recency order is the number of distinct keys requested since.
  lemma {:induction false} RecencyRank<K(!new), V(!new)>(reqs: seq<K>, fetch: K -> V, i: nat)
    requires i < |Recent(reqs, fetch)|
    ensures Since(reqs, Recent(reqs, fetch)[i].key) == KeySet(Recent(reqs, fetch)[..i])
  {
    if i > 0 {
      var before, k := reqs[..|reqs| - 1], reqs[|reqs| - 1];
      var was, all := Recent(before, fetch), Recent(reqs, fetch);
      RecentHoldsRequests(before, fetch);
      var j := PlaceBefore(was, k, i - 1);
      RecencyRank(before, fetch, j);
      assert all == [Pair(k, fetch(k))] + Without(was, k);
      FrontKeys(Pair(k, fetch(k)), Without(was, k), i);
      assert all[i] == was[j];
    }
  }

  lemma {:induction false} DistinctCount<K(!new), V(!new)>(s: seq<Pair<K, V>>)
    requires Distinct(s)
    ensures |KeySet(s)| == |s|
    ensures forall k :: k in KeySet(s) <==> exists i :: 0 <= i < |s| && s[i].key == k
  {
    if s != [] {
      var rest := s[1..];
      DistinctCount(rest);
      forall k ensures k in KeySet(s) <==> exists i :: 0 <= i < |s| && s[i].key == k {
        if i :| 0 < i < |s| && s[i].key == k {
          assert rest[i - 1].key == k;
        }
        if i :| 0 <= i < |rest| && rest[i].key == k {
          assert s[i + 1].key == k;
        }
      }
      assert s[0].key !in KeySet(rest);
    }
  }

  // The whole story of a hit: a key is found iff fewer than `cap` other keys were asked for since it was.
  lemma HitIffRecent<K(!new), V(!new)>(reqs: seq<K>, cap: nat, fetch: K -> V, k: K)
    ensures Lookup(ReadThrough(reqs, cap, fetch), k).Some? <==> k in reqs && |Since(reqs, k)| < cap
    ensures var found := Lookup(ReadThrough(reqs, cap, fetch), k); found.Some? ==> found.value == fetch(k)
  {
    var all := Recent(reqs, fetch);
    HoldsMostRecent(reqs, cap, fetch);
    RecentHoldsRequests(reqs, fetch);
    LookupSound(Take(all, cap), k);
    if k in reqs {
      var i := PlaceOf(reqs, fetch, k);
      FoundInFront(all, cap, i);
    }
  }

  lemma PlaceOf<K(!new), V(!new)>(reqs: seq<K>, fetch: K -> V, k: K) returns (i: nat)
    requires k in reqs
    ensures i < |Recent(reqs, fetch)| && Recent(reqs, fetch)[i] == Pair(k, fetch(k)) && |Since(reqs, k)| == i
    ensures Distinct(Recent(reqs, fetch))
  {
    var all, p := Recent(reqs, fetch), Pair(k, fetch(k));
    RecentHoldsRequests(reqs, fetch);
    assert p in all;
    i :| 0 <= i < |all| && all[i] == p;
    RecencyRank(reqs, fetch, i);
    DistinctCount(all[..i]);
  }

  lemma FoundInFront<K(!new), V(!new)>(all: seq<Pair<K, V>>, cap: nat, i: nat)
    requires Distinct(all) && i < |all|
    ensures Lookup(Take(all, cap), all[i].key) == if i < cap then Some(all[i].val) else None
  {
    var front := Take(all, cap);
    if i < cap {
      assert front[i] == all[i];
      WithoutAt(front, i);
    } else {
      WithoutAbsent(front, all[i].key);
    }
  }

  // A larger cache never misses where a smaller one hits.
  lemma LargerNeverMissesMore<K(!new), V(!new)>(reqs: seq<K>, small: nat, large: nat, fetch: K -> V, k: K)
    requires small <= large
    requires Lookup(ReadThrough(reqs, small, fetch), k).Some?
    ensures Lookup(ReadThrough(reqs, large, fetch), k) == Lookup(ReadThrough(reqs, small, fetch), k)
  {
    HitIffRecent(reqs, small, fetch, k);
    HitIffRecent(reqs, large, fetch, k);
  }

  // ---------- read-through use from any starting point ----------

  function RequestAll<K(==), V>(s: seq<Pair<K, V>>, cap: nat, fetch: K -> V, reqs: seq<K>): seq<Pair<K, V>> {
    if reqs == [] then s
    else Request(RequestAll(s, cap, fetch, reqs[..|reqs| - 1]), cap, fetch, reqs[|reqs| - 1])
  }

  // How many of the requests had to be fetched.
  function Misses<K(==), V>(s: seq<Pair<K, V>>, cap: nat, fetch: K -> V, reqs: seq<K>): nat {
    if reqs == [] then 0
    else
      Misses(s, cap, fetch, reqs[..|reqs| - 1])
      + if Lookup(RequestAll(s, cap, fetch, reqs[..|reqs| - 1]), reqs[|reqs| - 1]).Some? then 0 else 1
  }

  // `k` is among the first `r + 1` entries.
  ghost predicate Within<K, V>(s: seq<Pair<K, V>>, k: K, r: nat) {
    exists i :: 0 <= i < |s| && i <= r && s[i].key == k
  }

  // A request pushes any other entry back by at most one place.
  lemma RequestPushes<K(!new), V(!new)>(s: seq<Pair<K, V>>, cap: nat, fetch: K -> V, x: K, k: K, r: nat)
    requires Distinct(s) && |s| <= cap && Within(s, k, r) && x != k
    requires r + 1 < cap
    ensures Within(Request(s, cap, fetch, x), k, r + 1)
  {
    var i :| 0 <= i < |s| && i <= r && s[i].key == k;
    LookupSound(s, x);
    var j := PlaceAfter(s, x, i);
    assert Request(s, cap, fetch, x)[j + 1].key == k;
  }

  lemma PlaceAfter<K(!new), V(!new)>(s: seq<Pair<K, V>>, x: K, i: nat) returns (j: nat)
    requires Distinct(s) && i < |s| && s[i].key != x
    ensures j <= i && j < |Without(s, x)| && Without(s, x)[j] == s[i]
  {
    if at :| 0 <= at < |s| && s[at].key == x {
      WithoutAt(s, at);
      j := if at < i then i - 1 else i;
    } else {
      WithoutAbsent(s, x);
      j := i;
    }
  }

  lemma RequestKeeps<K(!new), V(!new)>(s: seq<Pair<K, V>>, cap: nat, fetch: K -> V, x: K)
    requires Distinct(s) && |s| <= cap && 0 < cap
    ensures Distinct(Request(s, cap, fetch, x)) && |Request(s, cap, fetch, x)| <= cap
    ensures Within(Request(s, cap, fetch, x), x, 0)
  {
    LookupSound(s, x);
    WithoutKeeps(s, x);
    assert Request(s, cap, fetch, x)[0].key == x;
  }

  // Each key requested is among the first, as many places back as requests have come since.
  ghost predicate AllThere<K(!new), V(!new)>(s: seq<Pair<K, V>>, cap: nat, reqs: seq<K>) {
    && Distinct(s) && |s| <= cap
    && forall j :: 0 <= j < |reqs| ==> Within(s, reqs[j], |reqs| - 1 - j)
  }

  lemma StillThereNext<K(!new), V(!new)>(s: seq<Pair<K, V>>, cap: nat, fetch: K -> V, reqs: seq<K>, x: K)
    requires AllThere(s, cap, reqs) && |reqs| < cap
    ensures AllThere(Request(s, cap, fetch, x), cap, reqs + [x])
  {
    RequestKeeps(s, cap, fetch, x);
    forall j | 0 <= j < |reqs| ensures Within(Request(s, cap, fetch, x), reqs[j], |reqs| - j) {
      if reqs[j] != x {
        RequestPushes(s, cap, fetch, x, reqs[j], |reqs| - 1 - j);
      }
    }
  }

  // A key is still there after no more than `cap` requests in all, whatever the cache held before.
  lemma {:induction false} StillThere<K(!new), V(!new)>(s: seq<Pair<K, V>>, cap: nat, fetch: K -> V, reqs: seq<K>)
    requires Distinct(s) && |s| <= cap && |reqs| <= cap
    ensures AllThere(RequestAll(s, cap, fetch, reqs), cap, reqs)
  {
    if reqs != [] {
      var before, x := reqs[..|reqs| - 1], reqs[|reqs| - 1];
      StillThere(s, cap, fetch, before);
      StillThereNext(RequestAll(s, cap, fetch, before), cap, fetch, before, x);
      assert reqs == before + [x];
    }
  }

  lemma MissesNext<K(!new), V(!new)>(s: seq<Pair<K, V>>, cap: nat, fetch: K -> V, reqs: seq<K>, x: K)
    ensures Misses(s, cap, fetch, reqs + [x]) ==
            Misses(s, cap, fetch, reqs) + if Lookup(RequestAll(s, cap, fetch, reqs), x).Some? then 0 else 1
  {
    assert (reqs + [x])[..|reqs|] == reqs;
  }

  lemma {:induction false} MissesAtMost<K(!new), V(!new)>(s: seq<Pair<K, V>>, cap: nat, fetch: K -> V, reqs: seq<K>)
    ensures Misses(s, cap, fetch, reqs) <= |reqs|
  {
    if reqs != [] {
      MissesAtMost(s, cap, fetch, reqs[..|reqs| - 1]);
    }
  }

  // Asking again for what was just asked for fetches nothing, and asking for some more keys in front of it
  // fetches at most those.
  lemma {:induction false} AskingAgain<K(!new), V(!new)>(s: seq<Pair<K, V>>, cap: nat, fetch: K -> V,
                                                          first: seq<K>, xs: seq<K>, second: seq<K>)
    requires Distinct(s) && |s| <= cap && |first| + |xs| + |second| <= cap
    requires forall k :: k in second ==> k in first || k in xs
    ensures Misses(RequestAll(s, cap, fetch, first), cap, fetch, xs + second) <= |xs|
  {
    var s1 := RequestAll(s, cap, fetch, first);
    if second == [] {
      MissesAtMost(s1, cap, fetch, xs);
      assert xs + second == xs;
    } else {
      var before, k := second[..|second| - 1], second[|second| - 1];
      AskingAgain(s, cap, fetch, first, xs, before);
      assert xs + second == (xs + before) + [k];
      MissesNext(s1, cap, fetch, xs + before, k);
      RequestAllConcat(s, cap, fetch, first, xs + before);
      assert k in second;
      NoMiss(s, cap, fetch, first + (xs + before), k);
    }
  }

  lemma NoMiss<K(!new), V(!new)>(s: seq<Pair<K, V>>, cap: nat, fetch: K -> V, asked: seq<K>, k: K)
    requires Distinct(s) && |s| <= cap && |asked| <= cap && k in asked
    ensures Lookup(RequestAll(s, cap, fetch, asked), k).Some?
  {
    StillThere(s, cap, fetch, asked);
    var j :| 0 <= j < |asked| && asked[j] == k;
    LookupSound(RequestAll(s, cap, fetch, asked), k);
  }

  lemma {:induction false} RequestAllConcat<K(!new), V(!new)>(s: seq<Pair<K, V>>, cap: nat, fetch: K -> V,
                                                               a: seq<K>, b: seq<K>)
    ensures RequestAll(s, cap, fetch, a + b) == RequestAll(RequestAll(s, cap, fetch, a), cap, fetch, b)
  {
    if b == [] {
      assert a + b == a;
    } else {
      var before, x := b[..|b| - 1], b[|b| - 1];
      RequestAllConcat(s, cap, fetch, a, before);
      assert (a + b)[..|a + b| - 1] == a + before && (a + b)[|a + b| - 1] == x;
    }
  }
}
