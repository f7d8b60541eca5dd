/** The mined-blocks ribbon (internal/explorer/recent.go): a window rebuilt by walking parent hashes
    through the block cache. The chain is a map from hash to block, never changing; in any one call the node
    may answer for only some of it. The empty hash ends the walk. */
module Recent {
  import opened Options
  import opened Common
  import opened Lru
  import opened LruHistory

  const RECENT_BLOCK_COUNT: nat := 10
  const RECENT_CACHE: nat := 64

  type Hash = string

  datatype Block = Block(height: int, txCount: nat, time: int)

  datatype Entry = Entry(block: Block, prev: Hash)

  type Chain = map<Hash, Entry>

  // The true walk: hashes of up to `n` blocks from `h` back, as far as the chain is known.
  function Walk(chain: Chain, h: Hash, n: nat): seq<Hash>
    decreases n
  {
    if n == 0 || h == "" || h !in chain then [] else [h] + Walk(chain, chain[h].prev, n - 1)
  }

  function Blocks(chain: Chain, hashes: seq<Hash>): seq<Block> {
    if hashes == [] then []
    else
      Blocks(chain, hashes[..|hashes| - 1])
      + if hashes[|hashes| - 1] in chain then [chain[hashes[|hashes| - 1]].block] else []
  }

  // The window the ribbon should show for a tip.
  function Window(chain: Chain, tip: Hash): seq<Block> {
    Blocks(chain, Walk(chain, tip, RECENT_BLOCK_COUNT))
  }

  // Where a walk that has taken `hashes` goes next.
  function After(chain: Chain, tip: Hash, hashes: seq<Hash>): Hash {
    if hashes == [] then tip
    else if hashes[|hashes| - 1] in chain then chain[hashes[|hashes| - 1]].prev else ""
  }

  // The walk fills the window or reaches the first block, and misses nothing.
  predicate Complete(chain: Chain, tip: Hash) {
    var w := Walk(chain, tip, RECENT_BLOCK_COUNT);
    |w| == RECENT_BLOCK_COUNT || (w != [] && After(chain, tip, w) == "")
  }

  function Fetch(chain: Chain): Hash -> Entry {
    h => if h in chain then chain[h] else Entry(Block(0, 0, 0), "")
  }

  // `taken` is how far the walk from `tip` has got.
  ghost predicate Taken(chain: Chain, tip: Hash, taken: seq<Hash>) {
    && |taken| <= RECENT_BLOCK_COUNT
    && Walk(chain, tip, RECENT_BLOCK_COUNT)
       == taken + Walk(chain, After(chain, tip, taken), RECENT_BLOCK_COUNT - |taken|)
  }

  lemma TakeNext(chain: Chain, tip: Hash, taken: seq<Hash>, h: Hash)
    requires Taken(chain, tip, taken) && |taken| < RECENT_BLOCK_COUNT
    requires h == After(chain, tip, taken) && h != "" && h in chain
    ensures Taken(chain, tip, taken + [h]) && After(chain, tip, taken + [h]) == chain[h].prev
    ensures Blocks(chain, taken + [h]) == Blocks(chain, taken) + [chain[h].block]
  {
    BlocksNext(chain, taken, h);
    WalkTakes(chain, tip, taken, h);
  }

  lemma BlocksNext(chain: Chain, taken: seq<Hash>, h: Hash)
    requires h in chain
    ensures Blocks(chain, taken + [h]) == Blocks(chain, taken) + [chain[h].block]
  {
    assert (taken + [h])[..|taken|] == taken;
  }

  lemma WalkTakes(chain: Chain, tip: Hash, taken: seq<Hash>, h: Hash)
    requires Taken(chain, tip, taken) && |taken| < RECENT_BLOCK_COUNT
    requires h == After(chain, tip, taken) && h != "" && h in chain
    ensures Taken(chain, tip, taken + [h]) && After(chain, tip, taken + [h]) == chain[h].prev
  {
    var rest := Walk(chain, chain[h].prev, RECENT_BLOCK_COUNT - |taken| - 1);
    assert Walk(chain, h, RECENT_BLOCK_COUNT - |taken|) == [h] + rest;
    Regroup(taken, h, rest);
  }

  lemma Regroup<T>(a: seq<T>, x: T, b: seq<T>)
    ensures a + ([x] + b) == a + [x] + b
  {
  }

  // A walk that stopped for want of room or at the first block is the whole walk.
  lemma TakenAll(chain: Chain, tip: Hash, taken: seq<Hash>)
    requires Taken(chain, tip, taken)
    requires |taken| == RECENT_BLOCK_COUNT || After(chain, tip, taken) == ""
    ensures taken == Walk(chain, tip, RECENT_BLOCK_COUNT)
    ensures taken != [] ==> Complete(chain, tip)
  {
  }

  lemma {:induction false} WalkKnown(chain: Chain, h: Hash, n: nat)
    ensures forall x :: x in Walk(chain, h, n) ==> x in chain
    ensures |Walk(chain, h, n)| <= n
    decreases n
  {
    if n > 0 && h != "" && h in chain {
      WalkKnown(chain, chain[h].prev, n - 1);
    }
  }

  // The walk starts at its hash, goes from each block to its parent, never past `n` blocks, and stops short only
  // at the first block or where the chain is not known.
  lemma {:induction false} WalkIs(chain: Chain, h: Hash, n: nat)
    ensures var w := Walk(chain, h, n);
            && |w| <= n
            && (w != [] ==> w[0] == h)
            && (forall i :: 0 <= i < |w| ==> w[i] != "" && w[i] in chain)
            && (forall i :: 0 <= i < |w| - 1 ==> w[i + 1] == chain[w[i]].prev)
            && (|w| < n ==>
                  var next := if w == [] then h else chain[w[|w| - 1]].prev;
                  next == "" || next !in chain)
    decreases n
  {
    if n > 0 && h != "" && h in chain {
      var rest := Walk(chain, chain[h].prev, n - 1);
      WalkIs(chain, chain[h].prev, n - 1);
      assert Walk(chain, h, n) == [h] + rest;
    }
  }

  // The window shows one block for each hash of the walk, in order.
  lemma {:induction false} BlocksAre(chain: Chain, hashes: seq<Hash>)
    requires forall h :: h in hashes ==> h in chain
    ensures |Blocks(chain, hashes)| == |hashes|
    ensures forall i :: 0 <= i < |hashes| ==> Blocks(chain, hashes)[i] == chain[hashes[i]].block
  {
    if hashes != [] {
      BlocksAre(chain, hashes[..|hashes| - 1]);
    }
  }

  // A published window has ten blocks, or fewer and reaches the first one.
  lemma WholeWindow(chain: Chain, tip: Hash)
    requires Complete(chain, tip)
    ensures var (w, shown) := (Walk(chain, tip, 10), Window(chain, tip));
            && |shown| == |w| && (forall i :: 0 <= i < |w| ==> w[i] in chain && shown[i] == chain[w[i]].block)
            && (|w| == 10 || (0 < |w| < 10 && chain[w[|w| - 1]].prev == ""))
  {
    WalkIs(chain, tip, 10);
    BlocksAre(chain, Walk(chain, tip, 10));
  }

  // Whatever is cached is true.
  ghost predicate CacheTrue(chain: Chain, s: seq<Pair<Hash, Entry>>) {
    forall p :: p in s ==> p.key in chain && p.val == chain[p.key]
  }

  lemma RequestTrue(chain: Chain, s: seq<Pair<Hash, Entry>>, h: Hash)
    requires Distinct(s) && CacheTrue(chain, s)
    ensures Lookup(s, h).Some? ==> h in chain && Lookup(s, h).value == chain[h]
    ensures h in chain ==> CacheTrue(chain, Request(s, RECENT_CACHE, Fetch(chain), h))
    ensures Request(s, RECENT_CACHE, Fetch(chain), h) ==
            if Lookup(s, h).Some? then GetSpec(s, h) else PutSpec(s, RECENT_CACHE, h, Fetch(chain)(h))
  {
    LookupSound(s, h);
    WithoutKeeps(s, h);
  }

  class RecentBlocks {
    ghost const chain: Chain
    const cache: LruCache<Hash, Entry>
    var recentHead: Hash
    var recentList: seq<Block>

    // The cache holds only true blocks, and the published list is the whole window of the published tip.
    ghost predicate Valid()
      reads this, cache, cache.order
    {
      && CacheValid()
      && recentList == Window(chain, recentHead)
      && (recentHead != "" ==> Complete(chain, recentHead))
    }

    ghost predicate CacheValid()
      reads this, cache, cache.order
    {
      && cache.Valid() && cache.cap == RECENT_CACHE
      && Distinct(cache.Contents()) && CacheTrue(chain, cache.Contents())
    }

    constructor (ghost chain: Chain)
      ensures Valid() && this.chain == chain && fresh(cache) && cache.Contents() == []
    {
      this.chain := chain;
      cache := new LruCache(RECENT_CACHE);
      recentHead, recentList := "", [];
    }

    // What the node answers is true, if it answers.
    ghost predicate Answers(node: Chain) {
      forall h :: h in node ==> h in chain && node[h] == chain[h]
    }

    method RecentEntry(h: Hash, node: Chain) returns (e: Option<Entry>, read: bool)
      requires CacheValid() && Answers(node)
      modifies cache, cache.order
      ensures CacheValid() && forall x :: x in cache.order ==> x in old(cache.order) || fresh(x)
      ensures e.Some? ==> h in chain && e.value == chain[h]
      ensures e.Some? ==> cache.Contents() == Request(old(cache.Contents()), RECENT_CACHE, Fetch(chain), h)
      ensures e.None? ==> h !in node && cache.Contents() == old(cache.Contents())
      ensures read <==> e.Some? && Lookup(old(cache.Contents()), h).None?
    {
      RequestTrue(chain, cache.Contents(), h);
      e := cache.Get(h);
      LinkedDistinct(cache.order, cache.items);
      if e.Some? || h !in node {
        return e, false;
      }
      cache.Put(h, node[h]);
      LinkedDistinct(cache.order, cache.items);
      return Some(node[h]), true;
    }

    // The window ending at `tip`, newest first, as far as it can be read; published only when whole.
    method GetRecentBlocks(tip: Hash, node: Chain) returns (list: seq<Block>, readCount: nat)
      requires Valid() && Answers(node)
      modifies this`recentHead, this`recentList, cache, cache.order
      ensures Valid()
      ensures list <= Window(chain, tip)
      ensures Known(Walk(chain, tip, RECENT_BLOCK_COUNT), node) ==> list == Window(chain, tip)
      ensures tip == old(recentHead) ==>
                readCount == 0 && recentHead == tip && cache.Contents() == old(cache.Contents())
      ensures tip != old(recentHead) && recentHead != tip ==> recentHead == old(recentHead)
      ensures tip != old(recentHead) && recentHead == tip ==>
                var asked := Walk(chain, tip, RECENT_BLOCK_COUNT);
                && cache.Contents() == RequestAll(old(cache.Contents()), RECENT_CACHE, Fetch(chain), asked)
                && readCount == Misses(old(cache.Contents()), RECENT_CACHE, Fetch(chain), asked)
      ensures list == Window(chain, tip) && Complete(chain, tip) ==> recentHead == tip
    {
      if recentHead == tip {
        return recentList, 0;
      }
      ghost var taken;
      var next;
      list, next, readCount, taken := WalkBack(tip, node);
      Stopped(chain, tip, taken, node);
      if |list| == 0 {
        return;
      }
      if |list| < RECENT_BLOCK_COUNT && next != "" {
        return;
      }
      recentList, recentHead := list, tip;
    }

    // The walk itself: until the window is full, the chain ends, or a read fails.
    method WalkBack(tip: Hash, node: Chain)
      returns (list: seq<Block>, next: Hash, readCount: nat, ghost taken: seq<Hash>)
      requires CacheValid() && Answers(node)
      modifies cache, cache.order
      ensures CacheValid()
      ensures Taken(chain, tip, taken) && next == After(chain, tip, taken)
      ensures list == Blocks(chain, taken) && |list| == |taken|
      ensures |list| == RECENT_BLOCK_COUNT || next == "" || next !in node
      ensures cache.Contents() == RequestAll(old(cache.Contents()), RECENT_CACHE, Fetch(chain), taken)
      ensures readCount == Misses(old(cache.Contents()), RECENT_CACHE, Fetch(chain), taken)
    {
      ghost var s0 := cache.Contents();
      taken, next, list, readCount := [], tip, [], 0;
      while next != "" && |list| < RECENT_BLOCK_COUNT
        invariant CacheValid()
        invariant forall x :: x in cache.order ==> x in old(cache.order) || fresh(x)
        invariant Walked(tip, taken, next, list) && Fetched(s0, taken, cache.Contents(), readCount)
        decreases RECENT_BLOCK_COUNT - |list|
      {
        ghost var was := cache.Contents();
        var e, read := RecentEntry(next, node);
        if e.None? {
          break;
        }
        WalkNext(tip, taken, next, list);
        FetchNext(s0, taken, was, readCount, next);
        taken := taken + [next];
        list, next, readCount := list + [e.value.block], e.value.prev, readCount + if read then 1 else 0;
      }
    }

    // How far a walk has got, and what it has collected.
    ghost predicate Walked(tip: Hash, taken: seq<Hash>, next: Hash, list: seq<Block>) {
      && Taken(chain, tip, taken) && next == After(chain, tip, taken)
      && list == Blocks(chain, taken) && |list| == |taken|
    }

    // What the walk has left in the cache, and how many reads it has made.
    ghost predicate Fetched(s0: seq<Pair<Hash, Entry>>, taken: seq<Hash>, now: seq<Pair<Hash, Entry>>, readCount: nat) {
      && now == RequestAll(s0, RECENT_CACHE, Fetch(chain), taken)
      && readCount == Misses(s0, RECENT_CACHE, Fetch(chain), taken)
    }

    lemma WalkNext(tip: Hash, taken: seq<Hash>, h: Hash, list: seq<Block>)
      requires Walked(tip, taken, h, list) && |list| < RECENT_BLOCK_COUNT && h != "" && h in chain
      ensures Walked(tip, taken + [h], chain[h].prev, list + [chain[h].block])
    {
      TakeNext(chain, tip, taken, h);
    }

    lemma FetchNext(s0: seq<Pair<Hash, Entry>>, taken: seq<Hash>, now: seq<Pair<Hash, Entry>>, readCount: nat, h: Hash)
      requires Fetched(s0, taken, now, readCount)
      ensures Fetched(s0, taken + [h], Request(now, RECENT_CACHE, Fetch(chain), h),
                      readCount + if Lookup(now, h).None? then 1 else 0)
    {
      assert (taken + [h])[..|taken|] == taken;
    }
  }

  ghost predicate Known(hashes: seq<Hash>, node: Chain) {
    forall h :: h in hashes ==> h in node
  }

  lemma {:induction false} BlocksConcat(chain: Chain, a: seq<Hash>, b: seq<Hash>)
    ensures Blocks(chain, a + b) == Blocks(chain, a) + Blocks(chain, b)
  {
    if b == [] {
      assert a + b == a;
    } else {
      BlocksConcat(chain, a, b[..|b| - 1]);
      assert (a + b)[..|a + b| - 1] == a + b[..|b| - 1];
    }
  }

  lemma {:induction false} BlocksSize(chain: Chain, a: seq<Hash>)
    requires forall h :: h in a ==> h in chain
    ensures |Blocks(chain, a)| == |a|
  {
    if a != [] {
      BlocksSize(chain, a[..|a| - 1]);
    }
  }

  // What a stopped walk amounts to: a prefix of the window, the whole of it if nothing was unreadable, and
  // a complete window exactly when the walk did not stop short.
  lemma Stopped(chain: Chain, tip: Hash, taken: seq<Hash>, node: Chain)
    requires Taken(chain, tip, taken)
    requires |taken| == RECENT_BLOCK_COUNT || After(chain, tip, taken) == "" || After(chain, tip, taken) !in node
    ensures Blocks(chain, taken) <= Window(chain, tip)
    ensures Known(Walk(chain, tip, RECENT_BLOCK_COUNT), node) ==> Blocks(chain, taken) == Window(chain, tip)
    ensures |taken| == RECENT_BLOCK_COUNT || After(chain, tip, taken) == "" ==>
              taken == Walk(chain, tip, RECENT_BLOCK_COUNT) && (taken != [] ==> Complete(chain, tip))
    ensures Blocks(chain, taken) == Window(chain, tip) && Complete(chain, tip) ==>
              taken != [] && (|taken| == RECENT_BLOCK_COUNT || After(chain, tip, taken) == "")
  {
    var w, h := Walk(chain, tip, RECENT_BLOCK_COUNT), After(chain, tip, taken);
    var rest := Walk(chain, h, RECENT_BLOCK_COUNT - |taken|);
    BlocksConcat(chain, taken, rest);
    WalkKnown(chain, tip, RECENT_BLOCK_COUNT);
    BlocksSize(chain, rest);
    if rest != [] {
      assert rest[0] == h && h in w;
    } else {
      assert taken == w;
    }
  }

  // ---------- what a new block costs ----------

  lemma {:induction false} ShorterWalk(chain: Chain, h: Hash, n: nat)
    ensures Walk(chain, h, n) <= Walk(chain, h, n + 1)
    decreases n
  {
    if n > 0 && h != "" && h in chain {
      ShorterWalk(chain, chain[h].prev, n - 1);
    }
  }

  lemma {:induction false} AfterNext(chain: Chain, h: Hash, taken: seq<Hash>)
    requires taken != [] && h in chain
    ensures After(chain, h, [h] + taken) == After(chain, chain[h].prev, taken)
  {
    assert ([h] + taken)[|taken|] == taken[|taken| - 1];
  }

  // A walk goes on where a shorter one has got to.
  lemma {:induction false} WalkOn(chain: Chain, h: Hash, k: nat, n: nat)
    requires |Walk(chain, h, k)| == k <= n
    ensures Walk(chain, h, n) == Walk(chain, h, k) + Walk(chain, After(chain, h, Walk(chain, h, k)), n - k)
    decreases k
  {
    if k > 0 {
      var prev := chain[h].prev;
      WalkOn(chain, prev, k - 1, n - 1);
      if k > 1 {
        AfterNext(chain, h, Walk(chain, prev, k - 1));
      }
    }
  }

  // A walk of fewer steps is the front of one of more.
  lemma {:induction false} FrontOfWalk(chain: Chain, h: Hash, m: nat, n: nat)
    requires m <= n
    ensures Walk(chain, h, m) <= Walk(chain, h, n)
    decreases n
  {
    if m < n {
      FrontOfWalk(chain, h, m, n - 1);
      ShorterWalk(chain, h, n - 1);
    }
  }

  ghost predicate Among(a: seq<Hash>, b: seq<Hash>) {
    forall h :: h in a ==> h in b
  }

  // What a shorter walk needs was all in the longer one.
  lemma OldPart(chain: Chain, tip: Hash, m: nat, n: nat)
    requires m <= n
    ensures |Walk(chain, tip, n)| <= n && |Walk(chain, tip, m)| <= m
    ensures Among(Walk(chain, tip, m), Walk(chain, tip, n))
  {
    WalkKnown(chain, tip, n);
    WalkKnown(chain, tip, m);
    FrontOfWalk(chain, tip, m, n);
  }

  // A walk that goes `k` blocks and then on from `tip`.
  lemma JoinedWalk(chain: Chain, tip: Hash, next: Hash, k: nat, n: nat)
    requires |Walk(chain, next, k)| == k <= n && After(chain, next, Walk(chain, next, k)) == tip
    ensures Walk(chain, next, n) == Walk(chain, next, k) + Walk(chain, tip, n - k)
  {
    WalkOn(chain, next, k, n);
  }

  // The reads a walk from `h` makes after one from `tip`.
  ghost function ReadsAfter(chain: Chain, s: seq<Pair<Hash, Entry>>, tip: Hash, h: Hash): nat {
    MissesAfter(chain, s, Walk(chain, tip, RECENT_BLOCK_COUNT), Walk(chain, h, RECENT_BLOCK_COUNT))
  }

  ghost function MissesAfter(chain: Chain, s: seq<Pair<Hash, Entry>>, first: seq<Hash>, asked: seq<Hash>): nat {
    Misses(RequestAll(s, RECENT_CACHE, Fetch(chain), first), RECENT_CACHE, Fetch(chain), asked)
  }

  lemma MissesNew(chain: Chain, s: seq<Pair<Hash, Entry>>, first: seq<Hash>, xs: seq<Hash>, second: seq<Hash>,
                  whole: seq<Hash>)
    requires Distinct(s) && |s| <= RECENT_CACHE && |first| + |xs| + |second| <= RECENT_CACHE
    requires whole == xs + second && Among(second, first)
    ensures MissesAfter(chain, s, first, whole) <= |xs|
  {
    AskingAgain(s, RECENT_CACHE, Fetch(chain), first, xs, second);
  }

  lemma FewNewBlocks(chain: Chain, s: seq<Pair<Hash, Entry>>, tip: Hash, next: Hash, k: nat)
    requires Distinct(s) && |s| <= RECENT_CACHE && k <= RECENT_BLOCK_COUNT
    requires |Walk(chain, next, k)| == k && After(chain, next, Walk(chain, next, k)) == tip
    ensures ReadsAfter(chain, s, tip, next) <= k
  {
    OldPart(chain, tip, RECENT_BLOCK_COUNT - k, RECENT_BLOCK_COUNT);
    JoinedWalk(chain, tip, next, k, RECENT_BLOCK_COUNT);
    MissesNew(chain, s, Walk(chain, tip, RECENT_BLOCK_COUNT), Walk(chain, next, k),
              Walk(chain, tip, RECENT_BLOCK_COUNT - k), Walk(chain, next, RECENT_BLOCK_COUNT));
  }

  // After a whole walk, and with no other use of the cache, a tip any number of blocks further costs at most
  // one read for each new block, and never more than the window.
  lemma NewBlocksCostOneReadEach(chain: Chain, s: seq<Pair<Hash, Entry>>, tip: Hash, next: Hash, k: nat)
    requires Distinct(s) && |s| <= RECENT_CACHE
    requires |Walk(chain, next, k)| == k && After(chain, next, Walk(chain, next, k)) == tip
    ensures ReadsAfter(chain, s, tip, next) <= Min(k, RECENT_BLOCK_COUNT)
  {
    if k < RECENT_BLOCK_COUNT {
      FewNewBlocks(chain, s, tip, next, k);
    } else {
      WalkKnown(chain, next, RECENT_BLOCK_COUNT);
      MissesAtMost(RequestAll(s, RECENT_CACHE, Fetch(chain), Walk(chain, tip, RECENT_BLOCK_COUNT)), RECENT_CACHE,
                   Fetch(chain), Walk(chain, next, RECENT_BLOCK_COUNT));
    }
  }

  // ---------- overlapping calls ----------

  // No lock is held across a walk, so calls overlap: each walker has its own tip and what it has taken so
  // far; the published pair is shared.
  datatype World = World(head: Hash, list: seq<Block>, walkers: map<nat, (Hash, seq<Hash>)>)

  datatype Step = Start(id: nat, tip: Hash) | ReadNext(id: nat) | Return(id: nat)

  function Next(chain: Chain, w: World, s: Step): World {
    match s
    case Start(id, tip) =>
      if w.head == tip || id in w.walkers then w else w.(walkers := w.walkers[id := (tip, [])])
    case ReadNext(id) =>
      if id !in w.walkers then w
      else
        var (tip, taken) := w.walkers[id];
        var h := After(chain, tip, taken);
        if h == "" || |taken| >= RECENT_BLOCK_COUNT || h !in chain then w
        else w.(walkers := w.walkers[id := (tip, taken + [h])])
    case Return(id) =>
      if id !in w.walkers then w
      else
        var (tip, taken) := w.walkers[id];
        var left := w.(walkers := w.walkers - {id});
        if taken != [] && (|taken| == RECENT_BLOCK_COUNT || After(chain, tip, taken) == "")
        then left.(head := tip, list := Blocks(chain, taken)) else left
  }

  // Whatever interleaves, the published list is the complete window of the published tip, and what any
  // walker holds is a prefix of its own tip's window.
  ghost predicate Published(chain: Chain, w: World) {
    && w.list == Window(chain, w.head)
    && (w.head != "" ==> Complete(chain, w.head))
    && forall id :: id in w.walkers ==> Taken(chain, w.walkers[id].0, w.walkers[id].1)
  }

  lemma StepPublished(chain: Chain, w: World, s: Step)
    requires Published(chain, w)
    ensures Published(chain, Next(chain, w, s))
  {
    match s
    case Start(id, tip) =>
      StartPublished(chain, w, id, tip);
    case ReadNext(id) =>
      ReadPublished(chain, w, id);
    case Return(id) =>
      ReturnPublished(chain, w, id);
  }

  lemma StartPublished(chain: Chain, w: World, id: nat, tip: Hash)
    requires Published(chain, w)
    ensures Published(chain, Next(chain, w, Start(id, tip)))
  {
    assert [] + Walk(chain, tip, RECENT_BLOCK_COUNT) == Walk(chain, tip, RECENT_BLOCK_COUNT);
  }

  lemma ReadPublished(chain: Chain, w: World, id: nat)
    requires Published(chain, w)
    ensures Published(chain, Next(chain, w, ReadNext(id)))
  {
    if id in w.walkers {
      var (tip, taken) := w.walkers[id];
      var h := After(chain, tip, taken);
      if h != "" && |taken| < RECENT_BLOCK_COUNT && h in chain {
        TakeNext(chain, tip, taken, h);
      }
    }
  }

  lemma ReturnPublished(chain: Chain, w: World, id: nat)
    requires Published(chain, w)
    ensures Published(chain, Next(chain, w, Return(id)))
  {
    if id in w.walkers {
      var (tip, taken) := w.walkers[id];
      if |taken| == RECENT_BLOCK_COUNT || After(chain, tip, taken) == "" {
        TakenAll(chain, tip, taken);
      }
    }
  }

  function Run(chain: Chain, steps: seq<Step>): World {
    if steps == [] then World("", [], map[]) else Next(chain, Run(chain, steps[..|steps| - 1]), steps[|steps| - 1])
  }

  lemma {:induction false} RunPublished(chain: Chain, steps: seq<Step>)
    ensures Published(chain, Run(chain, steps))
  {
    if steps != [] {
      RunPublished(chain, steps[..|steps| - 1]);
      StepPublished(chain, Run(chain, steps[..|steps| - 1]), steps[|steps| - 1]);
    }
  }
}
