/** The browser's mined-blocks ribbon (web/src/lib/blocks.ts, folded at
    web/src/hooks/useNetworkData.ts:60-68 and 124-131).

    Each update merges a window or a single pushed block into a list kept at ten. The list is compared with
    what nobody keeps: the unbounded map in which the last writer of a height wins. */
module Ribbon {
  import opened Common

  const RECENT_BLOCKS_MAX: nat := 10

  datatype Block = Block(height: int, txCount: int, time: int)

  type ByHeight = map<int, Block>

  // Every block sits under its own height.
  ghost predicate Keyed(m: ByHeight) {
    forall h :: h in m ==> m[h].height == h
  }

  // Writing blocks into the map one after the other.
  function Written(m: ByHeight, blocks: seq<Block>): ByHeight {
    if blocks == [] then m
    else Written(m, blocks[..|blocks| - 1])[blocks[|blocks| - 1].height := blocks[|blocks| - 1]]
  }

  function Highest(m: ByHeight): (h: int)
    requires m != map[]
    ensures h in m && forall k :: k in m ==> k <= h
  {
    HasHighest(m.Keys);
    var h :| h in m && forall k :: k in m ==> k <= h; h
  }

  ghost function AnyOf<T>(s: set<T>): (x: T)
    requires s != {}
    ensures x in s
  {
    var x :| x in s; x
  }

  lemma {:induction false} HasHighest(s: set<int>)
    requires s != {}
    ensures exists h :: h in s && forall k :: k in s ==> k <= h
  {
    var x := AnyOf(s);
    var rest := s - {x};
    assert forall k :: k in s ==> k == x || k in rest;
    if rest != {} {
      HasHighest(rest);
      var h :| h in rest && forall k :: k in rest ==> k <= h;
      assert (if x > h then x else h) in s;
    }
  }

  // All blocks, highest first.
  function Descending(m: ByHeight): seq<Block>
    decreases |m|
  {
    if m == map[] then [] else [m[Highest(m)]] + Descending(m - {Highest(m)})
  }

  // The merge: the fallback written first, the preferred over it, the highest kept.
  function Merged(preferred: seq<Block>, fallback: seq<Block>, max: nat): seq<Block> {
    Take(Descending(Written(Written(map[], fallback), preferred)), max)
  }

  method MergeRecentBlocks(preferred: seq<Block>, fallback: seq<Block>, max: nat) returns (merged: seq<Block>)
    ensures merged == Merged(preferred, fallback, max)
  {
    var byHeight: ByHeight := map[];
    byHeight := SetAll(byHeight, fallback);
    byHeight := SetAll(byHeight, preferred);
    var sorted := Descending(byHeight);
    merged := if |sorted| <= max then sorted else sorted[..max];
  }

  method SetAll(m: ByHeight, blocks: seq<Block>) returns (m': ByHeight)
    ensures m' == Written(m, blocks)
  {
    m' := m;
    for i := 0 to |blocks|
      invariant m' == Written(m, blocks[..i])
    {
      m' := m'[blocks[i].height := blocks[i]];
      assert blocks[..i + 1][..i] == blocks[..i];
    }
    assert blocks[..|blocks|] == blocks;
  }

  // ---------- the ten highest ----------

  // The heights above `h`.
  ghost function Above(m: ByHeight, h: int): set<int> {
    set k | k in m && k > h
  }

  // The blocks with fewer than `n` higher ones.
  ghost function Keep(m: ByHeight, n: nat): ByHeight {
    map h | h in m && |Above(m, h)| < n :: m[h]
  }

  // Above anything left out there are `n` that are kept.
  lemma {:induction false} LeftOutBelowKept(m: ByHeight, n: nat, h: int)
    requires h in m && h !in Keep(m, n)
    ensures |Above(Keep(m, n), h)| >= n
    decreases |Above(m, h)|
  {
    if Above(m, h) <= Keep(m, n).Keys {
      assert Above(Keep(m, n), h) == Above(m, h);
    } else {
      var k :| k in Above(m, h) && k !in Keep(m, n).Keys;
      assert Above(m, h) == Above(m, h) - {k} + {k};
      SubsetSize(Above(m, k), Above(m, h) - {k});
      LeftOutBelowKept(m, n, k);
      SubsetSize(Above(Keep(m, n), k), Above(Keep(m, n), h));
    }
  }

  // Dropping all but the highest before an update makes no difference after it.
  lemma KeepCommutes(m: ByHeight, p: ByHeight, n: nat)
    ensures Keep(Keep(m, n) + p, n) == Keep(m + p, n)
  {
    var whole, cut := m + p, Keep(m, n) + p;
    forall h ensures h in Keep(cut, n) <==> h in Keep(whole, n) {
      SubsetSize(Above(cut, h), Above(whole, h));
      if h in Keep(whole, n) && h !in p {
        SubsetSize(Above(m, h), Above(whole, h));
      }
      if h in cut && h !in Keep(whole, n) && Above(cut, h) != Above(whole, h) {
        assert Above(cut, h) <= Above(whole, h);
        var k :| k in Above(whole, h) && k !in Above(cut, h);
        LeftOutBelowKept(m, n, k);
        SubsetSize(Above(Keep(m, n), k), Above(cut, h));
      }
    }
  }

  // ---------- the list and the map ----------

  lemma TopKept(m: ByHeight, n: nat)
    requires m != map[] && n > 0
    ensures var h := Highest(m);
            && h in Keep(m, n) && Highest(Keep(m, n)) == h
            && Keep(m, n) - {h} == Keep(m - {h}, n - 1)
  {
    var h := Highest(m);
    assert Above(m, h) == {};
    forall k | k in m && k != h
      ensures |Above(m, k)| == |Above(m - {h}, k)| + 1
    {
      assert Above(m, k) == Above(m - {h}, k) + {h};
    }
  }

  // Cutting the sorted list is keeping the blocks with few above them.
  lemma {:induction false} TakeDescending(m: ByHeight, n: nat)
    ensures Take(Descending(m), n) == Descending(Keep(m, n))
    decreases |m|
  {
    if m == map[] || n == 0 {
      assert Keep(m, n) == map[];
    } else {
      var h := Highest(m);
      TopKept(m, n);
      TakeDescending(m - {h}, n - 1);
      assert Take(Descending(m), n) == [m[h]] + Take(Descending(m - {h}), n - 1);
    }
  }

  // The list is strictly descending, holds the map's blocks and nothing else, and has one for each height.
  lemma {:induction false} DescendingIs(m: ByHeight)
    requires Keyed(m)
    ensures |Descending(m)| == |m|
    ensures forall i :: 0 <= i < |m| ==> HoldsAt(m, Descending(m)[i])
    ensures forall i, j :: 0 <= i < j < |m| ==> Descending(m)[i].height > Descending(m)[j].height
    decreases |m|
  {
    if m != map[] {
      var h := Highest(m);
      assert m.Keys == (m - {h}).Keys + {h};
      DescendingIs(m - {h});
      forall i | 0 < i < |m|
        ensures HoldsAt(m, Descending(m)[i]) && Descending(m)[i].height < h
      {
        assert HoldsAt(m - {h}, Descending(m - {h})[i - 1]);
      }
    }
  }

  ghost predicate HoldsAt(m: ByHeight, b: Block) {
    b.height in m && m[b.height] == b
  }

  // Writing the sorted list out again gives the map back.
  lemma {:induction false} RewrittenIs(m: ByHeight)
    requires Keyed(m)
    ensures Written(map[], Descending(m)) == m
    decreases |m|
  {
    if m != map[] {
      var h := Highest(m);
      RewrittenIs(m - {h});
      WrittenConcat(map[], [m[h]], Descending(m - {h}));
      assert [m[h]][..0] == [];
      WrittenOnto(map[h := m[h]], Descending(m - {h}));
    }
  }

  lemma {:induction false} WrittenConcat(m: ByHeight, a: seq<Block>, b: seq<Block>)
    ensures Written(m, a + b) == Written(Written(m, a), b)
  {
    if b == [] {
      assert a + b == a;
    } else {
      WrittenConcat(m, a, b[..|b| - 1]);
      assert (a + b)[..|a + b| - 1] == a + b[..|b| - 1];
    }
  }

  // Writing onto a map is writing into an empty one and laying it over.
  lemma {:induction false} WrittenOnto(m: ByHeight, blocks: seq<Block>)
    ensures Written(m, blocks) == m + Written(map[], blocks)
    ensures Keyed(Written(map[], blocks))
  {
    if blocks != [] {
      WrittenOnto(m, blocks[..|blocks| - 1]);
    }
  }

  // ---------- every sequence of updates ----------

  // What the page shows after a sequence of stats windows and block pushes.
  ghost function Shown(updates: seq<seq<Block>>): seq<Block> {
    if updates == [] then []
    else
      Merged(updates[|updates| - 1], Shown(updates[..|updates| - 1]), RECENT_BLOCKS_MAX)
  }

  // The last writer of a height wins.
  lemma {:induction false} LastWriterWins(m: ByHeight, blocks: seq<Block>, i: nat)
    requires i < |blocks| && forall j :: i < j < |blocks| ==> blocks[j].height != blocks[i].height
    ensures var h := blocks[i].height; h in Written(m, blocks) && Written(m, blocks)[h] == blocks[i]
  {
    if i < |blocks| - 1 {
      LastWriterWins(m, blocks[..|blocks| - 1], i);
      assert blocks[|blocks| - 1].height != blocks[i].height;
    }
  }

  // A height nobody writes keeps what it held.
  lemma {:induction false} OthersKept(m: ByHeight, blocks: seq<Block>, h: int)
    requires forall i :: 0 <= i < |blocks| ==> blocks[i].height != h
    ensures h in Written(m, blocks) <==> h in m
    ensures h in m ==> Written(m, blocks)[h] == m[h]
  {
    if blocks != [] {
      OthersKept(m, blocks[..|blocks| - 1], h);
    }
  }

  // A block is kept if and only if fewer than `n` are higher.
  lemma KeepIs(m: ByHeight, n: nat, h: int)
    ensures h in Keep(m, n) <==> h in m && |set k | k in m && k > h| < n
    ensures h in Keep(m, n) ==> Keep(m, n)[h] == m[h]
  {
    assert Above(m, h) == set k | k in m && k > h;
  }

  // Everything ever received, the last writer of a height winning.
  ghost function Received(updates: seq<seq<Block>>): ByHeight {
    if updates == [] then map[] else Written(Received(updates[..|updates| - 1]), updates[|updates| - 1])
  }

  // The ribbon always shows exactly the ten highest blocks of everything ever received, strictly
  // descending: cutting to ten on the way never loses anything.
  lemma {:induction false} ShowsTheTenHighest(updates: seq<seq<Block>>)
    ensures Keyed(Received(updates))
    ensures Shown(updates) == Descending(Keep(Received(updates), 10))
  {
    if updates == [] {
      assert Keep(map[], RECENT_BLOCKS_MAX) == map[];
    } else {
      var before, u := updates[..|updates| - 1], updates[|updates| - 1];
      var all, kept := Received(before), Keep(Received(before), RECENT_BLOCKS_MAX);
      ShowsTheTenHighest(before);
      RewrittenIs(kept);
      WrittenOnto(kept, u);
      WrittenOnto(all, u);
      TakeDescending(kept + Written(map[], u), RECENT_BLOCKS_MAX);
      KeepCommutes(all, Written(map[], u), RECENT_BLOCKS_MAX);
    }
  }
}
