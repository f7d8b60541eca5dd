/** "Load more" (web/src/state.ts:123-151 with internal/explorer/address.go:84-100 and
    internal/explorer/block.go:111-132): pages of a fixed list, appended by the reducer until the server
    says there are no more. Rows are opaque; `key` is the address or the block hash being viewed. */
module Paging {
  import opened Options
  import opened Common

  datatype View<+R> = View(key: string, rows: seq<R>, hasMore: bool)

  function Slice<R>(all: seq<R>, offset: nat, limit: nat): seq<R> {
    all[Min(offset, |all|)..Min(offset + limit, |all|)]
  }

  // ---------- the server ----------

  // What the server answers for an offset.
  type Server<!R> = nat -> View<R>

  // What is being paged: a list under a key, what is known of its size, and the length of a page.
  datatype Listing<+R> = Listing(key: string, all: seq<R>, approximate: bool, total: nat, limit: nat) {

    // Each page makes progress, and a size claimed to be known is right.
    ghost predicate Ok() {
      limit >= 1 && (!approximate ==> total == |all|)
    }

    // A list of known size compares the offset with it; an address whose scan was cut short can only tell
    // from a full page.
    function Answer(offset: nat): View<R> {
      var rows := Slice(all, offset, limit);
      View(key, rows, if approximate then |rows| == limit else offset + |rows| < total)
    }
  }

  ghost predicate Serves<R>(server: Server<R>, l: Listing<R>) {
    forall offset :: server(offset) == l.Answer(offset)
  }

  // A page of a block's transactions.
  method BlockPage<R>(hash: string, txs: seq<R>, offset: nat, limit: nat) returns (page: View<R>)
    ensures page == Listing(hash, txs, false, |txs|, limit).Answer(offset)
  {
    var end := Min(offset + limit, |txs|);
    var rows, i := [], offset;
    while i < end
      invariant rows == txs[Min(offset, |txs|)..Min(i, |txs|)]
      invariant offset <= i && (offset <= end ==> i <= end) && (offset > end ==> i == offset)
    {
      rows, i := rows + [txs[i]], i + 1;
    }
    page := View(hash, rows, end < |txs|);
  }

  // ---------- the browser ----------

  // The reducer: a page is appended and its cursor adopted; one for another key is dropped.
  function More<R>(state: Option<View<R>>, page: View<R>): Option<View<R>> {
    if state.None? || page.key != state.value.key then state
    else Some(page.(rows := state.value.rows + page.rows))
  }

  // One press: the next offset is the number of rows shown.
  function Press<R>(server: Server<R>, v: View<R>): View<R> {
    More(Some(v), server(|v.rows|)).value
  }

  // The rows shown are the front of the list; without a button they are all of it.
  ghost predicate Showing<R>(l: Listing<R>, v: View<R>) {
    v.key == l.key && v.rows <= l.all && (!v.hasMore ==> v.rows == l.all)
  }

  lemma FirstPage<R>(server: Server<R>, l: Listing<R>)
    requires Serves(server, l) && l.Ok()
    ensures Showing(l, server(0))
  {
  }

  // A press repeats and skips nothing, and makes progress: more rows, or an empty page that takes the
  // button away.
  lemma PressLoads<R>(server: Server<R>, l: Listing<R>, v: View<R>)
    requires Serves(server, l) && l.Ok() && Showing(l, v)
    ensures var v' := Press(server, v);
            && Showing(l, v')
            && |v'.rows| == Min(|v.rows| + l.limit, |l.all|)
            && (|v'.rows| == |v.rows| ==> !v'.hasMore)
  {
    assert v.rows + Slice(l.all, |v.rows|, l.limit) == l.all[..Min(|v.rows| + l.limit, |l.all|)];
  }

  // Presses until the button is gone.
  ghost function PressAll<R>(server: Server<R>, l: Listing<R>, v: View<R>): View<R>
    requires Serves(server, l) && l.Ok() && Showing(l, v)
    decreases |l.all| - |v.rows|, if v.hasMore then 1 else 0
  {
    PressLoads(server, l, v);
    if v.hasMore then PressAll(server, l, Press(server, v)) else v
  }

  // The first page, then presses until the button is gone.
  ghost function LoadAll<R>(server: Server<R>, l: Listing<R>): View<R>
    requires Serves(server, l) && l.Ok()
  {
    FirstPage(server, l);
    PressAll(server, l, server(0))
  }

  lemma {:induction false} PressAllShowsEverything<R>(server: Server<R>, l: Listing<R>, v: View<R>)
    requires Serves(server, l) && l.Ok() && Showing(l, v)
    ensures PressAll(server, l, v) == View(l.key, l.all, false)
    decreases |l.all| - |v.rows|, if v.hasMore then 1 else 0
  {
    PressLoads(server, l, v);
    if v.hasMore {
      PressAllShowsEverything(server, l, Press(server, v));
    }
  }

  // It ends, with the whole list shown once, in order.
  lemma LoadAllShowsEverything<R>(server: Server<R>, l: Listing<R>)
    requires Serves(server, l) && l.Ok()
    ensures LoadAll(server, l) == View(l.key, l.all, false)
  {
    FirstPage(server, l);
    PressAllShowsEverything(server, l, server(0));
  }

  // ---------- pages that arrive late ----------

  function Arrive<R>(state: Option<View<R>>, pages: seq<View<R>>): Option<View<R>>
    decreases |pages|
  {
    if pages == [] then state else Arrive(More(state, pages[0]), pages[1..])
  }

  // The pages under a key.
  function Own<R>(pages: seq<View<R>>, key: string): seq<View<R>> {
    if pages == [] then []
    else if pages[0].key == key then [pages[0]] + Own(pages[1..], key)
    else Own(pages[1..], key)
  }

  // The answers to the presses that load everything.
  ghost function Answers<R>(server: Server<R>, l: Listing<R>, v: View<R>): seq<View<R>>
    requires Serves(server, l) && l.Ok() && Showing(l, v)
    decreases |l.all| - |v.rows|, if v.hasMore then 1 else 0
  {
    PressLoads(server, l, v);
    if v.hasMore then [server(|v.rows|)] + Answers(server, l, Press(server, v)) else []
  }

  // Pages of anything viewed before change nothing, wherever they come in.
  lemma {:induction false} StraysDropped<R>(v: View<R>, pages: seq<View<R>>)
    ensures Arrive(Some(v), pages) == Arrive(Some(v), Own(pages, v.key))
    decreases |pages|
  {
    if pages != [] {
      StraysDropped(More(Some(v), pages[0]).value, pages[1..]);
    }
  }

  lemma {:induction false} AnswersLoad<R>(server: Server<R>, l: Listing<R>, v: View<R>)
    requires Serves(server, l) && l.Ok() && Showing(l, v)
    ensures Arrive(Some(v), Answers(server, l, v)) == Some(PressAll(server, l, v))
    decreases |l.all| - |v.rows|, if v.hasMore then 1 else 0
  {
    PressLoads(server, l, v);
    if v.hasMore {
      AnswersLoad(server, l, Press(server, v));
    }
  }

  // Whatever pages of other keys come in between the answers, loading ends with the whole list.
  lemma LoadsThroughStrays<R>(server: Server<R>, l: Listing<R>, pages: seq<View<R>>)
    requires Serves(server, l) && l.Ok()
    requires Showing(l, server(0)) && Own(pages, l.key) == Answers(server, l, server(0))
    ensures Arrive(Some(server(0)), pages) == Some(View(l.key, l.all, false))
  {
    StraysDropped(server(0), pages);
    AnswersLoad(server, l, server(0));
    PressAllShowsEverything(server, l, server(0));
  }

  // A late page under the key being viewed (left, and come back to) is not dropped: it is appended, and the
  // rows stay a front of the list if and only if the page starts where they end, or past the end of everything.
  lemma LateRows<R>(l: Listing<R>, v: View<R>, offset: nat)
    requires l.Ok() && NoRepeats(l.all) && v.key == l.key && v.rows <= l.all
    ensures More(Some(v), l.Answer(offset)).value.rows <= l.all <==> offset == |v.rows| || offset >= |l.all|
  {
    var page, now := l.Answer(offset).rows, More(Some(v), l.Answer(offset)).value.rows;
    if offset < |l.all| {
      assert page[0] == l.all[offset] && now[|v.rows|] == page[0];
      if offset == |v.rows| {
        assert now == l.all[..Min(offset + l.limit, |l.all|)];
      }
    }
  }

  // With the cursor it brings, it leaves the view right if and only if it starts where the rows end, or is an
  // empty page that comes when everything is shown already: an earlier empty one takes the button away.
  lemma LatePageOfSameKey<R>(l: Listing<R>, v: View<R>, offset: nat)
    requires l.Ok() && NoRepeats(l.all) && v.key == l.key && v.rows <= l.all
    ensures Showing(l, More(Some(v), l.Answer(offset)).value) <==>
            offset == |v.rows| || (offset >= |l.all| && v.rows == l.all)
  {
    LateRows(l, v, offset);
    var page := l.Answer(offset);
    if offset >= |l.all| {
      assert page.rows == [] && !page.hasMore;
      assert More(Some(v), page).value.rows == v.rows;
    } else if offset == |v.rows| {
      assert v.rows + page.rows == l.all[..Min(offset + l.limit, |l.all|)];
    }
  }

  // Two rows, one a page, from a scan cut short at two: the second press's empty answer, landing on the first
  // page of a second visit, ends the list one row short.
  lemma LateEmptyPageCutsShort()
    ensures var l, v := Listing("a", [1, 2], true, 2, 1), View("a", [1], true);
            && l.Ok() && Showing(l, v) && v == l.Answer(0)
            && More(Some(v), l.Answer(2)) == Some(View("a", [1], false))
            && !Showing(l, View("a", [1], false))
  {
    var l, v := Listing("a", [1, 2], true, 2, 1), View("a", [1], true);
    assert l.all[..1] == [1];
    assert v.rows + l.Answer(2).rows == [1];
  }
}
