/** The bounded read cache (internal/explorer/cache.go).

    The list and the map are modelled as the cache keeps them: `order` lists the elements, most
    recently used first, and `items` finds an element by its key. What the cache means is its
    `Contents`, a sequence of key/value pairs; `Get`, `Put` and `Clear` are proved against functions
    on that sequence. LruHistory says what those functions achieve over whole runs. */
module Lru {
  import opened Options
  import opened Common

  datatype Pair<+K, +V> = Pair(key: K, val: V)

  // ---------- sequences of pairs ----------

  ghost predicate Distinct<K, V>(s: seq<Pair<K, V>>) {
    forall i, j :: 0 <= i < j < |s| ==> s[i].key != s[j].key
  }

  function Without<K(==), V>(s: seq<Pair<K, V>>, k: K): seq<Pair<K, V>> {
    if s == [] then []
    else if s[0].key == k then Without(s[1..], k)
    else [s[0]] + Without(s[1..], k)
  }

  function Lookup<K(==), V>(s: seq<Pair<K, V>>, k: K): Option<V> {
    if s == [] then None
    else if s[0].key == k then Some(s[0].val)
    else Lookup(s[1..], k)
  }

  // ---------- the three operations, on contents ----------

  function GetSpec<K(==), V>(s: seq<Pair<K, V>>, k: K): seq<Pair<K, V>> {
    match Lookup(s, k)
    case None => s
    case Some(v) => [Pair(k, v)] + Without(s, k)
  }

  function PutSpec<K(==), V>(s: seq<Pair<K, V>>, cap: nat, k: K, v: V): seq<Pair<K, V>> {
    Take([Pair(k, v)] + Without(s, k), cap)
  }

  lemma {:induction false} WithoutAbsent<K, V>(s: seq<Pair<K, V>>, k: K)
    requires forall i :: 0 <= i < |s| ==> s[i].key != k
    ensures Without(s, k) == s && Lookup(s, k) == None
  {
    if s != [] {
      WithoutAbsent(s[1..], k);
    }
  }

  lemma {:induction false} WithoutAt<K, V>(s: seq<Pair<K, V>>, i: nat)
    requires Distinct(s) && i < |s|
    ensures Without(s, s[i].key) == s[..i] + s[i + 1..]
    ensures Lookup(s, s[i].key) == Some(s[i].val)
  {
    if i == 0 {
      WithoutAbsent(s[1..], s[0].key);
      assert Without(s, s[0].key) == Without(s[1..], s[0].key);
    } else {
      WithoutAt(s[1..], i - 1);
      assert s[..i] + s[i + 1..] == [s[0]] + (s[1..][..i - 1] + s[1..][i..]);
    }
  }

  lemma WithoutUpdate<K, V>(s: seq<Pair<K, V>>, i: nat, v: V)
    requires Distinct(s) && i < |s|
    ensures Without(s[i := Pair(s[i].key, v)], s[i].key) == Without(s, s[i].key)
    ensures |Without(s, s[i].key)| < |s|
  {
    var s' := s[i := Pair(s[i].key, v)];
    WithoutAt(s, i);
    WithoutAt(s', i);
    assert s'[..i] == s[..i] && s'[i + 1..] == s[i + 1..];
  }

  function MovedToFront<T>(s: seq<T>, i: nat): (r: seq<T>)
    requires i < |s|
    ensures |r| == |s|
    ensures forall j :: 0 <= j < |s| ==> r[j] == s[if j == 0 then i else if j <= i then j - 1 else j]
  {
    [s[i]] + (s[..i] + s[i + 1..])
  }

  lemma MovedToFrontKeeps<T>(s: seq<T>, i: nat)
    requires i < |s| && NoRepeats(s)
    ensures forall x :: x in MovedToFront(s, i) <==> x in s
    ensures NoRepeats(MovedToFront(s, i))
  {
    var r := MovedToFront(s, i);
    forall x | x in s ensures x in r {
      var j :| 0 <= j < |s| && s[j] == x;
      assert r[if j == i then 0 else if j < i then j + 1 else j] == x;
    }
  }

  // ---------- the list and the map ----------

  class Element<K, V> {
    const key: K
    var val: V

    constructor (key: K, val: V)
      ensures this.key == key && this.val == val
    {
      this.key := key;
      this.val := val;
    }
  }

  // List and map are in bijection.
  ghost predicate Linked<K, V>(order: seq<Element<K, V>>, items: map<K, Element<K, V>>) {
    && NoRepeats(order)
    && (forall e :: e in order ==> e.key in items && items[e.key] == e)
    && (forall k :: k in items ==> items[k] in order && items[k].key == k)
  }

  ghost function PairsOf<K, V>(order: seq<Element<K, V>>): (s: seq<Pair<K, V>>)
    reads order
    ensures |s| == |order|
    ensures forall i :: 0 <= i < |s| ==> s[i] == Pair(order[i].key, order[i].val)
  {
    seq(|order|, i requires 0 <= i < |order| reads order => Pair(order[i].key, order[i].val))
  }

  lemma LinkedDistinct<K, V>(order: seq<Element<K, V>>, items: map<K, Element<K, V>>)
    requires Linked(order, items)
    ensures Distinct(PairsOf(order))
  {
    var s := PairsOf(order);
    forall i, j | 0 <= i < j < |s| ensures s[i].key != s[j].key {
      assert order[i] in order && order[j] in order;
    }
  }

  lemma LinkedAbsent<K, V>(order: seq<Element<K, V>>, items: map<K, Element<K, V>>, k: K)
    requires Linked(order, items) && k !in items
    ensures Without(PairsOf(order), k) == PairsOf(order) && Lookup(PairsOf(order), k) == None
  {
    forall i | 0 <= i < |order| ensures PairsOf(order)[i].key != k {
      assert order[i] in order;
    }
    WithoutAbsent(PairsOf(order), k);
  }

  lemma LinkedMove<K, V>(order: seq<Element<K, V>>, items: map<K, Element<K, V>>, i: nat)
    requires Linked(order, items) && i < |order|
    ensures Linked(MovedToFront(order, i), items)
    ensures forall e :: e in MovedToFront(order, i) <==> e in order
  {
    MovedToFrontKeeps(order, i);
  }

  lemma PairsMove<K, V>(order: seq<Element<K, V>>, i: nat)
    requires i < |order| && Distinct(PairsOf(order))
    ensures PairsOf(MovedToFront(order, i))
         == [Pair(order[i].key, order[i].val)] + Without(PairsOf(order), order[i].key)
    ensures Lookup(PairsOf(order), order[i].key) == Some(order[i].val)
  {
    WithoutAt(PairsOf(order), i);
    assert PairsOf(MovedToFront(order, i)) == MovedToFront(PairsOf(order), i);
  }

  lemma LinkedPush<K, V>(order: seq<Element<K, V>>, items: map<K, Element<K, V>>, el: Element<K, V>)
    requires Linked(order, items) && el.key !in items
    ensures Linked([el] + order, items[el.key := el])
  {
    var now := [el] + order;
    assert forall i :: 0 < i < |now| ==> now[i] == order[i - 1];
    assert forall e :: e in now <==> e == el || e in order;
  }

  lemma PairsCons<K, V>(order: seq<Element<K, V>>, el: Element<K, V>)
    ensures PairsOf([el] + order) == [Pair(el.key, el.val)] + PairsOf(order)
  {
  }

  lemma LinkedPop<K, V>(order: seq<Element<K, V>>, items: map<K, Element<K, V>>)
    requires Linked(order, items) && order != []
    ensures Linked(order[..|order| - 1], items - {order[|order| - 1].key})
    ensures PairsOf(order[..|order| - 1]) == PairsOf(order)[..|order| - 1]
  {
    var last := order[|order| - 1];
    var rest := order[..|order| - 1];
    forall k | k in items && k != last.key ensures items[k] in rest {
      var i :| 0 <= i < |order| && order[i] == items[k];
      assert rest[i] == items[k];
    }
    forall e | e in rest ensures e.key != last.key {
      assert items[e.key] == e && items[last.key] == last;
    }
  }

  // ---------- the cache itself ----------

  class LruCache<K(==), V> {
    const cap: nat
    var order: seq<Element<K, V>>
    var items: map<K, Element<K, V>>

    ghost predicate Valid()
      reads this
    {
      |order| <= cap && Linked(order, items)
    }

    ghost function Contents(): (s: seq<Pair<K, V>>)
      reads this, order
    {
      PairsOf(order)
    }

    constructor (capacity: nat)
      ensures Valid() && cap == capacity && Contents() == []
      ensures order == []
    {
      cap := capacity;
      order := [];
      items := map[];
    }

    method Get(key: K) returns (r: Option<V>)
      requires Valid()
      modifies this
      ensures Valid()
      ensures r == Lookup(old(Contents()), key)
      ensures Contents() == GetSpec(old(Contents()), key)
      ensures if r.None? then order == old(order) else forall e :: e in order <==> e in old(order)
    {
      if key !in items {
        LinkedAbsent(order, items, key);
        return None;
      }
      var el := items[key];
      MoveToFront(el);
      r := Some(el.val);
    }

    // The list's MoveToFront: the element keeps its identity, only its place changes.
    method MoveToFront(el: Element<K, V>)
      requires Valid() && el in order
      modifies this
      ensures Valid() && items == old(items)
      ensures forall e :: e in order <==> e in old(order)
      ensures Contents() == [Pair(el.key, el.val)] + Without(old(Contents()), el.key)
      ensures Lookup(old(Contents()), el.key) == Some(el.val)
    {
      var i :| 0 <= i < |order| && order[i] == el;
      MoveAt(i);
    }

    method MoveAt(i: nat)
      requires Valid() && i < |order|
      modifies this`order
      ensures Valid() && forall e :: e in order <==> e in old(order)
      ensures Contents() == [Pair(old(order)[i].key, old(order)[i].val)] + Without(old(Contents()), old(order)[i].key)
      ensures Lookup(old(Contents()), old(order)[i].key) == Some(old(order)[i].val)
    {
      LinkedDistinct(order, items);
      PairsMove(order, i);
      LinkedMove(order, items, i);
      order := MovedToFront(order, i);
    }

    method Clear()
      requires Valid()
      modifies this
      ensures Valid() && Contents() == [] && order == []
    {
      order := [];
      items := map[];
    }

    method Put(key: K, val: V)
      requires Valid()
      modifies this, order
      ensures Valid()
      ensures Contents() == PutSpec(old(Contents()), cap, key, val)
      ensures forall e :: e in order ==> e in old(order) || fresh(e)
    {
      if key in items {
        Overwrite(items[key], val);
        return;
      }
      Insert(key, val);
    }

    // A key not present: its element goes to the front and, past the bound, the last one goes out.
    method Insert(key: K, val: V)
      requires Valid() && key !in items
      modifies this
      ensures Valid()
      ensures Contents() == PutSpec(old(Contents()), cap, key, val)
      ensures forall e :: e in order ==> e in old(order) || fresh(e)
    {
      LinkedAbsent(order, items, key);
      PushFront(key, val);
      if |order| > cap {
        RemoveBack();
      }
    }

    // A new element goes to the front; the list may now exceed the bound by one.
    method PushFront(key: K, val: V)
      requires Linked(order, items) && key !in items
      modifies this
      ensures Linked(order, items) && |order| == |old(order)| + 1
      ensures Contents() == [Pair(key, val)] + old(Contents())
      ensures forall e :: e in order ==> e in old(order) || fresh(e)
    {
      var el := new Element(key, val);
      Link(el);
    }

    method Link(el: Element<K, V>)
      requires Linked(order, items) && el.key !in items
      modifies this
      ensures Linked(order, items) && order == [el] + old(order)
      ensures Contents() == [Pair(el.key, el.val)] + old(Contents())
    {
      PairsCons(order, el);
      LinkedPush(order, items, el);
      order, items := [el] + order, items[el.key := el];
    }

    // The least recently used element leaves both the list and the map.
    method RemoveBack()
      requires Linked(order, items) && order != []
      modifies this
      ensures Linked(order, items) && |order| == |old(order)| - 1
      ensures forall e :: e in order ==> e in old(order)
      ensures Contents() == old(Contents())[..|order|]
    {
      LinkedPop(order, items);
      var oldest := order[|order| - 1];
      order, items := order[..|order| - 1], items - {oldest.key};
    }

    // A put on a key already present: the element is overwritten in place and moves to the front.
    method Overwrite(el: Element<K, V>, val: V)
      requires Valid() && el in order
      modifies this, order
      ensures Valid()
      ensures Contents() == PutSpec(old(Contents()), cap, el.key, val)
      ensures forall e :: e in order <==> e in old(order)
    {
      ghost var i :| 0 <= i < |order| && order[i] == el;
      LinkedDistinct(order, items);
      WithoutUpdate(Contents(), i, val);
      SetValue(el, val, i);
      MoveToFront(el);
    }

    method SetValue(el: Element<K, V>, val: V, ghost i: nat)
      requires Valid() && i < |order| && order[i] == el
      modifies el
      ensures Valid() && el.val == val
      ensures Contents() == old(Contents())[i := Pair(el.key, val)]
    {
      el.val := val;
    }
  }
}
