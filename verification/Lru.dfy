/** The LRU cache as the source builds it: a ring of elements with a sentinel, and a map
  * from key to element.  `Contents` is the list from most to least recently used. */
module Lru {
  import opened LruModel
  import opened Wrappers

  class Element<K(==), V> {
    var next: Element<K, V>
    var prev: Element<K, V>
    var entry: Option<Entry<K, V>>

    constructor (entry: Option<Entry<K, V>>)
      ensures this.entry == entry && next == this && prev == this
    {
      this.entry := entry;
      next := this;
      prev := this;
    }
  }

  class Ring<K(==), V> {
    const root: Element<K, V>
    ghost var all: seq<Element<K, V>>   // the sentinel, then the elements front to back
    ghost var Repr: set<Element<K, V>>

    ghost predicate Valid()
      reads this, Repr`next, Repr`prev
    {
      && |all| > 0 && all[0] == root
      && (forall i {:trigger all[i]} :: 0 <= i < |all| ==> all[i] in Repr)
      && (forall i, j :: 0 <= i < j < |all| ==> all[i] != all[j])
      && (forall i {:trigger all[i].next} :: 0 <= i < |all| - 1 ==> all[i].next == all[i+1])
      && all[|all|-1].next == root
      && (forall i {:trigger all[i].prev} :: 1 <= i < |all| ==> all[i].prev == all[i-1])
      && root.prev == all[|all|-1]
    }

    constructor ()
      ensures Valid() && all == [root] && fresh(root) && Repr == {root}
    {
      root := new Element<K, V>(None);
      new;
      all := [root];
      Repr := {root};
    }

    /** Takes an element out of the ring. */
    method Remove(e: Element<K, V>, ghost i: nat)
      requires Valid() && 1 <= i < |all| && all[i] == e
      modifies `all, Repr`next, Repr`prev
      ensures Valid() && all == old(all[..i] + all[i+1..])
    {
      e.prev.next := e.next;
      e.next.prev := e.prev;
      all := all[..i] + all[i+1..];
    }

    /** Puts an element that is not in the ring at its front. */
    method InsertFront(e: Element<K, V>)
      requires Valid() && e !in all
      modifies `all, `Repr, Repr`next, Repr`prev, e`next, e`prev
      ensures Valid() && all == old([all[0], e] + all[1..]) && Repr == old(Repr) + {e}
    {
      e.prev := root;
      e.next := root.next;
      e.prev.next := e;
      e.next.prev := e;
      all := [all[0], e] + all[1..];
      Repr := Repr + {e};
    }

    method MoveToFront(e: Element<K, V>, ghost i: nat)
      requires Valid() && 1 <= i < |all| && all[i] == e
      modifies `all, `Repr, Repr`next, Repr`prev
      ensures Valid() && all == MovedAll(old(all), i) && Repr == old(Repr)
    {
      if root.next == e {
        assert all[0].next == all[1];
        assert MovedAll(all, 1) == all;
        return;
      }
      Remove(e, i);
      InsertFront(e);
    }

    method Back() returns (e: Element<K, V>)
      requires Valid() && |all| > 1
      ensures e == all[|all|-1]
    {
      e := root.prev;
    }
  }

  /** The index map points each key at the element that holds its entry, and at nothing else. */
  ghost predicate Linked<K, V>(all: seq<Element<K, V>>, entries: seq<Entry<K, V>>, idx: map<K, Element<K, V>>) {
    && |all| == |entries| + 1
    && (forall i {:trigger entries[i]} :: 0 <= i < |entries| ==>
      entries[i].key in idx && idx[entries[i].key] == all[i+1])
    && (forall k :: k in idx ==> HasKey(entries, k))
  }

  ghost function MovedAll<K, V>(all: seq<Element<K, V>>, i: nat): seq<Element<K, V>>
    requires 1 <= i < |all|
  {
    [all[0], all[i]] + all[1..i] + all[i+1..]
  }

  lemma LinkedLookup<K, V>(all: seq<Element<K, V>>, entries: seq<Entry<K, V>>, idx: map<K, Element<K, V>>, k: K)
    requires Linked(all, entries, idx)
    ensures k in idx <==> IndexOf(entries, k) < |entries|
    ensures k in idx ==> idx[k] == all[IndexOf(entries, k) + 1]
  {
    var i := IndexOf(entries, k);
    if i < |entries| { assert entries[i].key == k; }
  }

  lemma MovedIndex<K, V>(entries: seq<Entry<K, V>>, i: nat, e: Entry<K, V>, k: K)
    requires i < |entries| && e.key == entries[i].key && IndexOf(entries, k) < |entries|
    ensures IndexOf([e] + (entries[..i] + entries[i+1..]), k) < |entries|
  {
    var moved, j := [e] + (entries[..i] + entries[i+1..]), IndexOf(entries, k);
    var at := if j < i then j + 1 else if j == i then 0 else j;
    assert moved[at].key == k;
  }

  lemma LinkedMove<K, V>(all: seq<Element<K, V>>, entries: seq<Entry<K, V>>, idx: map<K, Element<K, V>>, i: nat,
                         e: Entry<K, V>)
    requires Linked(all, entries, idx) && i < |entries| && e.key == entries[i].key
    ensures Linked(MovedAll(all, i + 1), [e] + (entries[..i] + entries[i+1..]), idx)
  {
    var moved, nodes := [e] + (entries[..i] + entries[i+1..]), MovedAll(all, i + 1);
    forall j | 0 <= j < |moved| ensures moved[j].key in idx && idx[moved[j].key] == nodes[j+1] {
      var from := if j == 0 then i else if j <= i then j - 1 else j;
      assert moved[j].key == entries[from].key;
      assert nodes[j+1] == all[from+1];
    }
    forall k | k in idx ensures IndexOf(moved, k) < |moved| { MovedIndex(entries, i, e, k); }
  }

  /** The elements behind the sentinel hold these entries. */
  ghost predicate Holds<K, V>(all: seq<Element<K, V>>, entries: seq<Entry<K, V>>)
    reads (set x | x in all)`entry
  {
    |all| == |entries| + 1 && forall i :: 0 <= i < |entries| ==> all[i+1].entry == Some(entries[i])
  }

  lemma HoldsMove<K, V>(all: seq<Element<K, V>>, entries: seq<Entry<K, V>>, i: nat)
    requires Holds(all, entries) && i < |entries|
    ensures Holds(MovedAll(all, i + 1), [entries[i]] + (entries[..i] + entries[i+1..]))
  {
    var moved, nodes := [entries[i]] + (entries[..i] + entries[i+1..]), MovedAll(all, i + 1);
    forall j | 0 <= j < |moved| ensures nodes[j+1].entry == Some(moved[j]) {
      var from := if j == 0 then i else if j <= i then j - 1 else j;
      assert nodes[j+1] == all[from+1] && moved[j] == entries[from];
    }
  }

  /** List, map and contents agree. */
  ghost predicate Agree<K, V>(all: seq<Element<K, V>>, entries: seq<Entry<K, V>>, idx: map<K, Element<K, V>>)
    reads (set x | x in all)`entry
  {
    Holds(all, entries) && Linked(all, entries, idx) && DistinctKeys(entries)
  }

  lemma LinkedHead<K, V>(all: seq<Element<K, V>>, entries: seq<Entry<K, V>>, idx: map<K, Element<K, V>>, e: Entry<K, V>)
    requires Linked(all, entries, idx) && DistinctKeys(entries) && |entries| > 0 && entries[0].key == e.key
    ensures Linked(all, [e] + entries[1..], idx) && DistinctKeys([e] + entries[1..])
  {
    var t := [e] + entries[1..];
    forall i | 0 <= i < |t| ensures t[i].key == entries[i].key {}
    forall k | k in idx ensures HasKey(t, k) {
      var i :| 0 <= i < |entries| && entries[i].key == k;
      assert t[i].key == k;
    }
  }

  lemma HoldsPush<K, V>(all: seq<Element<K, V>>, entries: seq<Entry<K, V>>, el: Element<K, V>)
    requires Holds(all, entries) && el.entry.Some?
    ensures Holds([all[0], el] + all[1..], [el.entry.value] + entries)
  {
    var nodes, pushed := [all[0], el] + all[1..], [el.entry.value] + entries;
    forall j | 0 <= j < |pushed| ensures nodes[j+1].entry == Some(pushed[j]) {
      if j > 0 { assert nodes[j+1] == all[j] && pushed[j] == entries[j-1]; }
    }
  }

  lemma HoldsDrop<K, V>(all: seq<Element<K, V>>, entries: seq<Entry<K, V>>)
    requires Holds(all, entries) && |entries| > 0
    ensures var n := |entries| - 1; Holds(all[..n+1] + all[n+2..], entries[..n])
    ensures all[|all|-1].entry == Some(entries[|entries|-1])
  {
  }

  lemma LinkedPush<K, V>(all: seq<Element<K, V>>, entries: seq<Entry<K, V>>, idx: map<K, Element<K, V>>,
                         el: Element<K, V>, e: Entry<K, V>)
    requires Linked(all, entries, idx) && IndexOf(entries, e.key) == |entries|
    ensures Linked([all[0], el] + all[1..], [e] + entries, idx[e.key := el])
  {
    var pushed, nodes := [e] + entries, [all[0], el] + all[1..];
    forall j | 0 <= j < |pushed|
      ensures pushed[j].key in idx[e.key := el] && idx[e.key := el][pushed[j].key] == nodes[j+1]
    {
      if j > 0 { assert pushed[j] == entries[j-1] && nodes[j+1] == all[j]; }
    }
    forall k | k in idx[e.key := el] ensures HasKey(pushed, k) {
      if k == e.key { assert pushed[0].key == k; } else { assert pushed[IndexOf(entries, k) + 1].key == k; }
    }
  }

  lemma LinkedDrop<K, V>(all: seq<Element<K, V>>, entries: seq<Entry<K, V>>, idx: map<K, Element<K, V>>)
    requires Linked(all, entries, idx) && DistinctKeys(entries) && |entries| > 0
    ensures var n := |entries| - 1; Linked(all[..n+1] + all[n+2..], entries[..n], idx - {entries[n].key})
  {
    var n := |entries| - 1;
    var rest, key := entries[..n], entries[n].key;
    forall j | 0 <= j < n ensures rest[j].key in idx - {key} && (idx - {key})[rest[j].key] == all[..n+1][j+1] {
      assert rest[j] == entries[j];
    }
    forall k | k in idx - {key} ensures IndexOf(rest, k) < |rest| {
      var i := IndexOf(entries, k);
      assert i < n && rest[i].key == k;
    }
  }

  lemma LinkedSize<K, V>(all: seq<Element<K, V>>, entries: seq<Entry<K, V>>, idx: map<K, Element<K, V>>)
    requires Linked(all, entries, idx) && DistinctKeys(entries)
    ensures |idx| == |entries|
  {
    KeysBeforeSize(entries, |entries|);
    forall k ensures k in idx <==> k in KeysBefore(entries, |entries|) {
      LinkedLookup(all, entries, idx, k);
      if k in KeysBefore(entries, |entries|) { var i :| 0 <= i < |entries| && entries[i].key == k; }
    }
    assert idx.Keys == KeysBefore(entries, |entries|);
  }

  lemma AgreeMove<K, V>(all: seq<Element<K, V>>, entries: seq<Entry<K, V>>, idx: map<K, Element<K, V>>, i: nat)
    requires Agree(all, entries, idx) && i < |entries|
    ensures Agree(MovedAll(all, i + 1), [entries[i]] + (entries[..i] + entries[i+1..]), idx)
  {
    LinkedMove(all, entries, idx, i, entries[i]);
    MovedDistinct(entries, i, entries[i]);
    HoldsMove(all, entries, i);
  }

  lemma AgreePush<K, V>(all: seq<Element<K, V>>, entries: seq<Entry<K, V>>, idx: map<K, Element<K, V>>,
                        el: Element<K, V>, e: Entry<K, V>)
    requires Agree(all, entries, idx) && IndexOf(entries, e.key) == |entries| && el.entry == Some(e)
    ensures Agree([all[0], el] + all[1..], [e] + entries, idx[e.key := el])
  {
    LinkedPush(all, entries, idx, el, e);
    PushedDistinct(entries, e);
    HoldsPush(all, entries, el);
  }

  lemma AgreeDrop<K, V>(all: seq<Element<K, V>>, entries: seq<Entry<K, V>>, idx: map<K, Element<K, V>>)
    requires Agree(all, entries, idx) && |entries| > 0
    ensures var n := |entries| - 1;
      all[n+1].entry == Some(entries[n]) && Agree(all[..n+1] + all[n+2..], entries[..n], idx - {entries[n].key})
  {
    LinkedDrop(all, entries, idx);
    HoldsDrop(all, entries);
  }

  class Cache<K(==), V> {
    const cap: int
    const ring: Ring<K, V>
    var idx: map<K, Element<K, V>>
    ghost var contents: seq<Entry<K, V>>   // most recently used first

    ghost predicate Wired()
      reads this, ring, ring.Repr
    {
      ring.Valid() && Agree(ring.all, contents, idx)
    }

    ghost predicate Valid()
      reads this, ring, ring.Repr
    {
      Wired() && Fits(cap, contents)
    }

    constructor (capacity: int)
      ensures Valid() && contents == [] && cap == capacity && fresh(ring) && fresh(ring.Repr)
    {
      cap := capacity;
      ring := new Ring();
      idx := map[];
      contents := [];
    }

    /** Moves the element of entry `i` to the front of the list. */
    method Promote(el: Element<K, V>, ghost i: nat)
      requires Wired() && i < |contents| && |ring.all| == |contents| + 1 && el == ring.all[i+1]
      modifies this, ring, ring.Repr
      ensures Wired() && ring.Repr == old(ring.Repr) && ring.all == MovedAll(old(ring.all), i + 1)
      ensures contents == [old(contents[i])] + old(contents[..i] + contents[i+1..])
    {
      AgreeMove(ring.all, contents, idx, i);
      contents := [contents[i]] + (contents[..i] + contents[i+1..]);
      ring.MoveToFront(el, i + 1);
    }

    /** Replaces the value of the front element. */
    method Rewrite(el: Element<K, V>, e: Entry<K, V>)
      requires Wired() && |contents| > 0 && |ring.all| == |contents| + 1 && el == ring.all[1] &&
        contents[0].key == e.key
      modifies this, el`entry
      ensures Wired() && contents == [e] + old(contents[1..])
    {
      LinkedHead(ring.all, contents, idx, e);
      el.entry := Some(e);
      contents := [e] + contents[1..];
    }

    method PushFront(k: K, v: V)
      requires Wired() && IndexOf(contents, k) == |contents|
      modifies this, ring, ring.Repr
      ensures Wired() && contents == [Entry(k, v)] + old(contents)
      ensures fresh(ring.Repr - old(ring.Repr))
    {
      var el := new Element(Some(Entry(k, v)));
      AgreePush(ring.all, contents, idx, el, Entry(k, v));
      idx := idx[k := el];
      contents := [Entry(k, v)] + contents;
      ring.InsertFront(el);
    }

    /** Evicts the least recently used entry. */
    method DropBack()
      requires Wired() && |contents| > 0
      modifies this, ring, ring.Repr
      ensures Wired() && contents == old(contents[..|contents|-1]) && ring.Repr == old(ring.Repr)
    {
      AgreeDrop(ring.all, contents, idx);
      var oldest := ring.Back();
      ghost var n := |contents|;
      idx := idx - {oldest.entry.value.key};
      contents := contents[..n-1];
      ring.Remove(oldest, n);
    }

    method Get(k: K) returns (r: Option<V>)
      requires Valid()
      modifies this, ring, ring.Repr
      ensures Valid() && ring.Repr == old(ring.Repr)
      ensures r == Lookup(cap, old(contents), k) && contents == AfterGet(cap, old(contents), k)
    {
      if cap <= 0 {
        return None;
      }
      LinkedLookup(ring.all, contents, idx, k);
      OpFits(cap, contents, LruModel.Get(k));
      if k in idx {
        var el := idx[k];
        Promote(el, IndexOf(contents, k));
        assert ring.all[1] == el && el.entry == Some(contents[0]);
        return Some(el.entry.value.val);
      }
      return None;
    }

    method Update(k: K, v: V)
      requires Wired() && k in idx && IndexOf(contents, k) < |contents|
      modifies this, ring, ring.Repr
      ensures Wired() && ring.Repr == old(ring.Repr)
      ensures var i := IndexOf(old(contents), k); contents == [Entry(k, v)] + old(contents[..i] + contents[i+1..])
    {
      LinkedLookup(ring.all, contents, idx, k);
      var el := idx[k];
      Promote(el, IndexOf(contents, k));
      Rewrite(el, Entry(k, v));
    }

    method Insert(k: K, v: V)
      requires Wired() && IndexOf(contents, k) == |contents| && |contents| <= cap
      modifies this, ring, ring.Repr
      ensures Wired() && fresh(ring.Repr - old(ring.Repr))
      ensures var t := [Entry(k, v)] + old(contents); contents == if |t| > cap then t[..|t|-1] else t
    {
      PushFront(k, v);
      LinkedSize(ring.all, contents, idx);
      if |idx| > cap {
        DropBack();
      }
    }

    method Set(k: K, v: V)
      requires Valid()
      modifies this, ring, ring.Repr
      ensures Valid() && fresh(ring.Repr - old(ring.Repr))
      ensures contents == AfterSet(cap, old(contents), k, v)
    {
      if cap <= 0 {
        return;
      }
      LinkedLookup(ring.all, contents, idx, k);
      OpFits(cap, contents, LruModel.Set(k, v));
      if k in idx {
        Update(k, v);
      } else {
        Insert(k, v);
      }
    }
  }
}
