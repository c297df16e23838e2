/**
  The identifier mapper of omci_api_mapper.c. Every item is threaded on two
  singly linked lists, one sorted by ME identifier and one sorted by driver
  index. The class keeps the pointers of the source; `Valid` says that the two
  threads hold the same items in strict key order, and every operation is
  specified by what it does to the set of (identifier, index) pairs.
 */
module Mapper {

  /** omci_api_return, as far as the mapper uses it. */
  datatype Return = Success | NotFound | Error

  /** Key types: every item has one key of each. */
  const ID: nat := 0
  const INDEX: nat := 1

  const WORD: nat := 0x1_0000_0000

  /** uint32_t subtraction and addition, which wrap around. */
  function Sub32(a: nat, b: nat): nat
    requires a < WORD && b < WORD
  {
    if b <= a then a - b else a + WORD - b
  }

  function Add32(a: nat, b: nat): nat
    requires a < WORD && b < WORD
  {
    if a + b < WORD then a + b else a + b - WORD
  }

  class Item {
    const key: seq<nat>
    var next: seq<Item?>

    constructor (key: seq<nat>)
      requires |key| == 2
      ensures this.key == key && next == [null, null]
    {
      this.key := key;
      this.next := [null, null];
    }
  }

  // ----- Abstract view -----

  type Pairs = set<(nat, nat)>

  ghost function PairsOf(items: set<Item>): Pairs
    requires forall n <- items :: |n.key| == 2
  {
    set n <- items :: (n.key[0], n.key[1])
  }

  /** Two pairs agree on the identifier exactly when they agree on the index. */
  ghost predicate PartialBijection(m: Pairs) {
    forall p, q :: p in m && q in m ==> (p.0 == q.0 <==> p.1 == q.1)
  }

  ghost function KeyOf(p: (nat, nat), k: nat): nat
    requires k < 2
  {
    if k == ID then p.0 else p.1
  }

  /** Some pair has this key of type k. */
  ghost predicate Used(m: Pairs, k: nat, key: nat)
    requires k < 2
  {
    exists p :: p in m && KeyOf(p, k) == key
  }

  /** key is the smallest unused key of type k in [lo, hi]. */
  ghost predicate LeastFree(m: Pairs, k: nat, lo: nat, hi: nat, key: nat)
    requires k < 2
  {
    lo <= key <= hi && !Used(m, k, key) && forall x :: lo <= x < key ==> Used(m, k, x)
  }

  /** Every key of type k in [lo, hi] is used. */
  ghost predicate Exhausted(m: Pairs, k: nat, lo: nat, hi: nat)
    requires k < 2
  {
    forall x :: lo <= x <= hi ==> Used(m, k, x)
  }

  // ----- One thread -----

  /** The item at position i, or null past the end. */
  ghost function At(s: seq<Item>, i: nat): Item? {
    if i < |s| then s[i] else null
  }

  /** The i-th item points at its successor on thread k. */
  ghost predicate Linked(s: seq<Item>, k: nat, i: nat)
    requires k < 2 && i < |s|
    reads s
  {
    |s[i].next| == 2 && s[i].next[k] == At(s, i + 1)
  }

  /** s is the chain from h through next[k]. */
  ghost predicate Links(h: Item?, k: nat, s: seq<Item>)
    requires k < 2
    reads s
  {
    h == At(s, 0) && forall i :: 0 <= i < |s| ==> Linked(s, k, i)
  }

  /** s is strictly sorted by key k within [lo, hi]. */
  ghost predicate Ordered(s: seq<Item>, k: nat, lo: nat, hi: nat)
    requires k < 2
  {
    && (forall i :: 0 <= i < |s| ==> |s[i].key| == 2 && lo <= s[i].key[k] <= hi)
    && (forall i, j :: 0 <= i < j < |s| ==> s[i].key[k] < s[j].key[k])
  }

  /** pos is the item before position p of s, or null for the front. */
  ghost predicate Before(pos: Item?, s: seq<Item>, p: nat) {
    p <= |s| && pos == (if p == 0 then null else s[p - 1])
  }

  /** p is where an item with this key is, or would be inserted. */
  ghost predicate SortedPosition(s: seq<Item>, k: nat, p: nat, key: nat)
    requires k < 2 && forall i :: 0 <= i < |s| ==> |s[i].key| == 2
  {
    && p <= |s|
    && (forall i :: 0 <= i < p ==> s[i].key[k] < key)
    && (forall i :: p <= i < |s| ==> key <= s[i].key[k])
  }

  ghost predicate Members(s: seq<Item>, items: set<Item>) {
    (forall x :: x in s ==> x in items) && (forall x :: x in items ==> x in s)
  }

  ghost function Inserted(s: seq<Item>, p: nat, item: Item): (t: seq<Item>)
    requires p <= |s|
    ensures |t| == |s| + 1
  {
    seq(|s| + 1, i requires 0 <= i <= |s| => if i < p then s[i] else if i == p then item else s[i - 1])
  }

  ghost function Removed(s: seq<Item>, p: nat): (t: seq<Item>)
    requires p < |s|
    ensures |t| == |s| - 1
  {
    seq(|s| - 1, i requires 0 <= i < |s| - 1 => if i < p then s[i] else s[i + 1])
  }

  lemma InsertedOrdered(s: seq<Item>, k: nat, p: nat, item: Item, lo: nat, hi: nat)
    requires k < 2 && Ordered(s, k, lo, hi) && |item.key| == 2 && lo <= item.key[k] <= hi
    requires SortedPosition(s, k, p, item.key[k]) && (p < |s| ==> s[p].key[k] != item.key[k])
    ensures item !in s && Ordered(Inserted(s, p, item), k, lo, hi)
  {
    forall i | p <= i < |s| ensures item.key[k] < s[i].key[k] {
      if i > p { assert s[p].key[k] < s[i].key[k]; }
    }
  }

  lemma InsertedMembers(s: seq<Item>, p: nat, item: Item, items: set<Item>)
    requires p <= |s| && Members(s, items)
    ensures Members(Inserted(s, p, item), items + {item})
  {
    var t := Inserted(s, p, item);
    assert t[p] == item;
    forall i | 0 <= i < |s| ensures s[i] in t {
      assert s[i] == t[if i < p then i else i + 1];
    }
  }

  lemma RemovedMembers(s: seq<Item>, k: nat, p: nat, lo: nat, hi: nat, items: set<Item>)
    requires k < 2 && Ordered(s, k, lo, hi) && p < |s| && Members(s, items)
    ensures Ordered(Removed(s, p), k, lo, hi) && Members(Removed(s, p), items - {s[p]})
  {
    var t := Removed(s, p);
    forall i | 0 <= i < |s| && i != p ensures s[i] in t {
      assert s[i] == t[if i < p then i else i - 1];
    }
    forall i | 0 <= i < |t| ensures t[i] != s[p] {
      assert if i < p then s[i].key[k] < s[p].key[k] else s[p].key[k] < s[i + 1].key[k];
    }
  }

  lemma Distinct(s: seq<Item>, k: nat, lo: nat, hi: nat)
    requires k < 2 && Ordered(s, k, lo, hi)
    ensures forall i, j :: 0 <= i < j < |s| ==> s[i] != s[j]
  {
    forall i, j | 0 <= i < j < |s| ensures s[i] != s[j] {
      assert s[i].key[k] < s[j].key[k];
    }
  }

  class Mapper {
    const minKey: seq<nat>
    const maxKey: seq<nat>
    var head: seq<Item?>
    ghost var thread: seq<seq<Item>>
    ghost var items: set<Item>

    ghost predicate Ranges() {
      && |minKey| == |maxKey| == 2
      && minKey[0] <= maxKey[0] < WORD && minKey[1] <= maxKey[1] < WORD
    }

    ghost predicate ThreadOk(k: nat)
      reads this, items
      requires k < 2
    {
      && Ranges() && |head| == |thread| == 2
      && Members(thread[k], items)
      && Links(head[k], k, thread[k]) && Ordered(thread[k], k, minKey[k], maxKey[k])
    }

    ghost predicate Valid()
      reads this, items
    {
      ThreadOk(0) && ThreadOk(1)
    }

    ghost function M(): Pairs
      reads this, items
      requires Valid()
    {
      KeyShape();
      PairsOf(items)
    }

    lemma KeyShape()
      requires Valid()
      ensures forall n <- items :: |n.key| == 2
    {
      forall n | n in items ensures |n.key| == 2 {
        assert n in thread[0];
      }
    }

    lemma UsedIffInThread(k: nat, key: nat)
      requires Valid() && k < 2
      ensures Used(M(), k, key) <==> exists i :: 0 <= i < |thread[k]| && thread[k][i].key[k] == key
    {
      KeyShape();
      if i :| 0 <= i < |thread[k]| && thread[k][i].key[k] == key {
        var n := thread[k][i];
        assert n in items;
        assert (n.key[0], n.key[1]) in M();
      }
      if Used(M(), k, key) {
        var p :| p in M() && KeyOf(p, k) == key;
        var n :| n in items && p == (n.key[0], n.key[1]);
        assert n in thread[k];
      }
    }

    /** The two threads make the pairs a partial bijection within the key ranges. */
    lemma Bijection()
      requires Valid()
      ensures PartialBijection(M())
      ensures forall p :: p in M() ==> minKey[0] <= p.0 <= maxKey[0] && minKey[1] <= p.1 <= maxKey[1]
    {
      KeyShape();
      forall p, q | p in M() && q in M() ensures p.0 == q.0 <==> p.1 == q.1 {
        var a :| a in items && p == (a.key[0], a.key[1]);
        var b :| b in items && q == (b.key[0], b.key[1]);
        assert a in thread[0] && a in thread[1] && b in thread[0] && b in thread[1];
      }
      forall p | p in M() ensures minKey[0] <= p.0 <= maxKey[0] && minKey[1] <= p.1 <= maxKey[1] {
        var a :| a in items && p == (a.key[0], a.key[1]);
        assert a in thread[0] && a in thread[1];
      }
    }

    /** id_type_init */
    constructor (minKey: seq<nat>, maxKey: seq<nat>)
      requires |minKey| == |maxKey| == 2
      requires minKey[0] <= maxKey[0] < WORD && minKey[1] <= maxKey[1] < WORD
      ensures Valid() && M() == {} && items == {}
      ensures this.minKey == minKey && this.maxKey == maxKey
    {
      this.minKey := minKey;
      this.maxKey := maxKey;
      head := [null, null];
      thread := [[], []];
      items := {};
    }

    /** key_verify, for an initialised mapper. */
    predicate InRange(k: nat, key: nat)
      requires Ranges() && k < 2
    {
      minKey[k] <= key <= maxKey[k]
    }

    /** item_find */
    method ItemFind(k: nat, key: nat) returns (ret: Return, pos: Item?, ghost p: nat)
      requires Valid() && k < 2
      ensures ret == Success || ret == NotFound
      ensures ret == Success <==> Used(M(), k, key)
      ensures Before(pos, thread[k], p) && SortedPosition(thread[k], k, p, key)
      ensures ret == Success <==> p < |thread[k]| && thread[k][p].key[k] == key
    {
      ret, pos, p := Walk(k, key);
      UsedIffInThread(k, key);
    }

    method Walk(k: nat, key: nat) returns (ret: Return, pos: Item?, ghost p: nat)
      requires k < 2 && ThreadOk(k)
      ensures ret == Success || ret == NotFound
      ensures Before(pos, thread[k], p) && SortedPosition(thread[k], k, p, key)
      ensures ret == Success <==> p < |thread[k]| && thread[k][p].key[k] == key
    {
      ghost var s := thread[k];
      pos, p := null, 0;
      var item := head[k];
      if item == null { return NotFound, null, 0; }
      if key < item.key[k] { return NotFound, null, 0; }
      if item.key[k] == key { return Success, null, 0; }
      ghost var i := 0;
      assert Linked(s, k, 0);
      while item.next[k] != null
        invariant 0 <= i < |s| && item == s[i] && item.key[k] < key && Linked(s, k, i)
        decreases |s| - i
      {
        if item.next[k].key[k] == key { return Success, item, i + 1; }
        if key < item.next[k].key[k] { return NotFound, item, i + 1; }
        item := item.next[k];
        i := i + 1;
      }
      return NotFound, item, i + 1;
    }

    /** item_get */
    method ItemGet(k: nat, pos: Item?, ghost p: nat) returns (item: Item?)
      requires Valid() && k < 2 && Before(pos, thread[k], p)
      ensures item == At(thread[k], p)
    {
      if pos == null {
        item := head[k];
      } else {
        assert Linked(thread[k], k, p - 1);
        item := pos.next[k];
      }
    }

    /** free_key_find: the lowest unmapped key and the position that keeps the order. */
    method FreeKeyFind(k: nat) returns (ret: Return, key: nat, pos: Item?, ghost p: nat)
      requires Valid() && k < 2
      ensures ret == Success || ret == NotFound
      ensures ret == Success ==> LeastFree(M(), k, minKey[k], maxKey[k], key)
      ensures ret == Success ==> Before(pos, thread[k], p) && SortedPosition(thread[k], k, p, key)
      ensures ret == NotFound <==> Exhausted(M(), k, minKey[k], maxKey[k])
    {
      ret, key, pos, p := FirstGap(k);
      if ret == Success {
        GapIsLeastFree(k, p, key);
        assert !Used(M(), k, key);
      } else {
        forall x | minKey[k] <= x <= maxKey[k] ensures Used(M(), k, x) {
          UsedIffInThread(k, x);
          assert thread[k][x - minKey[k]].key[k] == x;
        }
      }
    }

    method FirstGap(k: nat) returns (ret: Return, key: nat, pos: Item?, ghost p: nat)
      requires k < 2 && ThreadOk(k)
      ensures ret == Success || ret == NotFound
      ensures p <= |thread[k]| && forall j :: 0 <= j < p ==> thread[k][j].key[k] == minKey[k] + j
      ensures ret == Success ==> Before(pos, thread[k], p) && key == minKey[k] + p <= maxKey[k]
      ensures ret == Success ==> forall j :: p <= j < |thread[k]| ==> key < thread[k][j].key[k]
      ensures ret == NotFound ==> p == maxKey[k] + 1 - minKey[k]
    {
      ghost var s := thread[k];
      var item := head[k];
      if item == null || Sub32(item.key[k], minKey[k]) > 0 {
        return Success, minKey[k], null, 0;
      }
      ghost var i := 0;
      assert Linked(s, k, 0);
      while item.next[k] != null
        invariant 0 <= i < |s| && item == s[i] && Linked(s, k, i)
        invariant forall j :: 0 <= j <= i ==> s[j].key[k] == minKey[k] + j
        decreases |s| - i
      {
        assert item.key[k] < s[i + 1].key[k];
        if Sub32(item.next[k].key[k], item.key[k]) > 1 {
          return Success, Add32(item.key[k], 1), item, i + 1;
        }
        item := item.next[k];
        i := i + 1;
      }
      if item.key[k] == maxKey[k] {
        return NotFound, 0, null, i + 1;
      }
      return Success, Add32(item.key[k], 1), item, i + 1;
    }

    lemma GapIsLeastFree(k: nat, p: nat, key: nat)
      requires Valid() && k < 2 && p <= |thread[k]|
      requires forall j :: 0 <= j < p ==> thread[k][j].key[k] == minKey[k] + j
      requires key == minKey[k] + p <= maxKey[k]
      requires forall j :: p <= j < |thread[k]| ==> key < thread[k][j].key[k]
      ensures LeastFree(M(), k, minKey[k], maxKey[k], key)
    {
      UsedIffInThread(k, key);
      forall x | minKey[k] <= x < key ensures Used(M(), k, x) {
        UsedIffInThread(k, x);
        assert thread[k][x - minKey[k]].key[k] == x;
      }
    }

    /** The body of item_add for one key type. */
    method Link(k: nat, pos: Item?, item: Item, ghost p: nat)
      requires k < 2 && |head| == |thread| == 2
      requires Links(head[k], k, thread[k]) && Links(head[1 - k], 1 - k, thread[1 - k])
      requires Before(pos, thread[k], p) && item !in thread[k] && |item.next| == 2
      requires forall i, j :: 0 <= i < j < |thread[k]| ==> thread[k][i] != thread[k][j]
      modifies this`head, this`thread, item`next, thread[k]`next
      ensures |head| == 2 && head[1 - k] == old(head[1 - k])
      ensures thread == old(thread)[k := Inserted(old(thread[k]), p, item)]
      ensures Links(head[k], k, thread[k]) && Links(head[1 - k], 1 - k, thread[1 - k])
      ensures |item.next| == 2
    {
      ghost var s := thread[k];
      if pos == null {
        item.next := item.next[k := head[k]];
        head := head[k := item];
      } else {
        assert Linked(s, k, p - 1);
        item.next := item.next[k := pos.next[k]];
        pos.next := pos.next[k := item];
      }
      ghost var t, other := Inserted(s, p, item), thread[1 - k];
      thread := thread[k := t];
      forall i | 0 <= i < |t| ensures Linked(t, k, i) {
        if i < p - 1 {
          assert old(Linked(s, k, i));
        } else if i > p {
          assert old(Linked(s, k, i - 1));
        }
      }
      ghost var j := 1 - k;
      forall i | 0 <= i < |other| ensures Linked(other, j, i) { assert old(Linked(other, j, i)); }
    }

    /** The body of item_remove for one key type; returns the item unlinked. */
    method Unlink(k: nat, pos: Item?, ghost p: nat) returns (removed: Item)
      requires k < 2 && |head| == |thread| == 2
      requires Links(head[k], k, thread[k]) && Links(head[1 - k], 1 - k, thread[1 - k])
      requires p < |thread[k]| && Before(pos, thread[k], p)
      requires forall i, j :: 0 <= i < j < |thread[k]| ==> thread[k][i] != thread[k][j]
      modifies this`head, this`thread, thread[k]`next
      ensures removed == old(thread[k])[p]
      ensures |head| == 2 && head[1 - k] == old(head[1 - k])
      ensures thread == old(thread)[k := Removed(old(thread[k]), p)]
      ensures Links(head[k], k, thread[k]) && Links(head[1 - k], 1 - k, thread[1 - k])
    {
      ghost var s := thread[k];
      assert Linked(s, k, p);
      if pos == null {
        removed := head[k];
        head := head[k := removed.next[k]];
      } else {
        assert Linked(s, k, p - 1);
        removed := pos.next[k];
        pos.next := pos.next[k := removed.next[k]];
      }
      ghost var t, other := Removed(s, p), thread[1 - k];
      thread := thread[k := t];
      forall i | 0 <= i < |t| ensures Linked(t, k, i) {
        if i < p - 1 {
          assert old(Linked(s, k, i));
        } else if i >= p {
          assert old(Linked(s, k, i + 1));
        }
      }
      ghost var j := 1 - k;
      forall i | 0 <= i < |other| ensures Linked(other, j, i) { assert old(Linked(other, j, i)); }
    }

    /** What item_add needs of one position: it keeps that thread sorted. */
    ghost predicate Insertable(k: nat, pos: Item?, p: nat, key: nat)
      reads this, items
      requires k < 2 && ThreadOk(k)
    {
      && InRange(k, key)
      && Before(pos, thread[k], p) && SortedPosition(thread[k], k, p, key)
      && (p < |thread[k]| ==> thread[k][p].key[k] != key)
    }

    /** item_add, at two positions that keep the threads sorted. */
    method ItemAdd(pos: seq<Item?>, item: Item, ghost p: seq<nat>)
      requires Valid() && |pos| == |p| == 2 && Before(pos[0], thread[0], p[0]) && Before(pos[1], thread[1], p[1])
      requires |item.key| == 2 && |item.next| == 2 && item !in items
      requires Ordered(Inserted(thread[0], p[0], item), 0, minKey[0], maxKey[0])
      requires Ordered(Inserted(thread[1], p[1], item), 1, minKey[1], maxKey[1])
      modifies this`head, this`thread, this`items, items`next, item`next
      ensures Valid() && items == old(items) + {item}
      ensures M() == old(M()) + {(item.key[0], item.key[1])}
    {
      PairsAdded(item, items + {item});
      InsertedMembers(thread[0], p[0], item, items);
      InsertedMembers(thread[1], p[1], item, items);
      LinkBoth(pos, item, p);
      items := items + {item};
    }

    lemma InsertReady(k: nat, pos: Item?, item: Item, p: nat)
      requires k < 2 && ThreadOk(k) && |item.key| == 2 && Insertable(k, pos, p, item.key[k])
      ensures item !in items
      ensures Ordered(Inserted(thread[k], p, item), k, minKey[k], maxKey[k])
    {
      InsertedOrdered(thread[k], k, p, item, minKey[k], maxKey[k]);
    }

    lemma PairsAdded(n: Item, all: set<Item>)
      requires Valid() && |n.key| == 2 && all == items + {n}
      ensures forall x <- all :: |x.key| == 2
      ensures PairsOf(all) == M() + {(n.key[0], n.key[1])}
    {
      KeyShape();
      assert n in all;
    }

    method LinkBoth(pos: seq<Item?>, item: Item, ghost p: seq<nat>)
      requires Valid() && |pos| == |p| == 2 && |item.next| == 2 && item !in items
      requires Before(pos[0], thread[0], p[0]) && Before(pos[1], thread[1], p[1])
      modifies this`head, this`thread, items`next, item`next
      ensures |head| == |thread| == 2
      ensures thread == [Inserted(old(thread[0]), p[0], item), Inserted(old(thread[1]), p[1], item)]
      ensures Links(head[0], 0, thread[0]) && Links(head[1], 1, thread[1])
    {
      Distinct(thread[0], 0, minKey[0], maxKey[0]);
      Distinct(thread[1], 1, minKey[1], maxKey[1]);
      Link(0, pos[0], item, p[0]);
      Link(1, pos[1], item, p[1]);
    }

    /** item_remove: both unlinks hit the same item. */
    method ItemRemove(pos: seq<Item?>, ghost p: seq<nat>) returns (removed: Item)
      requires Valid() && |pos| == |p| == 2
      requires Before(pos[0], thread[0], p[0]) && Before(pos[1], thread[1], p[1])
      requires p[0] < |thread[0]| && p[1] < |thread[1]| && thread[0][p[0]] == thread[1][p[1]]
      modifies this`head, this`thread, this`items, items`next
      ensures removed == old(thread[0][p[0]])
      ensures Valid() && items == old(items) - {removed}
      ensures |removed.key| == 2 && M() == old(M()) - {(removed.key[0], removed.key[1])}
    {
      PairsRemoved(thread[0][p[0]]);
      removed := RemoveBoth(pos, p);
      items := items - {removed};
    }

    method RemoveBoth(pos: seq<Item?>, ghost p: seq<nat>) returns (removed: Item)
      requires Valid() && |pos| == |p| == 2
      requires Before(pos[0], thread[0], p[0]) && Before(pos[1], thread[1], p[1])
      requires p[0] < |thread[0]| && p[1] < |thread[1]| && thread[0][p[0]] == thread[1][p[1]]
      modifies this`head, this`thread, items`next
      ensures removed == old(thread[0][p[0]]) && |head| == |thread| == 2
      ensures Links(head[0], 0, thread[0]) && Links(head[1], 1, thread[1])
      ensures Ordered(thread[0], 0, minKey[0], maxKey[0]) && Ordered(thread[1], 1, minKey[1], maxKey[1])
      ensures Members(thread[0], items - {removed}) && Members(thread[1], items - {removed})
    {
      RemovedMembers(thread[0], 0, p[0], minKey[0], maxKey[0], items);
      RemovedMembers(thread[1], 1, p[1], minKey[1], maxKey[1], items);
      removed := UnlinkBoth(pos, p);
    }

    method UnlinkBoth(pos: seq<Item?>, ghost p: seq<nat>) returns (removed: Item)
      requires Valid() && |pos| == |p| == 2
      requires Before(pos[0], thread[0], p[0]) && Before(pos[1], thread[1], p[1])
      requires p[0] < |thread[0]| && p[1] < |thread[1]| && thread[0][p[0]] == thread[1][p[1]]
      modifies this`head, this`thread, items`next
      ensures removed == old(thread[0][p[0]])
      ensures |head| == |thread| == 2
      ensures thread == [Removed(old(thread[0]), p[0]), Removed(old(thread[1]), p[1])]
      ensures Links(head[0], 0, thread[0]) && Links(head[1], 1, thread[1])
    {
      Distinct(thread[0], 0, minKey[0], maxKey[0]);
      Distinct(thread[1], 1, minKey[1], maxKey[1]);
      removed := Unlink(0, pos[0], p[0]);
      removed := Unlink(1, pos[1], p[1]);
    }

    lemma PairsRemoved(n: Item)
      requires Valid() && n in items
      ensures |n.key| == 2 && forall x <- items :: |x.key| == 2
      ensures PairsOf(items - {n}) == M() - {(n.key[0], n.key[1])}
    {
      KeyShape();
      Bijection();
      var q := (n.key[0], n.key[1]);
      forall r | r in M() - {q} ensures r in PairsOf(items - {n}) {
        var x :| x in items && r == (x.key[0], x.key[1]);
        assert x in items - {n};
      }
      forall x | x in items - {n} ensures (x.key[0], x.key[1]) in M() && (x.key[0], x.key[1]) != q {
        assert x in thread[0] && n in thread[0];
      }
    }

    // ----- Operations offered to the OMCI handlers -----

    /** item_create and item_add for a pair of fresh keys. */
    method AddPair(id: nat, idx: nat, pos: seq<Item?>, ghost p: seq<nat>)
      requires Valid() && |pos| == |p| == 2
      requires Insertable(0, pos[0], p[0], id) && Insertable(1, pos[1], p[1], idx)
      modifies this`head, this`thread, this`items, items`next
      ensures Valid() && M() == old(M()) + {(id, idx)} && fresh(items - old(items))
    {
      var item := new Item([id, idx]);
      InsertReady(0, pos[0], item, p[0]);
      InsertReady(1, pos[1], item, p[1]);
      ItemAdd(pos, item, p);
    }

    /** explicit_map */
    method ExplicitMap(id: nat, idx: nat) returns (ret: Return)
      requires Valid()
      modifies this`head, this`thread, this`items, items`next
      ensures Valid()
      ensures ret == Success <==>
        InRange(ID, id) && InRange(INDEX, idx) && !Used(old(M()), ID, id) && !Used(old(M()), INDEX, idx)
      ensures ret == Success ==> M() == old(M()) + {(id, idx)}
      ensures ret != Success ==> ret == Error && M() == old(M())
      ensures fresh(items - old(items))
    {
      if !InRange(ID, id) || !InRange(INDEX, idx) { return Error; }
      var found, pos0, p0 := ItemFind(ID, id);
      if found == Success { return Error; }
      var found1, pos1, p1 := ItemFind(INDEX, idx);
      if found1 == Success { return Error; }
      AddPair(id, idx, [pos0, pos1], [p0, p1]);
      return Success;
    }

    /** id_map: the identifier gets the lowest free index. */
    method IdMap(id: nat) returns (ret: Return, idx: nat)
      requires Valid()
      modifies this`head, this`thread, this`items, items`next
      ensures Valid()
      ensures ret == Success <==>
              InRange(ID, id) && !Used(old(M()), ID, id) && !Exhausted(old(M()), INDEX, minKey[1], maxKey[1])
      ensures ret == Success ==> LeastFree(old(M()), INDEX, minKey[1], maxKey[1], idx) && M() == old(M()) + {(id, idx)}
      ensures ret != Success ==> ret == Error && M() == old(M())
      ensures fresh(items - old(items))
    {
      idx := 0;
      if !InRange(ID, id) { return Error, idx; }
      var found, pos0, p0 := ItemFind(ID, id);
      if found == Success { return Error, idx; }
      var free, key, pos1, p1 := FreeKeyFind(INDEX);
      if free != Success { return Error, idx; }
      idx := key;
      UsedIffInThread(INDEX, idx);
      AddPair(id, idx, [pos0, pos1], [p0, p1]);
      return Success, idx;
    }

    /** index_map: the index gets the lowest free identifier. */
    method IndexMap(idx: nat) returns (ret: Return, id: nat)
      requires Valid()
      modifies this`head, this`thread, this`items, items`next
      ensures Valid()
      ensures ret == Success <==>
              InRange(INDEX, idx) && !Used(old(M()), INDEX, idx) && !Exhausted(old(M()), ID, minKey[0], maxKey[0])
      ensures ret == Success ==> LeastFree(old(M()), ID, minKey[0], maxKey[0], id) && M() == old(M()) + {(id, idx)}
      ensures ret != Success ==> ret == Error && M() == old(M())
      ensures fresh(items - old(items))
    {
      id := 0;
      if !InRange(INDEX, idx) { return Error, id; }
      var found, pos1, p1 := ItemFind(INDEX, idx);
      if found == Success { return Error, id; }
      var free, key, pos0, p0 := FreeKeyFind(ID);
      if free != Success { return Error, id; }
      id := key;
      UsedIffInThread(ID, id);
      AddPair(id, idx, [pos0, pos1], [p0, p1]);
      return Success, id;
    }

    lemma ItemIsPair(n: Item)
      requires Valid() && n in items
      ensures |n.key| == 2 && (n.key[0], n.key[1]) in M()
    {
      KeyShape();
    }

    /** index_get */
    method IndexGet(id: nat) returns (ret: Return, idx: nat)
      requires Valid()
      ensures ret == Error <==> !InRange(ID, id)
      ensures ret == NotFound <==> InRange(ID, id) && !Used(M(), ID, id)
      ensures ret == Success ==> (id, idx) in M()
    {
      idx := 0;
      if !InRange(ID, id) { return Error, idx; }
      var found, pos, p := ItemFind(ID, id);
      if found == NotFound { return NotFound, idx; }
      var item := ItemGet(ID, pos, p);
      ItemIsPair(item);
      return Success, item.key[INDEX];
    }

    /** id_get */
    method IdGet(idx: nat) returns (ret: Return, id: nat)
      requires Valid()
      ensures ret == Error <==> !InRange(INDEX, idx)
      ensures ret == NotFound <==> InRange(INDEX, idx) && !Used(M(), INDEX, idx)
      ensures ret == Success ==> (id, idx) in M()
    {
      id := 0;
      if !InRange(INDEX, idx) { return Error, id; }
      var found, pos, p := ItemFind(INDEX, idx);
      if found == NotFound { return NotFound, id; }
      var item := ItemGet(INDEX, pos, p);
      ItemIsPair(item);
      return Success, item.key[ID];
    }

    /** index_map_or_get */
    method IndexMapOrGet(id: nat) returns (ret: Return, idx: nat)
      requires Valid()
      modifies this`head, this`thread, this`items, items`next
      ensures Valid()
      ensures ret == Success <==>
              InRange(ID, id) && (Used(old(M()), ID, id) || !Exhausted(old(M()), INDEX, minKey[1], maxKey[1]))
      ensures ret == Success ==> (id, idx) in M() && M() == old(M()) + {(id, idx)}
      ensures ret == Success && !Used(old(M()), ID, id) ==> LeastFree(old(M()), INDEX, minKey[1], maxKey[1], idx)
      ensures ret != Success ==> ret == Error && M() == old(M())
      ensures Used(old(M()), ID, id) ==> M() == old(M())
      ensures fresh(items - old(items))
    {
      ret, idx := IndexGet(id);
      Bijection();
      if ret == NotFound {
        ret, idx := IdMap(id);
      }
    }

    /** The second search of id_remove, index_remove and mapper_shutdown: the
        item found by one key is found again by its other key. */
    method OtherPosition(k: nat, item: Item, ghost p: nat) returns (pos: Item?, ghost q: nat)
      requires Valid() && k < 2 && p < |thread[k]| && item == thread[k][p]
      ensures Before(pos, thread[1 - k], q) && q < |thread[1 - k]| && thread[1 - k][q] == item
    {
      assert item in items && item in thread[1 - k];
      var found;
      found, pos, q := ItemFind(1 - k, item.key[1 - k]);
      UsedIffInThread(1 - k, item.key[1 - k]);
      ghost var j :| 0 <= j < |thread[1 - k]| && thread[1 - k][j] == item;
      assert thread[1 - k][q].key[1 - k] == thread[1 - k][j].key[1 - k];
    }

    /** id_remove */
    method IdRemove(id: nat) returns (ret: Return)
      requires Valid()
      modifies this`head, this`thread, this`items, items`next
      ensures Valid()
      ensures ret == Error <==> !InRange(ID, id)
      ensures ret == NotFound <==> InRange(ID, id) && !Used(old(M()), ID, id)
      ensures ret == Success ==> exists idx :: (id, idx) in old(M()) && M() == old(M()) - {(id, idx)}
      ensures ret != Success ==> M() == old(M())
      ensures items <= old(items)
    {
      if !InRange(ID, id) { return Error; }
      var found, pos0, p0 := ItemFind(ID, id);
      if found == NotFound { return NotFound; }
      var item := ItemGet(ID, pos0, p0);
      ItemIsPair(item);
      var pos1, p1 := OtherPosition(ID, item, p0);
      var removed := ItemRemove([pos0, pos1], [p0, p1]);
      assert (id, item.key[1]) in old(M());
      return Success;
    }

    /** index_remove */
    method IndexRemove(idx: nat) returns (ret: Return)
      requires Valid()
      modifies this`head, this`thread, this`items, items`next
      ensures Valid()
      ensures ret == Error <==> !InRange(INDEX, idx)
      ensures ret == NotFound <==> InRange(INDEX, idx) && !Used(old(M()), INDEX, idx)
      ensures ret == Success ==> exists id :: (id, idx) in old(M()) && M() == old(M()) - {(id, idx)}
      ensures ret != Success ==> M() == old(M())
      ensures items <= old(items)
    {
      if !InRange(INDEX, idx) { return Error; }
      var found, pos1, p1 := ItemFind(INDEX, idx);
      if found == NotFound { return NotFound; }
      var item := ItemGet(INDEX, pos1, p1);
      ItemIsPair(item);
      var pos0, p0 := OtherPosition(INDEX, item, p1);
      var removed := ItemRemove([pos0, pos1], [p0, p1]);
      assert (item.key[0], idx) in old(M());
      return Success;
    }

    method RemoveFirst(item: Item)
      requires Valid() && |thread[ID]| > 0 && item == thread[ID][0]
      modifies this`head, this`thread, this`items, items`next
      ensures Valid() && items == old(items) - {item} && item in old(items)
    {
      assert item in items;
      var pos, q := OtherPosition(ID, item, 0);
      var removed := ItemRemove([null, pos], [0, q]);
    }

    lemma EmptyThread()
      requires Valid() && At(thread[ID], 0) == null
      ensures items == {} && M() == {} && head == [null, null]
    {
      assert thread[0] == [] && forall x :: x in items ==> x in thread[0];
      assert items == {};
      assert forall i :: 0 <= i < |thread[1]| ==> thread[1][i] in items;
    }

    /** mapper_shutdown for one mapper: terminates with both threads empty. */
    method Shutdown()
      requires Valid()
      modifies this`head, this`thread, this`items, items`next
      ensures Valid() && M() == {} && items == {} && head == [null, null]
    {
      var item := ItemGet(ID, null, 0);
      while item != null
        invariant Valid() && items <= old(items) && item == At(thread[ID], 0)
        decreases |items|
      {
        RemoveFirst(item);
        item := ItemGet(ID, null, 0);
      }
      EmptyThread();
    }
  }

  /** index_get and id_get are inverse to each other. */
  method GetsAreInverse(m: Mapper, id: nat, idx: nat) returns (forward: bool, backward: bool)
    requires m.Valid()
    ensures forward == backward == ((id, idx) in m.M())
  {
    m.Bijection();
    var ret, i := m.IndexGet(id);
    forward := ret == Success && i == idx;
    var ret', j := m.IdGet(idx);
    backward := ret' == Success && j == id;
  }

  // ----- Whole runs -----

  datatype Op =
    | Explicit(id: nat, idx: nat)
    | MapId(id: nat)
    | MapIndex(idx: nat)
    | DropId(id: nat)
    | DropIndex(idx: nat)
    | Reset

  /** The identifier and index ranges of a mapper. */
  datatype Bounds = Bounds(minId: nat, maxId: nat, minIdx: nat, maxIdx: nat) {
    predicate Has(p: (nat, nat)) { minId <= p.0 <= maxId && minIdx <= p.1 <= maxIdx }
  }

  /** The simple mapper the lists implement: one call, by its effect on the pairs. */
  ghost predicate Step(b: Bounds, m: Pairs, op: Op, m': Pairs) {
    match op
    case Explicit(id, idx) =>
      if b.Has((id, idx)) && !Used(m, ID, id) && !Used(m, INDEX, idx) then m' == m + {(id, idx)} else m' == m
    case MapId(id) =>
      if b.minId <= id <= b.maxId && !Used(m, ID, id) && !Exhausted(m, INDEX, b.minIdx, b.maxIdx)
      then exists idx :: LeastFree(m, INDEX, b.minIdx, b.maxIdx, idx) && m' == m + {(id, idx)}
      else m' == m
    case MapIndex(idx) =>
      if b.minIdx <= idx <= b.maxIdx && !Used(m, INDEX, idx) && !Exhausted(m, ID, b.minId, b.maxId)
      then exists id :: LeastFree(m, ID, b.minId, b.maxId, id) && m' == m + {(id, idx)}
      else m' == m
    case DropId(id) =>
      if b.minId <= id <= b.maxId && Used(m, ID, id)
      then exists idx :: (id, idx) in m && m' == m - {(id, idx)}
      else m' == m
    case DropIndex(idx) =>
      if b.minIdx <= idx <= b.maxIdx && Used(m, INDEX, idx)
      then exists id :: (id, idx) in m && m' == m - {(id, idx)}
      else m' == m
    case Reset => m' == {}
  }

  ghost predicate Sound(b: Bounds, m: Pairs) {
    PartialBijection(m) && forall p :: p in m ==> b.Has(p)
  }

  /** states is a run of calls from the empty mapper. */
  ghost predicate Run(b: Bounds, ops: seq<Op>, states: seq<Pairs>) {
    && |states| == |ops| + 1 && states[0] == {}
    && forall i :: 0 <= i < |ops| ==> Step(b, states[i], ops[i], states[i + 1])
  }

  lemma AddKeepsSound(b: Bounds, m: Pairs, p: (nat, nat))
    requires Sound(b, m) && b.Has(p) && !Used(m, ID, p.0) && !Used(m, INDEX, p.1)
    ensures Sound(b, m + {p})
  {
    forall q | q in m ensures q.0 != p.0 && q.1 != p.1 {
      assert KeyOf(q, ID) != p.0 && KeyOf(q, INDEX) != p.1;
    }
  }

  /** The pair has the key, or both keys, the call names. */
  predicate Concerns(op: Op, p: (nat, nat)) {
    match op
    case Explicit(id, idx) => p == (id, idx)
    case MapId(id) => p.0 == id
    case MapIndex(idx) => p.1 == idx
    case DropId(id) => p.0 == id
    case DropIndex(idx) => p.1 == idx
    case Reset => true
  }

  lemma {:induction false} StepKeepsSound(b: Bounds, m: Pairs, op: Op, m': Pairs)
    requires Sound(b, m) && Step(b, m, op, m')
    ensures Sound(b, m')
    ensures op.Reset? || m' == m || exists p :: Concerns(op, p) && (m' == m + {p} || m' == m - {p})
  {
    match op
    case Explicit(id, idx) =>
      assert Concerns(op, (id, idx));
      if m' != m { AddKeepsSound(b, m, (id, idx)); }
    case MapId(id) =>
      if m' != m {
        var idx :| LeastFree(m, INDEX, b.minIdx, b.maxIdx, idx) && m' == m + {(id, idx)};
        AddKeepsSound(b, m, (id, idx));
        assert Concerns(op, (id, idx));
      }
    case MapIndex(idx) =>
      if m' != m {
        var id :| LeastFree(m, ID, b.minId, b.maxId, id) && m' == m + {(id, idx)};
        AddKeepsSound(b, m, (id, idx));
        assert Concerns(op, (id, idx));
      }
    case DropId(id) =>
      if m' != m {
        var idx :| (id, idx) in m && m' == m - {(id, idx)};
        assert Concerns(op, (id, idx));
      }
    case DropIndex(idx) =>
      if m' != m {
        var id :| (id, idx) in m && m' == m - {(id, idx)};
        assert Concerns(op, (id, idx));
      }
    case Reset =>
  }

  /** In every run the pairs stay a partial bijection within the ranges. */
  lemma {:induction false} RunsStaySound(b: Bounds, ops: seq<Op>, states: seq<Pairs>, i: nat)
    requires Run(b, ops, states) && i < |states|
    ensures Sound(b, states[i])
  {
    if i > 0 {
      RunsStaySound(b, ops, states, i - 1);
      StepKeepsSound(b, states[i - 1], ops[i - 1], states[i]);
    }
  }

  /** The linked lists refine the simple mapper, call by call. */
  method Perform(m: Mapper, op: Op)
    requires m.Valid()
    modifies m`head, m`thread, m`items, m.items`next
    ensures m.Valid()
    ensures Step(Bounds(m.minKey[0], m.maxKey[0], m.minKey[1], m.maxKey[1]), old(m.M()), op, m.M())
    ensures fresh(m.items - old(m.items))
  {
    match op
    case Explicit(id, idx) => var _ := m.ExplicitMap(id, idx);
    case MapId(id) => var _, _ := m.IdMap(id);
    case MapIndex(idx) => var _, _ := m.IndexMap(idx);
    case DropId(id) => var _ := m.IdRemove(id);
    case DropIndex(idx) => var _ := m.IndexRemove(idx);
    case Reset => m.Shutdown();
  }
}
