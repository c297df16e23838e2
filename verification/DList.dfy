/**
  The circular doubly linked list of omci_list.c and omci_list.h: a sentinel
  entry, insertion and removal in place, and the iteration macro that allows
  the visited entry to be freed.
 */
module DList {

  class Entry<T> {
    var next: Entry?<T>
    var prev: Entry?<T>
    var data: T

    constructor (data: T)
      ensures this.data == data && next == null && prev == null
    {
      this.data := data;
      next, prev := null, null;
    }
  }

  ghost function Inserted<X>(s: seq<X>, p: nat, x: X): (t: seq<X>)
    requires p <= |s|
    ensures |t| == |s| + 1
  {
    seq(|s| + 1, i requires 0 <= i <= |s| => if i < p then s[i] else if i == p then x else s[i - 1])
  }

  ghost function Removed<X>(s: seq<X>, p: nat): (t: seq<X>)
    requires p < |s|
    ensures |t| == |s| - 1
  {
    seq(|s| - 1, i requires 0 <= i < |s| - 1 => if i < p then s[i] else s[i + 1])
  }

  class List<T> {
    const used: Entry<T>
    ghost var entries: seq<Entry<T>>

    /** Position i of the ring: the sentinel is both 0 and |entries| + 1. */
    ghost function At(i: nat): Entry<T>
      reads this
      requires i <= |entries| + 1
    {
      if i == 0 || i == |entries| + 1 then used else entries[i - 1]
    }

    /** next and prev are inverse between positions i and i + 1. */
    ghost predicate Linked(i: nat)
      reads this, used, entries
      requires i <= |entries|
    {
      At(i).next == At(i + 1) && At(i + 1).prev == At(i)
    }

    ghost predicate Distinct()
      reads this
    {
      used !in entries && forall i, j :: 0 <= i < j < |entries| ==> entries[i] != entries[j]
    }

    ghost predicate Valid()
      reads this, used, entries
    {
      Distinct() && forall i :: 0 <= i <= |entries| ==> Linked(i)
    }

    ghost function Contents(): (s: seq<T>)
      reads this, entries
      ensures |s| == |entries|
    {
      seq(|entries|, i requires 0 <= i < |entries| reads this, entries => entries[i].data)
    }

    /** list_init */
    constructor (dummy: T)
      ensures Valid() && entries == [] && Contents() == [] && fresh(used)
    {
      used := new Entry(dummy);
      entries := [];
      new;
      used.next := used;
      used.prev := used;
    }

    /** is_list_empty */
    method IsEmpty() returns (empty: bool)
      requires Valid()
      ensures empty <==> entries == []
      ensures empty <==> Contents() == []
    {
      assert Linked(0);
      empty := used.next == used;
    }

    /** list_entry_add_after, the given entry being at position p of the ring. */
    method AddAfter(entry: Entry<T>, newEntry: Entry<T>, ghost p: nat)
      requires Valid() && p <= |entries| && entry == At(p)
      requires newEntry != used && newEntry !in entries
      modifies this`entries, used, entries, newEntry`next, newEntry`prev
      ensures Valid() && entries == Inserted(old(entries), p, newEntry)
      ensures forall e :: e in entries ==> e.data == old(e.data)
      ensures Contents() == Inserted(old(Contents()), p, newEntry.data)
    {
      ghost var s, c := entries, Contents();
      assert Linked(p);
      entry.next.prev := newEntry;
      newEntry.next := entry.next;
      entry.next := newEntry;
      newEntry.prev := entry;
      entries := Inserted(s, p, newEntry);
      forall i | 0 <= i <= |entries| ensures Linked(i) {
        if i < p {
          assert old(Linked(i));
        } else if i > p + 1 {
          assert old(Linked(i - 1));
        }
      }
      assert forall i :: 0 <= i < |entries| ==> Contents()[i] == Inserted(c, p, newEntry.data)[i];
    }

    /** list_entry_add_before, the given entry being at position p of the ring. */
    method AddBefore(entry: Entry<T>, newEntry: Entry<T>, ghost p: nat)
      requires Valid() && 1 <= p <= |entries| + 1 && entry == At(p)
      requires newEntry != used && newEntry !in entries
      modifies this`entries, used, entries, newEntry`next, newEntry`prev
      ensures Valid() && entries == Inserted(old(entries), p - 1, newEntry)
      ensures forall e :: e in entries ==> e.data == old(e.data)
      ensures Contents() == Inserted(old(Contents()), p - 1, newEntry.data)
    {
      ghost var s, c := entries, Contents();
      assert Linked(p - 1);
      entry.prev.next := newEntry;
      newEntry.prev := entry.prev;
      newEntry.next := entry;
      entry.prev := newEntry;
      entries := Inserted(s, p - 1, newEntry);
      forall i | 0 <= i <= |entries| ensures Linked(i) {
        if i < p - 1 {
          assert old(Linked(i));
        } else if i > p {
          assert old(Linked(i - 1));
        }
      }
      assert forall i :: 0 <= i < |entries| ==> Contents()[i] == Inserted(c, p - 1, newEntry.data)[i];
    }

    /** list_entry_add_tail */
    method AddTail(newEntry: Entry<T>)
      requires Valid() && newEntry != used && newEntry !in entries
      modifies this`entries, used, entries, newEntry`next, newEntry`prev
      ensures Valid() && entries == old(entries) + [newEntry]
      ensures forall e :: e in entries ==> e.data == old(e.data)
      ensures Contents() == Inserted(old(Contents()), old(|entries|), newEntry.data)
    {
      assert Linked(|entries|);
      AddAfter(used.prev, newEntry, |entries|);
    }

    /** list_entry_add_head */
    method AddHead(newEntry: Entry<T>)
      requires Valid() && newEntry != used && newEntry !in entries
      modifies this`entries, used, entries, newEntry`next, newEntry`prev
      ensures Valid() && entries == [newEntry] + old(entries)
      ensures forall e :: e in entries ==> e.data == old(e.data)
    {
      assert Linked(0);
      AddBefore(used.next, newEntry, 1);
    }

    /** list_entry_free, the entry being the p-th of the list. */
    method Free(entry: Entry<T>, ghost p: nat)
      requires Valid() && p < |entries| && entry == entries[p]
      modifies this`entries, used, entries
      ensures Valid() && entries == Removed(old(entries), p)
      ensures forall e :: e in old(entries) ==> e.data == old(e.data)
      ensures Contents() == Removed(old(Contents()), p)
    {
      ghost var s, c := entries, Contents();
      assert Linked(p) && Linked(p + 1);
      entry.next.prev := entry.prev;
      entry.prev.next := entry.next;
      entries := Removed(s, p);
      forall i | 0 <= i <= |entries| ensures Linked(i) {
        if i < p {
          assert old(Linked(i));
        } else if i > p {
          assert old(Linked(i + 1));
        }
      }
      assert forall i :: 0 <= i < |entries| ==> Contents()[i] == Removed(c, p)[i];
    }

    /** The end test of foreach_list_entry_safe_ll: only the sentinel has the
        list's first entry as its successor. */
    lemma EndTest(i: nat)
      requires Valid() && 1 <= i <= |entries| + 1
      ensures At(i).next == used.next <==> i == |entries| + 1
    {
      assert Linked(0);
      if i <= |entries| {
        assert Linked(i);
        assert At(i + 1) != At(1);
      }
    }

    /** list_clear: frees every entry during the iteration. */
    method Clear()
      requires Valid()
      modifies this`entries, used, entries
      ensures Valid() && entries == []
    {
      assert Linked(0);
      var entry := used.next;
      EndTest(1);
      if 0 < |entries| { assert Linked(1); }
      var next := entry.next;
      while entry.next != used.next
        invariant Valid() && forall j :: 0 <= j < |entries| ==> entries[j] in old(entries)
        invariant entry == At(1) && next == entry.next
        decreases |entries|
      {
        EndTest(1);
        assert Linked(1);
        Free(entry, 0);
        entry := next;
        assert Linked(0);
        if 0 < |entries| { assert Linked(1); }
        next := entry.next;
      }
      EndTest(1);
    }

    /** The iteration macro used for a search: the first entry whose data satisfies p. */
    method Find(p: T -> bool) returns (found: Entry?<T>, ghost at: nat)
      requires Valid()
      ensures at <= |entries| && forall j :: 0 <= j < at ==> !p(entries[j].data)
      ensures found == null <==> at == |entries|
      ensures found != null ==> found == entries[at] && p(found.data)
    {
      assert Linked(0);
      var entry := used.next;
      ghost var i := 0;
      EndTest(1);
      while entry.next != used.next
        invariant 0 <= i <= |entries| && entry == At(i + 1)
        invariant forall j :: 0 <= j < i ==> !p(entries[j].data)
        decreases |entries| - i
      {
        EndTest(i + 1);
        if p(entry.data) { return entry, i; }
        assert Linked(i + 1);
        entry := entry.next;
        i := i + 1;
      }
      EndTest(i + 1);
      return null, i;
    }
  }
}
