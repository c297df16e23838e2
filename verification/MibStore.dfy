/**
  The MIB store (omci_mib.c): an array of class entries sorted by class id, each
  with a list of managed entities sorted by instance id. The array may hold one
  class id twice; binary search then always resolves it to the same entry.
 */
module MibStore {

  datatype Option<T> = None | Some(value: T)

  /** One managed entity; `body` stands for its data, alarms, counters and locks. */
  datatype Me = Me(instance: nat, body: nat)

  ghost predicate Ordered(ids: seq<nat>) { forall i, j :: 0 <= i < j < |ids| ==> ids[i] <= ids[j] }

  // ----- Binary search -----

  /** The entry bsearch probes its way to, or |ids|. */
  function Probe(ids: seq<nat>, id: nat, lo: nat, hi: nat): (k: nat)
    requires lo <= hi <= |ids|
    ensures k <= |ids| && (k < |ids| ==> ids[k] == id)
    decreases hi - lo
  {
    if lo == hi then |ids|
    else
      var mid := (lo + hi) / 2;
      if id < ids[mid] then Probe(ids, id, lo, mid)
      else if id > ids[mid] then Probe(ids, id, mid + 1, hi)
      else mid
  }

  function Entry(ids: seq<nat>, id: nat): (k: nat)
    ensures k <= |ids| && (k < |ids| ==> ids[k] == id)
  {
    Probe(ids, id, 0, |ids|)
  }

  lemma {:induction false} ProbeFinds(ids: seq<nat>, id: nat, lo: nat, hi: nat, at: nat)
    requires Ordered(ids) && lo <= at < hi <= |ids| && ids[at] == id
    ensures Probe(ids, id, lo, hi) < |ids|
    decreases hi - lo
  {
    var mid := (lo + hi) / 2;
    if id < ids[mid] {
      assert at < mid;
      ProbeFinds(ids, id, lo, mid, at);
    } else if id > ids[mid] {
      assert mid < at;
      ProbeFinds(ids, id, mid + 1, hi, at);
    }
  }

  /** A class id resolves exactly when the array holds it. */
  lemma EntryExactly(ids: seq<nat>, id: nat)
    requires Ordered(ids)
    ensures Entry(ids, id) < |ids| <==> id in ids
  {
    if id in ids {
      var at :| 0 <= at < |ids| && ids[at] == id;
      ProbeFinds(ids, id, 0, |ids|, at);
    }
  }

  /** class_entry_find */
  method ClassEntryFind(ids: seq<nat>, id: nat) returns (k: Option<nat>)
    requires Ordered(ids)
    ensures k == if id in ids then Some(Entry(ids, id)) else None
    ensures k.Some? ==> k.value < |ids| && ids[k.value] == id
  {
    EntryExactly(ids, id);
    var lo, hi := 0, |ids|;
    while lo < hi
      invariant 0 <= lo <= hi <= |ids| && Probe(ids, id, lo, hi) == Entry(ids, id)
      decreases hi - lo
    {
      var mid := (lo + hi) / 2;
      if id < ids[mid] {
        hi := mid;
      } else if id > ids[mid] {
        lo := mid + 1;
      } else {
        return Some(mid);
      }
    }
    k := None;
  }

  // ----- Instance lists -----

  ghost predicate Sorted(l: seq<Me>) { forall i, j :: 0 <= i < j < |l| ==> l[i].instance < l[j].instance }

  ghost predicate HasInstance(l: seq<Me>, inst: nat) { exists i :: 0 <= i < |l| && l[i].instance == inst }

  /** mib_me_add_to_class_entry, for an instance the list does not hold. */
  method AddToList(l: seq<Me>, me: Me) returns (r: seq<Me>)
    requires Sorted(l) && !HasInstance(l, me.instance)
    ensures Sorted(r) && |r| == |l| + 1 && multiset(r) == multiset(l) + multiset{me}
  {
    if l == [] { return [me]; }
    if l[0].instance > me.instance {
      InsertHead(l, me);
      return [me] + l;
    }
    var p := 0;
    while p + 1 < |l| && l[p + 1].instance < me.instance
      invariant 0 <= p < |l| && l[p].instance < me.instance
      decreases |l| - p
    {
      p := p + 1;
    }
    r := l[..p + 1] + [me] + l[p + 1..];
    NextGreater(l, p, me);
    InsertSorted(l, p + 1, me);
    InsertMultiset(l, p + 1, me);
  }

  lemma InsertHead(l: seq<Me>, me: Me)
    requires Sorted(l) && l != [] && me.instance < l[0].instance
    ensures Sorted([me] + l) && multiset([me] + l) == multiset(l) + multiset{me}
  {
    Greater(l, 0, me.instance);
    var r := [me] + l;
    forall i, j | 0 <= i < j < |r| ensures r[i].instance < r[j].instance {
      assert r[j] == l[j - 1] && (i > 0 ==> r[i] == l[i - 1]);
    }
  }

  lemma NextGreater(l: seq<Me>, p: nat, me: Me)
    requires !HasInstance(l, me.instance) && p < |l| && (p + 1 < |l| ==> l[p + 1].instance >= me.instance)
    ensures p + 1 < |l| ==> me.instance < l[p + 1].instance
  {}

  lemma InsertMultiset(l: seq<Me>, p: nat, me: Me)
    requires p <= |l|
    ensures multiset(l[..p] + [me] + l[p..]) == multiset(l) + multiset{me}
  {
    assert l == l[..p] + l[p..];
  }

  lemma Smaller(l: seq<Me>, p: nat, n: nat)
    requires Sorted(l) && 0 < p <= |l| && l[p - 1].instance < n
    ensures forall k :: 0 <= k < p ==> l[k].instance < n
  {
    forall k | 0 <= k < p ensures l[k].instance < n { if k < p - 1 { assert l[k].instance < l[p - 1].instance; } }
  }

  lemma Greater(l: seq<Me>, p: nat, n: nat)
    requires Sorted(l) && p < |l| && n < l[p].instance
    ensures forall k :: p <= k < |l| ==> n < l[k].instance
  {
    forall k | p <= k < |l| ensures n < l[k].instance { if k > p { assert l[p].instance < l[k].instance; } }
  }

  lemma InsertSorted(l: seq<Me>, p: nat, me: Me)
    requires Sorted(l) && p <= |l|
    requires (p > 0 ==> l[p - 1].instance < me.instance) && (p < |l| ==> me.instance < l[p].instance)
    ensures Sorted(l[..p] + [me] + l[p..])
  {
    var r := l[..p] + [me] + l[p..];
    if p > 0 { Smaller(l, p, me.instance); }
    if p < |l| { Greater(l, p, me.instance); }
    forall i, j | 0 <= i < j < |r| ensures r[i].instance < r[j].instance {
      assert r[i] == if i < p then l[i] else if i == p then me else l[i - 1];
      assert r[j] == if j < p then l[j] else if j == p then me else l[j - 1];
    }
  }

  lemma RemoveSorted(l: seq<Me>, p: nat)
    requires Sorted(l) && p < |l|
    ensures Sorted(l[..p] + l[p + 1..])
  {
    var r := l[..p] + l[p + 1..];
    forall i, j | 0 <= i < j < |r| ensures r[i].instance < r[j].instance {
      assert r[i] == if i < p then l[i] else l[i + 1];
      assert r[j] == if j < p then l[j] else l[j + 1];
    }
  }

  // ----- The whole store -----

  function Total(lists: seq<seq<Me>>): nat {
    if lists == [] then 0 else Total(lists[..|lists| - 1]) + |lists[|lists| - 1]|
  }

  lemma {:induction false} TotalUpdate(lists: seq<seq<Me>>, k: nat, l: seq<Me>)
    requires k < |lists|
    ensures Total(lists[k := l]) == Total(lists) - |lists[k]| + |l|
  {
    var n := |lists| - 1;
    if k == n {
      assert lists[k := l][..n] == lists[..n];
    } else {
      TotalUpdate(lists[..n], k, l);
      assert lists[k := l][..n] == lists[..n][k := l];
    }
  }

  lemma {:induction false} TotalZero(lists: seq<seq<Me>>)
    requires forall k :: 0 <= k < |lists| ==> lists[k] == []
    ensures Total(lists) == 0
  {
    if lists != [] { TotalZero(lists[..|lists| - 1]); }
  }

  datatype Store = Store(ids: seq<nat>, lists: seq<seq<Me>>, count: nat)

  /** Lists are sorted, only the entry binary search resolves to is ever used, and the count is right. */
  ghost predicate Valid(s: Store) {
    && Ordered(s.ids) && |s.lists| == |s.ids| && s.count == Total(s.lists)
    && forall k :: 0 <= k < |s.lists| ==> ListOk(s, k)
  }

  ghost predicate ListOk(s: Store, k: nat)
    requires k < |s.lists| == |s.ids|
  {
    Sorted(s.lists[k]) && (|s.lists[k]| > 0 ==> Entry(s.ids, s.ids[k]) == k)
  }

  /** The entity is in the MIB, under any entry with its class id. */
  ghost predicate Has(s: Store, id: nat, me: Me) {
    exists k :: 0 <= k < |s.ids| && k < |s.lists| && s.ids[k] == id && me in s.lists[k]
  }

  ghost predicate Present(s: Store, id: nat, inst: nat) { exists body :: Has(s, id, Me(inst, body)) }

  /** An entity is in the MIB exactly when it is in the list its class id resolves to. */
  lemma HasAtEntry(s: Store, id: nat, me: Me)
    requires Valid(s)
    ensures Has(s, id, me) <==> Entry(s.ids, id) < |s.ids| && me in s.lists[Entry(s.ids, id)]
  {
    if Has(s, id, me) {
      var k :| 0 <= k < |s.ids| && k < |s.lists| && s.ids[k] == id && me in s.lists[k];
      assert ListOk(s, k);
    }
  }

  /** At most one entity per class and instance. */
  lemma Unique(s: Store, id: nat, a: Me, b: Me)
    requires Valid(s) && Has(s, id, a) && Has(s, id, b) && a.instance == b.instance
    ensures a == b
  {
    HasAtEntry(s, id, a);
    HasAtEntry(s, id, b);
    assert ListOk(s, Entry(s.ids, id));
  }

  /** Replacing the resolved list of one class changes only that class. */
  lemma Replaced(s: Store, id: nat, l: seq<Me>, count: nat)
    requires Valid(s) && Entry(s.ids, id) < |s.ids| && Sorted(l)
    requires count == s.count - |s.lists[Entry(s.ids, id)]| + |l|
    ensures Valid(Store(s.ids, s.lists[Entry(s.ids, id) := l], count))
    ensures forall id', me :: Has(Store(s.ids, s.lists[Entry(s.ids, id) := l], count), id', me) <==>
      if id' == id then me in l else Has(s, id', me)
  {
    var at := Entry(s.ids, id);
    var t := Store(s.ids, s.lists[at := l], count);
    TotalUpdate(s.lists, at, l);
    forall k | 0 <= k < |t.lists| ensures ListOk(t, k) {
      assert ListOk(s, k);
    }
    forall id', me ensures Has(t, id', me) <==> if id' == id then me in l else Has(s, id', me) {
      HasAtEntry(s, id', me);
      HasAtEntry(t, id', me);
    }
  }

  // ----- The store as a finite map -----

  datatype Op = Create(id: nat, inst: nat, body: nat, initOk: bool) | Delete(id: nat, inst: nat) | Destroy

  type Model = map<(nat, nat), nat>

  /** What an operation means: the MIB is a map from class and instance to the entity. */
  function Apply(ids: seq<nat>, m: Model, op: Op): Model {
    match op
    case Create(id, inst, body, initOk) => if (id, inst) in m || id !in ids || !initOk then m else m[(id, inst) := body]
    case Delete(id, inst) => m - {(id, inst)}
    case Destroy => map[]
  }

  function ApplyAll(ids: seq<nat>, ops: seq<Op>): Model {
    if ops == [] then map[] else Apply(ids, ApplyAll(ids, ops[..|ops| - 1]), ops[|ops| - 1])
  }

  ghost predicate Refines(s: Store, m: Model) {
    && s.count == |m|
    && forall id: nat, me: Me :: Has(s, id, me) <==> (id, me.instance) in m && m[(id, me.instance)] == me.body
  }

  lemma PresentInModel(s: Store, m: Model, id: nat, inst: nat)
    requires Refines(s, m)
    ensures Present(s, id, inst) <==> (id, inst) in m
  {
    if (id, inst) in m { assert Has(s, id, Me(inst, m[(id, inst)])); }
  }

  lemma SizeWithout(m: Model, k: (nat, nat))
    ensures |m - {k}| == |m| - if k in m then 1 else 0
  {
    if k in m {
      assert (m - {k})[k := m[k]] == m;
    } else {
      assert m - {k} == m;
    }
  }

  lemma CreateRefines(s: Store, t: Store, m: Model, id: nat, inst: nat, body: nat)
    requires Refines(s, m) && (id, inst) !in m && t.count == s.count + 1
    requires forall id': nat, me: Me :: Has(t, id', me) <==> Has(s, id', me) || (id' == id && me == Me(inst, body))
    ensures Refines(t, m[(id, inst) := body])
  {
    var n := m[(id, inst) := body];
    forall id': nat, me: Me ensures Has(t, id', me) <==> (id', me.instance) in n && n[(id', me.instance)] == me.body {
      assert Has(s, id', me) <==> (id', me.instance) in m && m[(id', me.instance)] == me.body;
    }
  }

  lemma DeleteRefines(s: Store, t: Store, m: Model, id: nat, inst: nat)
    requires Refines(s, m) && t.count == s.count - if (id, inst) in m then 1 else 0
    requires forall id': nat, me: Me :: Has(t, id', me) <==> Has(s, id', me) && !(id' == id && me.instance == inst)
    ensures Refines(t, m - {(id, inst)})
  {
    SizeWithout(m, (id, inst));
    var n := m - {(id, inst)};
    forall id': nat, me: Me ensures Has(t, id', me) <==> (id', me.instance) in n && n[(id', me.instance)] == me.body {
      assert Has(s, id', me) <==> (id', me.instance) in m && m[(id', me.instance)] == me.body;
    }
  }

  lemma SameRefines(s: Store, t: Store, m: Model)
    requires Refines(s, m) && t.count == s.count && forall id: nat, me: Me :: Has(t, id, me) <==> Has(s, id, me)
    ensures Refines(t, m)
  {}

  datatype Result = Success | Exists | NotSupported | NotFound | InitFailed

  class Mib {
    const ids: seq<nat>
    var lists: seq<seq<Me>>
    var count: nat

    ghost function S(): Store reads this { Store(ids, lists, count) }

    constructor (classes: seq<nat>)
      requires Ordered(classes)
      ensures Valid(S()) && ids == classes && forall id, me :: !Has(S(), id, me)
    {
      ids := classes;
      lists := seq(|classes|, i => []);
      count := 0;
      TotalZero(seq(|classes|, i => []));
    }

    /** mib_me_find: succeeds exactly for an entity that is present, and returns it. */
    method Find(id: nat, inst: nat) returns (r: Option<Me>)
      requires Valid(S())
      ensures r.Some? <==> Present(S(), id, inst)
      ensures r.Some? ==> r.value.instance == inst && Has(S(), id, r.value)
    {
      var k := ClassEntryFind(ids, id);
      EntryExactly(ids, id);
      if k.None? { return None; }
      var l := lists[k.value];
      assert ListOk(S(), k.value);
      var i := 0;
      while i < |l|
        invariant 0 <= i <= |l| && forall j :: 0 <= j < i ==> l[j].instance < inst
      {
        if l[i].instance > inst { break; }
        if l[i].instance == inst {
          assert Has(S(), id, Me(inst, l[i].body));
          return Some(l[i]);
        }
        i := i + 1;
      }
      forall body ensures !Has(S(), id, Me(inst, body)) {
        HasAtEntry(S(), id, Me(inst, body));
      }
      r := None;
    }

    /** mib_me_create; `initOk` is the init handler's result. */
    method Create(id: nat, inst: nat, body: nat, initOk: bool) returns (r: Result)
      requires Valid(S())
      modifies this`lists, this`count
      ensures Valid(S())
      ensures r == if old(Present(S(), id, inst)) then Exists
                   else if id !in ids then NotSupported
                   else if !initOk then InitFailed
                   else Success
      ensures forall id', me :: Has(S(), id', me) <==>
        old(Has(S(), id', me)) || (r == Success && id' == id && me == Me(inst, body))
      ensures count == old(count) + if r == Success then 1 else 0
    {
      var found := Find(id, inst);
      if found.Some? { return Exists; }
      var k := ClassEntryFind(ids, id);
      EntryExactly(ids, id);
      if k.None? { return NotSupported; }
      if !initOk { return InitFailed; }
      ghost var s := S();
      var me := Me(inst, body);
      assert ListOk(s, k.value);
      NotListed(s, id, inst);
      var l := AddToList(lists[k.value], me);
      Replaced(s, id, l, count + 1);
      forall id', x: Me
        ensures (if id' == id then x in l else Has(s, id', x)) <==> Has(s, id', x) || (id' == id && x == me)
      {
        HasAtEntry(s, id', x);
        assert x in l <==> x in multiset(l);
      }
      lists, count := lists[k.value := l], count + 1;
      r := Success;
    }

    /** mib_me_delete */
    method Delete(id: nat, inst: nat) returns (r: Result)
      requires Valid(S())
      modifies this`lists, this`count
      ensures Valid(S())
      ensures r == if old(Present(S(), id, inst)) then Success else NotFound
      ensures forall id', me :: Has(S(), id', me) <==> old(Has(S(), id', me)) && !(id' == id && me.instance == inst)
      ensures count == old(count) - if r == Success then 1 else 0
      ensures |lists| == old(|lists|)
      ensures r == Success ==> Entry(ids, id) < |ids| && |lists[Entry(ids, id)]| < |old(lists)[Entry(ids, id)]|
    {
      ghost var s := S();
      var k := ClassEntryFind(ids, id);
      EntryExactly(ids, id);
      if k.None? { return NotFound; }
      var l := lists[k.value];
      assert ListOk(s, k.value);
      var i := 0;
      while i < |l| && l[i].instance != inst
        invariant 0 <= i <= |l| && forall j :: 0 <= j < i ==> l[j].instance != inst
      {
        i := i + 1;
      }
      if i == |l| {
        forall me: Me | me.instance == inst ensures !Has(s, id, me) {
          HasAtEntry(s, id, me);
        }
        return NotFound;
      }
      assert Has(s, id, Me(inst, l[i].body));
      var rest := l[..i] + l[i + 1..];
      RemoveSorted(l, i);
      CountPositive(s, k.value);
      Replaced(s, id, rest, count - 1);
      forall id', x: Me
        ensures (if id' == id then x in rest else Has(s, id', x)) <==>
          Has(s, id', x) && !(id' == id && x.instance == inst)
      {
        HasAtEntry(s, id', x);
        InRest(l, i, x);
      }
      lists, count := lists[k.value := rest], count - 1;
      r := Success;
    }

    /** The inner loop of mib_destroy: the entities of one class are deleted, head first. */
    method DestroyClass(id: nat)
      requires Valid(S()) && id in ids
      modifies this`lists, this`count
      ensures Valid(S()) && forall id', me :: Has(S(), id', me) <==> old(Has(S(), id', me)) && id' != id
    {
      ghost var s := S();
      var k := ClassEntryFind(ids, id);
      while lists[k.value] != []
        invariant Valid(S()) && k.value < |lists|
        invariant forall id', me :: id' != id ==> (Has(S(), id', me) <==> Has(s, id', me))
        decreases |lists[k.value]|
      {
        var head := lists[k.value][0];
        assert Has(S(), id, Me(head.instance, head.body));
        var _ := Delete(id, head.instance);
      }
      forall me ensures !Has(S(), id, me) { HasAtEntry(S(), id, me); }
    }

    /** Every run of creates, deletes and destroys leaves the store equal to the
        map the operations describe, with the entity count its size. */
    method Perform(ops: seq<Op>, defs: seq<nat>)
      requires Valid(S()) && Refines(S(), map[]) && forall id :: id in defs <==> id in ids
      modifies this`lists, this`count
      ensures Valid(S()) && Refines(S(), ApplyAll(ids, ops))
    {
      var i := 0;
      while i < |ops|
        invariant 0 <= i <= |ops| && Valid(S()) && Refines(S(), ApplyAll(ids, ops[..i]))
      {
        assert ops[..i + 1][..i] == ops[..i];
        PerformOne(ops[i], defs, ApplyAll(ids, ops[..i]));
        i := i + 1;
      }
      assert ops[..i] == ops;
    }

    method PerformOne(op: Op, defs: seq<nat>, ghost m: Model)
      requires Valid(S()) && Refines(S(), m) && forall id :: id in defs <==> id in ids
      modifies this`lists, this`count
      ensures Valid(S()) && Refines(S(), Apply(ids, m, op))
    {
      ghost var s := S();
      match op {
        case Create(id, inst, body, initOk) =>
          PresentInModel(S(), m, id, inst);
          var r := Create(id, inst, body, initOk);
          if r == Success { CreateRefines(s, S(), m, id, inst, body); } else { SameRefines(s, S(), m); }
        case Delete(id, inst) =>
          PresentInModel(S(), m, id, inst);
          var _ := Delete(id, inst);
          DeleteRefines(s, S(), m, id, inst);
        case Destroy =>
          var _ := Destroy(defs);
      }
    }

    /** mib_destroy over the class definitions: it never fails, ends, and leaves an empty MIB. */
    method Destroy(defs: seq<nat>) returns (r: Result)
      requires Valid(S()) && forall id :: id in defs <==> id in ids
      modifies this`lists, this`count
      ensures r == Success && Valid(S()) && count == 0 && forall id, me :: !Has(S(), id, me)
    {
      ghost var s := S();
      var i := 0;
      while i < |defs|
        invariant 0 <= i <= |defs| && Valid(S())
        invariant forall id, me :: Has(S(), id, me) ==> id in ids && id !in defs[..i]
      {
        DestroyClass(defs[i]);
        assert defs[..i + 1] == defs[..i] + [defs[i]];
        i := i + 1;
      }
      assert defs[..i] == defs;
      AllEmpty(S());
      r := Success;
    }
  }

  lemma InRest(l: seq<Me>, i: nat, x: Me)
    requires Sorted(l) && i < |l|
    ensures x in l[..i] + l[i + 1..] <==> x in l && x.instance != l[i].instance
  {
    var r := l[..i] + l[i + 1..];
    if x in r {
      var j :| 0 <= j < |r| && r[j] == x;
      assert x == if j < i then l[j] else l[j + 1];
    }
    if x in l && x.instance != l[i].instance {
      var j :| 0 <= j < |l| && l[j] == x;
      assert x == if j < i then r[j] else r[j - 1];
    }
  }

  lemma CountPositive(s: Store, k: nat)
    requires Valid(s) && k < |s.lists| && |s.lists[k]| > 0
    ensures s.count > 0
  {
    TotalUpdate(s.lists, k, []);
  }

  lemma NotListed(s: Store, id: nat, inst: nat)
    requires Valid(s) && Entry(s.ids, id) < |s.ids| && !Present(s, id, inst)
    ensures !HasInstance(s.lists[Entry(s.ids, id)], inst)
  {
    var l := s.lists[Entry(s.ids, id)];
    forall i | 0 <= i < |l| ensures l[i].instance != inst {
      HasAtEntry(s, id, l[i]);
      assert l[i] == Me(l[i].instance, l[i].body);
    }
  }

  lemma ListedIsPresent(s: Store, k: nat)
    requires |s.lists| == |s.ids| && k < |s.lists| && |s.lists[k]| > 0
    ensures Has(s, s.ids[k], s.lists[k][0])
  {}

  lemma AllEmpty(s: Store)
    requires Valid(s) && forall id, me :: !Has(s, id, me)
    ensures s.count == 0
  {
    forall k | 0 <= k < |s.lists| ensures s.lists[k] == [] {
      if |s.lists[k]| > 0 {
        ListedIsPresent(s, k);
        assert false;
      }
    }
    TotalZero(s.lists);
  }
}
