/** Back-patching of references between objects: a pointer read before its object is known is filled in
    when the object is. The document is given as the events that reading each element causes. */
module Unserializer {

  const NULL := 0

  /** Reading a pointer with a reference, or an object with an identifier. */
  datatype Event = Refer(id: int, slot: int) | Define(id: int, obj: int)

  /** A known identifier: its object, or NULL and the pointers waiting for it. */
  datatype Ref = Ref(ptr: int, patches: seq<int>)

  /** An element with an identifier: the object made for it and the events of its content. */
  datatype Element = Element(obj: int, body: seq<Event>)

  datatype Outcome = Done | Unresolved(id: int)

  predicate EventOk(e: Event) { e.Define? ==> e.obj != NULL }

  predicate EventsOk(es: seq<Event>) {
    forall i :: 0 <= i < |es| ==> EventOk(es[i])
  }

  predicate ElementsOk(elems: map<int, Element>) {
    forall id :: id in elems ==> elems[id].obj != NULL && EventsOk(elems[id].body)
  }

  /** The references known and the memory. */
  datatype Mem = Mem(refs: map<int, Ref>, slots: map<int, int>)

  const EMPTY := Mem(map[], map[])

  /** The memory with p written in the slots. */
  function Patched(slots: map<int, int>, patches: seq<int>, p: int): map<int, int>
    decreases |patches|
  {
    if patches == [] then slots else Patched(slots[patches[0] := p], patches[1..], p)
  }

  lemma {:induction false} PatchedIs(slots: map<int, int>, patches: seq<int>, p: int)
    ensures var t := Patched(slots, patches, p);
            && (forall s :: s in patches ==> s in t && t[s] == p)
            && (forall s :: s !in patches ==> (s in t <==> s in slots) && (s in t ==> t[s] == slots[s]))
    decreases |patches|
  {
    if patches != [] {
      PatchedIs(slots[patches[0] := p], patches[1..], p);
      assert forall s :: s in patches <==> s == patches[0] || s in patches[1..];
    }
  }

  /** A reference to id read into a slot. */
  function Referred(m: Mem, id: int, slot: int): Mem {
    var r := if id in m.refs then m.refs[id] else Ref(NULL, []);
    if r.ptr != NULL then m.(slots := m.slots[slot := r.ptr])
    else m.(refs := m.refs[id := Ref(NULL, [slot] + r.patches)])
  }

  /** The object of id recorded. */
  function Defined(m: Mem, id: int, obj: int): Mem {
    if id in m.refs then Mem(m.refs[id := Ref(obj, [])], Patched(m.slots, m.refs[id].patches, obj))
    else m.(refs := m.refs[id := Ref(obj, [])])
  }

  function After(m: Mem, e: Event): Mem {
    match e case Refer(id, slot) => Referred(m, id, slot) case Define(id, obj) => Defined(m, id, obj)
  }

  /** The memory after the first n events. */
  function AfterAll(m: Mem, es: seq<Event>, n: nat): Mem
    requires n <= |es|
  {
    if n == 0 then m else After(AfterAll(m, es, n - 1), es[n - 1])
  }

  // ---- what the events say ----

  /** The last object recorded for id by the first n events, NULL if there is none. */
  function LastDef(es: seq<Event>, id: int, n: nat): int
    requires n <= |es|
  {
    if n == 0 then NULL
    else if es[n - 1].Define? && es[n - 1].id == id then es[n - 1].obj
    else LastDef(es, id, n - 1)
  }

  /** The first one recorded from event i on. */
  function FirstDef(es: seq<Event>, id: int, i: nat, n: nat): int
    requires n <= |es|
  {
    if n <= i then NULL
    else if FirstDef(es, id, i, n - 1) != NULL then FirstDef(es, id, i, n - 1)
    else if es[n - 1].Define? && es[n - 1].id == id then es[n - 1].obj
    else NULL
  }

  /** The object the pointer read by event i was filled with: the last one recorded before, else the first
      one after. */
  function FilledWith(es: seq<Event>, i: nat, n: nat): int
    requires i < n <= |es|
  {
    if LastDef(es, es[i].id, i) != NULL then LastDef(es, es[i].id, i) else FirstDef(es, es[i].id, i, n)
  }

  /** No pointer is read twice. */
  ghost predicate DistinctSlots(es: seq<Event>) {
    forall i, j :: 0 <= i < j < |es| && es[i].Refer? && es[j].Refer? ==> es[i].slot != es[j].slot
  }

  /** The pointer read by event i holds what it was filled with, or waits. */
  ghost predicate SlotOk(m: Mem, es: seq<Event>, i: nat, n: nat)
    requires i < n <= |es| && es[i].Refer?
  {
    && es[i].id in m.refs
    && if FilledWith(es, i, n) != NULL then es[i].slot in m.slots && m.slots[es[i].slot] == FilledWith(es, i, n)
       else es[i].slot in m.refs[es[i].id].patches
  }

  ghost predicate Waits(es: seq<Event>, n: nat, id: int, slot: int)
    requires n <= |es|
  {
    exists i :: 0 <= i < n && es[i] == Refer(id, slot)
  }

  ghost predicate RefOk(m: Mem, es: seq<Event>, id: int, n: nat)
    requires n <= |es|
  {
    if id in m.refs then
      && m.refs[id].ptr == LastDef(es, id, n)
      && (m.refs[id].ptr != NULL ==> m.refs[id].patches == [])
      && forall p :: p in m.refs[id].patches ==> Waits(es, n, id, p)
    else LastDef(es, id, n) == NULL
  }

  ghost predicate Follows(m: Mem, es: seq<Event>, n: nat)
    requires n <= |es|
  {
    && (forall i :: 0 <= i < n && es[i].Refer? ==> SlotOk(m, es, i, n))
    && (forall id :: RefOk(m, es, id, n))
  }

  /** A pointer is filled as soon as its identifier has an object. */
  lemma {:induction false} FilledIff(es: seq<Event>, i: nat, n: nat)
    requires i < n <= |es| && EventsOk(es)
    ensures FilledWith(es, i, n) != NULL <==> LastDef(es, es[i].id, n) != NULL
    decreases n
  {
    if n == i + 1 {
      assert FirstDef(es, es[i].id, i, i) == NULL;
      assert LastDef(es, es[i].id, n) == NULL <==> LastDef(es, es[i].id, i) == NULL && !(es[i].Define?);
    } else {
      FilledIff(es, i, n - 1);
    }
  }

  lemma RefersStep(m: Mem, es: seq<Event>, n: nat)
    requires n < |es| && EventsOk(es) && DistinctSlots(es) && Follows(m, es, n) && es[n].Refer?
    ensures Follows(After(m, es[n]), es, n + 1)
  {
    var t, id, slot, k := After(m, es[n]), es[n].id, es[n].slot, n + 1;
    assert RefOk(m, es, id, n);
    forall x ensures RefOk(t, es, x, k) {
      assert RefOk(m, es, x, n);
      if x in t.refs {
        forall p | p in t.refs[x].patches ensures Waits(es, k, x, p) {
          if x == id && p == slot {
            assert es[n] == Refer(x, p);
          } else {
            var i :| 0 <= i < n && es[i] == Refer(x, p);
          }
        }
      }
    }
    forall i | 0 <= i < k && es[i].Refer? ensures SlotOk(t, es, i, k) {
      if i < n { OtherSlotKept(m, es, i, n); } else { NewSlot(m, es, n); }
    }
  }

  lemma OtherSlotKept(m: Mem, es: seq<Event>, i: nat, n: nat)
    requires i < n < |es| && DistinctSlots(es) && es[n].Refer? && es[i].Refer? && SlotOk(m, es, i, n)
    requires RefOk(m, es, es[n].id, n)
    ensures SlotOk(After(m, es[n]), es, i, n + 1)
  {
    assert es[i].slot != es[n].slot;
    assert FilledWith(es, i, n + 1) == FilledWith(es, i, n);
  }

  lemma NewSlot(m: Mem, es: seq<Event>, n: nat)
    requires n < |es| && es[n].Refer? && RefOk(m, es, es[n].id, n)
    ensures SlotOk(After(m, es[n]), es, n, n + 1)
  {
    assert FirstDef(es, es[n].id, n, n) == NULL;
    assert FilledWith(es, n, n + 1) == LastDef(es, es[n].id, n);
  }

  lemma DefinesStep(m: Mem, es: seq<Event>, n: nat)
    requires n < |es| && EventsOk(es) && DistinctSlots(es) && Follows(m, es, n) && es[n].Define?
    ensures Follows(After(m, es[n]), es, n + 1)
  {
    var t, id, obj, k := After(m, es[n]), es[n].id, es[n].obj, n + 1;
    assert RefOk(m, es, id, n) && EventOk(es[n]);
    if id in m.refs { PatchedIs(m.slots, m.refs[id].patches, obj); }
    forall x ensures RefOk(t, es, x, k) {
      assert RefOk(m, es, x, n);
      if x in t.refs && x != id {
        forall p | p in t.refs[x].patches ensures Waits(es, k, x, p) {
          var i :| 0 <= i < n && es[i] == Refer(x, p);
        }
      }
    }
    forall i | 0 <= i < k && es[i].Refer? ensures SlotOk(t, es, i, k) {
      SlotKept(m, es, i, n);
    }
  }

  /** What recording an object does to the pointer read by event i. */
  lemma SlotKept(m: Mem, es: seq<Event>, i: nat, n: nat)
    requires i < n < |es| && EventsOk(es) && DistinctSlots(es) && Follows(m, es, n) && es[n].Define? && es[i].Refer?
    ensures SlotOk(After(m, es[n]), es, i, n + 1)
  {
    var id, slot, x := es[n].id, es[i].slot, es[i].id;
    assert SlotOk(m, es, i, n) && RefOk(m, es, id, n) && RefOk(m, es, x, n) && EventOk(es[n]);
    FilledIff(es, i, n);
    if id in m.refs {
      PatchedIs(m.slots, m.refs[id].patches, es[n].obj);
      if slot in m.refs[id].patches {
        var j :| 0 <= j < n && es[j] == Refer(id, slot);
        assert j == i;
      }
    }
  }

  lemma FollowsStep(m: Mem, es: seq<Event>, n: nat)
    requires n < |es| && EventsOk(es) && DistinctSlots(es) && Follows(m, es, n)
    ensures Follows(After(m, es[n]), es, n + 1)
  {
    if es[n].Refer? { RefersStep(m, es, n); } else { DefinesStep(m, es, n); }
  }

  /** The references and the memory after any events that read no pointer twice. */
  lemma {:induction false} EventsFollow(es: seq<Event>, n: nat)
    requires n <= |es| && EventsOk(es) && DistinctSlots(es)
    ensures Follows(AfterAll(EMPTY, es, n), es, n)
  {
    if n > 0 {
      EventsFollow(es, n - 1);
      FollowsStep(AfterAll(EMPTY, es, n - 1), es, n - 1);
    }
  }

  /** The pointer read by event i holds the object of its identifier. */
  ghost predicate HoldsObject(m: Mem, e: Event)
    requires e.Refer?
  {
    && e.id in m.refs && m.refs[e.id].ptr != NULL
    && e.slot in m.slots && m.slots[e.slot] == m.refs[e.id].ptr
  }

  ghost predicate AllHold(m: Mem, es: seq<Event>) {
    forall i :: 0 <= i < |es| && es[i].Refer? ==> HoldsObject(m, es[i])
  }

  /** Every pointer was filled with the last object recorded for its identifier. */
  predicate FilledWithLast(es: seq<Event>) {
    forall i :: 0 <= i < |es| && es[i].Refer? ==>
      LastDef(es, es[i].id, |es|) != NULL && FilledWith(es, i, |es|) == LastDef(es, es[i].id, |es|)
  }

  /** Every pointer read holds its identifier's object exactly when the object it was filled with is the
      last one recorded for the identifier. */
  lemma HoldExactly(es: seq<Event>)
    requires EventsOk(es) && DistinctSlots(es)
    ensures AllHold(AfterAll(EMPTY, es, |es|), es) <==> FilledWithLast(es)
  {
    var m, n := AfterAll(EMPTY, es, |es|), |es|;
    EventsFollow(es, n);
    forall i | 0 <= i < n && es[i].Refer?
      ensures HoldsObject(m, es[i]) <==> LastDef(es, es[i].id, n) != NULL && FilledWith(es, i, n) == LastDef(es, es[i].id, n)
    {
      assert SlotOk(m, es, i, n) && RefOk(m, es, es[i].id, n);
      FilledIff(es, i, n);
    }
  }

  /** A second object for an identifier goes unnoticed; a pointer filled in before keeps the first. */
  lemma DefinedTwice()
    ensures var es := [Define(1, 10), Refer(1, 5), Define(1, 20)]; var m := AfterAll(EMPTY, es, 3);
            m.refs[1].ptr == 20 && m.slots[5] == 10 && !FilledWithLast(es) && !AllHold(m, es)
  {
    var es := [Define(1, 10), Refer(1, 5), Define(1, 20)];
    var m := AfterAll(EMPTY, es, 2);
    assert m == After(AfterAll(EMPTY, es, 1), es[1]) && m.slots == map[5 := 10];
    assert Patched(m.slots, [], 20) == m.slots;
    assert es[1] == Refer(1, 5);
    HoldExactly(es);
  }

  /** An identifier recorded only with one object. */
  ghost predicate OneObject(es: seq<Event>) {
    forall i, j :: 0 <= i < j < |es| && es[i].Define? && es[j].Define? && es[i].id == es[j].id ==> es[i].obj == es[j].obj
  }

  lemma {:induction false} LastDefIs(es: seq<Event>, id: int, n: nat)
    requires n <= |es|
    ensures LastDef(es, id, n) != NULL ==> exists i :: 0 <= i < n && es[i] == Define(id, LastDef(es, id, n))
  {
    if n > 0 {
      LastDefIs(es, id, n - 1);
      if es[n - 1].Define? && es[n - 1].id == id { assert es[n - 1] == Define(id, LastDef(es, id, n)); }
    }
  }

  lemma {:induction false} FirstDefIs(es: seq<Event>, id: int, i: nat, n: nat)
    requires n <= |es|
    ensures FirstDef(es, id, i, n) != NULL ==> exists j :: 0 <= j < n && es[j] == Define(id, FirstDef(es, id, i, n))
    decreases n
  {
    if n > i {
      FirstDefIs(es, id, i, n - 1);
      if es[n - 1].Define? && es[n - 1].id == id && FirstDef(es, id, i, n - 1) == NULL {
        assert es[n - 1] == Define(id, FirstDef(es, id, i, n));
      }
    }
  }

  /** Then every pointer whose identifier has an object was filled with it. */
  lemma OneObjectFills(es: seq<Event>, i: nat)
    requires EventsOk(es) && OneObject(es) && i < |es| && LastDef(es, es[i].id, |es|) != NULL
    ensures FilledWith(es, i, |es|) == LastDef(es, es[i].id, |es|)
  {
    var id, n := es[i].id, |es|;
    FilledIff(es, i, n);
    LastDefIs(es, id, n);
    LastDefIs(es, id, i);
    FirstDefIs(es, id, i, n);
    var a, b := FilledWith(es, i, n), LastDef(es, id, n);
    var j :| 0 <= j < n && es[j] == Define(id, a);
    var k :| 0 <= k < n && es[k] == Define(id, b);
    assert j == k || (j < k && es[j].obj == es[k].obj) || (k < j && es[k].obj == es[j].obj);
  }

  // ---- lists of events one after the other ----

  lemma {:induction false} AfterConcat(m: Mem, a: seq<Event>, b: seq<Event>, n: nat)
    requires n <= |b|
    ensures AfterAll(m, a + b, |a| + n) == AfterAll(AfterAll(m, a, |a|), b, n)
    decreases n
  {
    if n > 0 {
      AfterConcat(m, a, b, n - 1);
    } else {
      AfterPrefix(m, a, b, |a|);
    }
  }

  lemma {:induction false} AfterPrefix(m: Mem, a: seq<Event>, b: seq<Event>, n: nat)
    requires n <= |a|
    ensures AfterAll(m, a + b, n) == AfterAll(m, a, n)
  {
    if n > 0 { AfterPrefix(m, a, b, n - 1); }
  }

  /** The identifiers recorded by the events. */
  function DefIds(es: seq<Event>): set<int> { set i | 0 <= i < |es| && es[i].Define? :: es[i].id }

  lemma DefIdsConcat(a: seq<Event>, b: seq<Event>)
    ensures DefIds(a + b) == DefIds(a) + DefIds(b)
  {
    forall id | id in DefIds(a) + DefIds(b) ensures id in DefIds(a + b) {
      if id in DefIds(a) {
        var i :| 0 <= i < |a| && a[i].Define? && a[i].id == id;
        assert (a + b)[i] == a[i];
      } else {
        var i :| 0 <= i < |b| && b[i].Define? && b[i].id == id;
        assert (a + b)[|a| + i] == b[i];
      }
    }
  }

  /** Lists that record different identifiers. */
  lemma OneObjectConcat(a: seq<Event>, b: seq<Event>)
    requires OneObject(a) && OneObject(b) && DefIds(a) !! DefIds(b)
    ensures OneObject(a + b)
  {
    var s := a + b;
    forall i, j | 0 <= i < j < |s| && s[i].Define? && s[j].Define? && s[i].id == s[j].id ensures s[i].obj == s[j].obj {
      assert i < |a| ==> s[i].id in DefIds(a);
      assert |a| <= j ==> s[j] == b[j - |a|] && s[j].id in DefIds(b);
      assert |a| <= i ==> s[i] == b[i - |a|];
    }
  }

  /** The object of an identifier is the last one recorded. */
  lemma {:induction false} PtrIsLast(es: seq<Event>, id: int, n: nat)
    requires n <= |es| && EventsOk(es)
    ensures PtrOf(AfterAll(EMPTY, es, n), id) == LastDef(es, id, n)
  {
    if n > 0 {
      PtrIsLast(es, id, n - 1);
      assert EventOk(es[n - 1]);
    }
  }

  function PtrOf(m: Mem, id: int): int {
    if id in m.refs then m.refs[id].ptr else NULL
  }

  lemma {:induction false} NotRecorded(es: seq<Event>, id: int, n: nat)
    requires n <= |es| && EventsOk(es) && LastDef(es, id, n) == NULL
    ensures forall i :: 0 <= i < n ==> es[i].Refer? || es[i].id != id
  {
    if n > 0 {
      assert EventOk(es[n - 1]);
      NotRecorded(es, id, n - 1);
    }
  }
}
