/** The unserializer's object: references met while elements are read, and the flush that reads the elements
    of the references still unresolved. */
module UnserializerFlush {
  import opened Collections
  import opened Unserializer

  /** The identifier an event makes pending, if it is met for the first time. */
  function Pushed(m: Mem, e: Event): seq<int> {
    if e.Refer? && e.id !in m.refs then [e.id] else []
  }

  function PushedAll(m: Mem, es: seq<Event>, n: nat): seq<int>
    requires n <= |es|
  {
    if n == 0 then [] else PushedAll(m, es, n - 1) + Pushed(AfterAll(m, es, n - 1), es[n - 1])
  }

  function Ids(es: seq<Event>): set<int> { set i | 0 <= i < |es| :: es[i].id }

  /** Between two memories: the identifiers added are those of ids, and at most as many become pending. */
  ghost predicate Grown(m: Mem, t: Mem, pushed: seq<int>, ids: set<int>) {
    && m.refs.Keys <= t.refs.Keys <= m.refs.Keys + ids
    && |pushed| <= |t.refs.Keys| - |m.refs.Keys|
    && forall id :: id in pushed ==> id in t.refs
  }

  lemma EventGrows(m: Mem, e: Event)
    ensures Grown(m, After(m, e), Pushed(m, e), {e.id})
  {
    KeysAfter(m, e);
    assert e.id in m.refs ==> m.refs.Keys + {e.id} == m.refs.Keys;
  }

  lemma KeysAfter(m: Mem, e: Event)
    ensures After(m, e).refs.Keys == m.refs.Keys + {e.id}
  {
    match e
    case Refer(id, slot) =>
      var r := if id in m.refs then m.refs[id] else Ref(NULL, []);
      assert m.refs[id := Ref(NULL, [slot] + r.patches)].Keys == m.refs.Keys + {id};
      assert id in m.refs ==> m.refs.Keys + {id} == m.refs.Keys;
    case Define(id, obj) => assert m.refs[id := Ref(obj, [])].Keys == m.refs.Keys + {id};
  }

  lemma GrownMore(m: Mem, s: Mem, t: Mem, a: seq<int>, b: seq<int>, x: int, ids: set<int>)
    requires Grown(m, s, a, ids) && Grown(s, t, b, {x}) && x in ids
    ensures Grown(m, t, a + b, ids)
  {}

  lemma GrownEvent(m: Mem, s: Mem, a: seq<int>, e: Event, ids: set<int>)
    requires Grown(m, s, a, ids) && e.id in ids
    ensures Grown(m, After(s, e), a + Pushed(s, e), ids)
  {
    EventGrows(s, e);
    GrownMore(m, s, After(s, e), a, Pushed(s, e), e.id, ids);
  }

  lemma IdIn(es: seq<Event>, i: nat)
    requires i < |es|
    ensures es[i].id in Ids(es)
  {}

  /** An identifier becomes pending at most once: for each there is one more known. */
  lemma {:induction false} PushedCount(m: Mem, es: seq<Event>, n: nat)
    requires n <= |es|
    ensures Grown(m, AfterAll(m, es, n), PushedAll(m, es, n), Ids(es))
  {
    if n > 0 {
      PushedCount(m, es, n - 1);
      IdIn(es, n - 1);
      GrownEvent(m, AfterAll(m, es, n - 1), PushedAll(m, es, n - 1), es[n - 1], Ids(es));
    } else {
      assert PushedAll(m, es, n) == [];
    }
  }

  /** A pointer to id was read. */
  ghost predicate Asked(es: seq<Event>, id: int) {
    exists i :: 0 <= i < |es| && es[i].Refer? && es[i].id == id
  }

  lemma AskedStays(es: seq<Event>, more: seq<Event>, id: int)
    requires Asked(es, id)
    ensures Asked(es + more, id)
  {
    var i :| 0 <= i < |es| && es[i].Refer? && es[i].id == id;
    assert (es + more)[i] == es[i];
  }

  lemma AskedStep(es: seq<Event>, pending: seq<int>, m: Mem, e: Event)
    requires forall id :: id in pending ==> Asked(es, id)
    ensures forall id :: id in pending + Pushed(m, e) ==> Asked(es + [e], id)
  {
    forall id | id in pending + Pushed(m, e) ensures Asked(es + [e], id) {
      if id in pending { AskedStays(es, [e], id); } else { assert (es + [e])[|es|] == e; }
    }
  }

  /** Identifiers without object are pending, or in loose. */
  ghost predicate PendingOk(m: Mem, pending: seq<int>, loose: set<int>) {
    && (forall id :: id in m.refs && m.refs[id].ptr == NULL ==> id in pending || id in loose)
    && (forall id :: id in pending ==> id in m.refs)
  }

  lemma PendingStep(m: Mem, pending: seq<int>, loose: set<int>, e: Event)
    requires PendingOk(m, pending, loose) && EventOk(e)
    ensures PendingOk(After(m, e), pending + Pushed(m, e), if e.Define? then loose - {e.id} else loose)
  {
    var q := pending + Pushed(m, e);
    assert forall id :: id in pending ==> id in q;
    assert e.Refer? && e.id !in m.refs ==> q[|pending|] == e.id;
  }

  lemma PendingPop(m: Mem, pending: seq<int>)
    requires PendingOk(m, pending, {}) && pending != []
    ensures var n := |pending| - 1; PendingOk(m, pending[..n], {pending[n]})
  {
    var n := |pending| - 1;
    assert pending == pending[..n] + [pending[n]];
    assert forall id :: id in pending[..n] ==> id in pending;
    assert forall id :: id in pending ==> id in pending[..n] || id == pending[n];
  }

  /** The memory is what the events make of it, and what is pending was asked for and has no object yet. */
  ghost predicate Sound(es: seq<Event>, m: Mem, pending: seq<int>, loose: set<int>) {
    && EventsOk(es) && m == AfterAll(EMPTY, es, |es|) && PendingOk(m, pending, loose)
    && forall id :: id in pending ==> Asked(es, id)
  }

  /** One more event. */
  lemma SoundStep(es: seq<Event>, m: Mem, pending: seq<int>, loose: set<int>, e: Event)
    requires Sound(es, m, pending, loose) && EventOk(e)
    ensures Sound(es + [e], After(m, e), pending + Pushed(m, e), if e.Define? then loose - {e.id} else loose)
  {
    PendingStep(m, pending, loose, e);
    AskedStep(es, pending, m, e);
    EventAfter(EMPTY, es, e);
  }

  lemma SoundPop(es: seq<Event>, m: Mem, pending: seq<int>, id: int)
    requires Sound(es, m, pending + [id], {})
    ensures Sound(es, m, pending, {id}) && Asked(es, id) && id in m.refs
    ensures PtrOf(m, id) != NULL ==> Sound(es, m, pending, {})
    ensures PtrOf(m, id) == NULL ==> Missing(es, id)
  {
    PendingPop(m, pending + [id]);
    assert (pending + [id])[|pending|] == id;
    if PtrOf(m, id) == NULL { PoppedNow(es, id); }
  }

  /** The state of a reading of events, of which n are read. */
  ghost predicate ReadTo(h0: seq<Event>, m0: Mem, p0: seq<int>, events: seq<Event>, n: nat,
                         h: seq<Event>, m: Mem, p: seq<int>)
    requires n <= |events|
  {
    h == h0 + events[..n] && m == AfterAll(m0, events, n) && p == p0 + PushedAll(m0, events, n)
  }

  lemma ReadMore(h0: seq<Event>, m0: Mem, p0: seq<int>, events: seq<Event>, n: nat, h: seq<Event>, m: Mem, p: seq<int>)
    requires n < |events| && ReadTo(h0, m0, p0, events, n, h, m, p)
    ensures ReadTo(h0, m0, p0, events, n + 1, h + [events[n]], After(m, events[n]), p + Pushed(m, events[n]))
    ensures events[n].Define? ==> p + Pushed(m, events[n]) == p
  {
    assert events[..n + 1] == events[..n] + [events[n]];
  }

  class Reader {
    var refs: map<int, Ref>
    var pending: seq<int>
    var slots: map<int, int>

    /** The events so far. */
    ghost var history: seq<Event>

    function Memory(): Mem
      reads this
    {
      Mem(refs, slots)
    }

    /** The identifiers without object, but for those of loose, are pending. */
    ghost predicate Valid(loose: set<int>)
      reads this
    {
      Sound(history, Memory(), pending, loose)
    }

    constructor ()
      ensures Valid({}) && history == [] && pending == []
    {
      refs, pending, slots := map[], [], map[];
      history := [];
    }

    /** The reference gets the pointer at slot, or a patch for it. */
    method Put(id: int, slot: int)
      requires id in refs
      modifies `refs, `slots
      ensures Memory() == Referred(old(Memory()), id, slot)
    {
      var r := refs[id];
      if r.ptr != NULL {
        slots := slots[slot := r.ptr];
      } else {
        refs := refs[id := Ref(NULL, [slot] + r.patches)];
      }
    }

    /** The reference gets its object; the patches are applied. */
    method Record(id: int, obj: int)
      requires id in refs
      modifies `refs, `slots
      ensures Memory() == Defined(old(Memory()), id, obj)
    {
      var patches := refs[id].patches;
      while patches != []
        invariant Patched(slots, patches, obj) == Patched(old(slots), old(refs)[id].patches, obj)
        invariant refs == old(refs)
        decreases |patches|
      {
        slots := slots[patches[0] := obj];
        patches := patches[1..];
      }
      refs := refs[id := Ref(obj, [])];
    }

    /** A pointer is read with a reference. */
    method OnPointer(id: int, slot: int, ghost loose: set<int>)
      requires Valid(loose)
      modifies this
      ensures Valid(loose) && history == old(history) + [Refer(id, slot)]
      ensures Memory() == Referred(old(Memory()), id, slot)
      ensures pending == old(pending) + Pushed(old(Memory()), Refer(id, slot))
    {
      SoundStep(history, Memory(), pending, loose, Refer(id, slot));
      history := history + [Refer(id, slot)];
      if id !in refs {
        pending := pending + [id];
        refs := refs[id := Ref(NULL, [])];
      }
      Put(id, slot);
    }

    /** An object with an identifier starts. */
    method BeginObject(id: int, obj: int, ghost loose: set<int>)
      requires Valid(loose) && obj != NULL
      modifies this
      ensures Valid(loose - {id}) && history == old(history) + [Define(id, obj)]
      ensures Memory() == Defined(old(Memory()), id, obj) && pending == old(pending)
    {
      SoundStep(history, Memory(), pending, loose, Define(id, obj));
      assert pending + Pushed(Memory(), Define(id, obj)) == pending;
      history := history + [Define(id, obj)];
      if id in refs { Record(id, obj); } else { refs := refs[id := Ref(obj, [])]; }
    }

    /** Reads the content of an element. */
    method Read(events: seq<Event>)
      requires Valid({}) && EventsOk(events)
      modifies this
      ensures Valid({}) && history == old(history) + events
      ensures Memory() == AfterAll(old(Memory()), events, |events|)
      ensures pending == old(pending) + PushedAll(old(Memory()), events, |events|)
    {
      var i := 0;
      ghost var h0, m0, p0 := history, Memory(), pending;
      while i < |events|
        invariant 0 <= i <= |events| && Valid({}) && ReadTo(h0, m0, p0, events, i, history, Memory(), pending)
      {
        ReadMore(h0, m0, p0, events, i, history, Memory(), pending);
        match events[i] {
          case Refer(id, slot) => OnPointer(id, slot, {});
          case Define(id, obj) => BeginObject(id, obj, {});
        }
        i := i + 1;
      }
      assert events[..i] == events;
    }
  }

  // ---- the flush ----

  /** The events of reading the element of an unresolved identifier: its object starts, its content is read,
      and it is recorded again. */
  function Piece(id: int, e: Element): seq<Event> {
    [Define(id, e.obj)] + e.body + [Define(id, e.obj)]
  }

  /** The identifiers of all the elements and their contents. */
  ghost predicate Known(elems: map<int, Element>, all: set<int>) {
    && elems.Keys <= all
    && forall id :: id in elems ==> Ids(Piece(id, elems[id])) <= all
  }

  /** The elements the flush reads, in order, and whether it meets an identifier without element. */
  datatype Plan = Plan(embeds: seq<int>, stuck: bool)

  /** The last pending identifier is looked at first. all is the set of the document's identifiers. */
  ghost function FlushPlan(m: Mem, pending: seq<int>, elems: map<int, Element>, all: set<int>): Plan
    requires m.refs.Keys <= all && Known(elems, all)
    decreases |all| - |m.refs.Keys| + |pending|
  {
    SubsetCount(m.refs.Keys, all);
    if pending == [] then Plan([], false)
    else
      var id, rest := pending[|pending| - 1], pending[..|pending| - 1];
      if id in m.refs && m.refs[id].ptr != NULL then FlushPlan(m, rest, elems, all)
      else if id !in elems then Plan([], true)
      else
        var p := Piece(id, elems[id]);
        var t := AfterAll(m, p, |p|);
        PushedCount(m, p, |p|);
        SubsetCount(t.refs.Keys, all);
        var plan := FlushPlan(t, rest + PushedAll(m, p, |p|), elems, all);
        plan.(embeds := [id] + plan.embeds)
  }

  predicate Embeddable(xs: seq<int>, elems: map<int, Element>) {
    forall i :: 0 <= i < |xs| ==> xs[i] in elems
  }

  /** The events of reading the first n elements one after the other. */
  function Trace(xs: seq<int>, elems: map<int, Element>, n: nat): seq<Event>
    requires n <= |xs| && Embeddable(xs, elems)
  {
    if n == 0 then [] else Trace(xs, elems, n - 1) + Piece(xs[n - 1], elems[xs[n - 1]])
  }

  lemma {:induction false} TraceStays(xs: seq<int>, id: int, elems: map<int, Element>, n: nat)
    requires n <= |xs| && Embeddable(xs, elems) && id in elems
    ensures Embeddable(xs + [id], elems) && Trace(xs + [id], elems, n) == Trace(xs, elems, n)
  {
    if n > 0 { TraceStays(xs, id, elems, n - 1); }
  }

  /** Reads the element of an identifier. */
  method Embed(u: Reader, id: int, e: Element)
    requires u.Valid({id}) && e.obj != NULL && EventsOk(e.body) && id in u.refs
    modifies u
    ensures u.Valid({}) && u.history == old(u.history) + Piece(id, e)
    ensures u.Memory() == AfterAll(old(u.Memory()), Piece(id, e), |Piece(id, e)|)
    ensures u.pending == old(u.pending) + PushedAll(old(u.Memory()), Piece(id, e), |Piece(id, e)|)
  {
    ghost var h, m := u.history, u.Memory();
    u.BeginObject(id, e.obj, {id});
    u.Read(e.body);
    PieceSteps(m, id, e);
    u.BeginObject(id, e.obj, {});
    PieceParts(h, id, e);
  }

  lemma PieceParts(h: seq<Event>, id: int, e: Element)
    ensures h + [Define(id, e.obj)] + e.body + [Define(id, e.obj)] == h + Piece(id, e)
  {}

  lemma OneEvent(m: Mem, e: Event)
    ensures AfterAll(m, [e], 1) == After(m, e) && PushedAll(m, [e], 1) == Pushed(m, e)
  {
    assert AfterAll(m, [e], 0) == m && PushedAll(m, [e], 0) == [];
  }

  /** Events followed by one more. */
  lemma EventAfter(m: Mem, es: seq<Event>, e: Event)
    ensures AfterAll(m, es + [e], |es| + 1) == After(AfterAll(m, es, |es|), e)
    ensures PushedAll(m, es + [e], |es| + 1) == PushedAll(m, es, |es|) + Pushed(AfterAll(m, es, |es|), e)
  {
    OneEvent(AfterAll(m, es, |es|), e);
    AfterConcat(m, es, [e], 1);
    PushedConcat(m, es, [e], 1);
  }

  /** The three parts of reading an element. */
  lemma PieceSteps(m: Mem, id: int, e: Element)
    ensures var m1 := Defined(m, id, e.obj); var m2 := AfterAll(m1, e.body, |e.body|); var p := Piece(id, e);
            AfterAll(m, p, |p|) == Defined(m2, id, e.obj) && PushedAll(m, p, |p|) == PushedAll(m1, e.body, |e.body|)
  {
    var d := Define(id, e.obj);
    OneEvent(m, d);
    PieceBody(m, d, e.body);
    EventAfter(m, [d] + e.body, d);
  }

  lemma PieceBody(m: Mem, d: Event, body: seq<Event>)
    ensures AfterAll(m, [d] + body, 1 + |body|) == AfterAll(After(m, d), body, |body|)
    ensures PushedAll(m, [d] + body, 1 + |body|) == Pushed(m, d) + PushedAll(After(m, d), body, |body|)
  {
    OneEvent(m, d);
    AfterConcat(m, [d], body, |body|);
    PushedConcat(m, [d], body, |body|);
  }

  lemma PushedNext(m: Mem, es: seq<Event>, n: nat)
    requires n < |es|
    ensures PushedAll(m, es, n + 1) == PushedAll(m, es, n) + Pushed(AfterAll(m, es, n), es[n])
  {}

  lemma Associates(a: seq<int>, b: seq<int>, c: seq<int>)
    ensures (a + b) + c == a + (b + c)
  {}

  lemma {:induction false} PushedConcat(m: Mem, a: seq<Event>, b: seq<Event>, n: nat)
    requires n <= |b|
    ensures PushedAll(m, a + b, |a| + n) == PushedAll(m, a, |a|) + PushedAll(AfterAll(m, a, |a|), b, n)
    decreases n
  {
    if n > 0 {
      var s, k, t := a + b, |a| + n - 1, AfterAll(m, a, |a|);
      PushedConcat(m, a, b, n - 1);
      AfterConcat(m, a, b, n - 1);
      PushedNext(m, s, k);
      assert s[k] == b[n - 1];
      Associates(PushedAll(m, a, |a|), PushedAll(t, b, n - 1), Pushed(AfterAll(t, b, n - 1), b[n - 1]));
    } else {
      PushedPrefix(m, a, b, |a|);
    }
  }

  lemma {:induction false} PushedPrefix(m: Mem, a: seq<Event>, b: seq<Event>, n: nat)
    requires n <= |a|
    ensures PushedAll(m, a + b, n) == PushedAll(m, a, n)
  {
    if n > 0 {
      PushedPrefix(m, a, b, n - 1);
      AfterPrefix(m, a, b, n - 1);
    }
  }

  /** When the flush came to the elements, their identifiers had been asked for and had no object. */
  ghost predicate Popped(es: seq<Event>, xs: seq<int>, elems: map<int, Element>)
    requires Embeddable(xs, elems)
  {
    forall k :: 0 <= k < |xs| ==> PoppedAt(es, xs, elems, k)
  }

  ghost predicate PoppedAt(es: seq<Event>, xs: seq<int>, elems: map<int, Element>, k: nat)
    requires Embeddable(xs, elems) && k < |xs|
  {
    Missing(es + Trace(xs, elems, k), xs[k])
  }

  ghost predicate Missing(before: seq<Event>, id: int) {
    id !in DefIds(before) && Asked(before, id)
  }

  lemma PoppedMore(es: seq<Event>, xs: seq<int>, elems: map<int, Element>, id: int)
    requires Embeddable(xs, elems) && id in elems && Popped(es, xs, elems) && Missing(es + Trace(xs, elems, |xs|), id)
    ensures Embeddable(xs + [id], elems) && Popped(es, xs + [id], elems)
  {
    var ys := xs + [id];
    forall k | 0 <= k < |ys| ensures PoppedAt(es, ys, elems, k) {
      TraceStays(xs, id, elems, k);
      assert k < |xs| ==> PoppedAt(es, xs, elems, k);
    }
  }

  /** The last pending identifier, without object. */
  lemma PoppedNow(es: seq<Event>, id: int)
    requires EventsOk(es) && PtrOf(AfterAll(EMPTY, es, |es|), id) == NULL
    ensures id !in DefIds(es)
  {
    PtrIsLast(es, id, |es|);
    NotRecorded(es, id, |es|);
  }

  /** A plan with its first elements done. */
  predicate PlanSplit(plan: Plan, done: seq<int>, rest: Plan) {
    plan.embeds == done + rest.embeds && plan.stuck == rest.stuck
  }

  /** The events there were before are followed by those of the plan's elements. */
  ghost predicate FlushedBy(plan: Plan, es: seq<Event>, history: seq<Event>, elems: map<int, Element>) {
    Embeddable(plan.embeds, elems) && Popped(es, plan.embeds, elems) && history == es + Trace(plan.embeds, elems, |plan.embeds|)
  }

  /** The next element of the plan. */
  lemma PlanStep(m: Mem, pending: seq<int>, elems: map<int, Element>, all: set<int>)
    requires m.refs.Keys <= all && Known(elems, all) && pending != []
    requires PtrOf(m, pending[|pending| - 1]) == NULL && pending[|pending| - 1] in elems
    ensures var n := |pending| - 1; var id := pending[n]; var p := Piece(id, elems[id]); var t := AfterAll(m, p, |p|);
            && t.refs.Keys <= all && |PushedAll(m, p, |p|)| <= |t.refs.Keys| - |m.refs.Keys|
            && PlanSplit(FlushPlan(m, pending, elems, all), [id], FlushPlan(t, pending[..n] + PushedAll(m, p, |p|), elems, all))
  {
    var id := pending[|pending| - 1];
    var p := Piece(id, elems[id]);
    PushedCount(m, p, |p|);
  }

  /** The flush with the first elements of the plan done. */
  ghost predicate Flushing(plan: Plan, es: seq<Event>, done: seq<int>, history: seq<Event>, m: Mem, pending: seq<int>,
                           elems: map<int, Element>, all: set<int>)
  {
    && m.refs.Keys <= all && Known(elems, all)
    && Embeddable(done, elems) && Popped(es, done, elems) && history == es + Trace(done, elems, |done|)
    && PlanSplit(plan, done, FlushPlan(m, pending, elems, all))
  }

  lemma FlushStarts(plan: Plan, es: seq<Event>, m: Mem, pending: seq<int>, elems: map<int, Element>, all: set<int>)
    requires m.refs.Keys <= all && Known(elems, all) && plan == FlushPlan(m, pending, elems, all)
    ensures Flushing(plan, es, [], es, m, pending, elems, all)
  {
    assert plan.embeds == [] + plan.embeds && es == es + [];
  }

  lemma FlushEnds(plan: Plan, es: seq<Event>, done: seq<int>, history: seq<Event>, m: Mem, pending: seq<int>,
                  elems: map<int, Element>, all: set<int>)
    requires Flushing(plan, es, done, history, m, pending, elems, all)
    requires pending != [] ==> PtrOf(m, pending[|pending| - 1]) == NULL && pending[|pending| - 1] !in elems
    ensures FlushedBy(plan, es, history, elems) && plan.stuck == (pending != [])
  {
    assert plan.embeds == done;
  }

  lemma FlushDrops(plan: Plan, es: seq<Event>, done: seq<int>, history: seq<Event>, m: Mem, pending: seq<int>,
                   elems: map<int, Element>, all: set<int>)
    requires Flushing(plan, es, done, history, m, pending, elems, all)
    requires pending != [] && PtrOf(m, pending[|pending| - 1]) != NULL
    ensures Flushing(plan, es, done, history, m, pending[..|pending| - 1], elems, all)
  {}

  /** The element of the last pending identifier, without object, is read. */
  lemma FlushReads(plan: Plan, es: seq<Event>, done: seq<int>, history: seq<Event>, m: Mem, pending: seq<int>,
                   elems: map<int, Element>, all: set<int>, id: int, p: seq<Event>)
    requires Flushing(plan, es, done, history, m, pending + [id], elems, all) && Missing(history, id)
    requires id in elems && PtrOf(m, id) == NULL && p == Piece(id, elems[id])
    ensures var t, more := AfterAll(m, p, |p|), PushedAll(m, p, |p|);
            && Flushing(plan, es, done + [id], history + p, t, pending + more, elems, all)
            && |more| <= |t.refs.Keys| - |m.refs.Keys|
  {
    var was := pending + [id];
    assert was[..|was| - 1] == pending;
    PlanStep(m, was, elems, all);
    PlanSplitMore(plan, done, FlushPlan(m, was, elems, all), id,
                  FlushPlan(AfterAll(m, p, |p|), pending + PushedAll(m, p, |p|), elems, all));
    EmbedStep(es, done, elems, history, id);
  }

  lemma PlanSplitMore(plan: Plan, done: seq<int>, rest: Plan, id: int, next: Plan)
    requires PlanSplit(plan, done, rest) && PlanSplit(rest, [id], next)
    ensures PlanSplit(plan, done + [id], next)
  {}

  lemma EmbedStep(es: seq<Event>, done: seq<int>, elems: map<int, Element>, history: seq<Event>, id: int)
    requires Embeddable(done, elems) && Popped(es, done, elems) && history == es + Trace(done, elems, |done|)
    requires id in elems && Missing(history, id)
    ensures Embeddable(done + [id], elems) && Popped(es, done + [id], elems)
    ensures history + Piece(id, elems[id]) == es + Trace(done + [id], elems, |done| + 1)
  {
    var t, p := Trace(done, elems, |done|), Piece(id, elems[id]);
    PoppedMore(es, done, elems, id);
    TraceStays(done, id, elems, |done|);
    assert (es + t) + p == es + (t + p);
  }

  /** Reads the elements of the pending identifiers until none is left: those of FlushPlan, in order. It ends
      because an identifier becomes pending at most once. */
  method Flush(u: Reader, elems: map<int, Element>, ghost all: set<int>) returns (out: Outcome)
    requires u.Valid({}) && ElementsOk(elems) && Known(elems, all) && u.refs.Keys <= all
    modifies u
    ensures FlushedBy(FlushPlan(old(u.Memory()), old(u.pending), elems, all), old(u.history), u.history, elems)
    ensures out == Done <==> !FlushPlan(old(u.Memory()), old(u.pending), elems, all).stuck
    ensures out.Unresolved? ==> out.id !in elems && Missing(u.history, out.id)
    ensures out == Done ==> Sound(u.history, u.Memory(), [], {}) && u.pending == []
  {
    ghost var es, done := u.history, [];
    ghost var plan := FlushPlan(u.Memory(), u.pending, elems, all);
    FlushStarts(plan, es, u.Memory(), u.pending, elems, all);
    while u.pending != []
      invariant u.Valid({}) && Flushing(plan, es, done, u.history, u.Memory(), u.pending, elems, all)
      decreases |all| - |u.refs.Keys| + |u.pending|
    {
      SubsetCount(u.refs.Keys, all);
      ghost var was := u.pending;
      var n := |u.pending| - 1;
      var id := u.pending[n];
      u.pending := u.pending[..n];
      assert was == u.pending + [id];
      SoundPop(u.history, u.Memory(), u.pending, id);
      if u.refs[id].ptr == NULL {
        if id !in elems {
          FlushEnds(plan, es, done, u.history, u.Memory(), was, elems, all);
          return Unresolved(id);
        }
        FlushReads(plan, es, done, u.history, u.Memory(), u.pending, elems, all, id, Piece(id, elems[id]));
        Embed(u, id, elems[id]);
        done := done + [id];
        SubsetCount(u.refs.Keys, all);
      } else {
        FlushDrops(plan, es, done, u.history, u.Memory(), was, elems, all);
      }
    }
    FlushEnds(plan, es, done, u.history, u.Memory(), u.pending, elems, all);
    return Done;
  }
}
