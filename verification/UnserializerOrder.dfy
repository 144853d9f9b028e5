/** When a flush leaves every pointer on its identifier's object: exactly when no element is read before
    another one whose content holds it. */
module UnserializerOrder {
  import opened Collections
  import opened Unserializer
  import opened UnserializerFlush

  // ---- the last object recorded, over lists one after the other ----

  lemma {:induction false} LastDefPrefix(a: seq<Event>, b: seq<Event>, id: int, n: nat)
    requires n <= |a|
    ensures LastDef(a + b, id, n) == LastDef(a, id, n)
  {
    if n > 0 { LastDefPrefix(a, b, id, n - 1); }
  }

  lemma {:induction false} LastDefConcat(a: seq<Event>, b: seq<Event>, id: int, n: nat)
    requires n <= |b| && EventsOk(b)
    ensures LastDef(a + b, id, |a| + n) == if LastDef(b, id, n) != NULL then LastDef(b, id, n) else LastDef(a, id, |a|)
    decreases n
  {
    if n > 0 {
      assert EventOk(b[n - 1]);
      LastDefConcat(a, b, id, n - 1);
    } else {
      LastDefPrefix(a, b, id, |a|);
    }
  }

  lemma {:induction false} LastDefNull(es: seq<Event>, id: int, n: nat)
    requires n <= |es| && id !in DefIds(es)
    ensures LastDef(es, id, n) == NULL
  {
    if n > 0 { LastDefNull(es, id, n - 1); }
  }

  lemma LastDefIn(es: seq<Event>, id: int)
    requires EventsOk(es) && id in DefIds(es)
    ensures LastDef(es, id, |es|) != NULL
  {
    if LastDef(es, id, |es|) == NULL { NotRecorded(es, id, |es|); }
  }

  /** The first object recorded stays the first. */
  lemma {:induction false} FirstDefStays(es: seq<Event>, id: int, i: nat, k: nat, n: nat)
    requires i <= k < n <= |es| && es[k].Define? && es[k].id == id && es[k].obj != NULL && id !in DefIds(es[..k])
    ensures FirstDef(es, id, i, n) == es[k].obj
    decreases n
  {
    if n == k + 1 { NoFirstDef(es, id, i, k, k); } else { FirstDefStays(es, id, i, k, n - 1); }
  }

  lemma {:induction false} NoFirstDef(es: seq<Event>, id: int, i: nat, k: nat, n: nat)
    requires n <= k <= |es| && id !in DefIds(es[..k])
    ensures FirstDef(es, id, i, n) == NULL
    decreases n
  {
    if n > i {
      NoFirstDef(es, id, i, k, n - 1);
      assert es[..k][n - 1] == es[n - 1];
    }
  }

  // ---- documents ----

  /** No identifier is given to two elements of the document: an element read twice is part of another element
      read, and holds no element of its own identifier. es are the events before the flush. */
  ghost predicate UniqueIds(es: seq<Event>, elems: map<int, Element>) {
    && OneObject(es)
    && (forall a :: a in elems ==> OneObject(elems[a].body) && a !in DefIds(elems[a].body))
    && (forall a :: a in elems ==> DefIds(es) !! DefIds(Piece(a, elems[a])) || a in DefIds(es))
    && forall a, b :: a in elems && b in elems ==> Nested(a, b, elems)
  }

  /** Two elements are the same one, or have no identifier in common, or one holds the other. */
  ghost predicate Nested(a: int, b: int, elems: map<int, Element>)
    requires a in elems && b in elems
  {
    || a == b || DefIds(Piece(a, elems[a])) !! DefIds(Piece(b, elems[b]))
    || a in DefIds(elems[b].body) || b in DefIds(elems[a].body)
  }

  /** An element read as part of another one makes an object of its own. */
  ghost predicate Anew(elems: map<int, Element>) {
    forall b, i :: b in elems && 0 <= i < |elems[b].body| && elems[b].body[i].Define? && elems[b].body[i].id in elems ==>
      elems[b].body[i].obj != elems[elems[b].body[i].id].obj
  }

  /** No element is read before one whose content holds it. */
  predicate InOrder(xs: seq<int>, elems: map<int, Element>)
    requires Embeddable(xs, elems)
  {
    forall j, k :: 0 <= j < k < |xs| ==> xs[j] !in DefIds(elems[xs[k]].body)
  }

  lemma PieceOk(id: int, e: Element)
    requires e.obj != NULL && EventsOk(e.body)
    ensures EventsOk(Piece(id, e)) && DefIds(Piece(id, e)) == DefIds(e.body) + {id}
  {
    var d := [Define(id, e.obj)];
    DefIdsConcat(d, e.body);
    DefIdsConcat(d + e.body, d);
    assert d[0].Define?;
    assert DefIds(d) == {id};
  }

  /** The events of the first elements come first. */
  lemma {:induction false} TracePrefix(xs: seq<int>, elems: map<int, Element>, n: nat, m: nat)
    requires Embeddable(xs, elems) && n <= m <= |xs|
    ensures Trace(xs, elems, n) <= Trace(xs, elems, m)
    decreases m
  {
    if n < m { TracePrefix(xs, elems, n, m - 1); }
  }

  lemma {:induction false} TraceOk(xs: seq<int>, elems: map<int, Element>, n: nat)
    requires Embeddable(xs, elems) && n <= |xs| && ElementsOk(elems)
    ensures EventsOk(Trace(xs, elems, n))
  {
    if n > 0 {
      TraceOk(xs, elems, n - 1);
      PieceOk(xs[n - 1], elems[xs[n - 1]]);
    }
  }

  /** What the first n elements record. */
  lemma {:induction false} TraceIds(xs: seq<int>, elems: map<int, Element>, n: nat, id: int)
    requires Embeddable(xs, elems) && n <= |xs|
    ensures id in DefIds(Trace(xs, elems, n)) <==> exists j :: 0 <= j < n && id in DefIds(Piece(xs[j], elems[xs[j]]))
  {
    if n > 0 {
      TraceIds(xs, elems, n - 1, id);
      DefIdsConcat(Trace(xs, elems, n - 1), Piece(xs[n - 1], elems[xs[n - 1]]));
    } else {
      assert Trace(xs, elems, 0) == [];
    }
  }

  // ---- in order: every identifier has one object ----

  lemma PieceOneObject(id: int, e: Element)
    requires OneObject(e.body) && id !in DefIds(e.body)
    ensures OneObject(Piece(id, e))
  {
    var p := Piece(id, e);
    forall i, j | 0 <= i < j < |p| && p[i].Define? && p[j].Define? && p[i].id == p[j].id ensures p[i].obj == p[j].obj {
      assert 0 < i <= |e.body| ==> p[i] == e.body[i - 1] && p[i].id in DefIds(e.body);
      assert 0 < j <= |e.body| ==> p[j] == e.body[j - 1] && p[j].id in DefIds(e.body);
    }
  }

  /** An element the flush reads shares no identifier with the events before it. */
  lemma PieceApart(es: seq<Event>, xs: seq<int>, elems: map<int, Element>, k: nat)
    requires ElementsOk(elems) && UniqueIds(es, elems) && Embeddable(xs, elems) && Popped(es, xs, elems)
    requires InOrder(xs, elems) && k < |xs|
    ensures DefIds(es + Trace(xs, elems, k)) !! DefIds(Piece(xs[k], elems[xs[k]]))
  {
    var x, t := xs[k], Trace(xs, elems, k);
    assert PoppedAt(es, xs, elems, k);
    DefIdsConcat(es, t);
    forall id | id in DefIds(Piece(x, elems[x])) ensures id !in DefIds(t) {
      TraceIds(xs, elems, k, id);
      forall j | 0 <= j < k ensures id !in DefIds(Piece(xs[j], elems[xs[j]])) {
        NotShared(es, xs, elems, j, k, id);
      }
    }
  }

  lemma NotShared(es: seq<Event>, xs: seq<int>, elems: map<int, Element>, j: nat, k: nat, id: int)
    requires ElementsOk(elems) && UniqueIds(es, elems) && Embeddable(xs, elems) && Popped(es, xs, elems)
    requires j < k < |xs| && xs[j] !in DefIds(elems[xs[k]].body) && id in DefIds(Piece(xs[k], elems[xs[k]]))
    ensures id !in DefIds(Piece(xs[j], elems[xs[j]]))
  {
    assert PoppedAt(es, xs, elems, k);
    DefIdsConcat(es, Trace(xs, elems, k));
    TraceIds(xs, elems, k, xs[k]);
    PieceOk(xs[j], elems[xs[j]]);
    assert Nested(xs[j], xs[k], elems);
  }

  lemma {:induction false} InOrderOneObject(es: seq<Event>, xs: seq<int>, elems: map<int, Element>, n: nat)
    requires ElementsOk(elems) && UniqueIds(es, elems) && Embeddable(xs, elems) && Popped(es, xs, elems)
    requires InOrder(xs, elems) && n <= |xs|
    ensures OneObject(es + Trace(xs, elems, n))
  {
    if n > 0 {
      var m := n - 1;
      var t, p := Trace(xs, elems, m), Piece(xs[m], elems[xs[m]]);
      InOrderOneObject(es, xs, elems, m);
      PieceApart(es, xs, elems, m);
      PieceOneObject(xs[m], elems[xs[m]]);
      OneObjectConcat(es + t, p);
      assert es + (t + p) == (es + t) + p;
    } else {
      assert es + Trace(xs, elems, 0) == es;
    }
  }

  // ---- out of order: a pointer keeps an object that is not the last ----

  /** The object last recorded for xs[j], from the element that holds it on, is not the first. */
  lemma {:induction false} RecordedAnew(es: seq<Event>, xs: seq<int>, elems: map<int, Element>, j: nat, k: nat, n: nat)
    requires ElementsOk(elems) && Anew(elems) && Embeddable(xs, elems) && Popped(es, xs, elems)
    requires j < k < n <= |xs| && xs[j] in DefIds(elems[xs[k]].body)
    ensures var t := es + Trace(xs, elems, n); LastDef(t, xs[j], |t|) != NULL && LastDef(t, xs[j], |t|) != elems[xs[j]].obj
    decreases n
  {
    var m, x := n - 1, xs[j];
    var t, p := Trace(xs, elems, m), Piece(xs[m], elems[xs[m]]);
    assert es + (t + p) == (es + t) + p;
    PieceOk(xs[m], elems[xs[m]]);
    LastDefConcat(es + t, p, x, |p|);
    NotTheFirst(es, xs, elems, j, m);
    if m == k { LastDefIn(p, x); } else { RecordedAnew(es, xs, elems, j, k, m); }
  }

  /** A later element records other objects than the first for xs[j]. */
  lemma NotTheFirst(es: seq<Event>, xs: seq<int>, elems: map<int, Element>, j: nat, m: nat)
    requires ElementsOk(elems) && Anew(elems) && Embeddable(xs, elems) && Popped(es, xs, elems) && j < m < |xs|
    ensures var p := Piece(xs[m], elems[xs[m]]); LastDef(p, xs[j], |p|) != elems[xs[j]].obj
  {
    var x, y := xs[j], xs[m];
    var p := Piece(y, elems[y]);
    assert PoppedAt(es, xs, elems, m);
    PieceOk(x, elems[x]);
    TraceIds(xs, elems, m, y);
    DefIdsConcat(es, Trace(xs, elems, m));
    assert x != y;
    LastDefIs(p, x, |p|);
    if LastDef(p, x, |p|) != NULL {
      var i :| 0 <= i < |p| && p[i] == Define(x, LastDef(p, x, |p|));
      assert p[i] == elems[y].body[i - 1];
    }
  }

  /** The first event of element xs[j]. */
  lemma ElementStarts(es: seq<Event>, xs: seq<int>, elems: map<int, Element>, j: nat)
    requires Embeddable(xs, elems) && j < |xs|
    ensures var e, before := es + Trace(xs, elems, |xs|), es + Trace(xs, elems, j); var k := |before|;
            k < |e| && before == e[..k] && e[k] == Define(xs[j], elems[xs[j]].obj)
  {
    TracePrefix(xs, elems, j + 1, |xs|);
    var t, p := Trace(xs, elems, j), Piece(xs[j], elems[xs[j]]);
    assert Trace(xs, elems, j + 1) == t + p;
    assert (t + p)[|t|] == Define(xs[j], elems[xs[j]].obj);
    assert Trace(xs, elems, |xs|)[..|t|] == t;
  }

  /** The pointers that wait for xs[j] when it is read are filled with its object. */
  lemma FilledFirst(es: seq<Event>, xs: seq<int>, elems: map<int, Element>, j: nat, i: nat)
    requires ElementsOk(elems) && Embeddable(xs, elems) && Popped(es, xs, elems) && j < |xs|
    requires var before := es + Trace(xs, elems, j); i < |before| && before[i].Refer? && before[i].id == xs[j]
    ensures var e := es + Trace(xs, elems, |xs|); i < |e| && e[i].Refer? && e[i].id == xs[j] && FilledWith(e, i, |e|) == elems[xs[j]].obj
  {
    var x, e, before := xs[j], es + Trace(xs, elems, |xs|), es + Trace(xs, elems, j);
    var k := |before|;
    ElementStarts(es, xs, elems, j);
    assert PoppedAt(es, xs, elems, j);
    assert e == before + e[k..];
    LastDefPrefix(before, e[k..], x, i);
    LastDefNull(before, x, i);
    FirstDefStays(e, x, i, k, |e|);
  }

  /** Every identifier a pointer was read for has an object. */
  ghost predicate AllDefined(es: seq<Event>) {
    forall i :: 0 <= i < |es| && es[i].Refer? ==> LastDef(es, es[i].id, |es|) != NULL
  }

  /** Every pointer read was filled with the last object of its identifier exactly when no element was read
      before one that holds it. */
  lemma FilledExactly(es: seq<Event>, xs: seq<int>, elems: map<int, Element>)
    requires EventsOk(es) && ElementsOk(elems) && UniqueIds(es, elems) && Anew(elems)
    requires Embeddable(xs, elems) && Popped(es, xs, elems)
    requires AllDefined(es + Trace(xs, elems, |xs|))
    ensures FilledWithLast(es + Trace(xs, elems, |xs|)) <==> InOrder(xs, elems)
  {
    var e := es + Trace(xs, elems, |xs|);
    TraceOk(xs, elems, |xs|);
    if InOrder(xs, elems) {
      InOrderOneObject(es, xs, elems, |xs|);
      forall i | 0 <= i < |e| && e[i].Refer? ensures FilledWith(e, i, |e|) == LastDef(e, e[i].id, |e|) {
        OneObjectFills(e, i);
      }
    } else {
      var j, k :| 0 <= j < k < |xs| && xs[j] in DefIds(elems[xs[k]].body);
      RecordedAnew(es, xs, elems, j, k, |xs|);
      assert PoppedAt(es, xs, elems, j);
      var before := es + Trace(xs, elems, j);
      var i :| 0 <= i < |before| && before[i].Refer? && before[i].id == xs[j];
      FilledFirst(es, xs, elems, j, i);
    }
  }

  // ---- the flush ----

  /** No pointer waits once its identifier has an object. */
  lemma {:induction false} NoneWaits(es: seq<Event>, n: nat)
    requires n <= |es|
    ensures forall id :: var m := AfterAll(EMPTY, es, n); id in m.refs && m.refs[id].ptr != NULL ==> m.refs[id].patches == []
  {
    if n > 0 { NoneWaits(es, n - 1); }
  }

  /** Every identifier asked for is known. */
  lemma {:induction false} AskedKnown(es: seq<Event>, n: nat, i: nat)
    requires i < n <= |es|
    ensures es[i].id in AfterAll(EMPTY, es, n).refs
  {
    if i < n - 1 { AskedKnown(es, n - 1, i); }
  }

  lemma NoneNull(es: seq<Event>)
    requires EventsOk(es)
    requires forall id :: id in AfterAll(EMPTY, es, |es|).refs ==> AfterAll(EMPTY, es, |es|).refs[id].ptr != NULL
    ensures AllDefined(es)
  {
    forall i | 0 <= i < |es| && es[i].Refer? ensures LastDef(es, es[i].id, |es|) != NULL {
      AskedKnown(es, |es|, i);
      PtrIsLast(es, es[i].id, |es|);
    }
  }

  /** A complete flush, one after which nothing is pending: every identifier has its object and no pointer waits.
      If no pointer was read twice, the pointers hold the objects of their identifiers exactly when each was
      filled with the last object recorded for its identifier; in a document whose identifiers are unique,
      exactly when no element was read before one that holds it. */
  lemma FlushExact(plan: Plan, es: seq<Event>, history: seq<Event>, m: Mem, elems: map<int, Element>)
    requires FlushedBy(plan, es, history, elems) && Sound(history, m, [], {}) && EventsOk(es) && ElementsOk(elems)
    ensures forall id :: id in m.refs ==> m.refs[id].ptr != NULL && m.refs[id].patches == []
    ensures DistinctSlots(history) ==> (AllHold(m, history) <==> FilledWithLast(history))
    ensures DistinctSlots(history) && UniqueIds(es, elems) && Anew(elems) ==>
      (AllHold(m, history) <==> InOrder(plan.embeds, elems))
  {
    NoneWaits(history, |history|);
    if DistinctSlots(history) { HoldExactly(history); }
    NoneNull(history);
    if UniqueIds(es, elems) && Anew(elems) { FilledExactly(es, plan.embeds, elems); }
  }

  /** No element with an identifier holds another one. */
  predicate NoneHolds(elems: map<int, Element>) {
    forall a, b :: a in elems && b in elems ==> a !in DefIds(elems[b].body)
  }

  /** Then the order in which the elements are read does not matter: every pointer holds its object. */
  lemma FlatDocument(plan: Plan, es: seq<Event>, history: seq<Event>, m: Mem, elems: map<int, Element>)
    requires FlushedBy(plan, es, history, elems) && Sound(history, m, [], {}) && EventsOk(es) && ElementsOk(elems)
    requires DistinctSlots(history) && UniqueIds(es, elems) && NoneHolds(elems)
    ensures AllHold(m, history)
  {
    forall b, i | b in elems && 0 <= i < |elems[b].body| && elems[b].body[i].Define? ensures elems[b].body[i].id !in elems {
      assert elems[b].body[i].id in DefIds(elems[b].body);
    }
    FlushExact(plan, es, history, m, elems);
  }

  // ---- complete documents ----

  /** An identifier that has an element or an object. */
  predicate Findable(m: Mem, id: int, elems: map<int, Element>) {
    id in elems || PtrOf(m, id) != NULL
  }

  /** The pointers of the events refer to findable identifiers. */
  ghost predicate AllFindable(m: Mem, es: seq<Event>, elems: map<int, Element>) {
    forall i :: 0 <= i < |es| && es[i].Refer? ==> Findable(m, es[i].id, elems)
  }

  ghost predicate ContentsFindable(m: Mem, elems: map<int, Element>) {
    forall id :: id in elems ==> AllFindable(m, elems[id].body, elems)
  }

  /** An identifier that has an object has one for good. */
  lemma {:induction false} FoundStays(m: Mem, es: seq<Event>, n: nat, id: int)
    requires n <= |es| && EventsOk(es) && PtrOf(m, id) != NULL
    ensures PtrOf(AfterAll(m, es, n), id) != NULL
  {
    if n > 0 {
      FoundStays(m, es, n - 1, id);
      assert EventOk(es[n - 1]);
    }
  }

  lemma {:induction false} PushedRefers(m: Mem, es: seq<Event>, n: nat, id: int)
    requires n <= |es| && id in PushedAll(m, es, n)
    ensures exists i :: 0 <= i < n && es[i].Refer? && es[i].id == id
  {
    if id in PushedAll(m, es, n - 1) {
      PushedRefers(m, es, n - 1, id);
    } else {
      assert id in Pushed(AfterAll(m, es, n - 1), es[n - 1]);
    }
  }

  lemma FindableAfter(m: Mem, p: seq<Event>, elems: map<int, Element>, es: seq<Event>)
    requires EventsOk(p) && AllFindable(m, es, elems)
    ensures AllFindable(AfterAll(m, p, |p|), es, elems)
  {
    forall i | 0 <= i < |es| && es[i].Refer? ensures Findable(AfterAll(m, p, |p|), es[i].id, elems) {
      assert Findable(m, es[i].id, elems);
      if PtrOf(m, es[i].id) != NULL { FoundStays(m, p, |p|, es[i].id); }
    }
  }

  /** What an element makes pending is findable. */
  lemma PushedFindable(m: Mem, elems: map<int, Element>, id: int, x: int)
    requires ElementsOk(elems) && ContentsFindable(m, elems) && id in elems
    requires var p := Piece(id, elems[id]); x in PushedAll(m, p, |p|)
    ensures Findable(m, x, elems)
  {
    var p := Piece(id, elems[id]);
    PushedRefers(m, p, |p|, x);
    var i :| 0 <= i < |p| && p[i].Refer? && p[i].id == x;
    assert p[i] == elems[id].body[i - 1];
    assert AllFindable(m, elems[id].body, elems);
  }

  /** If every pointer refers to an identifier that has an element or an object, the flush is complete. */
  lemma {:induction false} CompleteDocument(m: Mem, pending: seq<int>, elems: map<int, Element>, all: set<int>)
    requires m.refs.Keys <= all && Known(elems, all) && ElementsOk(elems)
    requires ContentsFindable(m, elems) && forall id :: id in pending ==> Findable(m, id, elems)
    ensures !FlushPlan(m, pending, elems, all).stuck
    decreases |all| - |m.refs.Keys| + |pending|
  {
    SubsetCount(m.refs.Keys, all);
    if pending != [] {
      var id, rest := pending[|pending| - 1], pending[..|pending| - 1];
      assert Findable(m, id, elems);
      if PtrOf(m, id) != NULL {
        CompleteDocument(m, rest, elems, all);
      } else {
        var p := Piece(id, elems[id]);
        var t, more := AfterAll(m, p, |p|), PushedAll(m, p, |p|);
        PlanStep(m, pending, elems, all);
        SubsetCount(t.refs.Keys, all);
        PieceOk(id, elems[id]);
        forall x | x in elems ensures AllFindable(t, elems[x].body, elems) {
          FindableAfter(m, p, elems, elems[x].body);
        }
        forall x | x in rest + more ensures Findable(t, x, elems) {
          if x in more { PushedFindable(m, elems, id, x); }
          assert Findable(m, x, elems);
          if PtrOf(m, x) != NULL { FoundStays(m, p, |p|, x); }
        }
        CompleteDocument(t, rest + more, elems, all);
      }
    }
  }

  // ---- a document read out of order ----

  /** Element 2 holds element 1. */
  const NESTED: map<int, Element> := map[1 := Element(10, []), 2 := Element(20, [Define(1, 11)])]

  /** A pointer to 2 and one to 1 are read. */
  const ASKING: seq<Event> := [Refer(2, 102), Refer(1, 101)]

  lemma NestedIds()
    ensures DefIds(NESTED[1].body) == {} && DefIds(NESTED[2].body) == {1} && DefIds(ASKING) == {}
  {
    assert NESTED[2].body[0] == Define(1, 11);
  }

  lemma NestedUnique()
    ensures UniqueIds(ASKING, NESTED) && Anew(NESTED) && ElementsOk(NESTED)
  {
    NestedIds();
    assert Nested(1, 2, NESTED) && Nested(2, 1, NESTED);
  }

  lemma NestedKnown()
    ensures Known(NESTED, {1, 2})
  {
    assert Piece(1, NESTED[1]) == [Define(1, 10), Define(1, 10)];
    assert Piece(2, NESTED[2]) == [Define(2, 20), Define(1, 11), Define(2, 20)];
  }

  lemma AskingRead()
    ensures AfterAll(EMPTY, ASKING, 2) == Mem(map[2 := Ref(NULL, [102]), 1 := Ref(NULL, [101])], map[])
    ensures PushedAll(EMPTY, ASKING, 2) == [2, 1]
  {
    var m := AfterAll(EMPTY, ASKING, 1);
    assert [102] + [] == [102] && [101] + [] == [101];
    assert m == After(EMPTY, ASKING[0]) == Mem(map[2 := Ref(NULL, [102])], map[]);
    assert PushedAll(EMPTY, ASKING, 1) == [2];
    assert AfterAll(EMPTY, ASKING, 2) == After(m, ASKING[1]);
  }

  /** The memory once element 1 is read, and once element 2 is. */
  lemma NestedRead(m: Mem)
    requires m == Mem(map[2 := Ref(NULL, [102]), 1 := Ref(NULL, [101])], map[])
    ensures var p, q := Piece(1, NESTED[1]), Piece(2, NESTED[2]); var t := AfterAll(m, p, 2);
            && t == Mem(map[2 := Ref(NULL, [102]), 1 := Ref(10, [])], map[101 := 10])
            && AfterAll(t, q, 3) == Mem(map[2 := Ref(20, []), 1 := Ref(11, [])], map[101 := 10, 102 := 20])
  {
    var p, q := Piece(1, NESTED[1]), Piece(2, NESTED[2]);
    assert p == [Define(1, 10), Define(1, 10)] && q == [Define(2, 20), Define(1, 11), Define(2, 20)];
    var d1 := After(m, p[0]);
    assert Patched(m.slots, [101], 10) == map[101 := 10];
    assert d1 == Mem(map[2 := Ref(NULL, [102]), 1 := Ref(10, [])], map[101 := 10]);
    assert AfterAll(m, p, 1) == d1;
    assert Patched(d1.slots, [], 10) == d1.slots;
    var t := AfterAll(m, p, 2);
    assert t == d1;
    var d2 := After(t, q[0]);
    assert Patched(t.slots, [102], 20) == map[101 := 10, 102 := 20];
    assert d2 == Mem(map[2 := Ref(20, []), 1 := Ref(10, [])], map[101 := 10, 102 := 20]);
    assert AfterAll(t, q, 1) == d2;
    var d3 := After(d2, q[1]);
    assert d3 == Mem(map[2 := Ref(20, []), 1 := Ref(11, [])], map[101 := 10, 102 := 20]);
    assert AfterAll(t, q, 2) == d3;
  }

  lemma {:induction false} NonePushed(m: Mem, es: seq<Event>, n: nat)
    requires n <= |es| && forall i :: 0 <= i < |es| ==> es[i].Define?
    ensures PushedAll(m, es, n) == []
  {
    if n > 0 { NonePushed(m, es, n - 1); }
  }

  /** The flush reads element 1, then element 2. */
  lemma FlushOfNested()
    ensures Known(NESTED, {1, 2})
    ensures var m := AfterAll(EMPTY, ASKING, 2);
            m.refs.Keys <= {1, 2} && FlushPlan(m, PushedAll(EMPTY, ASKING, 2), NESTED, {1, 2}) == Plan([1, 2], false)
  {
    var m, p, q := AfterAll(EMPTY, ASKING, 2), Piece(1, NESTED[1]), Piece(2, NESTED[2]);
    NestedKnown();
    AskingRead();
    NestedRead(m);
    NonePushed(m, p, 2);
    var t := AfterAll(m, p, 2);
    NonePushed(t, q, 3);
    assert [2, 1][..1] == [2];
    PlanStep(m, [2, 1], NESTED, {1, 2});
    PlanStep(t, [2], NESTED, {1, 2});
    assert FlushPlan(AfterAll(t, q, 3), [], NESTED, {1, 2}) == Plan([], false);
    assert FlushPlan(t, [2], NESTED, {1, 2}) == Plan([2], false);
  }

  lemma NestedOutOfOrder()
    ensures Embeddable([1, 2], NESTED) && !InOrder([1, 2], NESTED)
  {
    NestedIds();
    assert [1, 2][0] == 1 && [1, 2][1] == 2;
  }

  /** The memory once all is read. */
  lemma NestedEnd()
    ensures Embeddable([1, 2], NESTED)
    ensures var es := ASKING + Trace([1, 2], NESTED, 2);
            && |es| == 7 && es[1] == Refer(1, 101)
            && AfterAll(EMPTY, es, 7) == Mem(map[2 := Ref(20, []), 1 := Ref(11, [])], map[101 := 10, 102 := 20])
  {
    var p, q := Piece(1, NESTED[1]), Piece(2, NESTED[2]);
    var m := AfterAll(EMPTY, ASKING, 2);
    assert Trace([1, 2], NESTED, 2) == p + q;
    AskingRead();
    NestedRead(m);
    AfterConcat(m, p, q, 3);
    AfterConcat(EMPTY, ASKING, p + q, 5);
  }

  lemma NestedSlots()
    ensures Embeddable([1, 2], NESTED) && DistinctSlots(ASKING + Trace([1, 2], NESTED, 2))
  {
    var p, q := Piece(1, NESTED[1]), Piece(2, NESTED[2]);
    assert Trace([1, 2], NESTED, 2) == p + q;
    assert p == [Define(1, 10), Define(1, 10)] && q == [Define(2, 20), Define(1, 11), Define(2, 20)];
  }

  /** Each identifier occurs once, but the flush reads element 1 on its own and then again as part of 2; the
      pointer to it keeps its first object. */
  lemma ReadTwice()
    ensures Embeddable([1, 2], NESTED)
    ensures var es := ASKING + Trace([1, 2], NESTED, 2); var m := AfterAll(EMPTY, es, |es|);
            PtrOf(m, 1) == 11 && 101 in m.slots && m.slots[101] == 10 && DistinctSlots(es) && !AllHold(m, es)
  {
    NestedSlots();
    NestedEnd();
  }
}
