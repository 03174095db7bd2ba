/** Small reachable stores: one created context, grown by admissions that move no ref. */
module Samples {
  import opened Base
  import opened Sorting
  import opened Graph
  import opened Names
  import opened Tables
  import opened Transitions
  import opened Bundles
  import opened Runs
  import opened Projections
  import opened Lineages
  import opened Provider
  import opened Invocations
  import Branches

  function Child(id: EventId, parent: EventId, kind: string, payloadBytes: nat, wireBytes: nat): Event {
    SignedBody(id, Body(0, [parent], kind, 7, 0, payloadBytes, wireBytes), 0)
  }

  function SampleEvents(es: seq<Event>): map<EventId, Event> {
    if es == [] then map[1 := ROOT] else SampleEvents(es[..|es| - 1])[es[|es| - 1].id := es[|es| - 1]]
  }

  function SampleOps(es: seq<Event>): seq<Op> {
    if es == [] then [CreateContextOp(ROOT, "main")] else SampleOps(es[..|es| - 1]) + [AdmitOp(es[|es| - 1], NoMove)]
  }

  /** Each event is new and stands on one earlier event. */
  predicate Growable(es: seq<Event>) {
    es == [] ||
    var e := es[|es| - 1];
    && Growable(es[..|es| - 1])
    && e.id !in SampleEvents(es[..|es| - 1])
    && |e.body.parents| == 1 && e.body.parents[0] in SampleEvents(es[..|es| - 1])
    && e.body.context == 0 && e.body.author == 7 && e.body.kind != GENESIS_KIND
  }

  /** A sound store that holds exactly these events, all of context 0, whose author is authorized. */
  ghost predicate Sample(t: Tables, ev: map<EventId, Event>) {
    && Inv(t) && Parsed(t.events) == ev && (0, 7) in t.authors && KnownContext(t, 0).Ok? && KnownContext(t, 0).value.state == ACTIVE
    && forall id :: id in ev ==> ev[id].id == id && ev[id].body.context == 0
  }

  lemma {:induction false} RunSnoc(t: Tables, ops: seq<Op>, op: Op)
    ensures Run(t, ops + [op]) == Step(Run(t, ops), op)
    decreases |ops|
  {
    hide Step;
    if ops == [] {
      assert [op][1..] == [];
      assert Run(t, [op]) == Run(Step(t, op), []);
      assert [] + [op] == [op];
    } else {
      assert (ops + [op])[1..] == ops[1..] + [op];
      RunSnoc(Step(t, ops[0]), ops[1..], op);
    }
  }

  lemma SampleBegins()
    ensures Sample(Run(EMPTY, SampleOps([])), SampleEvents([]))
  {
    hide Inv, Step;
    RunSnoc(EMPTY, [], CreateContextOp(ROOT, "main"));
    assert [] + [CreateContextOp(ROOT, "main")] == SampleOps([]);
    Created();
    ReachableIsSound(SampleOps([]));
    BranchedParses();
  }

  lemma BranchedParses()
    ensures Parsed(Branched(false).events) == map[1 := ROOT] && (0, 7) in Branched(false).authors
    ensures KnownContext(Branched(false), 0).Ok? && KnownContext(Branched(false), 0).value.state == ACTIVE
  {
    var ev := Parsed(Branched(false).events);
    assert ev.Keys == {1} && ev[1] == ROOT;
  }

  lemma AddChild(t: Tables, ev: map<EventId, Event>, e: Event)
    requires Sample(t, ev) && e.id !in ev && |e.body.parents| == 1 && e.body.parents[0] in ev
    requires e.body.context == 0 && e.body.author == 7 && e.body.kind != GENESIS_KIND
    ensures Sample(Step(t, AdmitOp(e, NoMove)), ev[e.id := e])
  {
    hide Inv, AdmitSpec, Parsed, KnownContext, ValidName, Ascending;
    var op := AdmitOp(e, NoMove);
    InvGraph(t);
    ChildAdmits(t, e, e.body.parents[0]);
    Branches.StepIsAdmission(t, op);
    EventsAfterAdmit(t, e, NoMove);
    AdmitInv(t, e, NoMove);
    ContextAfterAdmit(t, e, NoMove);
    AdmitKeepsAuthors(t, e, NoMove);
  }

  lemma AdmitKeepsAuthors(t: Tables, e: Event, m: RefMutation)
    requires AdmitSpec(t, e, m).Ok?
    ensures AdmitSpec(t, e, m).value.0.authors == t.authors
  {
    hide CheckEvent, ValidateStored, EdgeRows, ValidName, KnownContext;
  }

  /** Such runs reach exactly such stores. */
  lemma {:induction false} SampleIs(es: seq<Event>)
    requires Growable(es)
    ensures Sample(Run(EMPTY, SampleOps(es)), SampleEvents(es))
  {
    hide Step, Run, Sample, Ascending;
    if es == [] {
      SampleBegins();
    } else {
      var init := es[..|es| - 1];
      var e := es[|es| - 1];
      SampleIs(init);
      RunSnoc(EMPTY, SampleOps(init), AdmitOp(e, NoMove));
      AddChild(Run(EMPTY, SampleOps(init)), SampleEvents(init), e);
    }
  }

  /** Every read of a sample store answers from its events. */
  lemma SampleReads(t: Tables, ev: map<EventId, Event>)
    requires Sample(t, ev)
    ensures forall id :: id in ev ==>
      ReadEvent(t, id) == Ok(Some(ev[id])) && LoadVerified(t, id) == Ok(ev[id]) && Targets(Parsed(t.events), 0, id)
    ensures forall id :: Reads(t, 0, id) <==> id in ev
    ensures ReadGraph(t, 0) == Links(ev) && ContextGraph(t, 0) == Links(ev)
    ensures Payloads(t, 0) == (map id | id in ev :: ev[id].body.payloadBytes)
    ensures WireSizes(t, 0) == (map id | id in ev :: ev[id].body.wireBytes)
    ensures Closed(Links(ev)) && !Cyclic(Links(ev))
  {
    hide Inv, Parsed, Closed, Cyclic, LoadVerified, ReadEvent, KnownContext, Ascending, PostOrder;
    InvGraph(t);
    forall id | id in t.events ensures ReadEvent(t, id) == Ok(Some(ev[id])) && LoadVerified(t, id) == Ok(ev[id]) {
      InvLoads(t, id);
      InvReads(t, id);
    }
    forall id | Reads(t, 0, id) ensures id in t.events { StoredWhenRead(t, id); }
    SoundLineage(t, 0, []);
    assert ReadGraph(t, 0) == Links(ev);
    assert Payloads(t, 0) == (map id | id in ev :: ev[id].body.payloadBytes);
    assert WireSizes(t, 0) == (map id | id in ev :: ev[id].body.wireBytes);
  }

  lemma SampleSound(t: Tables, ev: map<EventId, Event>)
    requires Sample(t, ev)
    ensures Inv(t)
  {
  }

  lemma StoredWhenRead(t: Tables, id: EventId)
    requires Reads(t, 0, id)
    ensures id in t.events
  {
  }
}
