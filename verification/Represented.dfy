/** Every typed store state is the decoding of some rows, so verdicts about rows speak of real stores. */
module Represented {
  import opened Base
  import opened Sorting
  import opened Tables
  import opened RawRows
  import opened Verify

  /** Some order of a finite set. */
  lemma {:induction false} Listed<T(!new)>(s: set<T>) returns (r: seq<T>)
    ensures Distinct(r) && Elems(r) == s
  {
    if s == {} {
      r := [];
    } else {
      var x :| x in s;
      var t := Listed(s - {x});
      assert forall i :: 0 <= i < |t| ==> t[i] in Elems(t);
      assert Elems(t + [x]) == Elems(t) + {x};
      assert s == (s - {x}) + {x};
      r := t + [x];
    }
  }

  lemma {:induction false} Topmost(s: set<EdgeKey>) returns (k: EdgeKey)
    requires s != {}
    ensures k in s && forall j :: j in s ==> j.1 <= k.1
  {
    var x :| x in s;
    var rest := s - {x};
    if rest == {} {
      assert s == {x};
      k := x;
    } else {
      var y := Topmost(rest);
      assert forall j :: j in s ==> j == x || j in rest;
      k := if x.1 <= y.1 then y else x;
    }
  }

  lemma {:induction false} ListedEdges(s: set<EdgeKey>) returns (r: seq<EdgeKey>)
    ensures Distinct(r) && Elems(r) == s && forall i, j :: 0 <= i < j < |r| ==> r[i].1 <= r[j].1
  {
    if s == {} {
      r := [];
    } else {
      var k := Topmost(s);
      var t := ListedEdges(s - {k});
      assert forall i :: 0 <= i < |t| ==> t[i] in Elems(t);
      assert Elems(t + [k]) == Elems(t) + {k};
      assert s == (s - {k}) + {k};
      r := t + [k];
    }
  }

  function ContextCells(k: ContextId, v: ContextRow): RawContext {
    RawContext(Good(k), Good(v.expected), if v.genesis.Some? then Some(Good(v.genesis.value)) else None, Good(v.state))
  }

  lemma ContextsRowsKeyed(keys: seq<ContextId>, m: map<ContextId, ContextRow>, rows: seq<RawContext>)
    requires Distinct(keys) && |rows| == |keys|
    requires forall i :: 0 <= i < |rows| ==> keys[i] in m && rows[i] == ContextCells(keys[i], m[keys[i]])
    ensures ContextsKeyed(rows) && All(rows, GoodContext)
  {
    hide Ascending;
  }

  lemma ContextsDecode(keys: seq<ContextId>, m: map<ContextId, ContextRow>, rows: seq<RawContext>)
    requires |rows| == |keys| && forall i :: 0 <= i < |rows| ==> keys[i] in m && rows[i] == ContextCells(keys[i], m[keys[i]])
    requires ContextsKeyed(rows) && Elems(keys) == m.Keys
    ensures DecodeContexts(rows) == m
  {
    hide Ascending, ContextsKeyed;
    var d := DecodeContexts(rows);
    forall i | 0 <= i < |rows| ensures keys[i] in d && d[keys[i]] == m[keys[i]] {
      assert GoodContext(rows[i]) && rows[i].context.value == keys[i] && ContextOf(rows[i]) == m[keys[i]];
    }
    forall k | k in m ensures k in d && d[k] == m[k] {
      assert k in Elems(keys);
    }
    forall k | k in d ensures k in m {
      var i :| 0 <= i < |rows| && GoodContext(rows[i]) && rows[i].context.value == k;
    }
  }

  lemma ContextRows(m: map<ContextId, ContextRow>) returns (rows: seq<RawContext>)
    ensures ContextsKeyed(rows) && All(rows, GoodContext) && DecodeContexts(rows) == m
  {
    hide ContextsKeyed, All, DecodeContexts, ContextCells, Ascending;
    var keys := Listed(m.Keys);
    assert forall i :: 0 <= i < |keys| ==> keys[i] in Elems(keys);
    rows := seq(|keys|, i requires 0 <= i < |keys| && keys[i] in m => ContextCells(keys[i], m[keys[i]]));
    ContextsRowsKeyed(keys, m, rows);
    ContextsDecode(keys, m, rows);
  }

  function EventCells(k: EventId, v: EventRow): RawEvent {
    RawEvent(Good(k), Good(v.context), Good(v.author), Good(v.kind), Good(v.wire))
  }

  lemma EventsRowsKeyed(keys: seq<EventId>, m: map<EventId, EventRow>, rows: seq<RawEvent>)
    requires Distinct(keys) && |rows| == |keys|
    requires forall i :: 0 <= i < |rows| ==> keys[i] in m && rows[i] == EventCells(keys[i], m[keys[i]])
    ensures EventsKeyed(rows) && All(rows, GoodEvent)
  {
    hide Ascending;
  }

  lemma EventsDecode(keys: seq<EventId>, m: map<EventId, EventRow>, rows: seq<RawEvent>)
    requires |rows| == |keys| && forall i :: 0 <= i < |rows| ==> keys[i] in m && rows[i] == EventCells(keys[i], m[keys[i]])
    requires EventsKeyed(rows) && Elems(keys) == m.Keys
    ensures DecodeEvents(rows) == m
  {
    hide Ascending, EventsKeyed;
    var d := DecodeEvents(rows);
    forall i | 0 <= i < |rows| ensures keys[i] in d && d[keys[i]] == m[keys[i]] {
      assert GoodEvent(rows[i]) && rows[i].id.value == keys[i] && RowOf(rows[i]) == m[keys[i]];
    }
    forall k | k in m ensures k in d && d[k] == m[k] {
      assert k in Elems(keys);
    }
    forall k | k in d ensures k in m {
      var i :| 0 <= i < |rows| && GoodEvent(rows[i]) && rows[i].id.value == k;
    }
  }

  lemma EventRows(m: map<EventId, EventRow>) returns (rows: seq<RawEvent>)
    ensures EventsKeyed(rows) && All(rows, GoodEvent) && DecodeEvents(rows) == m
  {
    hide EventsKeyed, All, DecodeEvents, EventCells, Ascending;
    var keys := Listed(m.Keys);
    assert forall i :: 0 <= i < |keys| ==> keys[i] in Elems(keys);
    rows := seq(|keys|, i requires 0 <= i < |keys| && keys[i] in m => EventCells(keys[i], m[keys[i]]));
    EventsRowsKeyed(keys, m, rows);
    EventsDecode(keys, m, rows);
  }

  function LocalCells(k: LocalKey, v: EventId): RawLocal {
    RawLocal(Good(k.0), Good(k.1), Good(v))
  }

  lemma LocalsRowsKeyed(keys: seq<LocalKey>, m: map<LocalKey, EventId>, rows: seq<RawLocal>)
    requires Distinct(keys) && |rows| == |keys|
    requires forall i :: 0 <= i < |rows| ==> keys[i] in m && rows[i] == LocalCells(keys[i], m[keys[i]])
    ensures LocalsKeyed(rows) && All(rows, GoodLocal)
  {
    hide Ascending;
  }

  lemma LocalsDecode(keys: seq<LocalKey>, m: map<LocalKey, EventId>, rows: seq<RawLocal>)
    requires |rows| == |keys| && forall i :: 0 <= i < |rows| ==> keys[i] in m && rows[i] == LocalCells(keys[i], m[keys[i]])
    requires LocalsKeyed(rows) && Elems(keys) == m.Keys
    ensures DecodeLocals(rows) == m
  {
    hide Ascending, LocalsKeyed;
    var d := DecodeLocals(rows);
    forall i | 0 <= i < |rows| ensures keys[i] in d && d[keys[i]] == m[keys[i]] {
      assert GoodLocal(rows[i]) && (rows[i].context.value, rows[i].name.value) == keys[i] && rows[i].head.value == m[keys[i]];
    }
    forall k | k in m ensures k in d && d[k] == m[k] {
      assert k in Elems(keys);
    }
    forall k | k in d ensures k in m {
      var i :| 0 <= i < |rows| && GoodLocal(rows[i]) && (rows[i].context.value, rows[i].name.value) == k;
    }
  }

  lemma LocalRows(m: map<LocalKey, EventId>) returns (rows: seq<RawLocal>)
    ensures LocalsKeyed(rows) && All(rows, GoodLocal) && DecodeLocals(rows) == m
  {
    hide LocalsKeyed, All, DecodeLocals, LocalCells, Ascending;
    var keys := Listed(m.Keys);
    assert forall i :: 0 <= i < |keys| ==> keys[i] in Elems(keys);
    rows := seq(|keys|, i requires 0 <= i < |keys| && keys[i] in m => LocalCells(keys[i], m[keys[i]]));
    LocalsRowsKeyed(keys, m, rows);
    LocalsDecode(keys, m, rows);
  }

  function RemoteCells(k: RemoteKey, v: EventId): RawRemote {
    RawRemote(Good(k.0), Good(k.1), Good(k.2), Good(v))
  }

  lemma RemotesRowsKeyed(keys: seq<RemoteKey>, m: map<RemoteKey, EventId>, rows: seq<RawRemote>)
    requires Distinct(keys) && |rows| == |keys|
    requires forall i :: 0 <= i < |rows| ==> keys[i] in m && rows[i] == RemoteCells(keys[i], m[keys[i]])
    ensures RemotesKeyed(rows) && All(rows, GoodRemote)
  {
    hide Ascending;
  }

  lemma RemotesDecode(keys: seq<RemoteKey>, m: map<RemoteKey, EventId>, rows: seq<RawRemote>)
    requires |rows| == |keys| && forall i :: 0 <= i < |rows| ==> keys[i] in m && rows[i] == RemoteCells(keys[i], m[keys[i]])
    requires RemotesKeyed(rows) && Elems(keys) == m.Keys
    ensures DecodeRemotes(rows) == m
  {
    hide Ascending, RemotesKeyed;
    var d := DecodeRemotes(rows);
    forall i | 0 <= i < |rows| ensures keys[i] in d && d[keys[i]] == m[keys[i]] {
      assert GoodRemote(rows[i]) && (rows[i].peer.value, rows[i].context.value, rows[i].name.value) == keys[i] && rows[i].head.value == m[keys[i]];
    }
    forall k | k in m ensures k in d && d[k] == m[k] {
      assert k in Elems(keys);
    }
    forall k | k in d ensures k in m {
      var i :| 0 <= i < |rows| && GoodRemote(rows[i]) && (rows[i].peer.value, rows[i].context.value, rows[i].name.value) == k;
    }
  }

  lemma RemoteRows(m: map<RemoteKey, EventId>) returns (rows: seq<RawRemote>)
    ensures RemotesKeyed(rows) && All(rows, GoodRemote) && DecodeRemotes(rows) == m
  {
    hide RemotesKeyed, All, DecodeRemotes, RemoteCells, Ascending;
    var keys := Listed(m.Keys);
    assert forall i :: 0 <= i < |keys| ==> keys[i] in Elems(keys);
    rows := seq(|keys|, i requires 0 <= i < |keys| && keys[i] in m => RemoteCells(keys[i], m[keys[i]]));
    RemotesRowsKeyed(keys, m, rows);
    RemotesDecode(keys, m, rows);
  }

  lemma AuthorRows(s: set<(ContextId, AuthorId)>) returns (rows: seq<RawAuthor>)
    ensures All(rows, GoodAuthor) && DecodeAuthors(rows) == s
  {
    var keys := Listed(s);
    rows := seq(|keys|, i requires 0 <= i < |keys| => RawAuthor(Good(keys[i].0), Good(keys[i].1)));
    assert forall k :: k in s ==> k in Elems(keys);
    forall i | 0 <= i < |rows| ensures keys[i] in DecodeAuthors(rows) {
      assert GoodAuthor(rows[i]) && (rows[i].context.value, rows[i].author.value) == keys[i];
    }
    assert forall i :: 0 <= i < |keys| ==> keys[i] in Elems(keys);
  }

  function EdgeCells(k: EdgeKey, v: EventId): RawEdge {
    RawEdge(Good(k.0), Good(k.1), Good(v))
  }

  lemma EdgesInOrder(keys: seq<EdgeKey>, m: map<EdgeKey, EventId>, rows: seq<RawEdge>)
    requires Distinct(keys) && |rows| == |keys|
    requires forall i :: 0 <= i < |rows| ==> keys[i] in m && rows[i] == EdgeCells(keys[i], m[keys[i]])
    requires forall i, j :: 0 <= i < j < |keys| ==> keys[i].1 <= keys[j].1
    ensures EdgesKeyed(rows) && EdgesGood(rows)
  {
    forall i, j | 0 <= i < j < |rows| && rows[i].child == rows[j].child ensures rows[i].ordinal.value < rows[j].ordinal.value {
      assert keys[i] != keys[j];
      assert keys[i].0 == keys[j].0;
    }
  }

  lemma EdgesDecode(keys: seq<EdgeKey>, m: map<EdgeKey, EventId>, rows: seq<RawEdge>)
    requires |rows| == |keys| && forall i :: 0 <= i < |rows| ==> keys[i] in m && rows[i] == EdgeCells(keys[i], m[keys[i]])
    requires EdgesKeyed(rows) && Elems(keys) == m.Keys
    ensures DecodeEdges(rows) == m
  {
    hide EdgesKeyed;
    var d := DecodeEdges(rows);
    forall i | 0 <= i < |rows| ensures keys[i] in d && d[keys[i]] == m[keys[i]] {
      assert UsableEdge(rows[i]) && EdgeKeyOf(rows[i]) == keys[i];
    }
    forall k | k in m ensures k in d && d[k] == m[k] {
      assert k in Elems(keys);
    }
    forall k | k in d ensures k in m {
      var i :| 0 <= i < |rows| && UsableEdge(rows[i]) && EdgeKeyOf(rows[i]) == k;
    }
  }

  lemma EdgeRowsOf(m: map<EdgeKey, EventId>) returns (rows: seq<RawEdge>)
    ensures EdgesKeyed(rows) && EdgesGood(rows) && DecodeEdges(rows) == m
  {
    hide EdgesKeyed, EdgesGood, DecodeEdges, EdgeCells;
    var keys := ListedEdges(m.Keys);
    assert forall i :: 0 <= i < |keys| ==> keys[i] in Elems(keys);
    rows := seq(|keys|, i requires 0 <= i < |keys| && keys[i] in m => EdgeCells(keys[i], m[keys[i]]));
    EdgesInOrder(keys, m, rows);
    EdgesDecode(keys, m, rows);
  }

  lemma EveryStoreHasRows(t: Tables) returns (raw: RawStore)
    ensures Represents(raw, t)
  {
    hide ContextsKeyed, EventsKeyed, EdgesKeyed, LocalsKeyed, RemotesKeyed, All, EdgesGood,
      DecodeContexts, DecodeAuthors, DecodeEvents, DecodeEdges, DecodeLocals, DecodeRemotes;
    var contexts := ContextRows(t.contexts);
    var authors := AuthorRows(t.authors);
    var events := EventRows(t.events);
    var edges := EdgeRowsOf(t.edges);
    var locals := LocalRows(t.localRefs);
    var remotes := RemoteRows(t.remoteRefs);
    raw := RawStore(true, contexts, authors, events, edges, locals, remotes);
  }
}
