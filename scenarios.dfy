/** Small trees built through the public operations, with what the source
    makes of them. */
module Scenarios {
  import opened Wrappers
  import opened Errors
  import opened ModelTree

  /** A child raises `e`, for which only its parent is registered: the parent
      alone receives it. */
  method ErrorBubblesToParent(e: Error) returns (log: seq<Delivery>)
    ensures log == [Delivery(0, e)]
  {
    var t := new Tree();
    var s := t.NewModel(None, true);
    var a := t.NewModel(Some(s), false);
    t.RegisterForError(s, e);
    t.RaiseError(a, e);
    log := t.errorLog;
  }

  /** A registration on the raising model itself stops the error there. */
  method ErrorStopsAtRaiser(e: Error) returns (log: seq<Delivery>)
    ensures log == [Delivery(1, e)]
  {
    var t := new Tree();
    var s := t.NewModel(None, true);
    var a := t.NewModel(Some(s), false);
    t.RegisterForError(s, e);
    t.RegisterForError(a, e);
    assert t.ErrorTarget(a, e) == Some(a);
    t.RaiseError(a, e);
    log := t.errorLog;
  }

  /** With nobody registered the error is dropped at the root. */
  method UnregisteredErrorIsDropped(e: Error) returns (log: seq<Delivery>)
    ensures log == []
  {
    var t := new Tree();
    var s := t.NewModel(None, true);
    var a := t.NewModel(Some(s), false);
    t.RegisterForError(s, e);
    t.UnregisterFromError(s, e);
    t.RaiseError(a, e);
    log := t.errorLog;
  }

  /** `removeFromParent` leaves the `parent` reference in place, so a detached
      model still hands its errors to its former parent. */
  method DetachedModelStillBubbles(e: Error) returns (log: seq<Delivery>, stillChild: bool)
    ensures log == [Delivery(0, e)] && !stillChild
  {
    var t := new Tree();
    var s := t.NewModel(None, true);
    var a := t.NewModel(Some(s), false);
    t.RegisterForError(s, e);
    t.RemoveFromParent(a);
    t.RaiseError(a, e);
    log := t.errorLog;
    stillChild := a in t.ChildModels(s);
  }

  /** A model's session is its nearest `Session` ancestor, never itself. */
  method SessionIsStrictAncestor() returns (ofRoot: Option<Id>, ofInner: Option<Id>, ofLeaf: Option<Id>)
    ensures ofRoot == None && ofInner == Some(0) && ofLeaf == Some(1)
  {
    var t := new Tree();
    var s := t.NewModel(None, true);
    var inner := t.NewModel(Some(s), true);
    var leaf := t.NewModel(Some(inner), false);
    ofRoot := t.Session(s);
    ofInner := t.Session(inner);
    ofLeaf := t.Session(leaf);
  }

  /** Registering a second handler for an event replaces the first one. */
  method SecondRegistrationReplacesFirst(ev: SessionEvent, other: SessionEvent) returns (ws: seq<Wrapper>)
    requires ev != other
    ensures ws == [Wrapper(other, 2), Wrapper(ev, 3)]
  {
    var t := new Tree();
    var s := t.NewModel(None, true);
    t.RegisterForEvent(s, ev, 1);
    t.RegisterForEvent(s, other, 2);
    t.RegisterForEvent(s, ev, 3);
    ws := t.models[s].handlers;
  }

  /** A broadcast over a model `s` whose only child `a` has the only handler:
      that handler is called once, and nothing else is. */
  lemma BroadcastToOnlyHandler(n: Id, ms: map<Id, ModelState>, s: Id, a: Id, ev: SessionEvent, log: seq<Call>)
    requires WellFormed(n, ms) && s < n && a < n
    requires ms[s].children == {a} && ms[a].children == {}
    requires ms[s].handlers == [] && ms[a].handlers == [Wrapper(ev, 7)]
    requires Broadcast(n, ms, [], log, s, ev, None)
    ensures multiset(log)[Call(a, 7, ev, None)] == 1
    ensures forall x :: x in log ==> x == Call(a, 7, ev, None)
  {
    assert Subtree(n, ms, a) == {a};
    assert Subtree(n, ms, s) == {s, a};
    assert log[0..] == log;
    BroadcastCallsEachHandlerOnce(n, ms, [], log, s, ev, None);
  }

  /** A session `0` with one child `1` whose only handler is `7` for `ev`. */
  method SessionWithOneHandler(ev: SessionEvent) returns (t: Tree)
    ensures fresh(t) && t.Valid() && t.nextId == 2 && t.callLog == []
    ensures t.models[0] == ModelState(None, {1}, {}, [], true)
    ensures t.models[1] == ModelState(Some(0), {}, {}, [Wrapper(ev, 7)], false)
  {
    t := new Tree();
    var s := t.NewModel(None, true);
    var a := t.NewModel(Some(s), false);
    t.RegisterForEvent(a, ev, 7);
  }

  /** A session event raised by a model reaches the handler of that model, as
      a child of the session, exactly once, and nothing else is called. */
  method EventReachesHandlerOnce(ev: SessionEvent) returns (log: seq<Call>)
    ensures multiset(log)[Call(1, 7, ev, None)] == 1
    ensures forall x :: x in log ==> x == Call(1, 7, ev, None)
  {
    var t := SessionWithOneHandler(ev);
    assert t.Session(1) == Some(0);
    t.RaiseSessionEvent(1, ev, None);
    BroadcastToOnlyHandler(t.nextId, t.models, 0, 1, ev, t.callLog);
    log := t.callLog;
  }

  /** The tree `0 -> {1, 2}`, `1 -> {3}`, in which model `m` has the one
      handler `m` for `ev`. */
  ghost predicate TwoLevelTree(n: Id, ms: map<Id, ModelState>, ev: SessionEvent)
  {
    && WellFormed(n, ms) && 3 < n
    && ms[0].children == {1, 2} && ms[1].children == {3} && ms[2].children == {} && ms[3].children == {}
    && ms[0].handlers == [Wrapper(ev, 0)] && ms[1].handlers == [Wrapper(ev, 1)]
    && ms[2].handlers == [Wrapper(ev, 2)] && ms[3].handlers == [Wrapper(ev, 3)]
  }

  function At(m: Id, ev: SessionEvent): Call
  {
    Call(m, m, ev, None)
  }

  lemma OwnCallOf(ws: seq<Wrapper>, m: Id, ev: SessionEvent)
    requires ws == [Wrapper(ev, m)]
    ensures LocalCalls(ws, m, ev, None) == [At(m, ev)]
  {
    assert ws[..0] == [];
  }

  /** The branch `1 -> {3}` served whole: `1`, then `3`. */
  lemma BranchIsDepthFirst(n: Id, ms: map<Id, ModelState>, ev: SessionEvent)
    requires TwoLevelTree(n, ms, ev)
    ensures DepthFirst(n, ms, [At(1, ev), At(3, ev)], 1, ev, None)
  {
    OwnCallOf(ms[1].handlers, 1, ev);
    OwnCallOf(ms[3].handlers, 3, ev);
    var e: seq<Call> := [];
    var t := [At(3, ev)];
    assert t[1..] == e;
    assert DepthFirst(n, ms, t, 3, ev, None);
    assert t[..0] == e && t[0..] == t && {3} - {3} == {};
    assert ChildrenInTurn(n, ms, t[..0], 1, {3} - {3}, ev, None);
    assert ChildrenInTurn(n, ms, t, 1, {3}, ev, None);
    assert [At(1, ev), At(3, ev)][1..] == t;
  }

  /** Serving `1`, its child `3`, then `2` is a depth-first order. */
  lemma SubtreeServedWholeIsDepthFirst(n: Id, ms: map<Id, ModelState>, ev: SessionEvent)
    requires TwoLevelTree(n, ms, ev)
    ensures DepthFirst(n, ms, [At(0, ev), At(1, ev), At(3, ev), At(2, ev)], 0, ev, None)
  {
    OwnCallOf(ms[0].handlers, 0, ev);
    OwnCallOf(ms[2].handlers, 2, ev);
    BranchIsDepthFirst(n, ms, ev);
    var e: seq<Call> := [];
    assert [At(2, ev)][1..] == e;
    assert DepthFirst(n, ms, [At(2, ev)], 2, ev, None);
    var first := [At(1, ev), At(3, ev)];
    assert first[..0] == e && first[0..] == first && {1} - {1} == {};
    assert ChildrenInTurn(n, ms, first[..0], 0, {1} - {1}, ev, None);
    assert ChildrenInTurn(n, ms, first, 0, {1}, ev, None);
    var rest := first + [At(2, ev)];
    assert rest[..2] == first && rest[2..] == [At(2, ev)] && {1, 2} - {2} == {1};
    assert ChildrenInTurn(n, ms, rest[..2], 0, {1, 2} - {2}, ev, None);
    assert ChildrenInTurn(n, ms, rest, 0, {1, 2}, ev, None);
    assert [At(0, ev), At(1, ev), At(3, ev), At(2, ev)][1..] == rest;
  }

  /** A depth-first log from the leaf `2` is its own call alone. */
  lemma LeafLog(n: Id, ms: map<Id, ModelState>, ev: SessionEvent, t: seq<Call>)
    requires TwoLevelTree(n, ms, ev) && DepthFirst(n, ms, t, 2, ev, None)
    ensures t == [At(2, ev)]
  {
    OwnCallOf(ms[2].handlers, 2, ev);
    assert ChildrenInTurn(n, ms, t[1..], 2, {}, ev, None);
    assert t == t[..1] + t[1..];
  }

  /** No empty log serves the child `2` of `0`. */
  lemma NoEmptyTurn(n: Id, ms: map<Id, ModelState>, ev: SessionEvent)
    requires TwoLevelTree(n, ms, ev)
    ensures !ChildrenInTurn(n, ms, [], 0, {2}, ev, None)
  {
    OwnCallOf(ms[2].handlers, 2, ev);
    var e: seq<Call> := [];
    forall j: nat | j <= 0 ensures !DepthFirst(n, ms, e[j..], 2, ev, None) {
      assert e[j..] == e;
    }
  }

  /** Serving `2` between `1` and its child `3` is not: a child's subtree is
      served in one piece. */
  lemma SplitSubtreeIsNotDepthFirst(n: Id, ms: map<Id, ModelState>, ev: SessionEvent)
    requires TwoLevelTree(n, ms, ev)
    ensures !DepthFirst(n, ms, [At(0, ev), At(1, ev), At(2, ev), At(3, ev)], 0, ev, None)
  {
    OwnCallOf(ms[0].handlers, 0, ev);
    var log := [At(0, ev), At(1, ev), At(2, ev), At(3, ev)];
    var added := [At(1, ev), At(2, ev), At(3, ev)];
    assert log[1..] == added;
    if DepthFirst(n, ms, log, 0, ev, None) {
      assert ChildrenInTurn(n, ms, added, 0, {1, 2}, ev, None);
      var c, j :| && c in {1, 2} && 0 <= j <= |added|
        && ChildrenInTurn(n, ms, added[..j], 0, {1, 2} - {c}, ev, None)
        && DepthFirst(n, ms, added[j..], c, ev, None);
      if c == 2 {
        LeafLog(n, ms, ev, added[j..]);
        assert false;
      } else {
        OwnCallOf(ms[1].handlers, 1, ev);
        assert added[j..][0] == At(1, ev);
        assert j == 0 && {1, 2} - {1} == {2};
        NoEmptyTurn(n, ms, ev);
        assert false;
      }
    }
  }
}
