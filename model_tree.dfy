/** The model tree (ModelsTreeKit/Classes/Model/Model.swift).

    A `Model` object is a node of a tree: it holds a weak reference to its
    parent, the set of its children, the errors it is registered for and its
    list of event handlers. The model keeps every node of a program in one arena,
    `Tree`, and names nodes by ids handed out by a counter; the fields of each Swift
    object become one `ModelState` record, kept in a map from ids. A parent is always
    created before its children, so a parent's id is below its child's: that is
    what makes the walks up (`session()`, `raiseError`) and down
    (`propagateEvent`) terminate. */
module ModelTree {
  import opened Wrappers
  import opened Errors

  type Id = nat

  /** An event handler closure; the model only records that it was called. */
  type HandlerId = nat

  /** The key of a session event: a name and a domain, compared by value. */
  datatype SessionEvent = SessionEvent(name: string, domain: string)

  /** `SessionEventWrapper`: one registered (event, handler) pair. */
  datatype Wrapper = Wrapper(event: SessionEvent, handler: HandlerId)

  /** One `errorSignal.sendNext(error)` on node `node`. */
  datatype Delivery = Delivery(node: Id, error: Error)

  /** One invocation `handler(object: payload)` of a handler registered on `node`. */
  datatype Call = Call(node: Id, handler: HandlerId, event: SessionEvent, payload: Option<Payload>)

  // ---------------------------------------------------------------------------
  // Wrapper lists

  /** No event has two wrappers in the list. */
  ghost predicate OneWrapperPerEvent(ws: seq<Wrapper>)
  {
    forall i, j :: 0 <= i < j < |ws| ==> ws[i].event != ws[j].event
  }

  /** `r` is `ws` with some elements left out, the others in their order. */
  predicate IsSubsequence(r: seq<Wrapper>, ws: seq<Wrapper>)
    decreases |ws|
  {
    if r == [] then true
    else if ws == [] then false
    else if r[0] == ws[0] then IsSubsequence(r[1..], ws[1..])
    else IsSubsequence(r, ws[1..])
  }

  /** `eventHandlerWrappers.filter { $0.event != event }`. */
  function Without(ws: seq<Wrapper>, ev: SessionEvent): (r: seq<Wrapper>)
    ensures forall w :: w in r <==> w in ws && w.event != ev
    ensures IsSubsequence(r, ws)
  {
    if ws == [] then []
    else if ws[0].event == ev then Without(ws[1..], ev)
    else [ws[0]] + Without(ws[1..], ev)
  }

  /** The filter keeps every wrapper for another event as often as `ws` holds
      it, and none for `ev`: it is exact even on lists with repeated entries. */
  lemma {:induction false} WithoutCounts(ws: seq<Wrapper>, ev: SessionEvent)
    ensures forall w :: multiset(Without(ws, ev))[w] == if w.event == ev then 0 else multiset(ws)[w]
  {
    if ws != [] {
      WithoutCounts(ws[1..], ev);
      assert ws == [ws[0]] + ws[1..];
    }
  }

  lemma OneWrapperPerEventTail(ws: seq<Wrapper>)
    requires ws != [] && OneWrapperPerEvent(ws)
    ensures OneWrapperPerEvent(ws[1..])
  {
    forall i, j | 0 <= i < j < |ws[1..]| ensures ws[1..][i].event != ws[1..][j].event {
      assert ws[1..][i] == ws[i + 1] && ws[1..][j] == ws[j + 1];
    }
  }

  lemma OneWrapperPerEventCons(w: Wrapper, rest: seq<Wrapper>)
    requires OneWrapperPerEvent(rest)
    requires forall k :: 0 <= k < |rest| ==> rest[k].event != w.event
    ensures OneWrapperPerEvent([w] + rest)
  {
    var r := [w] + rest;
    forall i, j | 0 <= i < j < |r| ensures r[i].event != r[j].event {
      if i > 0 {
        assert r[i] == rest[i - 1] && r[j] == rest[j - 1];
      } else {
        assert r[j] == rest[j - 1];
      }
    }
  }

  lemma {:induction false} WithoutKeepsOneWrapperPerEvent(ws: seq<Wrapper>, ev: SessionEvent)
    requires OneWrapperPerEvent(ws)
    ensures OneWrapperPerEvent(Without(ws, ev))
  {
    if ws != [] {
      OneWrapperPerEventTail(ws);
      WithoutKeepsOneWrapperPerEvent(ws[1..], ev);
      var rest := Without(ws[1..], ev);
      if ws[0].event != ev {
        forall k | 0 <= k < |rest| ensures rest[k].event != ws[0].event {
          assert rest[k] in ws[1..];
          var j :| 0 <= j < |ws[1..]| && ws[1..][j] == rest[k];
          assert ws[j + 1] == rest[k];
        }
        OneWrapperPerEventCons(ws[0], rest);
      }
    }
  }

  /** The state `registerForEvent(ev, h)` leaves behind: exactly one wrapper for
      `ev`, the new one, in last place; no other event's wrapper is lost or added. */
  lemma RegisterLeavesOneEntry(ws: seq<Wrapper>, ev: SessionEvent, h: HandlerId)
    ensures var r := Without(ws, ev) + [Wrapper(ev, h)];
      && (forall i :: 0 <= i < |r| ==> (r[i].event == ev <==> i == |r| - 1))
      && r[|r| - 1].handler == h
      && (forall w: Wrapper :: w.event != ev ==> (w in r <==> w in ws))
      && IsSubsequence(r[..|r| - 1], ws)
  {
    var r := Without(ws, ev) + [Wrapper(ev, h)];
    forall i | 0 <= i < |r| - 1 ensures r[i].event != ev {
      assert r[i] in Without(ws, ev);
    }
    assert r[..|r| - 1] == Without(ws, ev);
  }

  /** Registering keeps at most one wrapper per event. */
  lemma RegisterKeepsOneWrapperPerEvent(ws: seq<Wrapper>, ev: SessionEvent, h: HandlerId)
    requires OneWrapperPerEvent(ws)
    ensures OneWrapperPerEvent(Without(ws, ev) + [Wrapper(ev, h)])
  {
    var rest := Without(ws, ev);
    WithoutKeepsOneWrapperPerEvent(ws, ev);
    var r := rest + [Wrapper(ev, h)];
    forall i, j | 0 <= i < j < |r| ensures r[i].event != r[j].event {
      assert r[i] == rest[i];
      if j < |rest| {
        assert r[j] == rest[j];
      } else {
        assert rest[i] in rest;
      }
    }
  }

  /** The handler registered for `ev`, if any (the last one, should there be several). */
  function HandlerFor(ws: seq<Wrapper>, ev: SessionEvent): (r: Option<HandlerId>)
    ensures r.Some? ==> Wrapper(ev, r.value) in ws
    ensures r.None? ==> forall i :: 0 <= i < |ws| ==> ws[i].event != ev
  {
    if ws == [] then None
    else if ws[|ws| - 1].event == ev then Some(ws[|ws| - 1].handler)
    else HandlerFor(ws[..|ws| - 1], ev)
  }

  /** The calls the first loop of `propagateEvent` makes on node `m`: every
      wrapper whose event matches, in list order. */
  function LocalCalls(ws: seq<Wrapper>, m: Id, ev: SessionEvent, payload: Option<Payload>): seq<Call>
  {
    if ws == [] then []
    else
      LocalCalls(ws[..|ws| - 1], m, ev, payload)
        + (if ws[|ws| - 1].event == ev then [Call(m, ws[|ws| - 1].handler, ev, payload)] else [])
  }

  /** The calls of the first `i` turns of the first loop of `propagateEvent`.
      This is `LocalCalls(ws[..i], ...)` (`CallsUpToAreLocalCalls`), counted by
      index as the loop counts; a loop invariant over `ws[..i]` costs the
      verifier much more. */
  function CallsUpTo(ws: seq<Wrapper>, i: nat, m: Id, ev: SessionEvent, payload: Option<Payload>): (r: seq<Call>)
    requires i <= |ws|
  {
    if i == 0 then []
    else
      CallsUpTo(ws, i - 1, m, ev, payload)
        + (if ws[i - 1].event == ev then [Call(m, ws[i - 1].handler, ev, payload)] else [])
  }

  /** After the last turn the loop has made exactly `LocalCalls`. */
  lemma {:induction false} CallsUpToAreLocalCalls(ws: seq<Wrapper>, i: nat, m: Id, ev: SessionEvent, payload: Option<Payload>)
    requires i <= |ws|
    ensures CallsUpTo(ws, i, m, ev, payload) == LocalCalls(ws[..i], m, ev, payload)
  {
    if i > 0 {
      CallsUpToAreLocalCalls(ws, i - 1, m, ev, payload);
      assert ws[..i][..i - 1] == ws[..i - 1];
    }
  }

  /** Every call of the first loop goes to node `m`, for `ev`, with the payload. */
  lemma {:induction false} LocalCallsAreFor(ws: seq<Wrapper>, m: Id, ev: SessionEvent, payload: Option<Payload>, x: Call)
    requires x in LocalCalls(ws, m, ev, payload)
    ensures x.node == m && x.event == ev && x.payload == payload
  {
    var init := ws[..|ws| - 1];
    if x in LocalCalls(init, m, ev, payload) {
      LocalCallsAreFor(init, m, ev, payload, x);
    }
  }

  lemma {:induction false} NoWrapperNoCalls(ws: seq<Wrapper>, m: Id, ev: SessionEvent, payload: Option<Payload>)
    requires forall i :: 0 <= i < |ws| ==> ws[i].event != ev
    ensures LocalCalls(ws, m, ev, payload) == []
  {
    if ws != [] {
      NoWrapperNoCalls(ws[..|ws| - 1], m, ev, payload);
    }
  }

  /** With one wrapper per event, a node makes at most one call: to its handler for `ev`. */
  lemma {:induction false} LocalCallsOfHandler(ws: seq<Wrapper>, m: Id, ev: SessionEvent, payload: Option<Payload>)
    requires OneWrapperPerEvent(ws)
    ensures LocalCalls(ws, m, ev, payload)
      == match HandlerFor(ws, ev) case Some(h) => [Call(m, h, ev, payload)] case None => []
  {
    if ws != [] {
      var init := ws[..|ws| - 1];
      if ws[|ws| - 1].event == ev {
        NoWrapperNoCalls(init, m, ev, payload);
      } else {
        LocalCallsOfHandler(init, m, ev, payload);
      }
    }
  }

  // ---------------------------------------------------------------------------
  // Call logs

  function Elems(s: seq<Call>): set<Call>
  {
    set x | x in s
  }

  predicate Distinct(s: seq<Call>)
  {
    forall i, j :: 0 <= i < j < |s| ==> s[i] != s[j]
  }

  lemma DistinctConcat(a: seq<Call>, b: seq<Call>)
    requires Distinct(a) && Distinct(b) && Elems(a) * Elems(b) == {}
    ensures Distinct(a + b) && Elems(a + b) == Elems(a) + Elems(b)
  {
    forall i, j | 0 <= i < j < |a + b| ensures (a + b)[i] != (a + b)[j] {
      if j < |a| {
        assert (a + b)[i] == a[i] && (a + b)[j] == a[j];
      } else if i >= |a| {
        assert (a + b)[i] == b[i - |a|] && (a + b)[j] == b[j - |a|];
      } else {
        assert (a + b)[i] == a[i] && (a + b)[j] == b[j - |a|];
        assert a[i] in Elems(a) && b[j - |a|] in Elems(b);
        assert a[i] !in Elems(a) * Elems(b);
      }
    }
  }

  /** In a log without repetitions, each entry occurs exactly once. */
  lemma {:induction false} DistinctOccursOnce(s: seq<Call>, x: Call)
    requires Distinct(s) && x in s
    ensures multiset(s)[x] == 1
  {
    assert s == [s[0]] + s[1..];
    if s[0] == x {
      assert forall j :: 0 <= j < |s[1..]| ==> s[1..][j] == s[j + 1];
      assert x !in s[1..];
    } else {
      assert Distinct(s[1..]) by {
        forall i, j | 0 <= i < j < |s[1..]| ensures s[1..][i] != s[1..][j] {
          assert s[1..][i] == s[i + 1] && s[1..][j] == s[j + 1];
        }
      }
      DistinctOccursOnce(s[1..], x);
    }
  }

  // ---------------------------------------------------------------------------
  // Chains of models

  /** `x` is the first element of `xs` that is `marked`. */
  ghost predicate NearestIn(xs: seq<Id>, marked: set<Id>, x: Id)
  {
    exists i :: 0 <= i < |xs| && xs[i] == x && x in marked && forall j :: 0 <= j < i ==> xs[j] !in marked
  }

  lemma NearestInCons(q: Id, xs: seq<Id>, marked: set<Id>, x: Id)
    requires q !in marked && NearestIn(xs, marked, x)
    ensures NearestIn([q] + xs, marked, x)
  {
    var i :| 0 <= i < |xs| && xs[i] == x && x in marked && forall j :: 0 <= j < i ==> xs[j] !in marked;
    var ys := [q] + xs;
    assert ys[i + 1] == x;
    forall j | 0 <= j < i + 1 ensures ys[j] !in marked {
      if j > 0 {
        assert ys[j] == xs[j - 1];
      }
    }
  }

  // ---------------------------------------------------------------------------
  // Registered errors

  /** The keys of the errors of `codes` in `domain`, as `registerForErrorCodes`
      adds them one by one. */
  ghost function CodeKeys(domain: ErrorDomain, codes: seq<ErrorCode>): set<ErrorKey>
  {
    if codes == [] then {}
    else CodeKeys(domain, codes[..|codes| - 1]) + {Key(Error(domain, codes[|codes| - 1]))}
  }

  lemma {:induction false} CodeKeysAreTheCodesKeys(domain: ErrorDomain, codes: seq<ErrorCode>)
    ensures CodeKeys(domain, codes) == set c | c in codes :: Key(Error(domain, c))
  {
    if codes != [] {
      var init := codes[..|codes| - 1];
      CodeKeysAreTheCodesKeys(domain, init);
      assert codes == init + [codes[|codes| - 1]];
    }
  }

  // ---------------------------------------------------------------------------
  // The arena

  /** The fields of one `Model` object. */
  datatype ModelState = ModelState(
    parent: Option<Id>,         // `parent`: nil for a root
    children: set<Id>,          // `childModelsSet`
    registered: set<ErrorKey>,  // `registeredErrors`, as the keys its `==` and `hashValue` read
    handlers: seq<Wrapper>,     // `eventHandlerWrappers`
    isSession: bool)            // the object is a `Session`

  /** The models are exactly the ids handed out so far. */
  ghost predicate IdsIssued(nextId: Id, models: map<Id, ModelState>)
  {
    forall n: Id :: n in models <==> n < nextId
  }

  /** A parent was created before its child. */
  ghost predicate ParentsPrecede(nextId: Id, models: map<Id, ModelState>)
    requires IdsIssued(nextId, models)
  {
    forall n: Id :: n < nextId && models[n].parent.Some? ==> models[n].parent.value < n
  }

  /** Every member of a child set names that model as its parent; so no model
      is in two child sets. */
  ghost predicate ChildrenPointBack(nextId: Id, models: map<Id, ModelState>)
    requires IdsIssued(nextId, models)
  {
    forall p: Id, c: Id {:trigger c in models[p].children} ::
      p < nextId && c in models[p].children ==> c < nextId && models[c].parent == Some(p)
  }

  ghost predicate HandlersKeyedByEvent(nextId: Id, models: map<Id, ModelState>)
    requires IdsIssued(nextId, models)
  {
    forall n: Id :: n < nextId ==> OneWrapperPerEvent(models[n].handlers)
  }

  ghost predicate WellFormed(nextId: Id, models: map<Id, ModelState>)
  {
    && IdsIssued(nextId, models)
    && ParentsPrecede(nextId, models)
    && ChildrenPointBack(nextId, models)
    && HandlersKeyedByEvent(nextId, models)
  }

  lemma EmptyIsWellFormed(models: map<Id, ModelState>)
    requires models == map[]
    ensures WellFormed(0, models)
  {
  }

  /** A fresh model that is not yet in its parent's child set. */
  lemma CreateKeepsWellFormed(nextId: Id, models: map<Id, ModelState>, p: Option<Id>, asSession: bool)
    requires WellFormed(nextId, models) && (p.Some? ==> p.value < nextId)
    ensures WellFormed(nextId + 1, models[nextId := ModelState(p, {}, {}, [], asSession)])
  {
    var m := models[nextId := ModelState(p, {}, {}, [], asSession)];
    assert IdsIssued(nextId + 1, m);
    assert ParentsPrecede(nextId + 1, m);
    assert ChildrenPointBack(nextId + 1, m);
    assert HandlersKeyedByEvent(nextId + 1, m);
  }

  lemma AddChildKeepsWellFormed(nextId: Id, models: map<Id, ModelState>, p: Id, c: Id)
    requires WellFormed(nextId, models) && p < nextId && c < nextId && models[c].parent == Some(p)
    ensures WellFormed(nextId, models[p := models[p].(children := models[p].children + {c})])
  {
    var m := models[p := models[p].(children := models[p].children + {c})];
    assert IdsIssued(nextId, m);
    assert ParentsPrecede(nextId, m);
    assert ChildrenPointBack(nextId, m);
    assert HandlersKeyedByEvent(nextId, m);
  }

  lemma RemoveChildKeepsWellFormed(nextId: Id, models: map<Id, ModelState>, p: Id, c: Id)
    requires WellFormed(nextId, models) && p < nextId
    ensures WellFormed(nextId, models[p := models[p].(children := models[p].children - {c})])
  {
    var m := models[p := models[p].(children := models[p].children - {c})];
    assert IdsIssued(nextId, m);
    assert ParentsPrecede(nextId, m);
    assert ChildrenPointBack(nextId, m);
    assert HandlersKeyedByEvent(nextId, m);
  }

  lemma RegisteredKeepsWellFormed(nextId: Id, models: map<Id, ModelState>, n: Id, r: set<ErrorKey>)
    requires WellFormed(nextId, models) && n < nextId
    ensures WellFormed(nextId, models[n := models[n].(registered := r)])
  {
    var m := models[n := models[n].(registered := r)];
    assert IdsIssued(nextId, m);
    assert ParentsPrecede(nextId, m);
    assert ChildrenPointBack(nextId, m);
    assert HandlersKeyedByEvent(nextId, m);
  }

  lemma HandlersKeepWellFormed(nextId: Id, models: map<Id, ModelState>, n: Id, ws: seq<Wrapper>)
    requires WellFormed(nextId, models) && n < nextId && OneWrapperPerEvent(ws)
    ensures WellFormed(nextId, models[n := models[n].(handlers := ws)])
  {
    var m := models[n := models[n].(handlers := ws)];
    assert IdsIssued(nextId, m);
    assert ParentsPrecede(nextId, m);
    assert ChildrenPointBack(nextId, m);
    assert HandlersKeyedByEvent(nextId, m);
  }

  // ---------------------------------------------------------------------------
  // Broadcast logs

  /** The calls that the handlers of the models `nodes` make for `ev`. */
  ghost function CallsAt(models: map<Id, ModelState>, nodes: set<Id>, ev: SessionEvent, payload: Option<Payload>): (r: set<Call>)
    ensures forall x :: x in r ==> x.node in nodes && x.event == ev && x.payload == payload
  {
    forall m, x | m in nodes && m in models && x in LocalCalls(models[m].handlers, m, ev, payload)
      ensures x.node == m && x.event == ev && x.payload == payload
    {
      LocalCallsAreFor(models[m].handlers, m, ev, payload, x);
    }
    set m, x | m in nodes && m in models && x in LocalCalls(models[m].handlers, m, ev, payload) :: x
  }

  /** With one wrapper per event, the calls at `nodes` are exactly one call to
      each of their handlers for `ev`. */
  lemma CallsAtAreHandlerCalls(models: map<Id, ModelState>, nodes: set<Id>, ev: SessionEvent, payload: Option<Payload>, x: Call)
    requires forall m :: m in nodes && m in models ==> OneWrapperPerEvent(models[m].handlers)
    ensures x in CallsAt(models, nodes, ev, payload) <==>
      && x.node in nodes && x.node in models && x.event == ev && x.payload == payload
      && HandlerFor(models[x.node].handlers, ev) == Some(x.handler)
  {
    if x.node in nodes && x.node in models {
      LocalCallsOfHandler(models[x.node].handlers, x.node, ev, payload);
      if x.event == ev && x.payload == payload && HandlerFor(models[x.node].handlers, ev) == Some(x.handler) {
        assert x in LocalCalls(models[x.node].handlers, x.node, ev, payload);
      }
    }
    if x in CallsAt(models, nodes, ev, payload) {
      var m :| m in nodes && m in models && x in LocalCalls(models[m].handlers, m, ev, payload);
      LocalCallsAreFor(models[m].handlers, m, ev, payload, x);
    }
  }

  /** `after` is `before` followed by calls, none of them twice, that are
      exactly the calls at `nodes`. */
  ghost predicate Appends(models: map<Id, ModelState>, before: seq<Call>, after: seq<Call>, nodes: set<Id>,
                          ev: SessionEvent, payload: Option<Payload>)
  {
    && |before| <= |after| && after[..|before|] == before
    && Distinct(after[|before|..])
    && Elems(after[|before|..]) == CallsAt(models, nodes, ev, payload)
  }

  /** The first loop of `propagateEvent` on `m` is a broadcast over `{m}`. */
  lemma LocalCallsAppend(models: map<Id, ModelState>, before: seq<Call>, m: Id, ev: SessionEvent, payload: Option<Payload>)
    requires m in models && OneWrapperPerEvent(models[m].handlers)
    ensures Appends(models, before, before + LocalCalls(models[m].handlers, m, ev, payload), {m}, ev, payload)
  {
    var local := LocalCalls(models[m].handlers, m, ev, payload);
    LocalCallsOfHandler(models[m].handlers, m, ev, payload);
    var after := before + local;
    assert after[..|before|] == before && after[|before|..] == local;
    assert Elems(local) == CallsAt(models, {m}, ev, payload);
  }

  /** Two broadcasts over disjoint sets of models, one after the other, are a
      broadcast over their union. */
  lemma AppendsChain(models: map<Id, ModelState>, a: seq<Call>, b: seq<Call>, c: seq<Call>,
                     s: set<Id>, t: set<Id>, ev: SessionEvent, payload: Option<Payload>)
    requires Appends(models, a, b, s, ev, payload) && Appends(models, b, c, t, ev, payload)
    requires s * t == {}
    ensures Appends(models, a, c, s + t, ev, payload)
  {
    assert c[..|a|] == b[..|a|];
    assert c[|a|..] == b[|a|..] + c[|b|..];
    forall x | x in Elems(b[|a|..]) ensures x !in Elems(c[|b|..]) {
      assert x in CallsAt(models, s, ev, payload);
      assert x.node !in s * t;
      assert x !in CallsAt(models, t, ev, payload);
    }
    DistinctConcat(b[|a|..], c[|b|..]);
    assert CallsAt(models, s + t, ev, payload) == CallsAt(models, s, ev, payload) + CallsAt(models, t, ev, payload);
  }

  // ---------------------------------------------------------------------------
  // Subtrees and broadcasts

  /** The models reached from `r` through child sets, `r` included. */
  ghost function Subtree(nextId: Id, models: map<Id, ModelState>, r: Id): (s: set<Id>)
    requires WellFormed(nextId, models) && r < nextId
    ensures r in s && forall m :: m in s ==> r <= m < nextId
    decreases nextId - r
  {
    {r} + (set c, m | c in models[r].children && m in Subtree(nextId, models, c) :: m)
  }

  /** The subtrees of the models `kids`, together. */
  ghost function SubtreesOf(nextId: Id, models: map<Id, ModelState>, kids: set<Id>): (s: set<Id>)
    requires WellFormed(nextId, models) && forall c :: c in kids ==> c < nextId
  {
    set c, m | c in kids && m in Subtree(nextId, models, c) :: m
  }

  /** `m` is `a` or reaches `a` by following `parent` references. */
  ghost predicate Descends(nextId: Id, models: map<Id, ModelState>, m: Id, a: Id)
    requires WellFormed(nextId, models) && m < nextId
    decreases m
  {
    m == a || (models[m].parent.Some? && Descends(nextId, models, models[m].parent.value, a))
  }

  lemma {:induction false} DescendsIsBelow(nextId: Id, models: map<Id, ModelState>, m: Id, a: Id)
    requires WellFormed(nextId, models) && m < nextId && Descends(nextId, models, m, a)
    ensures a <= m
    decreases m
  {
    if m != a {
      DescendsIsBelow(nextId, models, models[m].parent.value, a);
    }
  }

  lemma {:induction false} DescendsThroughParent(nextId: Id, models: map<Id, ModelState>, m: Id, c: Id, r: Id)
    requires WellFormed(nextId, models) && m < nextId && c < nextId && models[c].parent == Some(r) && Descends(nextId, models, m, c)
    ensures Descends(nextId, models, m, r)
    decreases m
  {
    if m != c {
      DescendsThroughParent(nextId, models, models[m].parent.value, c, r);
    }
  }

  /** Everything in the subtree of `r` reaches `r` through its parents. */
  lemma {:induction false} SubtreeDescends(nextId: Id, models: map<Id, ModelState>, r: Id, m: Id)
    requires WellFormed(nextId, models) && r < nextId && m in Subtree(nextId, models, r)
    ensures Descends(nextId, models, m, r)
    decreases nextId - r
  {
    if m != r {
      var c :| c in models[r].children && m in Subtree(nextId, models, c);
      SubtreeDescends(nextId, models, c, m);
      DescendsThroughParent(nextId, models, m, c, r);
    }
  }

  /** No model reaches two siblings through its parents. */
  lemma {:induction false} SiblingsShareNoDescendant(nextId: Id, models: map<Id, ModelState>, m: Id, c: Id, d: Id)
    requires WellFormed(nextId, models) && m < nextId && c < nextId && d < nextId && c != d
    requires models[c].parent.Some? && models[c].parent == models[d].parent
    ensures !(Descends(nextId, models, m, c) && Descends(nextId, models, m, d))
    decreases m
  {
    var r := models[c].parent.value;
    if m == c && Descends(nextId, models, m, d) {
      DescendsIsBelow(nextId, models, r, d);
    } else if m == d && Descends(nextId, models, m, c) {
      DescendsIsBelow(nextId, models, r, c);
    } else if m != c && m != d && models[m].parent.Some? {
      SiblingsShareNoDescendant(nextId, models, models[m].parent.value, c, d);
    }
  }

  /** A child's subtree shares no model with its siblings' subtrees. */
  lemma SiblingSubtreesDisjoint(nextId: Id, models: map<Id, ModelState>, r: Id, done: set<Id>, c: Id)
    requires WellFormed(nextId, models) && r < nextId
    requires done <= models[r].children && c in models[r].children && c !in done
    ensures SubtreesOf(nextId, models, done) * Subtree(nextId, models, c) == {}
  {
    forall m | m in Subtree(nextId, models, c) && m in SubtreesOf(nextId, models, done) ensures false {
      var d :| d in done && m in Subtree(nextId, models, d);
      SubtreeDescends(nextId, models, c, m);
      SubtreeDescends(nextId, models, d, m);
      SiblingsShareNoDescendant(nextId, models, m, c, d);
    }
  }

  /** A broadcast from `r`: `after` is `before` followed by one call to each
      handler for `ev` of each model of `r`'s subtree, none other, none twice,
      starting with `r`'s own. */
  ghost predicate Broadcast(nextId: Id, models: map<Id, ModelState>, before: seq<Call>, after: seq<Call>, r: Id, ev: SessionEvent, payload: Option<Payload>)
    requires WellFormed(nextId, models) && r < nextId
  {
    && Appends(models, before, after, Subtree(nextId, models, r), ev, payload)
    && LocalCalls(models[r].handlers, r, ev, payload) <= after[|before|..]
  }

  /** What a broadcast promises model by model: every handler for `ev` in the
      subtree is called exactly once, with the payload; a call goes to no
      other model and no other handler. */
  lemma BroadcastCallsEachHandlerOnce(nextId: Id, models: map<Id, ModelState>, before: seq<Call>, after: seq<Call>, r: Id, ev: SessionEvent, payload: Option<Payload>)
    requires WellFormed(nextId, models) && r < nextId && Broadcast(nextId, models, before, after, r, ev, payload)
    ensures forall m: Id, h :: m in Subtree(nextId, models, r) && HandlerFor(models[m].handlers, ev) == Some(h) ==>
      multiset(after[|before|..])[Call(m, h, ev, payload)] == 1
    ensures forall x :: x in after[|before|..] ==>
      && x.node in Subtree(nextId, models, r) && x.event == ev && x.payload == payload
      && HandlerFor(models[x.node].handlers, ev) == Some(x.handler)
  {
    var added := after[|before|..];
    forall x | x in added
      ensures x.node in Subtree(nextId, models, r) && x.event == ev && x.payload == payload
      ensures HandlerFor(models[x.node].handlers, ev) == Some(x.handler)
    {
      assert x in Elems(added);
      CallsAtAreHandlerCalls(models, Subtree(nextId, models, r), ev, payload, x);
    }
    forall m: Id, h | m in Subtree(nextId, models, r) && HandlerFor(models[m].handlers, ev) == Some(h)
      ensures multiset(added)[Call(m, h, ev, payload)] == 1
    {
      CallsAtAreHandlerCalls(models, Subtree(nextId, models, r), ev, payload, Call(m, h, ev, payload));
      assert Call(m, h, ev, payload) in Elems(added);
      DistinctOccursOnce(added, Call(m, h, ev, payload));
    }
  }

  /** One turn of the second loop of `propagateEvent` on `r`, with `kids`
      still to go: after the broadcast from child `c`, the log covers `c`'s
      subtree too. */
  lemma ChildStep(nextId: Id, models: map<Id, ModelState>, r: Id, kids: set<Id>, c: Id,
                  start: seq<Call>, mid: seq<Call>, after: seq<Call>, ev: SessionEvent, payload: Option<Payload>)
    requires WellFormed(nextId, models) && r < nextId
    requires kids <= models[r].children && c in kids
    requires Appends(models, start, mid, SubtreesOf(nextId, models, models[r].children - kids), ev, payload)
    requires Broadcast(nextId, models, mid, after, c, ev, payload)
    ensures Appends(models, start, after, SubtreesOf(nextId, models, models[r].children - (kids - {c})), ev, payload)
  {
    var done := models[r].children - kids;
    SiblingSubtreesDisjoint(nextId, models, r, done, c);
    AppendsChain(models, start, mid, after, SubtreesOf(nextId, models, done), Subtree(nextId, models, c), ev, payload);
    assert models[r].children - (kids - {c}) == done + {c};
    assert SubtreesOf(nextId, models, done) + Subtree(nextId, models, c) == SubtreesOf(nextId, models, done + {c});
  }

  /** `r`'s own calls followed by a broadcast over its children's subtrees is
      a broadcast from `r`. */
  lemma BroadcastOfParts(nextId: Id, models: map<Id, ModelState>, r: Id,
                         start: seq<Call>, mid: seq<Call>, after: seq<Call>, ev: SessionEvent, payload: Option<Payload>)
    requires WellFormed(nextId, models) && r < nextId
    requires mid == start + LocalCalls(models[r].handlers, r, ev, payload)
    requires Appends(models, start, mid, {r}, ev, payload)
    requires Appends(models, mid, after, SubtreesOf(nextId, models, models[r].children), ev, payload)
    ensures Broadcast(nextId, models, start, after, r, ev, payload)
  {
    var kids := SubtreesOf(nextId, models, models[r].children);
    assert r !in kids;
    AppendsChain(models, start, mid, after, {r}, kids, ev, payload);
    assert Subtree(nextId, models, r) == {r} + kids;
    assert after[|start|..][..|mid| - |start|] == mid[|start|..];
  }

  /** The order of a broadcast from `r`: `added` is `r`'s own calls, then, one
      child of `r` after the other, a complete depth-first log of that child.
      Which child comes first is left open, as the iteration order of a set is. */
  ghost predicate DepthFirst(nextId: Id, models: map<Id, ModelState>, added: seq<Call>, r: Id, ev: SessionEvent, payload: Option<Payload>)
    requires WellFormed(nextId, models) && r < nextId
    decreases nextId - r, 1, 0
  {
    var local := LocalCalls(models[r].handlers, r, ev, payload);
    && local <= added
    && ChildrenInTurn(nextId, models, added[|local|..], r, models[r].children, ev, payload)
  }

  /** `added` is a depth-first log of each child of `r` in `kids`, one after
      the other; the last of them is split off at the end. */
  ghost predicate ChildrenInTurn(nextId: Id, models: map<Id, ModelState>, added: seq<Call>, r: Id, kids: set<Id>,
                                 ev: SessionEvent, payload: Option<Payload>)
    requires WellFormed(nextId, models) && r < nextId && kids <= models[r].children
    decreases nextId - r, 0, |kids|
  {
    if kids == {} then added == []
    else
      exists c, j ::
        && c in kids && 0 <= j <= |added|
        && ChildrenInTurn(nextId, models, added[..j], r, kids - {c}, ev, payload)
        && DepthFirst(nextId, models, added[j..], c, ev, payload)
  }

  /** One turn of the second loop of `propagateEvent` on `r`: the depth-first
      log of child `c`, appended after those of the children done so far. */
  lemma ChildTurn(nextId: Id, models: map<Id, ModelState>, r: Id, kids: set<Id>, c: Id,
                  start: seq<Call>, mid: seq<Call>, after: seq<Call>, ev: SessionEvent, payload: Option<Payload>)
    requires WellFormed(nextId, models) && r < nextId
    requires kids <= models[r].children && c in kids
    requires |start| <= |mid| <= |after| && after[..|mid|] == mid
    requires ChildrenInTurn(nextId, models, mid[|start|..], r, models[r].children - kids, ev, payload)
    requires DepthFirst(nextId, models, after[|mid|..], c, ev, payload)
    ensures ChildrenInTurn(nextId, models, after[|start|..], r, models[r].children - (kids - {c}), ev, payload)
  {
    var done := models[r].children - kids;
    var added, j := after[|start|..], |mid| - |start|;
    assert models[r].children - (kids - {c}) == done + {c};
    assert (done + {c}) - {c} == done;
    assert added[..j] == mid[|start|..];
    assert added[j..] == after[|mid|..];
  }

  /** `r`'s own calls followed by the children's logs in turn are a
      depth-first log from `r`. */
  lemma DepthFirstOfParts(nextId: Id, models: map<Id, ModelState>, r: Id,
                          start: seq<Call>, mid: seq<Call>, after: seq<Call>, ev: SessionEvent, payload: Option<Payload>)
    requires WellFormed(nextId, models) && r < nextId
    requires mid == start + LocalCalls(models[r].handlers, r, ev, payload)
    requires |mid| <= |after| && after[..|mid|] == mid
    requires ChildrenInTurn(nextId, models, after[|mid|..], r, models[r].children, ev, payload)
    ensures DepthFirst(nextId, models, after[|start|..], r, ev, payload)
  {
    var local := LocalCalls(models[r].handlers, r, ev, payload);
    assert after[|start|..][..|local|] == local;
    assert after[|start|..][|local|..] == after[|mid|..];
  }

  // ---------------------------------------------------------------------------
  // The tree

  class Tree {
    /** The next id to hand out; models `globallyUniqueString`. */
    var nextId: Id
    /** The fields of every model created so far, by id. */
    var models: map<Id, ModelState>
    /** Everything sent on the `errorSignal` of any model, in order. */
    var errorLog: seq<Delivery>
    /** Every handler invocation, in order. */
    var callLog: seq<Call>

    ghost predicate Valid()
      reads this`nextId, this`models
    {
      WellFormed(nextId, models)
    }

    constructor ()
      ensures Valid() && nextId == 0 && models == map[]
      ensures errorLog == [] && callLog == []
    {
      nextId, models := 0, map[];
      errorLog, callLog := [], [];
      EmptyIsWellFormed(map[]);
    }

    // -------------------------------------------------------------------------
    // Ownership

    /** `init(parent:)`: a fresh model, with a fresh id, that records its parent
        and joins the parent's child set; no other model changes. `asSession`
        creates it as a `Session`. */
    method NewModel(p: Option<Id>, asSession: bool) returns (id: Id)
      requires Valid()
      requires p.Some? ==> p.value < nextId
      modifies this`nextId, this`models
      ensures Valid()
      ensures id == old(nextId) && nextId == id + 1 && id !in old(models)
      ensures models == match p
        case None => old(models)[id := ModelState(p, {}, {}, [], asSession)]
        case Some(q) =>
          old(models)[id := ModelState(p, {}, {}, [], asSession)]
            [q := old(models)[q].(children := old(models)[q].children + {id})]
    {
      CreateKeepsWellFormed(nextId, models, p, asSession);
      id := nextId;
      nextId, models := nextId + 1, models[id := ModelState(p, {}, {}, [], asSession)];
      if p.Some? {
        AddChild(p.value, id);
      }
    }

    /** `childModels()`: a copy of the child set, each of whose members names
        this model as its parent. */
    function ChildModels(n: Id): (s: set<Id>)
      reads this`nextId, this`models
      requires Valid() && n < nextId
      ensures forall c: Id :: c in s ==> c < nextId && models[c].parent == Some(n) && n < c
    {
      models[n].children
    }

    /** `addChild`; its one caller, `init(parent:)`, passes a model whose parent is `p`. */
    method AddChild(p: Id, c: Id)
      requires Valid() && p < nextId && c < nextId && models[c].parent == Some(p)
      modifies this`models
      ensures Valid()
      ensures models == old(models)[p := old(models)[p].(children := old(models)[p].children + {c})]
    {
      AddChildKeepsWellFormed(nextId, models, p, c);
      models := models[p := models[p].(children := models[p].children + {c})];
    }

    /** `removeChild`: removing a model that is not a child changes nothing. */
    method RemoveChild(p: Id, c: Id)
      requires Valid() && p < nextId
      modifies this`models
      ensures Valid()
      ensures models == old(models)[p := old(models)[p].(children := old(models)[p].children - {c})]
      ensures c !in old(models)[p].children ==> models == old(models)
    {
      RemoveChildKeepsWellFormed(nextId, models, p, c);
      if c !in models[p].children {
        assert models[p].(children := models[p].children - {c}) == models[p];
        assert models[p := models[p]] == models;
      }
      models := models[p := models[p].(children := models[p].children - {c})];
    }

    /** `removeFromParent`: leaves the parent's child set and no other. The
        model keeps its `parent` reference and its own children; with no parent,
        or a second time, nothing changes. */
    method RemoveFromParent(n: Id)
      requires Valid() && n < nextId
      modifies this`models
      ensures Valid()
      ensures match models[n].parent
        case None => models == old(models)
        case Some(q) => models == old(models)[q := old(models)[q].(children := old(models)[q].children - {n})]
      ensures forall q: Id :: q < nextId ==> n !in models[q].children
      ensures (forall q: Id :: q < nextId ==> n !in old(models)[q].children) ==> models == old(models)
    {
      if models[n].parent.Some? {
        RemoveChild(models[n].parent.value, n);
      }
    }

    // -------------------------------------------------------------------------
    // The chain of parents

    /** The parent, its parent, and so on up to a root. */
    ghost function Ancestors(n: Id): (r: seq<Id>)
      reads this`nextId, this`models
      requires Valid() && n < nextId
      ensures forall i :: 0 <= i < |r| ==> r[i] < n
      decreases n
    {
      match models[n].parent
      case None => []
      case Some(q) => [q] + Ancestors(q)
    }

    /** The models that are `Session` instances. */
    ghost function Sessions(): (s: set<Id>)
      reads this`nextId, this`models
      requires Valid()
      ensures forall m: Id :: m in s <==> m < nextId && models[m].isSession
    {
      set m | m in models && models[m].isSession
    }

    /** `session()`: the nearest ancestor that is a `Session`, starting at the
        parent, so never the model itself; none when no ancestor is one. */
    function Session(n: Id): (s: Option<Id>)
      reads this`nextId, this`models
      requires Valid() && n < nextId
      ensures s.None? ==> forall i :: 0 <= i < |Ancestors(n)| ==> Ancestors(n)[i] !in Sessions()
      ensures s.Some? ==> NearestIn(Ancestors(n), Sessions(), s.value) && s.value < n
      decreases n
    {
      match models[n].parent
      case None => None
      case Some(q) =>
        if models[q].isSession then
          assert Ancestors(n)[0] == q;
          Some(q)
        else
          var s := Session(q);
          if s.Some? then NearestInCons(q, Ancestors(q), Sessions(), s.value); s else s
    }

    // -------------------------------------------------------------------------
    // Errors

    /** `isRegisteredForError`: some registered error is `==` to `e`. */
    function IsRegisteredForError(n: Id, e: Error): (r: bool)
      reads this`nextId, this`models
      requires Valid() && n < nextId
      ensures r <==> exists x :: Key(x) in models[n].registered && Equal(x, e)
    {
      assert Equal(e, e);
      Key(e) in models[n].registered
    }

    /** `registerForError`: afterwards `e` is registered; registering twice is
        the same as once; no other registration changes. */
    method RegisterForError(n: Id, e: Error)
      requires Valid() && n < nextId
      modifies this`models
      ensures Valid()
      ensures models == old(models)[n := old(models)[n].(registered := old(models)[n].registered + {Key(e)})]
      ensures IsRegisteredForError(n, e)
      ensures old(IsRegisteredForError(n, e)) ==> models == old(models)
      ensures forall m: Id, x :: m < nextId && (m != n || !Equal(x, e)) ==>
        (IsRegisteredForError(m, x) <==> old(IsRegisteredForError(m, x)))
    {
      RegisteredKeepsWellFormed(nextId, models, n, models[n].registered + {Key(e)});
      if Key(e) in models[n].registered {
        assert models[n].(registered := models[n].registered + {Key(e)}) == models[n];
        assert models[n := models[n]] == models;
      }
      models := models[n := models[n].(registered := models[n].registered + {Key(e)})];
    }

    /** `registerForErrorCodes(codes, inDomain:)`: registers exactly the error of
        each code in the domain. */
    method RegisterForErrorCodes(n: Id, codes: seq<ErrorCode>, domain: ErrorDomain)
      requires Valid() && n < nextId
      modifies this`models
      ensures Valid()
      ensures models == old(models)[n := old(models)[n].(registered :=
        old(models)[n].registered + (set c | c in codes :: Key(Error(domain, c))))]
      ensures forall c :: c in codes ==> IsRegisteredForError(n, Error(domain, c))
    {
      ghost var start := models[n];
      assert codes[..0] == [];
      assert start.(registered := start.registered + {}) == start;
      assert models[n := start] == models;
      for i := 0 to |codes|
        invariant Valid()
        invariant models == old(models)[n := start.(registered := start.registered + CodeKeys(domain, codes[..i]))]
      {
        ghost var k := Key(Error(domain, codes[i]));
        assert codes[..i + 1][..i] == codes[..i];
        assert CodeKeys(domain, codes[..i + 1]) == CodeKeys(domain, codes[..i]) + {k};
        RegisterForError(n, Error(domain, codes[i]));
        assert models[n] == start.(registered := start.registered + CodeKeys(domain, codes[..i + 1]));
      }
      assert codes[..|codes|] == codes;
      CodeKeysAreTheCodesKeys(domain, codes);
    }

    /** `unregisterFromError`: afterwards `e` is not registered; a second call
        changes nothing; no other registration changes. */
    method UnregisterFromError(n: Id, e: Error)
      requires Valid() && n < nextId
      modifies this`models
      ensures Valid()
      ensures models == old(models)[n := old(models)[n].(registered := old(models)[n].registered - {Key(e)})]
      ensures !IsRegisteredForError(n, e)
      ensures !old(IsRegisteredForError(n, e)) ==> models == old(models)
      ensures forall m: Id, x :: m < nextId && (m != n || !Equal(x, e)) ==>
        (IsRegisteredForError(m, x) <==> old(IsRegisteredForError(m, x)))
    {
      RegisteredKeepsWellFormed(nextId, models, n, models[n].registered - {Key(e)});
      if Key(e) !in models[n].registered {
        assert models[n].(registered := models[n].registered - {Key(e)}) == models[n];
        assert models[n := models[n]] == models;
      }
      models := models[n := models[n].(registered := models[n].registered - {Key(e)})];
    }

    /** The models registered for `e`. */
    ghost function Registrants(e: Error): (s: set<Id>)
      reads this`nextId, this`models
      requires Valid()
      ensures forall m: Id :: m in s <==> m < nextId && IsRegisteredForError(m, e)
    {
      set m | m in models && Key(e) in models[m].registered
    }

    /** The model itself, then its ancestors. */
    ghost function Chain(n: Id): (r: seq<Id>)
      reads this`nextId, this`models
      requires Valid() && n < nextId
      ensures |r| > 0 && r[0] == n && forall i :: 0 <= i < |r| ==> r[i] < nextId
    {
      [n] + Ancestors(n)
    }

    /** The model that a `raiseError(e)` on `n` delivers to: the first one in
        `Chain(n)` that is registered for `e`, or none. */
    ghost function ErrorTarget(n: Id, e: Error): (t: Option<Id>)
      reads this`nextId, this`models
      requires Valid() && n < nextId
      ensures t.None? ==> forall i :: 0 <= i < |Chain(n)| ==> Chain(n)[i] !in Registrants(e)
      ensures t.Some? ==> NearestIn(Chain(n), Registrants(e), t.value)
      decreases n
    {
      if IsRegisteredForError(n, e) then
        assert Chain(n)[0] == n;
        Some(n)
      else
        match models[n].parent
        case None => None
        case Some(q) =>
          var t := ErrorTarget(q, e);
          assert Chain(n) == [n] + Chain(q);
          if t.Some? then NearestInCons(n, Chain(q), Registrants(e), t.value); t else t
    }

    /** `raiseError`: delivers `e` once, to the first model up the chain that is
        registered for it; with none registered it delivers nothing. */
    method RaiseError(n: Id, e: Error)
      requires Valid() && n < nextId
      modifies this`errorLog
      ensures errorLog == old(errorLog) + match ErrorTarget(n, e)
        case Some(t) => [Delivery(t, e)]
        case None => []
      decreases n
    {
      if IsRegisteredForError(n, e) {
        errorLog := errorLog + [Delivery(n, e)];
      } else if models[n].parent.Some? {
        RaiseError(models[n].parent.value, e);
      }
    }

    // -------------------------------------------------------------------------
    // Session events

    /** `unregisterFromEvent`: drops every wrapper for `ev`, keeping the others
        in order; afterwards no handler is registered for `ev`. */
    method UnregisterFromEvent(n: Id, ev: SessionEvent)
      requires Valid() && n < nextId
      modifies this`models
      ensures Valid()
      ensures models == old(models)[n := old(models)[n].(handlers := Without(old(models)[n].handlers, ev))]
      ensures HandlerFor(models[n].handlers, ev).None?
    {
      WithoutKeepsOneWrapperPerEvent(models[n].handlers, ev);
      HandlersKeepWellFormed(nextId, models, n, Without(models[n].handlers, ev));
      models := models[n := models[n].(handlers := Without(models[n].handlers, ev))];
    }

    /** `registerForEvent`: replaces any handler for `ev` by `h`, appended last. */
    method RegisterForEvent(n: Id, ev: SessionEvent, h: HandlerId)
      requires Valid() && n < nextId
      modifies this`models
      ensures Valid()
      ensures models == old(models)[n := old(models)[n].(handlers := Without(old(models)[n].handlers, ev) + [Wrapper(ev, h)])]
      ensures HandlerFor(models[n].handlers, ev) == Some(h)
    {
      RegisterKeepsOneWrapperPerEvent(models[n].handlers, ev, h);
      UnregisterFromEvent(n, ev);
      var ws := models[n].handlers + [Wrapper(ev, h)];
      HandlersKeepWellFormed(nextId, models, n, ws);
      models := models[n := models[n].(handlers := ws)];
    }

    /** `propagateEvent`: calls `r`'s own handlers for `ev`, then propagates
        to each model of the child set. Its two loops are the two methods below. */
    method PropagateEvent(r: Id, ev: SessionEvent, payload: Option<Payload>)
      requires Valid() && r < nextId
      modifies this`callLog
      ensures Broadcast(nextId, models, old(callLog), callLog, r, ev, payload)
      ensures DepthFirst(nextId, models, callLog[|old(callLog)|..], r, ev, payload)
      decreases nextId - r, 1
    {
      ghost var start := callLog;
      CallOwnHandlers(r, ev, payload);
      LocalCallsAppend(models, start, r, ev, payload);
      ghost var mid := callLog;
      PropagateToChildren(r, ev, payload);
      BroadcastOfParts(nextId, models, r, start, mid, callLog, ev, payload);
      DepthFirstOfParts(nextId, models, r, start, mid, callLog, ev, payload);
    }

    /** The first loop of `propagateEvent`: calls each handler of `r` whose
        wrapper's event is `ev`, in list order. */
    method CallOwnHandlers(r: Id, ev: SessionEvent, payload: Option<Payload>)
      requires r in models
      modifies this`callLog
      ensures callLog == old(callLog) + LocalCalls(models[r].handlers, r, ev, payload)
    {
      var ws := models[r].handlers;
      for i := 0 to |ws|
        invariant callLog == old(callLog) + CallsUpTo(ws, i, r, ev, payload)
      {
        if ws[i].event == ev {
          callLog := callLog + [Call(r, ws[i].handler, ev, payload)];
        }
      }
      CallsUpToAreLocalCalls(ws, |ws|, r, ev, payload);
      assert ws[..|ws|] == ws;
    }

    /** The second loop of `propagateEvent`: a broadcast from each model of the
        child set, in an unspecified order; the set is a copy, taken first. */
    method PropagateToChildren(r: Id, ev: SessionEvent, payload: Option<Payload>)
      requires Valid() && r < nextId
      modifies this`callLog
      ensures Appends(models, old(callLog), callLog, SubtreesOf(nextId, models, models[r].children), ev, payload)
      ensures ChildrenInTurn(nextId, models, callLog[|old(callLog)|..], r, models[r].children, ev, payload)
      decreases nextId - r, 0
    {
      ghost var start, n, ms := callLog, nextId, models;
      var kids := ChildModels(r);
      assert SubtreesOf(n, ms, ms[r].children - kids) == {};
      assert callLog[|start|..] == [];
      while kids != {}
        invariant kids <= ms[r].children
        invariant Appends(ms, start, callLog, SubtreesOf(n, ms, ms[r].children - kids), ev, payload)
        invariant ChildrenInTurn(n, ms, callLog[|start|..], r, ms[r].children - kids, ev, payload)
        decreases |kids|
      {
        var c :| c in kids;
        ghost var mid := callLog;
        PropagateEvent(c, ev, payload);
        ChildStep(n, ms, r, kids, c, start, mid, callLog, ev, payload);
        ChildTurn(n, ms, r, kids, c, start, mid, callLog, ev, payload);
        kids := kids - {c};
      }
      assert ms[r].children - kids == ms[r].children;
    }

    /** `raiseSessionEvent`: a broadcast from `session()`; nothing happens when
        the model has no session. */
    method RaiseSessionEvent(n: Id, ev: SessionEvent, payload: Option<Payload>)
      requires Valid() && n < nextId
      modifies this`callLog
      ensures Session(n).None? ==> callLog == old(callLog)
      ensures Session(n).Some? ==> Broadcast(nextId, models, old(callLog), callLog, Session(n).value, ev, payload)
      ensures Session(n).Some? ==> DepthFirst(nextId, models, callLog[|old(callLog)|..], Session(n).value, ev, payload)
    {
      var s := Session(n);
      if s.Some? {
        PropagateEvent(s.value, ev, payload);
      }
    }
  }
}
