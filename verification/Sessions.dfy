/**
  The session middleware over its in-memory store. Requests share cached
  session nodes by reference count; a session's entries move out of the store
  when its first request arrives and back when the last one leaves. Every step
  is taken under the middleware's lock, so a run is any interleaving of steps.
 */
module Sessions {
  type Entries = map<string, string>
  type Ref = nat
  type Request = nat

  /** A shared session node; an empty id marks a session that has not been created yet. */
  datatype Node = Node(id: string, entries: Entries, referrers: int)

  datatype StoreOp = Loaded(id: string) | Saved(id: string)

  /** `ctx` gives the node each request in flight holds; `log` is the history of store operations. */
  datatype State = State(
    cache: map<string, Ref>,
    nodes: map<Ref, Node>,
    store: map<string, Entries>,
    active: set<Request>,
    ctx: map<Request, Ref>,
    log: seq<StoreOp>)

  /** Things outside the program's control: the node address, the moved-from map, the random id. */
  datatype Event =
    | Before(req: Request, cookie: string, ref: Ref, leftover: Entries)
    | Set(req: Request, key: string, value: string, ref: Ref)
    | Remove(req: Request, key: string)
    | After(req: Request, newId: string)

  // ---------------------------------------------------------------- the steps

  function StepBefore(s: State, req: Request, cookie: string, ref: Ref, leftover: Entries): (r: State)
    requires cookie in s.cache ==> s.cache[cookie] in s.nodes
  {
    var t := s.(active := s.active + {req});
    if cookie == "" then t
    else if cookie in s.cache then
      var c := s.cache[cookie];
      var n := s.nodes[c];
      t.(nodes := s.nodes[c := n.(referrers := n.referrers + 1)], ctx := s.ctx[req := c])
    else if cookie !in s.store then t
    else
      t.(nodes := s.nodes[ref := Node(cookie, s.store[cookie], 1)],
         store := s.store[cookie := leftover],
         ctx := s.ctx[req := ref],
         cache := s.cache[cookie := ref],
         log := s.log + [Loaded(cookie)])
  }

  /** The node a request writes to, created on first use. */
  function WithNode(s: State, req: Request, ref: Ref): (r: State) {
    if req in s.ctx then s else s.(nodes := s.nodes[ref := Node("", map[], 0)], ctx := s.ctx[req := ref])
  }

  function StepSet(s: State, req: Request, key: string, value: string, ref: Ref): (r: State)
    requires req in s.ctx ==> s.ctx[req] in s.nodes
  {
    var t := WithNode(s, req, ref);
    var c := t.ctx[req];
    t.(nodes := t.nodes[c := t.nodes[c].(entries := t.nodes[c].entries[key := value])])
  }

  function StepRemove(s: State, req: Request, key: string): (r: State)
    requires req in s.ctx ==> s.ctx[req] in s.nodes
  {
    if req !in s.ctx then s
    else
      var c := s.ctx[req];
      s.(nodes := s.nodes[c := s.nodes[c].(entries := s.nodes[c].entries - {key})])
  }

  function StepAfter(s: State, req: Request, newId: string): (r: State)
    requires req in s.ctx ==> s.ctx[req] in s.nodes
  {
    var t := s.(active := s.active - {req}, ctx := s.ctx - {req});
    if req !in s.ctx then t
    else
      var c := s.ctx[req];
      var n := s.nodes[c].(referrers := s.nodes[c].referrers - 1);
      if n.referrers > 0 then t.(nodes := s.nodes[c := n])
      else
        var id := if n.id == "" then newId else n.id;
        t.(cache := if n.id == "" then s.cache else s.cache - {n.id},
           nodes := s.nodes - {c},
           store := s.store[id := n.entries],
           log := s.log + [Saved(id)])
  }

  // ---------------------------------------------------------------- what every step keeps

  ghost function Holders(s: State, c: Ref): (rs: set<Request>) {
    set q | q in s.ctx && s.ctx[q] == c
  }

  /** A node shared through the cache: counted exactly. */
  ghost predicate Shared(s: State, c: Ref)
    requires c in s.nodes
  {
    var n := s.nodes[c];
    n.id != "" && n.id in s.cache && s.cache[n.id] == c && n.referrers == |Holders(s, c)| && Holders(s, c) != {}
  }

  /** A node of a session not created yet: private to one request. */
  ghost predicate Private(s: State, c: Ref)
    requires c in s.nodes
  {
    s.nodes[c].id == "" && s.nodes[c].referrers == 0 && exists q :: Holders(s, c) == {q}
  }

  /** The ids loaded and not saved since. */
  function Open(log: seq<StoreOp>): (ids: set<string>) {
    if log == [] then {}
    else
      match log[|log| - 1]
      case Loaded(id) => Open(log[..|log| - 1]) + {id}
      case Saved(id) => Open(log[..|log| - 1]) - {id}
  }

  /** No id is loaded while an earlier load of it has not been saved. */
  predicate NoDoubleLoad(log: seq<StoreOp>) {
    forall k :: 0 <= k < |log| && log[k].Loaded? ==> log[k].id !in Open(log[..k])
  }

  /** How requests, cache and store refer to the nodes. */
  ghost predicate Ties(s: State) {
    && s.ctx.Keys <= s.active
    && (forall q :: q in s.ctx ==> s.ctx[q] in s.nodes)
    && (forall id :: id in s.cache ==> id != "" && id in s.store && s.cache[id] in s.nodes && s.nodes[s.cache[id]].id == id)
    && "" !in s.store
  }

  ghost predicate Inv(s: State) {
    && Ties(s)
    && (forall c :: c in s.nodes ==> Shared(s, c) || Private(s, c))
    && Open(s.log) == s.cache.Keys
    && NoDoubleLoad(s.log)
  }

  /** The request leaves a session of its own that still needs an id. */
  predicate Draws(s: State, req: Request) { req in s.ctx && s.ctx[req] in s.nodes && s.nodes[s.ctx[req]].id == "" }

  /**
    A step as the surroundings can offer it: each request begins and ends once,
    addresses are fresh, and an id drawn for a new session is not in the cache.
    It may be in the store.
   */
  ghost predicate Enabled(s: State, e: Event) {
    match e
    case Before(req, _, ref, _) => req !in s.active && ref !in s.nodes
    case Set(req, _, _, ref) => req in s.active && ref !in s.nodes
    case Remove(req, _) => req in s.active
    case After(req, newId) => req in s.active && newId != "" && (Draws(s, req) ==> newId !in s.cache)
  }

  function Step(s: State, e: Event): (r: State)
    requires forall q :: q in s.ctx ==> s.ctx[q] in s.nodes
    requires forall id :: id in s.cache ==> s.cache[id] in s.nodes
  {
    match e
    case Before(req, cookie, ref, leftover) => StepBefore(s, req, cookie, ref, leftover)
    case Set(req, key, value, ref) => StepSet(s, req, key, value, ref)
    case Remove(req, key) => StepRemove(s, req, key)
    case After(req, newId) => StepAfter(s, req, newId)
  }

  /** Two live nodes never stand for the same session. */
  lemma {:induction false} OneNodePerId(s: State, c: Ref, d: Ref)
    requires Inv(s) && c in s.nodes && d in s.nodes && s.nodes[c].id == s.nodes[d].id != ""
    ensures c == d
  {
  }

  /** A cached node counts exactly the requests in flight that hold it. */
  lemma {:induction false} ReferrersCountHolders(s: State, id: string)
    requires Inv(s) && id in s.cache
    ensures s.nodes[s.cache[id]].referrers == |Holders(s, s.cache[id])| > 0
  {
    var c := s.cache[id];
    assert Shared(s, c);
  }

  lemma {:induction false} LogGrows(log: seq<StoreOp>, op: StoreOp)
    requires NoDoubleLoad(log) && (op.Loaded? ==> op.id !in Open(log))
    ensures NoDoubleLoad(log + [op])
    ensures Open(log + [op]) == match op case Loaded(id) => Open(log) + {id} case Saved(id) => Open(log) - {id}
  {
    var l := log + [op];
    assert l[..|log|] == log;
    forall k | 0 <= k < |l| && l[k].Loaded? ensures l[k].id !in Open(l[..k]) {
      if k < |log| {
        assert l[..k] == log[..k];
      }
    }
  }

  /** A change that leaves the holders and the marks of a node alone leaves its kind alone. */
  lemma {:induction false} KindKept(s: State, t: State, c: Ref)
    requires c in s.nodes && c in t.nodes
    requires t.nodes[c].id == s.nodes[c].id && t.nodes[c].referrers == s.nodes[c].referrers
    requires Holders(t, c) == Holders(s, c)
    requires s.nodes[c].id in s.cache ==> s.nodes[c].id in t.cache && t.cache[s.nodes[c].id] == s.cache[s.nodes[c].id]
    ensures Shared(s, c) ==> Shared(t, c)
    ensures Private(s, c) ==> Private(t, c)
  {
  }

  lemma {:induction false} JoinedShared(s: State, t: State, req: Request, id: string)
    requires Inv(s) && id in s.cache && req !in s.ctx
    requires var c := s.cache[id];
             t.ctx == s.ctx[req := c] && t.cache == s.cache && c in t.nodes
             && t.nodes[c] == s.nodes[c].(referrers := s.nodes[c].referrers + 1)
    ensures Shared(t, s.cache[id])
  {
    var c := s.cache[id];
    assert Shared(s, c);
    assert Holders(t, c) == Holders(s, c) + {req};
  }

  lemma {:induction false} BeforeJoinsKinds(s: State, req: Request, cookie: string, ref: Ref, leftover: Entries)
    requires Inv(s) && req !in s.active && cookie in s.cache
    ensures var t := StepBefore(s, req, cookie, ref, leftover); forall d :: d in t.nodes ==> Shared(t, d) || Private(t, d)
  {
    hide Shared, Private, Holders, NoDoubleLoad, Open;
    var t := StepBefore(s, req, cookie, ref, leftover);
    var c := s.cache[cookie];
    JoinedShared(s, t, req, cookie);
    forall d | d in t.nodes ensures Shared(t, d) || Private(t, d) {
      if d != c {
        OthersKept(s, t, req, c, d);
      }
    }
  }

  lemma {:induction false} BeforeJoins(s: State, req: Request, cookie: string, ref: Ref, leftover: Entries)
    requires Inv(s) && req !in s.active && cookie in s.cache
    ensures Inv(StepBefore(s, req, cookie, ref, leftover))
  {
    BeforeJoinsKinds(s, req, cookie, ref, leftover);
    BeforeJoinsTies(s, req, cookie, ref, leftover);
    hide Shared, Private, NoDoubleLoad, Open;
  }

  lemma {:induction false} BeforeJoinsTies(s: State, req: Request, cookie: string, ref: Ref, leftover: Entries)
    requires Ties(s) && req !in s.active && cookie in s.cache
    ensures Ties(StepBefore(s, req, cookie, ref, leftover))
  {
  }

  /** Taking a reference to a node leaves the kinds of all other nodes alone. */
  lemma {:induction false} OthersKept(s: State, t: State, req: Request, c: Ref, d: Ref)
    requires d in s.nodes && d in t.nodes && t.nodes[d] == s.nodes[d] && d != c
    requires req !in s.ctx && t.ctx == s.ctx[req := c]
    requires s.nodes[d].id in s.cache ==> s.nodes[d].id in t.cache && t.cache[s.nodes[d].id] == s.cache[s.nodes[d].id]
    requires Shared(s, d) || Private(s, d)
    ensures Shared(t, d) || Private(t, d)
  {
    assert Holders(t, d) == Holders(s, d);
    hide Holders;
    KindKept(s, t, d);
  }

  lemma {:induction false} BeforeLoadsKinds(s: State, req: Request, cookie: string, ref: Ref, leftover: Entries)
    requires Inv(s) && req !in s.active && ref !in s.nodes && cookie != "" && cookie !in s.cache && cookie in s.store
    ensures var t := StepBefore(s, req, cookie, ref, leftover); forall d :: d in t.nodes ==> Shared(t, d) || Private(t, d)
  {
    hide Shared, Private, Holders, NoDoubleLoad, Open;
    var t := StepBefore(s, req, cookie, ref, leftover);
    forall d | d in t.nodes ensures Shared(t, d) || Private(t, d) {
      if d == ref {
        LoadedShared(s, t, req, ref);
      } else {
        OthersKept(s, t, req, ref, d);
      }
    }
  }

  lemma {:induction false} LoadedShared(s: State, t: State, req: Request, ref: Ref)
    requires ref !in s.nodes && Ties(s) && t.ctx == s.ctx[req := ref]
    requires ref in t.nodes && t.nodes[ref].id != "" && t.nodes[ref].referrers == 1
    requires t.nodes[ref].id in t.cache && t.cache[t.nodes[ref].id] == ref
    ensures Shared(t, ref)
  {
    assert Holders(t, ref) == {req};
  }

  lemma {:induction false} BeforeLoads(s: State, req: Request, cookie: string, ref: Ref, leftover: Entries)
    requires Inv(s) && req !in s.active && ref !in s.nodes && cookie != "" && cookie !in s.cache && cookie in s.store
    ensures Inv(StepBefore(s, req, cookie, ref, leftover))
  {
    LogGrows(s.log, Loaded(cookie));
    BeforeLoadsKinds(s, req, cookie, ref, leftover);
    BeforeLoadsTies(s, req, cookie, ref, leftover);
    hide Shared, Private, NoDoubleLoad, Open;
  }

  lemma {:induction false} BeforeLoadsTies(s: State, req: Request, cookie: string, ref: Ref, leftover: Entries)
    requires Ties(s) && req !in s.active && ref !in s.nodes && cookie != "" && cookie !in s.cache && cookie in s.store
    ensures Ties(StepBefore(s, req, cookie, ref, leftover))
  {
  }

  lemma {:induction false} WithNodeKeeps(s: State, req: Request, ref: Ref)
    requires Inv(s) && req in s.active && ref !in s.nodes
    ensures Inv(WithNode(s, req, ref)) && req in WithNode(s, req, ref).ctx
  {
    var t := WithNode(s, req, ref);
    if req !in s.ctx {
      forall d | d in t.nodes ensures Shared(t, d) || Private(t, d) {
        if d == ref {
          assert Holders(t, ref) == {req};
        } else {
          assert Holders(t, d) == Holders(s, d);
          KindKept(s, t, d);
        }
      }
    }
  }

  /** Changing the entries of a node changes nothing else. */
  lemma {:induction false} WriteKeeps(s: State, c: Ref, entries: Entries)
    requires Inv(s) && c in s.nodes
    ensures Inv(s.(nodes := s.nodes[c := s.nodes[c].(entries := entries)]))
  {
    var t := s.(nodes := s.nodes[c := s.nodes[c].(entries := entries)]);
    WriteTies(s, c, entries);
    hide Ties, Shared, Private, NoDoubleLoad, Open;
    forall d | d in t.nodes ensures Shared(t, d) || Private(t, d) {
      assert Holders(t, d) == Holders(s, d);
      KindKept(s, t, d);
    }
  }

  lemma {:induction false} WriteTies(s: State, c: Ref, entries: Entries)
    requires Ties(s) && c in s.nodes
    ensures Ties(s.(nodes := s.nodes[c := s.nodes[c].(entries := entries)]))
  {
  }

  lemma {:induction false} AfterLeaves(s: State, req: Request, newId: string)
    requires Inv(s) && req in s.ctx && s.nodes[s.ctx[req]].referrers > 1
    ensures Inv(StepAfter(s, req, newId))
  {
    var t := StepAfter(s, req, newId);
    var c := s.ctx[req];
    assert Shared(s, c);
    forall d | d in t.nodes ensures Shared(t, d) || Private(t, d) {
      if d == c {
        assert req in Holders(s, c);
        assert Holders(t, c) == Holders(s, c) - {req};
        assert t.nodes[c].referrers == |Holders(t, c)| > 0;
        assert Holders(t, c) != {};
        assert Shared(t, c);
      } else {
        assert Shared(s, d) || Private(s, d);
        assert Holders(t, d) == Holders(s, d);
        KindKept(s, t, d);
      }
    }
  }

  /** The last holder leaves: nobody else refers to the node that goes. */
  lemma {:induction false} LastHolder(s: State, req: Request)
    requires Inv(s) && req in s.ctx && s.nodes[s.ctx[req]].referrers <= 1
    ensures Holders(s, s.ctx[req]) == {req}
  {
    var c := s.ctx[req];
    assert req in Holders(s, c);
    if Shared(s, c) {
      assert |Holders(s, c)| == 1;
      assert Holders(s, c) - {req} == {} by {
        assert |Holders(s, c) - {req}| == 0;
      }
    } else {
      var q :| Holders(s, c) == {q};
    }
  }

  lemma {:induction false} AfterSavesKinds(s: State, req: Request, newId: string)
    requires Inv(s) && req in s.ctx && s.nodes[s.ctx[req]].referrers <= 1
    ensures var t := StepAfter(s, req, newId); forall d :: d in t.nodes ==> Shared(t, d) || Private(t, d)
  {
    var t := StepAfter(s, req, newId);
    LastHolder(s, req);
    forall d | d in t.nodes ensures Shared(t, d) || Private(t, d) {
      assert Shared(s, d) || Private(s, d);
      assert Holders(t, d) == Holders(s, d);
      KindKept(s, t, d);
    }
  }

  lemma {:induction false} AfterSavesTies(s: State, req: Request, newId: string)
    requires Inv(s) && req in s.ctx && s.nodes[s.ctx[req]].referrers <= 1
    requires newId != ""
    ensures Ties(StepAfter(s, req, newId))
  {
    LastHolder(s, req);
    hide Shared, Private;
    var t := StepAfter(s, req, newId);
    forall q | q in t.ctx ensures t.ctx[q] in t.nodes {
      assert q !in Holders(s, s.ctx[req]);
    }
  }

  lemma {:induction false} AfterSaves(s: State, req: Request, newId: string)
    requires Inv(s) && req in s.ctx && s.nodes[s.ctx[req]].referrers <= 1
    requires newId != "" && (Draws(s, req) ==> newId !in s.cache)
    ensures Inv(StepAfter(s, req, newId))
  {
    var t := StepAfter(s, req, newId);
    var c := s.ctx[req];
    LastHolder(s, req);
    var id := if s.nodes[c].id == "" then newId else s.nodes[c].id;
    LogGrows(s.log, Saved(id));
    AfterSavesKinds(s, req, newId);
    AfterSavesTies(s, req, newId);
    hide Shared, Private, Ties, NoDoubleLoad, Open;
    assert Open(t.log) == t.cache.Keys;
  }

  lemma {:induction false} StepKeepsInv(s: State, e: Event)
    requires Inv(s) && Enabled(s, e)
    ensures Inv(Step(s, e))
  {
    match e
    case Before(req, cookie, ref, leftover) =>
      if cookie in s.cache {
        BeforeJoins(s, req, cookie, ref, leftover);
      } else if cookie != "" && cookie in s.store {
        BeforeLoads(s, req, cookie, ref, leftover);
      } else {
        IdleKeeps(s, s.active + {req});
      }
    case Set(req, key, value, ref) =>
      WithNodeKeeps(s, req, ref);
      var t := WithNode(s, req, ref);
      WriteKeeps(t, t.ctx[req], t.nodes[t.ctx[req]].entries[key := value]);
    case Remove(req, key) =>
      if req in s.ctx {
        WriteKeeps(s, s.ctx[req], s.nodes[s.ctx[req]].entries - {key});
      }
    case After(req, newId) =>
      if req !in s.ctx {
        assert s.ctx - {req} == s.ctx;
        IdleKeeps(s, s.active - {req});
      } else if s.nodes[s.ctx[req]].referrers > 1 {
        AfterLeaves(s, req, newId);
      } else {
        AfterSaves(s, req, newId);
      }
  }

  lemma {:induction false} IdleKeeps(s: State, active: set<Request>)
    requires Inv(s) && s.ctx.Keys <= active
    ensures Inv(s.(active := active))
  {
    var t := s.(active := active);
    forall d | d in t.nodes ensures Shared(t, d) || Private(t, d) {
      assert Shared(s, d) || Private(s, d);
      assert Holders(t, d) == Holders(s, d);
      KindKept(s, t, d);
    }
  }

  /**
    A request may end with any drawn id, and the invariant survives exactly when
    the id is not used or not in the cache.
   */
  lemma {:induction false} AfterKeepsInvIff(s: State, req: Request, newId: string)
    requires Inv(s) && req in s.active && newId != ""
    ensures Inv(StepAfter(s, req, newId)) <==> (Draws(s, req) ==> newId !in s.cache)
  {
    if Draws(s, req) && newId in s.cache {
      CachedIdBreaks(s, req, newId);
    } else {
      StepKeepsInv(s, After(req, newId));
    }
  }

  /** Saving under a cached id closes an id that is still open. */
  lemma {:induction false} CachedIdBreaks(s: State, req: Request, newId: string)
    requires Inv(s) && Draws(s, req) && newId in s.cache
    ensures var t := StepAfter(s, req, newId);
            t.cache == s.cache && newId !in Open(t.log) && Open(t.log) != t.cache.Keys
  {
    var c := s.ctx[req];
    assert Shared(s, c) || Private(s, c);
    LogGrows(s.log, Saved(newId));
  }
}
