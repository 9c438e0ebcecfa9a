/** The middleware's operations as the program runs them, each one a step of the state machine. */
module SessionMiddleware {
  import opened Sessions
  import opened SessionRuns

  class Middleware {
    var cache: map<string, Ref>
    var nodes: map<Ref, Node>
    var store: map<string, Entries>
    var active: set<Request>
    var ctx: map<Request, Ref>
    ghost var log: seq<StoreOp>

    ghost function Value(): (s: State)
      reads this
    {
      State(cache, nodes, store, active, ctx, log)
    }

    constructor (saved: map<string, Entries>)
      requires "" !in saved
      ensures Inv(Value()) && store == saved && active == {} && log == []
    {
      cache, nodes, store, active, ctx, log := map[], map[], saved, {}, map[], [];
    }

    /** Moves a session's entries out of the store; `leftover` is what the moved-from map holds. */
    method Load(id: string, leftover: Entries) returns (entries: Entries)
      requires id in store
      modifies `store, `log
      ensures entries == old(store)[id] && store == old(store)[id := leftover] && log == old(log) + [Loaded(id)]
    {
      entries := store[id];
      store := store[id := leftover];
      log := log + [Loaded(id)];
    }

    method Save(id: string, entries: Entries)
      modifies `store, `log
      ensures store == old(store)[id := entries] && log == old(log) + [Saved(id)]
    {
      store := store[id := entries];
      log := log + [Saved(id)];
    }

    method BeforeHandle(req: Request, cookie: string, ref: Ref, leftover: Entries)
      requires Inv(Value()) && Enabled(Value(), Before(req, cookie, ref, leftover))
      modifies this
      ensures Value() == Step(old(Value()), Before(req, cookie, ref, leftover)) && Inv(Value())
    {
      hide Inv, Enabled, Step;
      BeforeIs(Value(), req, cookie, ref, leftover);
      active := active + {req};
      if cookie == "" {
        return;
      }
      if cookie in cache {
        var c := cache[cookie];
        nodes := nodes[c := nodes[c].(referrers := nodes[c].referrers + 1)];
        ctx := ctx[req := c];
        return;
      }
      if cookie !in store {
        return;
      }
      LoadNode(req, cookie, ref, leftover);
    }

    /** The first request of a stored session: a new cached node takes over its entries. */
    method LoadNode(req: Request, cookie: string, ref: Ref, leftover: Entries)
      requires cookie in store
      modifies this
      ensures Value() == old(Value()).(nodes := old(nodes)[ref := Node(cookie, old(store)[cookie], 1)],
                                       store := old(store)[cookie := leftover],
                                       ctx := old(ctx)[req := ref],
                                       cache := old(cache)[cookie := ref],
                                       log := old(log) + [Loaded(cookie)])
    {
      var entries := Load(cookie, leftover);
      nodes := nodes[ref := Node(cookie, entries, 1)];
      ctx := ctx[req := ref];
      cache := cache[cookie := ref];
    }

    method SetValue(req: Request, key: string, value: string, ref: Ref)
      requires Inv(Value()) && Enabled(Value(), Set(req, key, value, ref))
      modifies `nodes, `ctx
      ensures Value() == Step(old(Value()), Set(req, key, value, ref)) && Inv(Value())
    {
      StepKeepsInv(Value(), Set(req, key, value, ref));
      hide Inv;
      if req !in ctx {
        nodes := nodes[ref := Node("", map[], 0)];
        ctx := ctx[req := ref];
      }
      var c := ctx[req];
      nodes := nodes[c := nodes[c].(entries := nodes[c].entries[key := value])];
    }

    method RemoveValue(req: Request, key: string)
      requires Inv(Value()) && Enabled(Value(), Remove(req, key))
      modifies `nodes
      ensures Value() == Step(old(Value()), Remove(req, key)) && Inv(Value())
    {
      StepKeepsInv(Value(), Remove(req, key));
      hide Inv;
      if req !in ctx {
        return;
      }
      var c := ctx[req];
      nodes := nodes[c := nodes[c].(entries := nodes[c].entries - {key})];
    }

    /** Whatever id is drawn for a new session; the invariant is kept exactly when a drawn id is not cached. */
    method AfterHandle(req: Request, newId: string)
      requires Inv(Value()) && req in active && newId != ""
      modifies this
      ensures Value() == Step(old(Value()), After(req, newId))
      ensures Inv(Value()) <==> (Draws(old(Value()), req) ==> newId !in old(cache))
    {
      hide Inv, Draws, Step;
      AfterIs(Value(), req, newId);
      active := active - {req};
      if req !in ctx {
        assert ctx - {req} == ctx;
        return;
      }
      var c := ctx[req];
      ctx := ctx - {req};
      var n := nodes[c].(referrers := nodes[c].referrers - 1);
      if n.referrers > 0 {
        nodes := nodes[c := n];
        return;
      }
      SaveNode(c, n, newId);
    }

    /** The last holder leaves: the node goes and its entries are saved. */
    method SaveNode(c: Ref, n: Node, newId: string)
      modifies `cache, `nodes, `store, `log
      ensures var id := if n.id == "" then newId else n.id;
              Value() == old(Value()).(cache := if n.id == "" then old(cache) else old(cache) - {n.id},
                                       nodes := old(nodes) - {c},
                                       store := old(store)[id := n.entries],
                                       log := old(log) + [Saved(id)])
    {
      var id := n.id;
      if id == "" {
        id := newId;
      } else {
        cache := cache - {id};
      }
      nodes := nodes - {c};
      Save(id, n.entries);
    }

    /** A request that finds a value where another one left it: reads see the plain table. */
    method GetValue(req: Request, key: string, fallback: string) returns (value: string)
      requires Inv(Value())
      ensures Links(Value())
      ensures var p := Abs(Value());
              value == if req in p.handles then
                         var m := (match p.handles[req] case Joined(id) => if id in p.sessions then p.sessions[id] else map[] case Draft(d) => d);
                         if key in m then m[key] else fallback
                       else fallback
    {
      InvLinks(Value());
      if req !in ctx {
        return fallback;
      }
      assert HandleAt(Value(), req) == Handles(Value())[req];
      var c := ctx[req];
      var m := nodes[c].entries;
      if nodes[c].id != "" {
        assert SessionAt(Value(), nodes[c].id) == m;
      }
      value := if key in m then m[key] else fallback;
    }
  }

  lemma {:induction false} BeforeIs(s: State, req: Request, cookie: string, ref: Ref, leftover: Entries)
    requires Inv(s) && Enabled(s, Before(req, cookie, ref, leftover))
    ensures cookie in s.cache ==> s.cache[cookie] in s.nodes
    ensures Inv(StepBefore(s, req, cookie, ref, leftover))
    ensures Step(s, Before(req, cookie, ref, leftover)) == StepBefore(s, req, cookie, ref, leftover)
  {
    StepKeepsInv(s, Before(req, cookie, ref, leftover));
  }

  lemma {:induction false} AfterIs(s: State, req: Request, newId: string)
    requires Inv(s) && req in s.active && newId != ""
    ensures req in s.ctx ==> s.ctx[req] in s.nodes
    ensures (forall q :: q in s.ctx ==> s.ctx[q] in s.nodes) && (forall id :: id in s.cache ==> s.cache[id] in s.nodes)
    ensures Step(s, After(req, newId)) == StepAfter(s, req, newId)
    ensures Inv(StepAfter(s, req, newId)) <==> (Draws(s, req) ==> newId !in s.cache)
  {
    AfterKeepsInvIff(s, req, newId);
  }
}
