/**
  Loading, sharing and saving are invisible: over every interleaving the
  middleware behaves like a plain table of sessions that every request reads
  and writes directly.
 */
module SessionRuns {
  import opened Sessions

  // ---------------------------------------------------------------- the plain table

  /** What a request works on: a session it joined, or one of its own that does not exist yet. */
  datatype Handle = Joined(id: string) | Draft(entries: Entries)

  datatype Plain = Plain(sessions: map<string, Entries>, handles: map<Request, Handle>, active: set<Request>)

  datatype Change = Put(key: string, value: string) | Drop(key: string)

  function Apply(m: Entries, c: Change): (r: Entries) {
    match c
    case Put(key, value) => m[key := value]
    case Drop(key) => m - {key}
  }

  predicate Sound(p: Plain) {
    forall q :: q in p.handles && p.handles[q].Joined? ==> p.handles[q].id in p.sessions
  }

  function PlainWrite(p: Plain, req: Request, c: Change): (r: Plain)
    requires Sound(p)
  {
    if req in p.handles then
      match p.handles[req]
      case Joined(id) => p.(sessions := p.sessions[id := Apply(p.sessions[id], c)])
      case Draft(m) => p.(handles := p.handles[req := Draft(Apply(m, c))])
    else if c.Put? then p.(handles := p.handles[req := Draft(Apply(map[], c))])
    else p
  }

  function PlainStep(p: Plain, e: Event): (r: Plain)
    requires Sound(p)
  {
    match e
    case Before(req, cookie, _, _) =>
      var t := p.(active := p.active + {req});
      if cookie in p.sessions then t.(handles := p.handles[req := Joined(cookie)]) else t
    case Set(req, key, value, _) => PlainWrite(p, req, Put(key, value))
    case Remove(req, key) => PlainWrite(p, req, Drop(key))
    case After(req, newId) =>
      Plain(if req in p.handles && p.handles[req].Draft? then p.sessions[newId := p.handles[req].entries] else p.sessions,
            p.handles - {req}, p.active - {req})
  }

  // ---------------------------------------------------------------- what the middleware stands for

  /** The part of the invariant that says how references hang together. */
  ghost predicate Links(s: State) {
    && (forall q :: q in s.ctx ==> s.ctx[q] in s.nodes)
    && (forall id :: id in s.cache ==> id != "" && id in s.store && s.cache[id] in s.nodes && s.nodes[s.cache[id]].id == id)
    && (forall c :: c in s.nodes && s.nodes[c].id != "" ==> s.nodes[c].id in s.cache && s.cache[s.nodes[c].id] == c)
    && "" !in s.store
  }

  lemma {:induction false} InvLinks(s: State)
    requires Inv(s)
    ensures Links(s)
  {
    forall c | c in s.nodes && s.nodes[c].id != "" ensures s.nodes[c].id in s.cache && s.cache[s.nodes[c].id] == c {
      assert Shared(s, c) || Private(s, c);
    }
  }

  /** The current entries of a session: those of its node when it is cached. */
  ghost function SessionAt(s: State, id: string): (m: Entries)
    requires Links(s) && id in s.store
  {
    if id in s.cache then s.nodes[s.cache[id]].entries else s.store[id]
  }

  ghost function HandleAt(s: State, q: Request): (h: Handle)
    requires Links(s) && q in s.ctx
  {
    var n := s.nodes[s.ctx[q]];
    if n.id != "" then Joined(n.id) else Draft(n.entries)
  }

  ghost function Table(s: State): (m: map<string, Entries>)
    requires Links(s)
  {
    map id | id in s.store :: SessionAt(s, id)
  }

  ghost function Handles(s: State): (m: map<Request, Handle>)
    requires Links(s)
  {
    map q | q in s.ctx :: HandleAt(s, q)
  }

  ghost function Abs(s: State): (p: Plain)
    requires Links(s)
  {
    Plain(Table(s), Handles(s), s.active)
  }

  lemma {:induction false} AbsSound(s: State)
    requires Links(s)
    ensures Sound(Abs(s))
  {
  }

  lemma {:induction false} TableSame(s: State, t: State)
    requires Links(s) && Links(t) && t.store.Keys == s.store.Keys
    requires forall id :: id in s.store ==> SessionAt(t, id) == SessionAt(s, id)
    ensures Table(t) == Table(s)
  {
    hide Links, SessionAt;
  }

  lemma {:induction false} TableWith(s: State, t: State, id: string, m: Entries)
    requires Links(s) && Links(t) && t.store.Keys == s.store.Keys + {id}
    requires forall i :: i in s.store && i != id ==> SessionAt(t, i) == SessionAt(s, i)
    requires SessionAt(t, id) == m
    ensures Table(t) == Table(s)[id := m]
  {
    hide Links, SessionAt;
  }

  lemma {:induction false} HandlesSame(s: State, t: State)
    requires Links(s) && Links(t) && t.ctx.Keys == s.ctx.Keys
    requires forall q :: q in s.ctx ==> HandleAt(t, q) == HandleAt(s, q)
    ensures Handles(t) == Handles(s)
  {
    hide Links, HandleAt;
  }

  lemma {:induction false} HandlesWith(s: State, t: State, req: Request, h: Handle)
    requires Links(s) && Links(t) && t.ctx.Keys == s.ctx.Keys + {req}
    requires forall q :: q in s.ctx && q != req ==> HandleAt(t, q) == HandleAt(s, q)
    requires HandleAt(t, req) == h
    ensures Handles(t) == Handles(s)[req := h]
  {
    hide Links, HandleAt;
  }

  lemma {:induction false} HandlesWithout(s: State, t: State, req: Request)
    requires Links(s) && Links(t) && t.ctx.Keys == s.ctx.Keys - {req}
    requires forall q :: q in t.ctx ==> HandleAt(t, q) == HandleAt(s, q)
    ensures Handles(t) == Handles(s) - {req}
  {
    hide Links, HandleAt;
  }

  // ---------------------------------------------------------------- each step

  lemma {:induction false} JoinRefines(s: State, t: State, req: Request, cookie: string, ref: Ref, leftover: Entries)
    requires Links(s) && Links(t) && req !in s.ctx && cookie in s.cache && t == StepBefore(s, req, cookie, ref, leftover)
    ensures Table(t) == Table(s) && Handles(t) == Handles(s)[req := Joined(cookie)]
  {
    hide Table, Handles;
    TableSame(s, t);
    HandlesWith(s, t, req, Joined(cookie));
  }

  lemma {:induction false} LoadKeepsTable(s: State, t: State, req: Request, cookie: string, ref: Ref, leftover: Entries)
    requires Links(s) && Links(t) && ref !in s.nodes && cookie !in s.cache && cookie in s.store
    requires t == StepBefore(s, req, cookie, ref, leftover)
    ensures Table(t) == Table(s)
  {
    hide Table;
    assert t.store.Keys == s.store.Keys;
    forall id | id in s.store ensures SessionAt(t, id) == SessionAt(s, id) {
      if id in s.cache {
        assert t.cache[id] == s.cache[id] != ref;
      }
    }
    TableSame(s, t);
  }

  lemma {:induction false} LoadRefines(s: State, t: State, req: Request, cookie: string, ref: Ref, leftover: Entries)
    requires Links(s) && Links(t) && req !in s.ctx && ref !in s.nodes && cookie !in s.cache && cookie in s.store
    requires t == StepBefore(s, req, cookie, ref, leftover)
    ensures Table(t) == Table(s) && Handles(t) == Handles(s)[req := Joined(cookie)]
  {
    LoadKeepsTable(s, t, req, cookie, ref, leftover);
    hide Table, Handles;
    forall q | q in s.ctx ensures HandleAt(t, q) == HandleAt(s, q) {
      assert t.ctx[q] == s.ctx[q] != ref;
    }
    HandlesWith(s, t, req, Joined(cookie));
  }

  lemma {:induction false} NewNodeRefines(s: State, t: State, req: Request, ref: Ref)
    requires Links(s) && Links(t) && req !in s.ctx && ref !in s.nodes && t == WithNode(s, req, ref)
    ensures Table(t) == Table(s) && Handles(t) == Handles(s)[req := Draft(map[])]
  {
    hide Table, Handles;
    TableSame(s, t);
    HandlesWith(s, t, req, Draft(map[]));
  }

  ghost function Written(s: State, req: Request, entries: Entries): (t: State)
    requires Links(s) && req in s.ctx
  {
    s.(nodes := s.nodes[s.ctx[req] := s.nodes[s.ctx[req]].(entries := entries)])
  }

  /** A write to a shared node is a write to its session, for every request that joined it. */
  lemma {:induction false} WriteSharedRefines(s: State, req: Request, entries: Entries)
    requires Links(s) && req in s.ctx && s.nodes[s.ctx[req]].id != "" && Links(Written(s, req, entries))
    ensures var t := Written(s, req, entries);
            var id := s.nodes[s.ctx[req]].id;
            && HandleAt(s, req) == Joined(id) && id in s.store && SessionAt(s, id) == s.nodes[s.ctx[req]].entries
            && Table(t) == Table(s)[id := entries] && Handles(t) == Handles(s)
  {
    hide Table, Handles;
    var t := Written(s, req, entries);
    var id := s.nodes[s.ctx[req]].id;
    assert s.store.Keys == s.store.Keys + {id};
    TableWith(s, t, id, entries);
    HandlesSame(s, t);
  }

  /** A write to a private node is seen by its request only. */
  lemma {:induction false} WritePrivateRefines(s: State, req: Request, entries: Entries)
    requires Links(s) && req in s.ctx && s.nodes[s.ctx[req]].id == "" && Links(Written(s, req, entries))
    requires forall q :: q in s.ctx && q != req ==> s.ctx[q] != s.ctx[req]
    ensures var t := Written(s, req, entries);
            && HandleAt(s, req) == Draft(s.nodes[s.ctx[req]].entries)
            && Table(t) == Table(s) && Handles(t) == Handles(s)[req := Draft(entries)]
  {
    hide Table, Handles;
    var t := Written(s, req, entries);
    TableSame(s, t);
    assert s.ctx.Keys == s.ctx.Keys + {req};
    HandlesWith(s, t, req, Draft(entries));
  }

  lemma {:induction false} LeaveRefines(s: State, t: State, req: Request, newId: string)
    requires Links(s) && Links(t) && req in s.ctx && s.nodes[s.ctx[req]].referrers > 1 && s.nodes[s.ctx[req]].id != ""
    requires t == StepAfter(s, req, newId)
    ensures Table(t) == Table(s) && Handles(t) == Handles(s) - {req} && HandleAt(s, req).Joined?
  {
    hide Table, Handles;
    TableSame(s, t);
    HandlesWithout(s, t, req);
  }

  /** The last holder's save puts back exactly what the shared node held. */
  lemma {:induction false} SaveSharedRefines(s: State, t: State, req: Request, newId: string)
    requires Links(s) && Links(t) && req in s.ctx && s.nodes[s.ctx[req]].referrers <= 1 && s.nodes[s.ctx[req]].id != ""
    requires forall q :: q in s.ctx && q != req ==> s.ctx[q] != s.ctx[req]
    requires t == StepAfter(s, req, newId)
    ensures Table(t) == Table(s) && Handles(t) == Handles(s) - {req} && HandleAt(s, req).Joined?
  {
    hide Table, Handles;
    assert t.store.Keys == s.store.Keys;
    forall id | id in s.store ensures SessionAt(t, id) == SessionAt(s, id) {
      if id in s.cache && id != s.nodes[s.ctx[req]].id {
        assert s.cache[id] != s.ctx[req];
      }
    }
    TableSame(s, t);
    HandlesWithout(s, t, req);
  }

  lemma {:induction false} SavePrivateRefines(s: State, t: State, req: Request, newId: string)
    requires Links(s) && Links(t) && req in s.ctx && s.nodes[s.ctx[req]].referrers <= 1 && s.nodes[s.ctx[req]].id == ""
    requires newId !in s.cache
    requires forall q :: q in s.ctx && q != req ==> s.ctx[q] != s.ctx[req]
    requires t == StepAfter(s, req, newId)
    ensures var m := s.nodes[s.ctx[req]].entries;
            HandleAt(s, req) == Draft(m) && Table(t) == Table(s)[newId := m] && Handles(t) == Handles(s) - {req}
  {
    hide Table, Handles;
    TableWith(s, t, newId, s.nodes[s.ctx[req]].entries);
    HandlesWithout(s, t, req);
  }

  // ---------------------------------------------------------------- all steps

  /** Nobody else holds a private node, or a node whose count is down to one. */
  lemma {:induction false} HeldAlone(s: State, req: Request)
    requires Inv(s) && req in s.ctx && s.nodes[s.ctx[req]].referrers <= 1
    ensures forall q :: q in s.ctx && q != req ==> s.ctx[q] != s.ctx[req]
  {
    LastHolder(s, req);
    var c := s.ctx[req];
    forall q | q in s.ctx && q != req ensures s.ctx[q] != c {
      assert q !in Holders(s, c);
    }
  }

  lemma {:induction false} PrivateCount(s: State, req: Request)
    requires Inv(s) && req in s.ctx && s.nodes[s.ctx[req]].id == ""
    ensures s.nodes[s.ctx[req]].referrers == 0
  {
    assert Shared(s, s.ctx[req]) || Private(s, s.ctx[req]);
  }

  lemma {:induction false} BeforeRefines(s: State, t: State, e: Event)
    requires Links(s) && Links(t) && s.ctx.Keys <= s.active && Enabled(s, e) && e.Before? && t == Step(s, e)
    ensures Abs(t) == PlainStep(Abs(s), e)
  {
    AbsSound(s);
    if e.cookie in s.cache {
      JoinRefines(s, t, e.req, e.cookie, e.ref, e.leftover);
    } else if e.cookie in s.store {
      LoadRefines(s, t, e.req, e.cookie, e.ref, e.leftover);
    } else {
      TableSame(s, t);
      HandlesSame(s, t);
    }
  }

  lemma {:induction false} WriteRefines(s: State, req: Request, c: Change)
    requires Inv(s) && Links(s) && req in s.ctx
    ensures var t := Written(s, req, Apply(s.nodes[s.ctx[req]].entries, c));
            Links(t) && Sound(Abs(s)) && Abs(t) == PlainWrite(Abs(s), req, c)
  {
    var m := Apply(s.nodes[s.ctx[req]].entries, c);
    WriteKeeps(s, s.ctx[req], m);
    InvLinks(Written(s, req, m));
    AbsSound(s);
    if s.nodes[s.ctx[req]].id == "" {
      PrivateCount(s, req);
      HeldAlone(s, req);
      hide Inv;
      WritePrivateRefines(s, req, m);
    } else {
      hide Inv;
      WriteSharedRefines(s, req, m);
    }
  }

  lemma {:induction false} CreateThenWrite(p: Plain, req: Request, c: Change)
    requires Sound(p) && req !in p.handles && c.Put?
    ensures var w := p.(handles := p.handles[req := Draft(map[])]);
            Sound(w) && PlainWrite(w, req, c) == PlainWrite(p, req, c)
  {
    var w := p.(handles := p.handles[req := Draft(map[])]);
    assert w.handles[req := Draft(Apply(map[], c))] == p.handles[req := Draft(Apply(map[], c))];
  }

  lemma {:induction false} SetRefines(s: State, e: Event)
    requires Inv(s) && Links(s) && Enabled(s, e) && e.Set?
    ensures Links(Step(s, e)) && Sound(Abs(s)) && Abs(Step(s, e)) == PlainStep(Abs(s), e)
  {
    var w := WithNode(s, e.req, e.ref);
    WithNodeKeeps(s, e.req, e.ref);
    InvLinks(w);
    AbsSound(s);
    WriteRefines(w, e.req, Put(e.key, e.value));
    if e.req !in s.ctx {
      assert Abs(w) == Abs(s).(handles := Handles(s)[e.req := Draft(map[])]) by {
        NewNodeRefines(s, w, e.req, e.ref);
      }
      CreateThenWrite(Abs(s), e.req, Put(e.key, e.value));
    }
    hide Inv, Abs, PlainWrite, Links;
  }

  lemma {:induction false} RemoveRefines(s: State, e: Event)
    requires Inv(s) && Links(s) && Enabled(s, e) && e.Remove?
    ensures Links(Step(s, e)) && Sound(Abs(s)) && Abs(Step(s, e)) == PlainStep(Abs(s), e)
  {
    AbsSound(s);
    if e.req in s.ctx {
      WriteRefines(s, e.req, Drop(e.key));
    }
  }

  lemma {:induction false} IdleLeaves(s: State, t: State, req: Request, newId: string)
    requires Links(s) && Links(t) && req !in s.ctx && t == StepAfter(s, req, newId)
    ensures Table(t) == Table(s) && Handles(t) == Handles(s) - {req}
  {
    assert s.ctx - {req} == s.ctx;
    HandlesWithout(s, t, req);
    TableSame(s, t);
  }

  /** What leaving does to the table and the handles, whoever holds the session. */
  lemma {:induction false} AfterTables(s: State, t: State, req: Request, newId: string)
    requires Inv(s) && Links(s) && Links(t) && t == StepAfter(s, req, newId)
    requires req in s.ctx && s.nodes[s.ctx[req]].id == "" ==> newId !in s.cache
    ensures Handles(t) == Handles(s) - {req}
    ensures Table(t) == if req in s.ctx && HandleAt(s, req).Draft? then Table(s)[newId := HandleAt(s, req).entries] else Table(s)
  {
    hide Inv, Table, Handles, StepAfter;
    if req !in s.ctx {
      IdleLeaves(s, t, req, newId);
    } else if s.nodes[s.ctx[req]].referrers > 1 {
      if s.nodes[s.ctx[req]].id == "" {
        PrivateCount(s, req);
      }
      LeaveRefines(s, t, req, newId);
    } else {
      HeldAlone(s, req);
      if s.nodes[s.ctx[req]].id == "" {
        SavePrivateRefines(s, t, req, newId);
      } else {
        SaveSharedRefines(s, t, req, newId);
      }
    }
  }

  lemma {:induction false} AfterRefines(s: State, t: State, e: Event)
    requires Inv(s) && Links(s) && Links(t) && Enabled(s, e) && e.After? && t == Step(s, e)
    ensures Sound(Abs(s)) && Abs(t) == PlainStep(Abs(s), e)
  {
    hide Inv, Table;
    AbsSound(s);
    AfterTables(s, t, e.req, e.newId);
  }

  /** Every step of the middleware is the same step on the plain table. */
  lemma {:induction false} StepRefines(s: State, e: Event)
    requires Inv(s) && Enabled(s, e)
    ensures Inv(Step(s, e)) && Links(s) && Links(Step(s, e)) && Sound(Abs(s))
    ensures Abs(Step(s, e)) == PlainStep(Abs(s), e)
  {
    StepKeepsInv(s, e);
    InvLinks(s);
    InvLinks(Step(s, e));
    AbsSound(s);
    match e
    case Before(req, cookie, ref, leftover) => BeforeRefines(s, Step(s, e), e);
    case Set(req, key, value, ref) => SetRefines(s, e);
    case Remove(req, key) => RemoveRefines(s, e);
    case After(req, newId) => AfterRefines(s, Step(s, e), e);
  }

  // ---------------------------------------------------------------- whole runs

  /** A run: each event is one the surroundings can offer in the state it meets. */
  ghost predicate IsRun(s: State, es: seq<Event>)
    requires Inv(s)
    decreases |es|
  {
    es == [] || (Enabled(s, es[0]) && (StepKeepsInv(s, es[0]); IsRun(Step(s, es[0]), es[1..])))
  }

  ghost function Final(s: State, es: seq<Event>): (t: State)
    requires Inv(s) && IsRun(s, es)
    ensures Inv(t)
    decreases |es|
  {
    if es == [] then s
    else
      StepKeepsInv(s, es[0]);
      Final(Step(s, es[0]), es[1..])
  }

  ghost predicate PlainRun(p: Plain, es: seq<Event>, r: Plain)
    decreases |es|
  {
    if es == [] then r == p
    else Sound(p) && PlainRun(PlainStep(p, es[0]), es[1..], r)
  }

  /**
    Over every interleaving the middleware ends where the plain table ends, and
    every session that no request holds any more is in the store with all its
    writes.
   */
  lemma {:induction false} RunRefines(s: State, es: seq<Event>)
    requires Inv(s) && IsRun(s, es)
    ensures var t := Final(s, es);
            && Links(s) && Links(t)
            && PlainRun(Abs(s), es, Abs(t))
            && (forall id :: id in t.store && id !in t.cache ==> t.store[id] == Abs(t).sessions[id])
            && (t.active == {} ==> t.store == Abs(t).sessions)
            && NoDoubleLoad(t.log)
    decreases |es|
  {
    InvLinks(s);
    var t := Final(s, es);
    InvLinks(t);
    if es == [] {
      if t.active == {} {
        NobodyLeft(t);
      }
    } else {
      StepRefines(s, es[0]);
      RunRefines(Step(s, es[0]), es[1..]);
    }
  }

  /** With no request in flight there is no node left. */
  lemma {:induction false} NobodyLeft(s: State)
    requires Inv(s) && Links(s) && s.active == {}
    ensures s.cache == map[] && Table(s) == s.store
  {
    assert s.ctx == map[];
    assert forall c :: Holders(s, c) == {};
    assert s.cache.Keys == {};
  }

  /** An empty middleware over any store of properly named sessions satisfies the invariant. */
  lemma {:induction false} InitialInv(store: map<string, Entries>)
    requires "" !in store
    ensures Inv(State(map[], map[], store, {}, map[], []))
  {
  }

  // ---------------------------------------------------------------- ids that are not fresh

  /** The entries of the new session a request leaves. */
  ghost function DraftOf(s: State, req: Request): (m: Entries)
    requires Draws(s, req)
  {
    s.nodes[s.ctx[req]].entries
  }

  /** What saving a new session does, whatever id is drawn: a cached session of that id stays as it is. */
  lemma {:induction false} SaveDraft(s: State, req: Request, newId: string)
    requires Inv(s) && Draws(s, req) && newId != ""
    ensures var t := StepAfter(s, req, newId);
            && Links(s) && Links(t)
            && Handles(t) == Handles(s) - {req}
            && Table(t) == Table(s)[newId := if newId in s.cache then SessionAt(s, newId) else DraftOf(s, req)]
  {
    hide Table, Handles;
    var t := StepAfter(s, req, newId);
    PrivateCount(s, req);
    HeldAlone(s, req);
    InvLinks(s);
    hide Inv;
    DraftLinks(s, t, req, newId);
    TableWith(s, t, newId, if newId in s.cache then SessionAt(s, newId) else DraftOf(s, req));
    HandlesWithout(s, t, req);
  }

  lemma {:induction false} DraftLinks(s: State, t: State, req: Request, newId: string)
    requires Links(s) && Draws(s, req) && newId != "" && s.nodes[s.ctx[req]].referrers == 0
    requires forall q :: q in s.ctx && q != req ==> s.ctx[q] != s.ctx[req]
    requires t == StepAfter(s, req, newId)
    ensures Links(t)
  {
  }

  /**
    For a request that leaves a new session, the step is the plain table's if and
    only if the drawn id is not in the cache, or the cached session happens to
    hold the same entries.
   */
  lemma {:induction false} DraftRefinesIff(s: State, req: Request, newId: string)
    requires Inv(s) && Draws(s, req) && newId != ""
    ensures var t := StepAfter(s, req, newId);
            && Links(s) && Links(t) && Sound(Abs(s))
            && (Abs(t) == PlainStep(Abs(s), After(req, newId)) <==>
                  newId !in s.cache || SessionAt(s, newId) == DraftOf(s, req))
  {
    SaveDraft(s, req, newId);
    AbsSound(s);
    hide Inv, Links, Table;
    assert Handles(s)[req] == HandleAt(s, req) == Draft(DraftOf(s, req));
    var kept := if newId in s.cache then SessionAt(s, newId) else DraftOf(s, req);
    assert Table(s)[newId := kept][newId] == kept;
    assert Table(s)[newId := DraftOf(s, req)][newId] == DraftOf(s, req);
  }

  /**
    What a drawn id does to sessions. The new session is there afterwards unless
    the id is cached; every existing one is unharmed unless the id is stored and
    not cached; both hold if and only if the id is in the store of no other session
    (equal entries apart).
   */
  lemma {:induction false} DrawnIdOutcome(s: State, req: Request, newId: string)
    requires Inv(s) && Draws(s, req) && newId != ""
    ensures var t := StepAfter(s, req, newId);
            && Links(s) && Links(t) && newId in Table(t)
            && (Table(t)[newId] == DraftOf(s, req) <==> newId !in s.cache || SessionAt(s, newId) == DraftOf(s, req))
            && ((forall id :: id in Table(s) ==> id in Table(t) && Table(t)[id] == Table(s)[id]) <==>
                  newId !in s.store || newId in s.cache || s.store[newId] == DraftOf(s, req))
            && (Table(t)[newId] == DraftOf(s, req) && (forall id :: id in Table(s) ==> id in Table(t) && Table(t)[id] == Table(s)[id]) <==>
                  newId !in s.store || SessionAt(s, newId) == DraftOf(s, req))
  {
    SaveDraft(s, req, newId);
    hide Inv, Handles;
    assert newId in s.store ==> newId in Table(s) && Table(s)[newId] == SessionAt(s, newId);
  }

  // ---------------------------------------------------------------- two runs with an id drawn twice

  const OLD: Entries := map["k" := "old"]
  const NEW: Entries := map["k" := "new"]

  /** Nobody there yet, one session stored. */
  const ONE_STORED: State := State(map[], map[], map["id" := OLD], {}, map[], [])

  /** A run of one more event. */
  lemma {:induction false} RunMore(s: State, e: Event, es: seq<Event>)
    requires Inv(s) && Enabled(s, e) && Inv(Step(s, e)) && IsRun(Step(s, e), es)
    ensures IsRun(s, [e] + es) && Final(s, [e] + es) == Final(Step(s, e), es)
  {
    hide Inv, Enabled, Step;
    assert ([e] + es)[0] == e && ([e] + es)[1..] == es;
  }

  lemma {:induction false} RunNone(s: State)
    requires Inv(s)
    ensures IsRun(s, []) && Final(s, []) == s
  {
  }

  lemma {:induction false} FreshBegins(s: State, req: Request, ref: Ref)
    requires Inv(s) && req !in s.active && ref !in s.nodes
    ensures var e := Before(req, "", ref, map[]);
            Enabled(s, e) && Step(s, e) == s.(active := s.active + {req}) && Inv(Step(s, e)) && req !in s.ctx
  {
    StepKeepsInv(s, Before(req, "", ref, map[]));
  }

  lemma {:induction false} FreshWrites(s: State, req: Request, ref: Ref)
    requires Inv(s) && req in s.active && req !in s.ctx && ref !in s.nodes
    ensures var f := Set(req, "k", "new", ref);
            && Enabled(s, f) && Inv(Step(s, f))
            && Step(s, f) == s.(nodes := s.nodes[ref := Node("", NEW, 0)], ctx := s.ctx[req := ref])
  {
    StepKeepsInv(s, Set(req, "k", "new", ref));
    assert map[]["k" := "new"] == NEW;
    var was := s.nodes[ref := Node("", map[], 0)];
    assert was[ref := Node("", NEW, 0)] == s.nodes[ref := Node("", NEW, 0)];
  }

  lemma {:induction false} WriteNewSteps(s: State, req: Request, ref: Ref)
    requires Inv(s) && req !in s.active && ref !in s.nodes
    ensures var e, f := Before(req, "", ref, map[]), Set(req, "k", "new", ref);
            && Enabled(s, e) && Inv(Step(s, e)) && Enabled(Step(s, e), f) && Inv(Step(Step(s, e), f))
            && Step(Step(s, e), f) ==
               State(s.cache, s.nodes[ref := Node("", NEW, 0)], s.store, s.active + {req}, s.ctx[req := ref], s.log)
  {
    FreshBegins(s, req, ref);
    hide Inv, Enabled, Step;
    FreshWrites(s.(active := s.active + {req}), req, ref);
  }

  /** A request that makes a session and writes to it. */
  lemma {:induction false} WriteNew(s: State, req: Request, ref: Ref)
    requires Inv(s) && req !in s.active && ref !in s.nodes
    ensures var u := State(s.cache, s.nodes[ref := Node("", NEW, 0)], s.store, s.active + {req}, s.ctx[req := ref], s.log);
            var es := [Before(req, "", ref, map[]), Set(req, "k", "new", ref)];
            Inv(u) && IsRun(s, es) && Final(s, es) == u
  {
    var e, f := Before(req, "", ref, map[]), Set(req, "k", "new", ref);
    WriteNewSteps(s, req, ref);
    hide Inv, Step, Enabled, IsRun, Final;
    RunNone(Step(Step(s, e), f));
    RunMore(Step(s, e), f, []);
    RunMore(s, e, [f]);
    assert [f] + [] == [f] && [e] + [f] == [e, f];
  }

  /** A session made with the id of a stored one replaces it. */
  lemma {:induction false} StoredIdReplaced()
    ensures var es := [Before(1, "", 0, map[]), Set(1, "k", "new", 0)];
            && Inv(ONE_STORED) && IsRun(ONE_STORED, es)
            && var s := Final(ONE_STORED, es);
               Draws(s, 1) && "id" !in s.cache && s.store["id"] == OLD
               && Inv(StepAfter(s, 1, "id")) && StepAfter(s, 1, "id").store == map["id" := NEW]
  {
    InitialInv(map["id" := OLD]);
    WriteNew(ONE_STORED, 1, 0);
    var s := State(map[], map[0 := Node("", NEW, 0)], map["id" := OLD], {1}, map[1 := 0], []);
    assert s == Final(ONE_STORED, [Before(1, "", 0, map[]), Set(1, "k", "new", 0)]);
    AfterKeepsInvIff(s, 1, "id");
  }

  /** The stored session in use by request 2; then also a new one, made by request 1. */
  const IN_USE: State :=
    State(map["id" := 0], map[0 := Node("id", OLD, 1)], map["id" := map[]], {2}, map[2 := 0], [Loaded("id")])
  const BOTH: State :=
    State(map["id" := 0], map[0 := Node("id", OLD, 1), 1 := Node("", NEW, 0)], map["id" := map[]], {2, 1}, map[2 := 0, 1 := 1], [Loaded("id")])

  lemma {:induction false} OpenStored()
    ensures Inv(ONE_STORED) && Enabled(ONE_STORED, Before(2, "id", 0, map[]))
    ensures Step(ONE_STORED, Before(2, "id", 0, map[])) == IN_USE && Inv(IN_USE)
  {
    hide Inv, Step;
    InitialInv(map["id" := OLD]);
    StepKeepsInv(ONE_STORED, Before(2, "id", 0, map[]));
    Opened();
  }

  lemma {:induction false} Opened()
    ensures Step(ONE_STORED, Before(2, "id", 0, map[])) == IN_USE
  {
    var s := ONE_STORED;
    assert s.active + {2} == {2} && s.log + [Loaded("id")] == [Loaded("id")];
    assert s.nodes[0 := Node("id", OLD, 1)] == IN_USE.nodes && s.store["id" := map[]] == IN_USE.store;
  }

  lemma {:induction false} MakeAnother()
    requires Inv(IN_USE)
    ensures var es := [Before(1, "", 1, map[]), Set(1, "k", "new", 1)];
            IsRun(IN_USE, es) && Final(IN_USE, es) == BOTH && Inv(BOTH)
  {
    hide Inv;
    WriteNew(IN_USE, 1, 1);
    assert IN_USE.nodes[1 := Node("", NEW, 0)] == BOTH.nodes;
    assert IN_USE.active + {1} == BOTH.active;
    assert IN_USE.ctx[1 := 1] == BOTH.ctx;
  }

  /** A session made with the id of one that is in use is gone when that one is saved. */
  lemma {:induction false} CachedIdLosesWrites()
    ensures var es := [Before(2, "id", 0, map[]), Before(1, "", 1, map[]), Set(1, "k", "new", 1)];
            && Inv(ONE_STORED) && IsRun(ONE_STORED, es)
            && var s := Final(ONE_STORED, es);
               && Inv(s) && Draws(s, 1) && "id" in s.cache && !Inv(StepAfter(s, 1, "id"))
               && var t := StepAfter(s, 1, "id");
                  t.store == map["id" := NEW] && 2 in t.ctx && t.ctx[2] in t.nodes
                  && StepAfter(t, 2, "unused").store == map["id" := OLD] && StepAfter(t, 2, "unused").nodes == map[]
  {
    hide Inv, Step, Enabled, StepAfter, IsRun, Final;
    OpenStored();
    MakeAnother();
    var e := Before(2, "id", 0, map[]);
    var rest := [Before(1, "", 1, map[]), Set(1, "k", "new", 1)];
    RunMore(ONE_STORED, e, rest);
    assert [e] + rest == [e, rest[0], rest[1]];
    AfterKeepsInvIff(BOTH, 1, "id");
    LostAtSave();
  }

  lemma {:induction false} LostAtSave()
    ensures var t := StepAfter(BOTH, 1, "id");
            && t.store == map["id" := NEW] && 2 in t.ctx && t.ctx[2] in t.nodes
            && StepAfter(t, 2, "unused").store == map["id" := OLD] && StepAfter(t, 2, "unused").nodes == map[]
  {
  }
}
