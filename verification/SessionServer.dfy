/** Requests that run side by side on one SessionMiddleware: the cache refines the plain map of sessions. */
module SessionServer {
  import opened Wrappers
  import opened SessionPlain
  import opened SessionCache
  import opened SessionLaws

  /** The contexts that `contexts` holds, each once, are `active`. */
  ghost predicate Lists(contexts: map<nat, Context>, active: set<Context>) {
    && (forall r <- contexts :: contexts[r] in active)
    && (forall c <- active :: exists r :: r in contexts && contexts[r] == c)
    && (forall r, q :: r in contexts && q in contexts && contexts[r] == contexts[q] ==> r == q)
  }

  lemma ListsFacts(contexts: map<nat, Context>, active: set<Context>, r: nat)
    requires Lists(contexts, active)
    ensures forall q <- contexts :: contexts[q] in active && (r in contexts && q != r ==> contexts[q] != contexts[r])
  {
  }

  lemma ListsMore(contexts: map<nat, Context>, active: set<Context>, r: nat, c: Context)
    requires Lists(contexts, active) && r !in contexts && c !in active
    ensures Lists(contexts[r := c], active + {c})
  {
    var more := contexts[r := c];
    forall x <- active + {c} ensures exists q :: q in more && more[q] == x {
      if x == c {
        assert r in more && more[r] == x;
      } else {
        var q :| q in contexts && contexts[q] == x;
        assert q in more && more[q] == x;
      }
    }
  }

  lemma ListsFewer(contexts: map<nat, Context>, active: set<Context>, r: nat)
    requires Lists(contexts, active) && r in contexts
    ensures Lists(contexts - {r}, active - {contexts[r]})
  {
    var fewer := contexts - {r};
    forall x <- active - {contexts[r]} ensures exists q :: q in fewer && fewer[q] == x {
      var q :| q in contexts && contexts[q] == x;
      assert q in fewer && fewer[q] == x;
    }
  }

  class Server {
    const sessions: SessionMiddleware
    var contexts: map<nat, Context>

    ghost predicate Valid()
      reads this, sessions, sessions.store, sessions.active, sessions.nodes
    {
      sessions.Valid() && Lists(contexts, sessions.active)
    }

    /** What the state stands for without the cache. */
    ghost function State(): Plain
      reads *
    {
      Plain(sessions.Sessions(), Requests())
    }

    constructor ()
      ensures Valid() && State() == Plain(map[], map[])
    {
      sessions := new SessionMiddleware();
      contexts := map[];
    }

    /** A cached session is in use. */
    lemma CachedInUse(id: string)
      requires Valid() && id in sessions.cache
      ensures InUse(State(), id)
    {
      var n := sessions.cache[id];
      assert sessions.Holders(n) != {};
      var c :| c in sessions.Holders(n);
      var r :| r in contexts && contexts[r] == c;
      assert State().requests[r] == Named(id);
    }

    ghost function Requests(): map<nat, Request>
      reads *
    {
      map r | r in contexts :: sessions.RequestOf(contexts[r])
    }

    /** before_handle of a request. */
    method Begin(r: nat, cookie: string)
      requires Valid() && r !in contexts
      modifies this, sessions, sessions.store, sessions.nodes
      ensures Valid() && fresh(sessions.active - old(sessions.active)) && fresh(sessions.nodes - old(sessions.nodes))
      ensures r in contexts && contexts == old(contexts)[r := contexts[r]] && sessions.Sessions() == old(sessions.Sessions())
      ensures sessions.RequestOf(contexts[r]) == Opened(old(sessions.Sessions()), cookie)
      ensures forall q <- old(contexts) :: sessions.RequestOf(contexts[q]) == old(sessions.RequestOf(contexts[q]))
    {
      ListsFacts(contexts, sessions.active, r);
      ValidFacts();
      hide *;
      var ctx := Open(cookie);
      ListsMore(contexts, old(sessions.active), r, ctx);
      SetContexts(contexts[r := ctx]);
    }

    lemma ValidFacts()
      requires Valid()
      ensures sessions.Valid() && Lists(contexts, sessions.active)
    {
    }

    method SetContexts(contexts': map<nat, Context>)
      requires sessions.Valid() && Lists(contexts', sessions.active)
      modifies this`contexts
      ensures Valid() && contexts == contexts' && sessions.Sessions() == old(sessions.Sessions())
      ensures forall c <- sessions.active :: sessions.RequestOf(c) == old(sessions.RequestOf(c))
    {
      hide Lists, SessionMiddleware.Valid, SessionMiddleware.Sessions, SessionMiddleware.RequestOf;
      contexts := contexts';
    }

    method Open(cookie: string) returns (ctx: Context)
      requires sessions.Valid()
      modifies sessions, sessions.store, sessions.nodes
      ensures sessions.Valid() && fresh(ctx) && sessions.active == old(sessions.active) + {ctx}
      ensures fresh(sessions.nodes - old(sessions.nodes)) && sessions.Sessions() == old(sessions.Sessions())
      ensures sessions.RequestOf(ctx) == Opened(old(sessions.Sessions()), cookie)
      ensures forall c <- old(sessions.active) :: sessions.RequestOf(c) == old(sessions.RequestOf(c))
    {
      hide SessionMiddleware.Valid, SessionMiddleware.Sessions, SessionMiddleware.RequestOf;
      ctx := new Context();
      sessions.BeforeHandle(ctx, cookie);
    }

    /** A Set or Remove of a request. */
    method Change(e: Event)
      requires Valid() && e.r in contexts && (e.Set? || e.Remove?)
      modifies sessions, sessions.active, sessions.nodes
      ensures Valid() && sessions.active == old(sessions.active) && fresh(sessions.nodes - old(sessions.nodes))
      ensures sessions.Sessions() == SessionsAfter(old(sessions.Sessions()), old(sessions.RequestOf(contexts[e.r])), e)
      ensures sessions.RequestOf(contexts[e.r]) == RequestAfter(old(sessions.RequestOf(contexts[e.r])), e)
      ensures forall q <- contexts :: q != e.r ==> sessions.RequestOf(contexts[q]) == old(sessions.RequestOf(contexts[q]))
    {
      ListsFacts(contexts, sessions.active, e.r);
      hide Lists, SessionMiddleware.Valid, SessionMiddleware.Sessions, SessionMiddleware.RequestOf;
      sessions.NodeKnown(contexts[e.r]);
      sessions.Change(contexts[e.r], e);
    }

    /** after_handle of a request. */
    method End(r: nat, generated: string)
      requires Valid() && r in contexts && generated != ""
      requires sessions.RequestOf(contexts[r]).Unnamed? ==> generated !in sessions.cache
      modifies this, sessions, sessions.store, sessions.nodes
      ensures Valid() && sessions.active <= old(sessions.active) && sessions.nodes == old(sessions.nodes)
      ensures contexts == old(contexts) - {r}
      ensures sessions.Sessions() == SessionsAfter(old(sessions.Sessions()), old(sessions.RequestOf(contexts[r])), Event.End(r, generated))
      ensures forall q <- contexts :: sessions.RequestOf(contexts[q]) == old(sessions.RequestOf(contexts[q]))
    {
      ListsFacts(contexts, sessions.active, r);
      hide Lists, SessionMiddleware.Valid, SessionMiddleware.Sessions, SessionMiddleware.RequestOf, SessionsAfter;
      sessions.NodeKnown(contexts[r]);
      Leave(contexts[r], r, generated);
      ListsFewer(contexts, old(sessions.active), r);
      SetContexts(contexts - {r});
    }

    method Leave(ctx: Context, ghost r: nat, generated: string)
      requires sessions.Valid() && ctx in sessions.active && generated != ""
      requires sessions.RequestOf(ctx).Unnamed? ==> generated !in sessions.cache
      modifies sessions`active, sessions`cache, sessions.store, ctx.node
      ensures sessions.Valid() && sessions.active == old(sessions.active) - {ctx}
      ensures sessions.Sessions() == SessionsAfter(old(sessions.Sessions()), old(sessions.RequestOf(ctx)), Event.End(r, generated))
      ensures forall c <- sessions.active :: sessions.RequestOf(c) == old(sessions.RequestOf(c))
    {
      hide SessionMiddleware.Valid, SessionMiddleware.Sessions, SessionMiddleware.RequestOf, SessionMiddleware.StillHeld;
      hide SessionMiddleware.Holders;
      var cookie := sessions.AfterHandle(ctx, generated);
    }

    method DoBegin(e: Event)
      requires Valid() && Possible(State(), e) && e.Begin?
      modifies this, sessions, sessions.store, sessions.active, sessions.nodes
      ensures Valid() && State() == Step(old(State()), e)
      ensures fresh(sessions.active - old(sessions.active)) && fresh(sessions.nodes - old(sessions.nodes))
    {
      hide Valid, SessionMiddleware.Sessions, SessionMiddleware.RequestOf, SessionsAfter, RequestAfter, Opened, InUse, Step;
      ghost var before := State();
      Begin(e.r, e.cookie);
      StepIs(before, State(), e);
    }

    method DoChange(e: Event)
      requires Valid() && Possible(State(), e) && (e.Set? || e.Remove?)
      modifies this, sessions, sessions.store, sessions.active, sessions.nodes
      ensures Valid() && State() == Step(old(State()), e)
      ensures fresh(sessions.active - old(sessions.active)) && fresh(sessions.nodes - old(sessions.nodes))
    {
      hide Valid, SessionMiddleware.Sessions, SessionMiddleware.RequestOf, SessionsAfter, RequestAfter, Opened, InUse, Step;
      ghost var before := State();
      Change(e);
      StepIs(before, State(), e);
    }

    lemma NotCached(e: Event)
      requires Valid() && e.End? && Unused(State(), e) && e.r in State().requests
      ensures State().requests[e.r].Unnamed? ==> e.generated !in sessions.cache
    {
      if State().requests[e.r].Unnamed? && e.generated in sessions.cache { CachedInUse(e.generated); }
    }

    method DoEnd(e: Event)
      requires Valid() && Possible(State(), e) && e.End? && Unused(State(), e)
      modifies this, sessions, sessions.store, sessions.active, sessions.nodes
      ensures Valid() && State() == Step(old(State()), e)
      ensures fresh(sessions.active - old(sessions.active)) && fresh(sessions.nodes - old(sessions.nodes))
    {
      hide Valid, SessionMiddleware.Sessions, SessionMiddleware.RequestOf, SessionsAfter, RequestAfter, Opened, InUse, Step, Unused;
      NotCached(e);
      ghost var before := State();
      End(e.r, e.generated);
      StepIs(before, State(), e);
    }

    /** Every step is the step without the cache. */
    method Do(e: Event)
      requires Valid() && Possible(State(), e) && Unused(State(), e)
      modifies this, sessions, sessions.store, sessions.active, sessions.nodes
      ensures Valid() && State() == Step(old(State()), e)
      ensures fresh(sessions.active - old(sessions.active)) && fresh(sessions.nodes - old(sessions.nodes))
    {
      hide Valid, State, Possible, Unused, Step;
      match e
      case Begin(_, _) => DoBegin(e);
      case Set(_, _, _) => DoChange(e);
      case Remove(_, _) => DoChange(e);
      case End(_, _) => DoEnd(e);
    }

    /** Whatever the requests do and however they interleave, the sessions are what they would be without the cache. */
    method Run(events: seq<Event>)
      requires Valid() && Runs(State(), events)
      modifies this, sessions, sessions.store, sessions.active, sessions.nodes
      ensures Valid() && State() == RunAll(old(State()), events)
    {
      hide Valid, State, Possible, Unused, Step;
      var i := 0;
      while i < |events|
        invariant 0 <= i <= |events| && Valid() && Runs(State(), events[i..])
        invariant RunAll(State(), events[i..]) == RunAll(old(State()), events)
        invariant fresh(sessions.active - old(sessions.active)) && fresh(sessions.nodes - old(sessions.nodes))
      {
        assert events[i..][1..] == events[i + 1..] && events[i..][0] == events[i];
        Do(events[i]);
        i := i + 1;
      }
    }

    /** No running request works on a session yet. */
    ghost predicate Quiet(id: string)
      reads *
    {
      id != "" && id in sessions.store.entries && forall r <- contexts :: contexts[r].node == null || contexts[r].node.sessionId != id
    }

    lemma QuietIs(id: string)
      requires Valid() && Quiet(id)
      ensures id in State().sessions && !InUse(State(), id)
    {
    }

    /** The running request `r` works on the session `id`, and reads what it holds. */
    lemma Reads(r: nat, id: string, key: string, fallback: MultiValue)
      requires Valid() && r in State().requests && State().requests[r] == Named(id)
      ensures r in contexts && id in State().sessions
      ensures var entries := State().sessions[id];
              contexts[r].Get(key, fallback) == if key in entries && SameType(entries[key], fallback) then entries[key] else fallback
    {
      assert contexts[r] in sessions.active;
      hide SessionMiddleware.Valid, SessionMiddleware.Sessions;
      sessions.ReadsSession(contexts[r], key, fallback);
    }

    /** What a request sets in a session, every request that began with the cookie of that session reads, until the next
        one sets or removes it or the identifier is given to a new session: whatever else the requests do, however they
        interleave, and whether the session was cached in between or not. */
    method ReadBack(events: seq<Event>, r: nat, key: string, fallback: MultiValue, ghost id: string, ghost i: nat)
      returns (value: MultiValue)
      requires Valid() && Runs(State(), events) && Quiet(id)
      requires i < |events| && Touches(events, i, id, key)
      requires forall j :: i < j < |events| ==> !Touches(events, j, id, key) && !MayAssign(events, j, id)
      requires CookieOf(events, r) == Some(id)
      modifies this, sessions, sessions.store, sessions.active, sessions.nodes
      ensures Valid()
      ensures match events[i]
              case Set(_, _, Flag(b)) => value == if fallback.Flag? then Flag(b) else fallback
              case Set(_, _, Integer(n)) => value == if fallback.Integer? then Integer(n) else fallback
              case Set(_, _, Real(d)) => value == if fallback.Real? then Real(d) else fallback
              case Set(_, _, Text(t)) => value == if fallback.Text? then Text(t) else fallback
              case _ => value == fallback
    {
      QuietIs(id);
      hide Valid, State, Runs, RunAll, InUse, Quiet;
      ghost var before := State();
      Run(events);
      SessionOf(before, events, id);
      LastWriteWins(before, events, id, i, key);
      Reads(r, id, key, fallback);
      value := contexts[r].Get(key, fallback);
    }

    /** What nobody sets or removes is read as it was in the store. */
    method ReadUntouched(events: seq<Event>, r: nat, key: string, fallback: MultiValue, ghost id: string) returns (value: MultiValue)
      requires Valid() && Runs(State(), events) && Quiet(id)
      requires forall j :: 0 <= j < |events| ==> !Touches(events, j, id, key) && !MayAssign(events, j, id)
      requires CookieOf(events, r) == Some(id)
      modifies this, sessions, sessions.store, sessions.active, sessions.nodes
      ensures Valid()
      ensures var entries := old(sessions.store.entries[id]);
              value == if key in entries && SameType(entries[key], fallback) then entries[key] else fallback
    {
      QuietIs(id);
      QuietStored(id);
      hide Valid, State, Runs, RunAll, InUse, Quiet;
      ghost var before := State();
      Run(events);
      SessionOf(before, events, id);
      UntouchedStays(before, events, id, key);
      Reads(r, id, key, fallback);
      value := contexts[r].Get(key, fallback);
    }

    lemma CachedHeld(id: string)
      requires Valid()
      ensures id in sessions.cache ==> exists r :: r in contexts && contexts[r].node != null && contexts[r].node.sessionId == id
    {
      if id in sessions.cache {
        assert sessions.Holders(sessions.cache[id]) != {};
        var c :| c in sessions.Holders(sessions.cache[id]);
        var r :| r in contexts && contexts[r] == c;
      }
    }

    /** The entries of a session that nobody works on are in the store. */
    lemma QuietStored(id: string)
      requires Valid() && Quiet(id)
      ensures id !in sessions.cache && id in State().sessions && State().sessions[id] == sessions.store.entries[id]
    {
      CachedHeld(id);
    }
  }

  lemma StepIs(s: Plain, t: Plain, e: Event)
    requires Possible(s, e)
    requires if e.Begin? then t.sessions == s.sessions else t.sessions == SessionsAfter(s.sessions, s.requests[e.r], e)
    requires t.requests.Keys == if e.End? then s.requests.Keys - {e.r} else s.requests.Keys + {e.r}
    requires forall q <- t.requests :: q != e.r ==> t.requests[q] == s.requests[q]
    requires !e.End? ==>
               t.requests[e.r] == if e.Begin? then Opened(s.sessions, e.cookie) else RequestAfter(s.requests[e.r], e)
    ensures t == Step(s, e)
  {
    hide SessionsAfter, RequestAfter, Opened;
    assert t.requests == Step(s, e).requests;
  }
}
