/** What a browser sees: which requests work on a session follows from their cookies, and what one of them sets the
    later ones read. */
module SessionLaws {
  import opened Wrappers
  import opened SessionPlain

  /** The cookie with which the running request `r` began, if it is running after `events`. */
  function CookieOf(events: seq<Event>, r: nat): Option<string>
    decreases |events|
  {
    if events == [] then None
    else
      var e := events[|events| - 1];
      if e.r == r && e.Begin? then Some(e.cookie)
      else if e.r == r && e.End? then None
      else CookieOf(events[..|events| - 1], r)
  }

  /** Step `j` is a Set or Remove of `key` by a request with the cookie `id`. */
  predicate Touches(events: seq<Event>, j: nat, id: string, key: string)
    requires j < |events|
  {
    (events[j].Set? || events[j].Remove?) && events[j].key == key && CookieOf(events[..j], events[j].r) == Some(id)
  }

  /** Step `j` may give the identifier `id` to new entries. */
  predicate MayAssign(events: seq<Event>, j: nat, id: string)
    requires j < |events|
  {
    events[j].End? && events[j].generated == id && CookieOf(events[..j], events[j].r) != Some(id)
  }

  lemma {:induction false} RunsSplit(s: Plain, a: seq<Event>, b: seq<Event>)
    requires Runs(s, a + b)
    ensures Runs(s, a) && Runs(RunAll(s, a), b) && RunAll(s, a + b) == RunAll(RunAll(s, a), b)
    decreases |a|
  {
    if a == [] {
      assert a + b == b;
    } else {
      hide Step, Possible, Unused;
      assert (a + b)[1..] == a[1..] + b;
      RunsSplit(Step(s, a[0]), a[1..], b);
    }
  }

  /** A run without its last step, and that step. */
  lemma RunsFront(s: Plain, events: seq<Event>)
    requires Runs(s, events) && events != []
    ensures var front, e := events[..|events| - 1], events[|events| - 1];
            && Runs(s, front) && Possible(RunAll(s, front), e) && Unused(RunAll(s, front), e)
            && RunAll(s, events) == Step(RunAll(s, front), e)
  {
    hide Step, Possible, Unused;
    var front, e := events[..|events| - 1], events[|events| - 1];
    assert front + [e] == events;
    RunsSplit(s, front, [e]);
    var t := RunAll(s, front);
    assert [e][0] == e && [e][1..] == [];
    assert Runs(t, [e]) && RunAll(t, [e]) == RunAll(Step(t, e), []);
  }

  /** A session stays, and the requests that work on it are exactly the running ones that began with its cookie. */
  lemma {:induction false} SessionOf(s: Plain, events: seq<Event>, id: string)
    requires Runs(s, events) && id != "" && id in s.sessions && !InUse(s, id)
    ensures id in RunAll(s, events).sessions
    ensures forall r: nat :: (r in RunAll(s, events).requests && RunAll(s, events).requests[r] == Named(id)) <==> CookieOf(events, r) == Some(id)
    decreases |events|
  {
    if events != [] {
      RunsFront(s, events);
      SessionOf(s, events[..|events| - 1], id);
      hide Runs, RunAll;
    }
  }

  lemma FrontTouches(events: seq<Event>, n: nat, id: string, key: string)
    requires n <= |events|
    ensures forall j :: 0 <= j < n ==> (Touches(events[..n], j, id, key) <==> Touches(events, j, id, key))
    ensures forall j :: 0 <= j < n ==> (MayAssign(events[..n], j, id) <==> MayAssign(events, j, id))
  {
    forall j | 0 <= j < n
      ensures Touches(events[..n], j, id, key) <==> Touches(events, j, id, key)
      ensures MayAssign(events[..n], j, id) <==> MayAssign(events, j, id)
    {
      assert events[..n][..j] == events[..j];
    }
  }

  /** What the last step of a run makes of a session. */
  lemma LastStep(s: Plain, events: seq<Event>, id: string, key: string)
    requires Runs(s, events) && id != "" && id in s.sessions && !InUse(s, id)
    requires events != [] && !MayAssign(events, |events| - 1, id)
    ensures var front, n := events[..|events| - 1], |events| - 1;
            && Runs(s, front) && id in RunAll(s, front).sessions && id in RunAll(s, events).sessions
            && var x, y, e := RunAll(s, front).sessions[id], RunAll(s, events).sessions[id], events[n];
               && (Touches(events, n, id, key) && e.Set? ==> key in y && y[key] == e.value)
               && (Touches(events, n, id, key) && e.Remove? ==> key !in y)
               && (!Touches(events, n, id, key) ==> (key in y <==> key in x) && (key in x ==> y[key] == x[key]))
  {
    RunsFront(s, events);
    SessionOf(s, events[..|events| - 1], id);
    hide Runs, RunAll, Unused, InUse, CookieOf;
  }

  /** The last step that touches a key of a session decides what the session holds there. */
  lemma {:induction false} LastWriteWins(s: Plain, events: seq<Event>, id: string, i: nat, key: string)
    requires Runs(s, events) && id != "" && id in s.sessions && !InUse(s, id)
    requires i < |events| && Touches(events, i, id, key)
    requires forall j :: i < j < |events| ==> !Touches(events, j, id, key) && !MayAssign(events, j, id)
    ensures id in RunAll(s, events).sessions
    ensures events[i].Set? ==> key in RunAll(s, events).sessions[id] && RunAll(s, events).sessions[id][key] == events[i].value
    ensures events[i].Remove? ==> key !in RunAll(s, events).sessions[id]
    decreases |events|
  {
    assert !MayAssign(events, i, id);
    hide Runs, RunAll, Touches, MayAssign, InUse;
    var n := |events| - 1;
    LastStep(s, events, id, key);
    if i < n {
      FrontTouches(events, n, id, key);
      LastWriteWins(s, events[..n], id, i, key);
    }
  }

  /** What no step touches is what it was. */
  lemma {:induction false} UntouchedStays(s: Plain, events: seq<Event>, id: string, key: string)
    requires Runs(s, events) && id != "" && id in s.sessions && !InUse(s, id)
    requires forall j :: 0 <= j < |events| ==> !Touches(events, j, id, key) && !MayAssign(events, j, id)
    ensures id in RunAll(s, events).sessions
    ensures key in RunAll(s, events).sessions[id] <==> key in s.sessions[id]
    ensures key in s.sessions[id] ==> RunAll(s, events).sessions[id][key] == s.sessions[id][key]
    decreases |events|
  {
    if events != [] {
      hide Runs, RunAll, Touches, MayAssign, InUse;
      var n := |events| - 1;
      LastStep(s, events, id, key);
      FrontTouches(events, n, id, key);
      UntouchedStays(s, events[..n], id, key);
    }
  }

  // ---------------------------------------------------------------- a request without a session

  /** Request `r` began at step `b` with a cookie that names no session, and runs on. */
  predicate WithoutSession(s: Plain, events: seq<Event>, b: nat, r: nat)
    requires Runs(s, events)
  {
    && b < |events| && events[b].Begin? && events[b].r == r
    && Runs(s, events[..b]) && (events[b].cookie == "" || events[b].cookie !in RunAll(s, events[..b]).sessions)
    && forall j :: b < j < |events| && events[j].r == r ==> events[j].Set? || events[j].Remove?
  }

  lemma {:induction false} HasNoSession(s: Plain, events: seq<Event>, b: nat, r: nat)
    requires Runs(s, events) && WithoutSession(s, events, b, r)
    ensures r in RunAll(s, events).requests && !RunAll(s, events).requests[r].Named?
    decreases |events|
  {
    var n := |events| - 1;
    RunsFront(s, events);
    if b < n {
      assert events[..n][..b] == events[..b];
      HasNoSession(s, events[..n], b, r);
    }
    hide Runs, RunAll;
  }

  /** Such a request holds what it sets for itself. */
  lemma {:induction false} OwnWrite(s: Plain, events: seq<Event>, b: nat, i: nat, r: nat)
    requires Runs(s, events) && WithoutSession(s, events, b, r)
    requires b < i < |events| && events[i].Set? && events[i].r == r
    requires forall j :: i < j < |events| && events[j].r == r ==> events[j].key != events[i].key
    ensures var t := RunAll(s, events);
            && r in t.requests && t.requests[r].Unnamed?
            && events[i].key in t.requests[r].entries && t.requests[r].entries[events[i].key] == events[i].value
    decreases |events|
  {
    var n := |events| - 1;
    RunsFront(s, events);
    assert events[..n][..b] == events[..b];
    HasNoSession(s, events[..n], b, r);
    if i < n { OwnWrite(s, events[..n], b, i, r); }
    hide Runs, RunAll;
  }

  /** At its end a new session is made of that, under the identifier that was made up. */
  lemma NewSession(s: Plain, events: seq<Event>, b: nat, i: nat, r: nat, generated: string)
    requires Runs(s, events) && WithoutSession(s, events, b, r)
    requires b < i < |events| && events[i].Set? && events[i].r == r
    requires forall j :: i < j < |events| && events[j].r == r ==> events[j].key != events[i].key
    requires Runs(s, events + [Event.End(r, generated)])
    ensures var t := RunAll(s, events + [Event.End(r, generated)]);
            && generated in t.sessions && r !in t.requests
            && events[i].key in t.sessions[generated] && t.sessions[generated][events[i].key] == events[i].value
  {
    var all := events + [Event.End(r, generated)];
    assert all[..|all| - 1] == events;
    RunsFront(s, all);
    OwnWrite(s, events, b, i, r);
    hide Runs, RunAll;
  }
}
