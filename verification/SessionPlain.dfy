/** Sessions without a cache: every request works on one map of sessions directly. */
module SessionPlain {

  datatype MultiValue = Flag(b: bool) | Integer(i: int) | Real(d: real) | Text(s: string)

  type Entries = map<string, MultiValue>

  /** What a running request holds: the session that its cookie names, entries that have no session yet, or nothing. */
  datatype Request = Named(id: string) | Unnamed(entries: Entries) | Bare

  datatype Plain = Plain(sessions: map<string, Entries>, requests: map<nat, Request>)

  /** One step of the request with number `r`; `generated` is the identifier made up for a new session. */
  datatype Event =
    | Begin(r: nat, cookie: string)
    | Set(r: nat, key: string, value: MultiValue)
    | Remove(r: nat, key: string)
    | End(r: nat, generated: string)

  /** A request begins once and is running until it ends; identifiers that are made up are not empty. */
  predicate Possible(s: Plain, e: Event) {
    (if e.Begin? then e.r !in s.requests else e.r in s.requests) && (e.End? ==> e.generated != "")
  }

  /** What a Set or Remove does to the entries it works on. */
  function Changed(e: Event, entries: Entries): Entries {
    match e
    case Set(_, key, value) => entries[key := value]
    case Remove(_, key) => entries - {key}
    case _ => entries
  }

  /** The request that a cookie opens. */
  function Opened(sessions: map<string, Entries>, cookie: string): Request {
    if cookie != "" && cookie in sessions then Named(cookie) else Bare
  }

  /** What a request holds after one of its steps. */
  function RequestAfter(request: Request, e: Event): Request {
    match request
    case Named(_) => request
    case Unnamed(entries) => Unnamed(Changed(e, entries))
    case Bare => if e.Set? then Unnamed(map[e.key := e.value]) else Bare
  }

  /** The sessions after a step of a request that has begun. */
  function SessionsAfter(sessions: map<string, Entries>, request: Request, e: Event): map<string, Entries> {
    match request
    case Named(id) => if id in sessions then sessions[id := Changed(e, sessions[id])] else sessions
    case Unnamed(entries) => if e.End? then sessions[e.generated := entries] else sessions
    case Bare => sessions
  }

  function Step(s: Plain, e: Event): Plain
    requires Possible(s, e)
  {
    if e.Begin? then s.(requests := s.requests[e.r := Opened(s.sessions, e.cookie)])
    else
      var request := s.requests[e.r];
      Plain(SessionsAfter(s.sessions, request, e),
            if e.End? then s.requests - {e.r} else s.requests[e.r := RequestAfter(request, e)])
  }

  /** Some running request works on the session `id`. */
  predicate InUse(s: Plain, id: string) {
    exists r :: r in s.requests && s.requests[r] == Named(id)
  }

  /** A made-up identifier does not name a session that is being worked on. */
  predicate Unused(s: Plain, e: Event) {
    e.End? && e.r in s.requests && s.requests[e.r].Unnamed? ==> !InUse(s, e.generated)
  }

  /** Every step of a run is possible, and no identifier that it makes up is in use. */
  predicate Runs(s: Plain, events: seq<Event>)
    decreases |events|
  {
    events == [] || (Possible(s, events[0]) && Unused(s, events[0]) && Runs(Step(s, events[0]), events[1..]))
  }

  function RunAll(s: Plain, events: seq<Event>): Plain
    requires Runs(s, events)
    decreases |events|
  {
    if events == [] then s else RunAll(Step(s, events[0]), events[1..])
  }

  // ---------------------------------------------------------------- nothing is lost

  /** The updates of a run by the requests on the session `id`, applied to `entries` in order. */
  function Updates(s: Plain, events: seq<Event>, id: string, entries: Entries): Entries
    requires Runs(s, events)
    decreases |events|
  {
    if events == [] then entries
    else
      var e := events[0];
      Updates(Step(s, e), events[1..], id, if !e.Begin? && s.requests[e.r] == Named(id) then Changed(e, entries) else entries)
  }

  /** Some request without a session is given the identifier `id` at its end. */
  predicate Overwritten(s: Plain, events: seq<Event>, id: string)
    requires Runs(s, events)
    decreases |events|
  {
    events != [] &&
    (var e := events[0];
     (e.End? && s.requests[e.r].Unnamed? && e.generated == id) || Overwritten(Step(s, e), events[1..], id))
  }

  /** A session holds at the end of a run exactly what the requests on it did, however they interleave, as long as its
      identifier is not given to another session. */
  lemma {:induction false} NothingLost(s: Plain, events: seq<Event>, id: string)
    requires Runs(s, events) && id in s.sessions && !Overwritten(s, events, id)
    ensures id in RunAll(s, events).sessions && RunAll(s, events).sessions[id] == Updates(s, events, id, s.sessions[id])
    decreases |events|
  {
    if events != [] { NothingLost(Step(s, events[0]), events[1..], id); }
  }

  // ---------------------------------------------------------------- exactly when nothing is lost

  /** The same state, but the session `id` holds `x`. */
  function Holding(s: Plain, id: string, x: Entries): Plain {
    s.(sessions := s.sessions[id := x])
  }

  /** The states differ in what the session `id` holds at most. */
  predicate Alike(s: Plain, t: Plain, id: string) {
    && s.requests == t.requests && s.sessions.Keys == t.sessions.Keys && id in s.sessions
    && forall other <- s.sessions :: other != id ==> s.sessions[other] == t.sessions[other]
  }

  lemma StepAlike(s: Plain, t: Plain, id: string, e: Event)
    requires Alike(s, t, id) && Possible(s, e)
    ensures Possible(t, e) && (Unused(s, e) <==> Unused(t, e)) && Alike(Step(s, e), Step(t, e), id)
    ensures e.End? && s.requests[e.r].Unnamed? && e.generated == id ==> Step(s, e) == Step(t, e)
  {
    if e.End? && s.requests[e.r].Unnamed? && e.generated == id {
      assert Step(s, e).sessions == Step(t, e).sessions;
    }
  }

  lemma {:induction false} RunsAlike(s: Plain, t: Plain, id: string, events: seq<Event>)
    requires Alike(s, t, id) && Runs(s, events)
    ensures Runs(t, events) && Overwritten(s, events, id) == Overwritten(t, events, id)
    ensures id in RunAll(s, events).sessions && Overwritten(s, events, id) ==> RunAll(s, events) == RunAll(t, events)
    ensures Alike(RunAll(s, events), RunAll(t, events), id)
    decreases |events|
  {
    if events != [] {
      hide Step, Possible, Unused, Alike;
      var e := events[0];
      StepAlike(s, t, id, e);
      RunsAlike(Step(s, e), Step(t, e), id, events[1..]);
    }
  }

  /** Longer than any key that the events name. */
  function KeyBound(events: seq<Event>): nat {
    if events == [] then 1
    else
      var rest, n := KeyBound(events[1..]), if events[0].Set? || events[0].Remove? then |events[0].key| + 1 else 0;
      if rest < n then n else rest
  }

  lemma {:induction false} UntouchedKey(s: Plain, events: seq<Event>, id: string, x: Entries, key: string)
    requires Runs(s, events) && |key| >= KeyBound(events)
    ensures key in Updates(s, events, id, x) <==> key in x
    decreases |events|
  {
    if events != [] {
      var e := events[0];
      UntouchedKey(Step(s, e), events[1..], id, if !e.Begin? && s.requests[e.r] == Named(id) then Changed(e, x) else x, key);
    }
  }

  /** Whatever a session holds at first, nothing of it and of the updates is lost, if and only if its identifier is not
      given to another session. */
  lemma NothingLostIff(s: Plain, events: seq<Event>, id: string)
    requires Runs(s, events) && id in s.sessions
    ensures !Overwritten(s, events, id) <==> forall x: Entries :: KeepsAll(Holding(s, id, x), events, id)
  {
    hide Runs, RunAll, Updates, Overwritten;
    forall x: Entries ensures Runs(Holding(s, id, x), events) && Overwritten(s, events, id) == Overwritten(Holding(s, id, x), events, id) {
      RunsAlike(s, Holding(s, id, x), id, events);
    }
    if Overwritten(s, events, id) {
      var key := seq(KeyBound(events), _ => 'k');
      var none, one := Holding(s, id, map[]), Holding(s, id, map[key := Flag(true)]);
      RunsAlike(none, one, id, events);
      UntouchedKey(none, events, id, map[], key);
      UntouchedKey(one, events, id, map[key := Flag(true)], key);
      assert !(KeepsAll(none, events, id) && KeepsAll(one, events, id));
    } else {
      forall x: Entries ensures KeepsAll(Holding(s, id, x), events, id) { NothingLost(Holding(s, id, x), events, id); }
    }
  }

  /** The session `id` holds at the end what the requests on it did. */
  predicate KeepsAll(s: Plain, events: seq<Event>, id: string) {
    && Runs(s, events) && id in s.sessions && id in RunAll(s, events).sessions
    && RunAll(s, events).sessions[id] == Updates(s, events, id, s.sessions[id])
  }
}
