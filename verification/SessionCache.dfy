/** `SessionMiddleware` over `InMemoryStore` of `session.h`: requests share reference-counted nodes. */
module SessionCache {
  import opened Wrappers
  import opened SessionPlain

  class CachedSession {
    var sessionId: string
    var requestedSessionId: string
    var entries: Entries
    var dirty: set<string>
    var requestedRefresh: bool
    var referrers: int

    constructor ()
      ensures sessionId == "" && requestedSessionId == "" && entries == map[] && dirty == {} && !requestedRefresh && referrers == 0
    {
      sessionId, requestedSessionId, entries, dirty, requestedRefresh, referrers := "", "", map[], {}, false, 0;
    }
  }

  class InMemoryStore {
    var entries: map<string, Entries>

    constructor ()
      ensures entries == map[]
    {
      entries := map[];
    }

    predicate Contains(key: string)
      reads this
    {
      key in entries
    }

    /** Moves the entries into the node; what stays behind is empty. */
    method Load(cn: CachedSession)
      requires cn.sessionId in entries
      modifies this, cn
      ensures cn.entries == old(entries[cn.sessionId]) && entries == old(entries)[cn.sessionId := map[]]
      ensures cn.sessionId == old(cn.sessionId) && cn.referrers == old(cn.referrers)
    {
      cn.entries := entries[cn.sessionId];
      entries := entries[cn.sessionId := map[]];
    }

    /** Moves the entries back. */
    method Save(cn: CachedSession)
      modifies this, cn
      ensures entries == old(entries)[cn.sessionId := old(cn.entries)]
      ensures cn.sessionId == old(cn.sessionId) && cn.referrers == old(cn.referrers) && cn.requestedRefresh == old(cn.requestedRefresh)
    {
      entries := entries[cn.sessionId := cn.entries];
      cn.entries := map[];
    }
  }

  /** What a request holds of its session. */
  class Context {
    var node: CachedSession?

    constructor ()
      ensures node == null
    {
      node := null;
    }

    predicate Exists()
      reads this
    {
      node != null
    }

    method CheckNode()
      modifies this
      ensures node != null && (old(node) != null ==> node == old(node))
      ensures old(node) == null ==> fresh(node) && node.sessionId == "" && node.referrers == 0 && node.entries == map[]
      ensures old(node) == null ==> node.requestedSessionId == ""
    {
      if node == null { node := new CachedSession(); }
    }

    method Set(key: string, value: MultiValue)
      modifies this, node
      ensures node != null && key in node.dirty
      ensures old(node) == null ==> fresh(node) && node.sessionId == "" && node.referrers == 0 && node.entries == map[key := value]
      ensures node.requestedSessionId == if old(node) == null then "" else old(node.requestedSessionId)
      ensures old(node) != null ==> node == old(node) && node.sessionId == old(node.sessionId) && node.referrers == old(node.referrers)
      ensures old(node) != null ==> node.entries == old(node.entries)[key := value]
      ensures forall f :: Get(key, f) == if SameType(value, f) then value else f
      ensures forall k, f :: k != key ==> Get(k, f) == old(Get(k, f))
    {
      CheckNode();
      node.dirty := node.dirty + {key};
      node.entries := node.entries[key := value];
    }

    method Remove(key: string)
      modifies node
      ensures node != null ==> key in node.dirty && node.entries == old(node.entries) - {key}
      ensures node != null ==> node.sessionId == old(node.sessionId) && node.referrers == old(node.referrers)
      ensures node != null ==> node.requestedSessionId == old(node.requestedSessionId)
      ensures forall f :: Get(key, f) == f
      ensures forall k, f :: k != key ==> Get(k, f) == old(Get(k, f))
    {
      if node == null { return; }
      node.dirty := node.dirty + {key};
      node.entries := node.entries - {key};
    }

    method RefreshExpiration()
      modifies node
      ensures node != null ==> node.requestedRefresh && node.entries == old(node.entries)
      ensures node != null ==> node.sessionId == old(node.sessionId) && node.referrers == old(node.referrers)
      ensures node != null ==> node.requestedSessionId == old(node.requestedSessionId)
    {
      if node != null { node.requestedRefresh := true; }
    }

    /** The value at `key` if it is of the same type as `fallback`. */
    function Get(key: string, fallback: MultiValue): MultiValue
      reads this, node
    {
      if node != null && key in node.entries && SameType(node.entries[key], fallback) then node.entries[key] else fallback
    }
  }

  predicate SameType(a: MultiValue, b: MultiValue) {
    (a.Flag? && b.Flag?) || (a.Integer? && b.Integer?) || (a.Real? && b.Real?) || (a.Text? && b.Text?)
  }

  class SessionMiddleware {
    const store: InMemoryStore
    var cache: map<string, CachedSession>
    /** The contexts of the requests between before_handle and after_handle, and all nodes there ever were. */
    ghost var active: set<Context>
    ghost var nodes: set<CachedSession>

    /** The running requests that hold a node. */
    ghost function Holders(n: CachedSession): set<Context>
      reads this, active
    {
      set c | c in active && c.node == n
    }

    /** Cached nodes are filed under their own identifiers, which the store knows, and count their holders. */
    ghost predicate CacheOk()
      reads this, store, active, nodes
    {
      forall id <- cache ::
        var n := cache[id];
        n in nodes && id != "" && n.sessionId == id && id in store.entries && n.referrers == |Holders(n)| > 0
    }

    /** A request on a session shares the cached node; a node without identifier belongs to one request. */
    ghost predicate HeldOk(c: Context)
      reads this, active, nodes, c
    {
      c.node == null ||
      (c.node in nodes &&
       if c.node.sessionId == "" then c.node.referrers == 0 && c.node.requestedSessionId == "" && Holders(c.node) == {c}
       else c.node.sessionId in cache && cache[c.node.sessionId] == c.node)
    }

    ghost predicate Valid()
      reads this, store, active, nodes
    {
      CacheOk() && forall c <- active :: HeldOk(c)
    }

    /** The sessions there are: the cached entries of a session if it is cached, and else the stored ones. */
    ghost function Sessions(): map<string, Entries>
      reads this, store, nodes, cache.Values
    {
      map id | id in store.entries :: if id in cache then cache[id].entries else store.entries[id]
    }

    /** What a running request works on. */
    ghost function RequestOf(c: Context): Request
      reads c, c.node
    {
      if c.node == null then Bare else if c.node.sessionId == "" then Unnamed(c.node.entries) else Named(c.node.sessionId)
    }

    lemma CachedKnown()
      requires Valid()
      ensures Sessions().Keys == store.entries.Keys
      ensures forall id <- cache :: id in store.entries && id != "" && cache[id] in nodes && cache[id].sessionId == id
      ensures forall id <- store.entries :: Sessions()[id] == if id in cache then cache[id].entries else store.entries[id]
    {
    }

    lemma NodeKnown(c: Context)
      requires Valid() && c in active
      ensures c.node == null || c.node in nodes
    {
    }

    /** All running requests on a session share one node. */
    lemma OneNode(c: Context, d: Context)
      requires Valid() && c in active && d in active && c.node != null && d.node != null
      requires c.node.sessionId == d.node.sessionId != ""
      ensures c.node == d.node
    {
      assert HeldOk(c) && HeldOk(d);
    }

    /** What a request on a session reads is what the session holds. */
    lemma ReadsSession(c: Context, key: string, fallback: MultiValue)
      requires Valid() && c in active && c.node != null && c.node.sessionId != ""
      ensures c.node.sessionId in Sessions()
      ensures var entries := Sessions()[c.node.sessionId];
              c.Get(key, fallback) == if key in entries && SameType(entries[key], fallback) then entries[key] else fallback
    {
      assert HeldOk(c);
    }

    constructor ()
      ensures Valid() && fresh(store) && active == {} && nodes == {} && Sessions() == map[]
    {
      store := new InMemoryStore();
      cache, active, nodes := map[], {}, {};
    }

    method BeforeHandle(ctx: Context, sessionId: string)
      requires Valid() && ctx !in active && ctx.node == null
      modifies this, store, ctx, nodes
      ensures Valid() && active == old(active) + {ctx} && fresh(nodes - old(nodes)) && old(nodes) <= nodes
      ensures Sessions() == old(Sessions())
      ensures RequestOf(ctx) == Opened(old(Sessions()), sessionId)
      ensures ctx.node != null <==> sessionId != "" && sessionId in old(store.entries)
      ensures ctx.node != null ==> ctx.node.sessionId == sessionId && sessionId in cache && cache[sessionId] == ctx.node
      ensures ctx.node != null ==>
                ctx.node.entries == if sessionId in old(cache) then old(cache[sessionId].entries) else old(store.entries[sessionId])
      ensures sessionId in old(cache) ==> ctx.node == old(cache[sessionId])
      ensures forall c <- old(active) :: c.node == old(c.node) && (c.node != null ==> c.node.entries == old(c.node.entries))
      ensures forall c <- old(active) :: RequestOf(c) == old(RequestOf(c))
    {
      hide Valid, Sessions, RequestOf;
      CachedKnown();
      Enter(ctx);
      if sessionId == "" { return; }
      if sessionId in cache {
        Share(ctx, cache[sessionId], sessionId);
        return;
      }
      if !store.Contains(sessionId) { return; }
      LoadNode(ctx, sessionId);
    }

    /** A request begins, and holds nothing yet. */
    method Enter(ctx: Context)
      requires Valid() && ctx !in active && ctx.node == null
      modifies this`active
      ensures Valid() && active == old(active) + {ctx}
      ensures Sessions() == old(Sessions()) && RequestOf(ctx) == Bare
    {
      active := active + {ctx};
      assert forall n <- nodes :: Holders(n) == old(Holders(n));
    }

    /** The session is cached. */
    method Share(ctx: Context, n: CachedSession, ghost sessionId: string)
      requires Valid() && ctx in active && ctx.node == null && sessionId in cache && cache[sessionId] == n
      modifies n`referrers, ctx
      ensures Valid() && ctx.node == n && n.sessionId == sessionId && RequestOf(ctx) == Named(sessionId) && Sessions() == old(Sessions())
      ensures forall c <- active :: c != ctx ==> RequestOf(c) == old(RequestOf(c))
    {
      n.referrers := n.referrers + 1;
      ctx.node := n;
      assert Holders(n) == old(Holders(n)) + {ctx};
      assert forall m <- nodes :: m != n ==> Holders(m) == old(Holders(m));
      assert forall id <- cache :: id != sessionId ==> cache[id] != n;
    }

    /** The session is in the store only. */
    method LoadNode(ctx: Context, sessionId: string)
      requires Valid() && ctx in active && ctx.node == null && sessionId !in cache && sessionId in store.entries && sessionId != ""
      modifies this`cache, this`nodes, store, ctx
      ensures Valid() && fresh(nodes - old(nodes)) && old(nodes) <= nodes
      ensures RequestOf(ctx) == Named(sessionId) && Sessions() == old(Sessions())
      ensures ctx.node != null && ctx.node.sessionId == sessionId && ctx.node.entries == old(store.entries[sessionId])
      ensures sessionId in cache && cache[sessionId] == ctx.node
      ensures forall c <- active :: c != ctx ==> RequestOf(c) == old(RequestOf(c))
    {
      hide Valid, Sessions, RequestOf;
      CachedKnown();
      var n := NewNode(sessionId);
      CachedKnown();
      File(ctx, n);
      assert Sessions() == old(Sessions());
    }

    method NewNode(sessionId: string) returns (n: CachedSession)
      requires Valid() && sessionId !in cache && sessionId in store.entries
      modifies store
      ensures Valid() && fresh(n) && n.sessionId == sessionId && n.referrers == 1 && n.entries == old(store.entries[sessionId])
      ensures store.entries == old(store.entries)[sessionId := map[]] && Sessions() == old(Sessions())[sessionId := map[]]
      ensures forall c <- active :: RequestOf(c) == old(RequestOf(c))
    {
      hide Valid, Sessions, RequestOf;
      KnownNodes();
      n := Made(sessionId);
      Take(n);
    }

    lemma KnownNodes()
      requires Valid()
      ensures (forall id <- cache :: cache[id] in nodes) && forall c <- active :: c.node == null || c.node in nodes
    {
    }

    /** store_.load into a node that nobody holds yet. */
    method Take(n: CachedSession)
      requires Valid() && n !in nodes && n.sessionId !in cache && n.sessionId in store.entries
      modifies store, n
      ensures Valid() && n.sessionId == old(n.sessionId) && n.referrers == old(n.referrers) && n.entries == old(store.entries[n.sessionId])
      ensures store.entries == old(store.entries)[n.sessionId := map[]] && Sessions() == old(Sessions())[n.sessionId := map[]]
      ensures forall c <- active :: RequestOf(c) == old(RequestOf(c))
    {
      KnownNodes();
      store.Load(n);
      assert forall m <- nodes :: Holders(m) == old(Holders(m));
    }

    method Made(sessionId: string) returns (n: CachedSession)
      ensures fresh(n) && n.sessionId == sessionId && n.referrers == 1
    {
      n := new CachedSession();
      n.sessionId := sessionId;
      n.referrers := 1;
    }

    method File(ctx: Context, n: CachedSession)
      requires Valid() && ctx in active && ctx.node == null && n !in nodes && n.referrers == 1
      requires n.sessionId !in cache && n.sessionId in store.entries && n.sessionId != ""
      modifies this`cache, this`nodes, ctx
      ensures Valid() && nodes == old(nodes) + {n} && RequestOf(ctx) == Named(n.sessionId)
      ensures ctx.node == n && cache == old(cache)[n.sessionId := n]
      ensures Sessions() == old(Sessions())[n.sessionId := n.entries]
      ensures forall c <- active :: c != ctx ==> RequestOf(c) == old(RequestOf(c))
    {
      CachedKnown();
      FileNode(ctx, n);
      hide Valid;
    }

    method FileNode(ctx: Context, n: CachedSession)
      requires Valid() && ctx in active && ctx.node == null && n !in nodes && n.referrers == 1
      requires n.sessionId !in cache && n.sessionId in store.entries && n.sessionId != ""
      modifies this`cache, this`nodes, ctx
      ensures Valid() && nodes == old(nodes) + {n} && cache == old(cache)[n.sessionId := n] && ctx.node == n
    {
      assert forall c <- active :: c.node != n;
      ctx.node := n;
      cache := cache[n.sessionId := n];
      nodes := nodes + {n};
      assert Holders(n) == {ctx};
      assert forall m <- old(nodes) :: Holders(m) == old(Holders(m));
    }

    /** Changing the entries of a node leaves everything else in order. */
    twostate lemma OnlyEntries()
      requires old(Valid()) && active == old(active) && cache == old(cache) && nodes == old(nodes) && store.entries == old(store.entries)
      requires forall c <- active :: c.node == old(c.node)
      requires forall n <- nodes :: n.sessionId == old(n.sessionId) && n.referrers == old(n.referrers)
      requires forall n <- nodes :: n.requestedSessionId == old(n.requestedSessionId)
      ensures Valid()
    {
      assert forall n <- nodes :: Holders(n) == old(Holders(n));
    }

    /** One Set or Remove of a running request: what every running request holds, and the sessions, are as if there were
        no cache. */
    method Change(ctx: Context, e: Event)
      requires Valid() && ctx in active && (e.Set? || e.Remove?)
      modifies this`nodes, ctx, ctx.node
      ensures Valid() && fresh(nodes - old(nodes)) && old(nodes) <= nodes
      ensures Sessions() == SessionsAfter(old(Sessions()), old(RequestOf(ctx)), e)
      ensures RequestOf(ctx) == RequestAfter(old(RequestOf(ctx)), e)
      ensures forall c <- active :: c != ctx ==> c.node == old(c.node) && RequestOf(c) == old(RequestOf(c))
      ensures ctx.node == null <==> old(ctx.node) == null && e.Remove?
      ensures old(ctx.node) != null ==>
                && ctx.node == old(ctx.node) && ctx.node.sessionId == old(ctx.node.sessionId)
                && ctx.node.entries == if e.Set? then old(ctx.node.entries)[e.key := e.value] else old(ctx.node.entries) - {e.key}
      ensures old(ctx.node) == null && e.Set? ==> fresh(ctx.node) && ctx.node.sessionId == "" && ctx.node.entries == map[e.key := e.value]
    {
      hide Valid, Sessions;
      if ctx.node != null {
        ChangeHeld(ctx, e);
      } else if e.Set? {
        SetBare(ctx, e);
      } else {
        ctx.Remove(e.key);
      }
    }

    method ChangeHeld(ctx: Context, e: Event)
      requires Valid() && ctx in active && ctx.node != null && (e.Set? || e.Remove?)
      modifies ctx, ctx.node
      ensures Valid() && ctx.node == old(ctx.node)
      ensures ctx.node.sessionId == old(ctx.node.sessionId) && ctx.node.entries == Changed(e, old(ctx.node.entries))
      ensures if ctx.node.sessionId == "" then Sessions() == old(Sessions())
              else ctx.node.sessionId in old(Sessions()) && old(Sessions())[ctx.node.sessionId] == old(ctx.node.entries)
                   && Sessions() == old(Sessions())[ctx.node.sessionId := ctx.node.entries]
      ensures forall c <- active :: c != ctx ==> RequestOf(c) == old(RequestOf(c))
    {
      HeldFacts(ctx);
      ChangeNode(ctx, e);
      hide Valid, Changed;
      assert Sessions().Keys == old(Sessions()).Keys;
    }

    method ChangeNode(ctx: Context, e: Event)
      requires Valid() && ctx in active && ctx.node != null && (e.Set? || e.Remove?)
      modifies ctx, ctx.node
      ensures Valid() && ctx.node == old(ctx.node)
      ensures ctx.node.sessionId == old(ctx.node.sessionId) && ctx.node.entries == Changed(e, old(ctx.node.entries))
    {
      HeldFacts(ctx);
      if e.Set? { ctx.Set(e.key, e.value); } else { ctx.Remove(e.key); }
      OnlyEntries();
    }

    /** Who else holds the node that a request holds, and where it is filed. */
    lemma HeldFacts(ctx: Context)
      requires Valid() && ctx in active && ctx.node != null
      ensures ctx.node in nodes
      ensures forall id <- cache :: cache[id] in nodes && id in store.entries && cache[id].sessionId == id && id != ""
      ensures forall c <- active :: c.node == ctx.node && c != ctx ==> ctx.node.sessionId != ""
      ensures ctx.node.sessionId != "" ==> ctx.node.sessionId in cache && cache[ctx.node.sessionId] == ctx.node
      ensures ctx.node.sessionId == "" ==> ctx.node.requestedSessionId == "" && Holders(ctx.node) == {ctx}
    {
      forall c <- active | c.node == ctx.node && c != ctx ensures ctx.node.sessionId != "" { assert c in Holders(ctx.node); }
    }

    method SetBare(ctx: Context, e: Event)
      requires Valid() && ctx in active && ctx.node == null && e.Set?
      modifies this`nodes, ctx
      ensures Valid() && fresh(nodes - old(nodes)) && old(nodes) <= nodes
      ensures Sessions() == old(Sessions()) && RequestOf(ctx) == Unnamed(map[e.key := e.value])
      ensures ctx.node != null && fresh(ctx.node) && ctx.node.sessionId == "" && ctx.node.entries == map[e.key := e.value]
      ensures forall c <- active :: c != ctx ==> RequestOf(c) == old(RequestOf(c))
    {
      ctx.Set(e.key, e.value);
      nodes := nodes + {ctx.node};
      assert forall m <- old(nodes) :: Holders(m) == old(Holders(m));
      assert Holders(ctx.node) == {ctx};
    }

    /** A request ends. The last holder of a session writes it back to the store; entries without a session get the
        identifier `generated`, and are lost exactly if a cached session has it. */
    method AfterHandle(ctx: Context, generated: string) returns (cookie: Option<string>)
      requires Valid() && ctx in active && generated != ""
      modifies this`active, this`cache, store, ctx.node
      ensures Valid() && active == old(active) - {ctx}
      ensures match old(RequestOf(ctx))
              case Unnamed(entries) =>
                && cookie == Some(generated)
                && Sessions() == if generated in old(cache) then old(Sessions()) else old(Sessions())[generated := entries]
              case Named(id) =>
                && (cookie == Some(id) <==> old(ctx.node.requestedRefresh) && Holders(ctx.node) == {}) && (cookie.Some? ==> cookie == Some(id))
                && Sessions() == old(Sessions())
              case Bare => cookie == None && Sessions() == old(Sessions())
      ensures old(ctx.node) == null || StillHeld(ctx.node) ==> store.entries == old(store.entries) && cache == old(cache)
      ensures old(ctx.node) != null && !StillHeld(ctx.node) ==>
                var id := if old(ctx.node.sessionId) == "" then generated else old(ctx.node.sessionId);
                && store.entries == old(store.entries)[id := old(ctx.node.entries)]
                && cache == if old(ctx.node.sessionId) == "" then old(cache) else old(cache) - {id}
      ensures forall c <- active :: c.node == old(c.node) && RequestOf(c) == old(RequestOf(c))
      ensures forall c <- active :: c.node != null ==> c.node.entries == old(c.node.entries)
    {
      hide Valid, Sessions;
      cookie := None;
      if ctx.node == null {
        Leave(ctx);
        return;
      }
      HeldFacts(ctx);
      CountFacts(ctx);
      if ctx.node.referrers > 1 {
        Release(ctx);
        return;
      }
      if ctx.node.sessionId == "" {
        EndUnnamed(ctx, generated);
        cookie := Some(generated);
      } else {
        if ctx.node.requestedRefresh { cookie := Some(ctx.node.sessionId); }
        EndNamed(ctx);
      }
    }

    /** Some running request holds the node. */
    ghost predicate StillHeld(n: CachedSession?)
      reads this, active
    {
      exists c <- active :: c.node == n
    }

    lemma CountFacts(ctx: Context)
      requires Valid() && ctx in active && ctx.node != null
      ensures ctx.node.sessionId == "" ==> ctx.node.referrers == 0
      ensures ctx.node.sessionId != "" ==> ctx.node.referrers == |Holders(ctx.node)| > 0
    {
    }

    method Leave(ctx: Context)
      requires Valid() && ctx in active && ctx.node == null
      modifies this`active
      ensures Valid() && active == old(active) - {ctx} && Sessions() == old(Sessions())
    {
      active := active - {ctx};
      assert forall m <- nodes :: Holders(m) == old(Holders(m));
    }

    /** Others still hold the node. */
    method Release(ctx: Context)
      requires Valid() && ctx in active && ctx.node != null && ctx.node.referrers > 1
      modifies this`active, ctx.node`referrers
      ensures Valid() && active == old(active) - {ctx} && Sessions() == old(Sessions())
      ensures Holders(ctx.node) != {}
    {
      CachedKnown();
      ReleaseNode(ctx);
      hide Valid, Holders;
    }

    method ReleaseNode(ctx: Context)
      requires Valid() && ctx in active && ctx.node != null && ctx.node.referrers > 1
      modifies this`active, ctx.node`referrers
      ensures Valid() && active == old(active) - {ctx} && Holders(ctx.node) != {}
    {
      HeldFacts(ctx);
      CountFacts(ctx);
      ghost var n, h := ctx.node, Holders(ctx.node);
      OneFewer(h, ctx);
      ctx.node.referrers := ctx.node.referrers - 1;
      active := active - {ctx};
      assert Holders(n) == h - {ctx};
      assert forall m <- nodes :: m != n ==> Holders(m) == old(Holders(m));
      assert forall id <- cache :: id != n.sessionId ==> cache[id] != n;
    }

    /** The last request on a cached session ends. */
    method EndNamed(ctx: Context)
      requires Valid() && ctx in active && ctx.node != null && ctx.node.referrers <= 1 && ctx.node.sessionId != ""
      modifies this`active, this`cache, store, ctx.node
      ensures Valid() && active == old(active) - {ctx} && Sessions() == old(Sessions()) && Holders(ctx.node) == {}
      ensures store.entries == old(store.entries)[old(ctx.node.sessionId) := old(ctx.node.entries)]
      ensures cache == old(cache) - {old(ctx.node.sessionId)}
      ensures forall c <- active :: RequestOf(c) == old(RequestOf(c))
    {
      hide Valid, Sessions, RequestOf;
      HeldFacts(ctx);
      CachedKnown();
      ghost var id := ctx.node.sessionId;
      Unfile(ctx);
      CachedKnown();
      WriteBack(ctx.node);
      assert Sessions() == old(Sessions());
    }

    method Unfile(ctx: Context)
      requires Valid() && ctx in active && ctx.node != null && ctx.node.referrers <= 1 && ctx.node.sessionId != ""
      modifies this`active, this`cache, ctx.node`referrers
      ensures Valid() && active == old(active) - {ctx} && cache == old(cache) - {ctx.node.sessionId} && Loose(ctx.node)
      ensures ctx.node.sessionId in store.entries
      ensures Sessions() == old(Sessions())[ctx.node.sessionId := store.entries[ctx.node.sessionId]]
      ensures forall c <- active :: RequestOf(c) == old(RequestOf(c))
    {
      HeldFacts(ctx);
      CachedKnown();
      UnfileNode(ctx);
      hide Valid, Loose, Holders;
    }

    method UnfileNode(ctx: Context)
      requires Valid() && ctx in active && ctx.node != null && ctx.node.referrers <= 1 && ctx.node.sessionId != ""
      modifies this`active, this`cache, ctx.node`referrers
      ensures Valid() && active == old(active) - {ctx} && cache == old(cache) - {ctx.node.sessionId} && Loose(ctx.node)
    {
      HeldFacts(ctx);
      LastHolder(ctx);
      ghost var n := ctx.node;
      ctx.node.referrers := ctx.node.referrers - 1;
      cache := cache - {ctx.node.sessionId};
      active := active - {ctx};
      assert forall m <- nodes :: m != n ==> Holders(m) == old(Holders(m));
      assert Holders(n) == {};
    }

    lemma LastHolder(ctx: Context)
      requires Valid() && ctx in active && ctx.node != null && ctx.node.referrers <= 1 && ctx.node.sessionId != ""
      ensures forall c <- active :: c.node == ctx.node ==> c == ctx
    {
      HeldFacts(ctx);
      CountFacts(ctx);
      OneLeft(Holders(ctx.node), ctx);
      assert forall c <- active :: c.node == ctx.node ==> c in Holders(ctx.node);
    }

    /** Neither the cache nor a running request knows the node. */
    ghost predicate Loose(n: CachedSession)
      reads this, active, cache.Values
    {
      Holders(n) == {} && n !in cache.Values
    }

    /** store_.save of a node that nobody holds any more. */
    method WriteBack(n: CachedSession)
      requires Valid() && Loose(n)
      modifies store, n
      ensures Valid() && Sessions() == if n.sessionId in cache then old(Sessions()) else old(Sessions())[n.sessionId := old(n.entries)]
      ensures n.sessionId == old(n.sessionId) && Holders(n) == {} && store.entries == old(store.entries)[n.sessionId := old(n.entries)]
      ensures forall c <- active :: RequestOf(c) == old(RequestOf(c))
    {
      assert forall c <- active :: c.node == n ==> c in Holders(n);
      store.Save(n);
      assert forall m <- nodes :: Holders(m) == old(Holders(m));
    }

    /** The only request that holds some entries ends. */
    method EndUnnamed(ctx: Context, generated: string)
      requires Valid() && ctx in active && ctx.node != null && ctx.node.sessionId == "" && generated != ""
      modifies this`active, store, ctx.node
      ensures Valid() && active == old(active) - {ctx}
      ensures Sessions() == if generated in cache then old(Sessions()) else old(Sessions())[generated := old(ctx.node.entries)]
      ensures store.entries == old(store.entries)[generated := old(ctx.node.entries)]
      ensures forall c <- active :: RequestOf(c) == old(RequestOf(c))
    {
      hide Valid, Sessions, RequestOf, Loose;
      Detach(ctx, generated);
      WriteBack(ctx.node);
    }

    method Detach(ctx: Context, generated: string)
      requires Valid() && ctx in active && ctx.node != null && ctx.node.sessionId == "" && generated != ""
      modifies this`active, ctx.node
      ensures Valid() && active == old(active) - {ctx} && Sessions() == old(Sessions()) && Loose(ctx.node)
      ensures ctx.node.sessionId == generated && ctx.node.entries == old(ctx.node.entries)
      ensures forall c <- active :: RequestOf(c) == old(RequestOf(c))
    {
      HeldFacts(ctx);
      ghost var n := ctx.node;
      assert forall c <- active :: c.node == n ==> c in Holders(n);
      NameNode(ctx.node, generated);
      active := active - {ctx};
      assert forall m <- nodes :: m != n ==> Holders(m) == old(Holders(m));
      assert Holders(n) == {};
    }

    /** A node gets the identifier that was asked for, or else the one that was made up. */
    method NameNode(node: CachedSession, generated: string)
      requires node.requestedSessionId == ""
      modifies node
      ensures node.sessionId == generated && node.entries == old(node.entries)
    {
      node.referrers := node.referrers - 1;
      node.requestedRefresh := true;
      node.sessionId := node.requestedSessionId;
      node.requestedSessionId := "";
      if node.sessionId == "" { node.sessionId := generated; }
    }
  }

  lemma OneFewer<T>(s: set<T>, x: T)
    requires x in s && |s| > 1
    ensures |s - {x}| == |s| - 1 > 0 && s - {x} != {}
  {
  }

  lemma OneLeft<T>(s: set<T>, x: T)
    requires x in s && |s| <= 1
    ensures s == {x}
  {
    assert |s - {x}| == |s| - 1;
  }
}
