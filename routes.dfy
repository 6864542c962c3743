/** The book router: which handler a request reaches and which middleware
    stands in front of it. A path is the sequence of its segments below the
    `/books` mount point; a request that no route matches falls through the
    router. */
module BookRoutes {
  import opened Wrappers
  import opened Http
  import opened Books
  import Auth
  import Validation

  datatype Verb = Get | Post | Put | Delete

  datatype Segment = Lit(text: string) | Param(name: string)

  datatype Handler = GetAllBooks | SearchBooks | GetBookById | CreateBook | UpdateBook | DeleteBook

  /** One entry of a route's middleware chain. */
  datatype Stage = Authenticate | Authorize(spec: Auth.RoleSpec) | ValidateBook | Invoke(handler: Handler)

  datatype Route = Route(verb: Verb, pattern: seq<Segment>, chain: seq<Stage>)

  const Staff: Auth.RoleSpec := Auth.Many(["admin", "librarian"])
  const AdminOnly: Auth.RoleSpec := Auth.Many(["admin"])

  /** The routes in registration order; Express tries them in this order. */
  const Table: seq<Route> := [
    Route(Get, [], [Invoke(GetAllBooks)]),
    Route(Get, [Lit("search")], [Invoke(SearchBooks)]),
    Route(Get, [Param("id")], [Invoke(GetBookById)]),
    Route(Post, [], [Authenticate, Authorize(Staff), ValidateBook, Invoke(CreateBook)]),
    Route(Put, [Param("id")], [Authenticate, Authorize(Staff), ValidateBook, Invoke(UpdateBook)]),
    Route(Delete, [Param("id")], [Authenticate, Authorize(AdminOnly), Invoke(DeleteBook)])
  ]

  /** A literal segment matches itself; a parameter matches any non-empty segment. */
  predicate SegmentMatches(p: Segment, s: string) {
    match p
    case Lit(text) => s == text
    case Param(_) => s != ""
  }

  predicate PathMatches(pattern: seq<Segment>, path: seq<string>) {
    |pattern| == |path| && forall i :: 0 <= i < |path| ==> SegmentMatches(pattern[i], path[i])
  }

  predicate RouteMatches(r: Route, verb: Verb, path: seq<string>) {
    r.verb == verb && PathMatches(r.pattern, path)
  }

  /** The position of the first route that matches, counted from `from`. */
  function Dispatch(routes: seq<Route>, verb: Verb, path: seq<string>, from: nat): (r: Option<nat>)
    requires from <= |routes|
    decreases |routes| - from
    ensures r.Some? ==> from <= r.value < |routes| && RouteMatches(routes[r.value], verb, path)
    ensures r.Some? ==> forall j :: from <= j < r.value ==> !RouteMatches(routes[j], verb, path)
    ensures r.None? <==> forall j :: from <= j < |routes| ==> !RouteMatches(routes[j], verb, path)
  {
    if from == |routes| then None
    else if RouteMatches(routes[from], verb, path) then Some(from)
    else Dispatch(routes, verb, path, from + 1)
  }

  datatype Request = Request(verb: Verb, path: seq<string>, authorization: Option<string>, body: BookData)

  /** What the middleware needs from outside: token verification, the ids of
      existing users, and the validation environment. */
  datatype Context = Context(verify: string -> Option<Auth.Claims>, userIds: set<int>, env: Validation.Env)

  /** A handler reached (with the `req.user` set on the way), a response sent
      by a middleware, or no route. */
  datatype Outcome = Reached(handler: Handler, user: Option<Auth.Claims>) | Halted(status: StatusCode) | NoRoute

  /** Runs a chain: each middleware either calls `next()` or answers. `authorize`
      without a `req.user` throws on `req.user.role`, which Express answers 500. */
  function RunChain(chain: seq<Stage>, req: Request, ctx: Context, user: Option<Auth.Claims>): (o: Outcome)
    ensures o.Halted? ==> o.status in {Unauthorized401, BadRequest400, Forbidden403, ServerError500}
    ensures o.Reached? ==> Invoke(o.handler) in chain
    ensures o.Reached? && Authenticate !in chain ==> o.user == user
    ensures o.NoRoute? ==> forall k :: 0 <= k < |chain| ==> !chain[k].Invoke?
  {
    if chain == [] then NoRoute
    else
      match chain[0]
      case Authenticate =>
        (match Auth.Authenticate(req.authorization, ctx.verify, ctx.userIds)
         case Denied(s) => Halted(s)
         case Authenticated(u) => RunChain(chain[1..], req, ctx, Some(u)))
      case Authorize(spec) =>
        if user.None? then Halted(ServerError500)
        else
          (match Auth.Authorize(spec, user.value)
           case Halt(s) => Halted(s)
           case Next => RunChain(chain[1..], req, ctx, user))
      case ValidateBook =>
        (match Validation.ValidateBook(req.body, ctx.env)
         case Reject(s, _) => Halted(s)
         case Pass => RunChain(chain[1..], req, ctx, user))
      case Invoke(h) => Reached(h, user)
  }

  function Serve(req: Request, ctx: Context): (o: Outcome)
    ensures o.NoRoute? <==> forall j :: 0 <= j < |Table| ==> !RouteMatches(Table[j], req.verb, req.path)
  {
    match Dispatch(Table, req.verb, req.path, 0)
    case None => NoRoute
    case Some(i) =>
      assert Table[i].chain[|Table[i].chain| - 1].Invoke?;
      RunChain(Table[i].chain, req, ctx, None)
  }

  predicate HasRole(c: Auth.Claims, roles: seq<string>) {
    c.role.Some? && c.role.value in roles
  }

  /** The staff chain of POST and PUT, stage by stage. */
  lemma StaffChainSteps(h: Handler, req: Request, ctx: Context)
    ensures var a := Auth.Authenticate(req.authorization, ctx.verify, ctx.userIds);
      RunChain([Authenticate, Authorize(Staff), ValidateBook, Invoke(h)], req, ctx, None) ==
        if a.Denied? then Halted(a.status)
        else if !HasRole(a.user, ["admin", "librarian"]) then Halted(Forbidden403)
        else if !Validation.BookConforms(req.body, ctx.env) then Halted(BadRequest400)
        else Reached(h, Some(a.user))
  {
    var chain := [Authenticate, Authorize(Staff), ValidateBook, Invoke(h)];
    var a := Auth.Authenticate(req.authorization, ctx.verify, ctx.userIds);
    var c1, c2 := chain[1..], chain[2..];
    assert c1 == [Authorize(Staff), ValidateBook, Invoke(h)] && c1[1..] == c2;
    if a.Authenticated? {
      var u := Some(a.user);
      assert RunChain(chain, req, ctx, None) == RunChain(c1, req, ctx, u);
      if HasRole(a.user, ["admin", "librarian"]) {
        assert Auth.Authorize(Staff, a.user) == Next;
        assert RunChain(c1, req, ctx, u) == RunChain(c2, req, ctx, u);
        ValidateStageSteps(h, req, ctx, u);
      } else {
        assert Auth.Authorize(Staff, a.user) == Halt(Forbidden403);
      }
    }
  }

  /** The validation stage and the handler that follows it. */
  lemma ValidateStageSteps(h: Handler, req: Request, ctx: Context, u: Option<Auth.Claims>)
    ensures RunChain([ValidateBook, Invoke(h)], req, ctx, u) ==
      if Validation.BookConforms(req.body, ctx.env) then Reached(h, u) else Halted(BadRequest400)
  {
    var c2 := [ValidateBook, Invoke(h)];
    assert c2[1..] == [Invoke(h)];
  }

  /** The admin chain of DELETE, stage by stage. */
  lemma AdminChainSteps(req: Request, ctx: Context)
    ensures var a := Auth.Authenticate(req.authorization, ctx.verify, ctx.userIds);
      RunChain([Authenticate, Authorize(AdminOnly), Invoke(DeleteBook)], req, ctx, None) ==
        if a.Denied? then Halted(a.status)
        else if !HasRole(a.user, ["admin"]) then Halted(Forbidden403)
        else Reached(DeleteBook, Some(a.user))
  {
    var chain := [Authenticate, Authorize(AdminOnly), Invoke(DeleteBook)];
    var a := Auth.Authenticate(req.authorization, ctx.verify, ctx.userIds);
    var c1, c2 := chain[1..], chain[2..];
    assert c1 == [Authorize(AdminOnly), Invoke(DeleteBook)] && c1[1..] == c2;
    assert c2 == [Invoke(DeleteBook)];
    if a.Authenticated? {
      var u := Some(a.user);
      assert RunChain(chain, req, ctx, None) == RunChain(c1, req, ctx, u);
      if HasRole(a.user, ["admin"]) {
        assert Auth.Authorize(AdminOnly, a.user) == Next;
        assert RunChain(c1, req, ctx, u) == RunChain(c2, req, ctx, u);
      } else {
        assert Auth.Authorize(AdminOnly, a.user) == Halt(Forbidden403);
      }
    }
  }

  // ---------------------------------------------------------------------------
  // What the table promises.

  /** The three GET routes are public: no token, role or body is looked at. */
  lemma ReadsArePublic(req: Request, ctx: Context)
    requires req.verb == Get
    ensures req.path == [] ==> Serve(req, ctx) == Reached(GetAllBooks, None)
    ensures req.path == ["search"] ==> Serve(req, ctx) == Reached(SearchBooks, None)
    ensures |req.path| == 1 && req.path[0] != "" && req.path[0] != "search" ==>
      Serve(req, ctx) == Reached(GetBookById, None)
  {
    if req.path == [] {
      assert RouteMatches(Table[0], req.verb, req.path);
    } else if req.path == ["search"] {
      assert RouteMatches(Table[1], req.verb, req.path);
    } else if |req.path| == 1 && req.path[0] != "" && req.path[0] != "search" {
      assert !RouteMatches(Table[1], req.verb, req.path);
      assert RouteMatches(Table[2], req.verb, req.path);
    }
  }

  /** `/search` is registered before `/:id`, so it can never be read as a book id. */
  lemma SearchShadowsBookId(req: Request, ctx: Context)
    requires req.verb == Get && req.path == ["search"]
    ensures Serve(req, ctx) != Reached(GetBookById, None)
    ensures RouteMatches(Table[2], req.verb, req.path)
  {
    ReadsArePublic(req, ctx);
  }

  /** POST / and PUT /:id reach their handler exactly when the token
      authenticates, the role is admin or librarian, and the body conforms to
      the book schema. */
  lemma WritesNeedStaffAndValidBody(req: Request, ctx: Context)
    requires (req.verb == Post && req.path == []) || (req.verb == Put && |req.path| == 1 && req.path[0] != "")
    ensures Serve(req, ctx).Reached? <==>
      && Auth.Authenticate(req.authorization, ctx.verify, ctx.userIds).Authenticated?
      && HasRole(Auth.Authenticate(req.authorization, ctx.verify, ctx.userIds).user, ["admin", "librarian"])
      && Validation.BookConforms(req.body, ctx.env)
    ensures Serve(req, ctx).Reached? ==>
      Serve(req, ctx).handler == (if req.verb == Post then CreateBook else UpdateBook)
      && Serve(req, ctx).user == Some(Auth.Authenticate(req.authorization, ctx.verify, ctx.userIds).user)
  {
    var i := if req.verb == Post then 3 else 4;
    assert RouteMatches(Table[i], req.verb, req.path);
    assert Dispatch(Table, req.verb, req.path, 0) == Some(i);
    StaffChainSteps(Table[i].chain[3].handler, req, ctx);
  }

  /** DELETE /:id is for admins only, and its body is never validated. */
  lemma DeleteIsAdminOnly(req: Request, ctx: Context, otherBody: BookData)
    requires req.verb == Delete && |req.path| == 1 && req.path[0] != ""
    ensures Serve(req, ctx).Reached? <==>
      && Auth.Authenticate(req.authorization, ctx.verify, ctx.userIds).Authenticated?
      && HasRole(Auth.Authenticate(req.authorization, ctx.verify, ctx.userIds).user, ["admin"])
    ensures Serve(req, ctx).Reached? ==> Serve(req, ctx).handler == DeleteBook
    ensures Serve(req.(body := otherBody), ctx) == Serve(req, ctx)
  {
    assert RouteMatches(Table[5], req.verb, req.path);
    assert Dispatch(Table, req.verb, req.path, 0) == Some(5);
    var req' := req.(body := otherBody);
    assert RouteMatches(Table[5], req'.verb, req'.path);
    assert Dispatch(Table, req'.verb, req'.path, 0) == Some(5);
    AdminChainSteps(req, ctx);
    AdminChainSteps(req', ctx);
  }

  /** A librarian's valid token is refused with 403 on DELETE. */
  lemma LibrarianCannotDelete(req: Request, ctx: Context)
    requires req.verb == Delete && |req.path| == 1 && req.path[0] != ""
    requires Auth.Authenticate(req.authorization, ctx.verify, ctx.userIds).Authenticated?
    requires Auth.Authenticate(req.authorization, ctx.verify, ctx.userIds).user.role == Some("librarian")
    ensures Serve(req, ctx) == Halted(Forbidden403)
  {
    assert RouteMatches(Table[5], req.verb, req.path);
    assert Dispatch(Table, req.verb, req.path, 0) == Some(5);
    AdminChainSteps(req, ctx);
  }

  /** Authentication runs first: a refused token decides the answer whatever
      the role or the body. Authorization runs before validation: a wrong role
      gets 403 even with an invalid body. */
  lemma StageOrder(req: Request, ctx: Context)
    requires (req.verb == Post && req.path == []) || (req.verb == Put && |req.path| == 1 && req.path[0] != "")
    ensures Auth.Authenticate(req.authorization, ctx.verify, ctx.userIds).Denied? ==>
      Serve(req, ctx) == Halted(Auth.Authenticate(req.authorization, ctx.verify, ctx.userIds).status)
    ensures (Auth.Authenticate(req.authorization, ctx.verify, ctx.userIds).Authenticated?
      && !HasRole(Auth.Authenticate(req.authorization, ctx.verify, ctx.userIds).user, ["admin", "librarian"])) ==>
      Serve(req, ctx) == Halted(Forbidden403)
    ensures (Auth.Authenticate(req.authorization, ctx.verify, ctx.userIds).Authenticated?
      && HasRole(Auth.Authenticate(req.authorization, ctx.verify, ctx.userIds).user, ["admin", "librarian"])
      && !Validation.BookConforms(req.body, ctx.env)) ==>
      Serve(req, ctx) == Halted(BadRequest400)
  {
    var i := if req.verb == Post then 3 else 4;
    assert RouteMatches(Table[i], req.verb, req.path);
    assert Dispatch(Table, req.verb, req.path, 0) == Some(i);
    StaffChainSteps(Table[i].chain[3].handler, req, ctx);
  }

  /** The verb and shape of each route, read off the table. */
  lemma TableShape()
    ensures |Table| == 6
    ensures Table[0].verb == Get && Table[0].pattern == []
    ensures Table[1].verb == Get && |Table[1].pattern| == 1
    ensures Table[2].verb == Get && |Table[2].pattern| == 1
    ensures Table[3].verb == Post && Table[3].pattern == []
    ensures Table[4].verb == Put && |Table[4].pattern| == 1
    ensures Table[5].verb == Delete && |Table[5].pattern| == 1
  {
  }

  /** Paths the router has no route for fall through it. */
  lemma UnroutedFallsThrough(req: Request, ctx: Context)
    requires |req.path| >= 2 || (req.verb == Post && req.path != []) || (req.verb != Get && req.verb != Post && req.path == [])
    ensures Serve(req, ctx) == NoRoute
  {
    TableShape();
    forall j | 0 <= j < |Table| ensures !RouteMatches(Table[j], req.verb, req.path) {
      assert j in {0, 1, 2, 3, 4, 5};
    }
  }
}
