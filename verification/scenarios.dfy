/**
 * Concrete request scenarios over small applications, including the cases
 * where routing differs from a naive reading of a pattern.
 */
module Scenarios {
  import opened Wrappers
  import opened Types
  import opened Segments
  import opened PathManager
  import opened ParamsManager
  import opened MiddlewareManager
  import opened ExpressValueManager
  import opened Express

  /** `/a` names the one segment `a`. */
  lemma SplitOne(a: string)
    requires IsSegment(a)
    ensures Split("/" + a) == [a]
  {
    assert Join([a]) == a;
    SplitJoin([a]);
    LeadingSlashIgnored(a);
  }

  /** `/a/b` names the two segments `a` and `b`. */
  lemma SplitTwo(a: string, b: string)
    requires IsSegment(a) && IsSegment(b)
    ensures Split("/" + a + "/" + b) == [a, b]
  {
    assert [a, b][1..] == [b];
    assert Join([a, b]) == a + "/" + b;
    SplitJoin([a, b]);
    LeadingSlashIgnored(a + "/" + b);
    assert "/" + (a + "/" + b) == "/" + a + "/" + b;
  }

  /** A node with table `t` and no children. */
  function Leaf(t: Table): Node {
    Node(Some(t), [])
  }

  /** Pushing onto an empty table. */
  function Only(m: Method, h: HandlerId): Table {
    InitPath().Push(m, h)
  }

  lemma OnlyLists(m: Method, h: HandlerId, m': Method)
    ensures Only(m, h).List(m') == if m' == m then [h] else []
  {
  }

  /** Registering below a missing key appends one new branch. */
  lemma RegisterBelowNew(n: Node, segs: seq<string>, m: Method, h: HandlerId)
    requires |segs| > 0 && segs[0] !in Keys(n.children)
    ensures Register(n, segs, m, h) == n.(children := n.children + [(segs[0], Register(InitPaths(), segs[1..], m, h))])
  {
    SetChildAppends(n.children, segs[0], Register(InitPaths(), segs[1..], m, h));
  }

  /** Registering below an existing key rebuilds that branch in place. */
  lemma RegisterBelowExisting(n: Node, segs: seq<string>, c: Node, m: Method, h: HandlerId)
    requires |segs| > 0 && Child(n.children, segs[0]) == Some(c)
    ensures Register(n, segs, m, h) == n.(children := SetChild(n.children, segs[0], Register(c, segs[1..], m, h)))
  {
  }

  lemma GetRegisters(app: App, path: string, h: HandlerId)
    requires Valid(app.paths)
    ensures Get(app, path, h).paths == Register(app.paths, Split(path), GET, h)
  {
  }

  lemma UseRegisters(app: App, path: string, h: HandlerId)
    requires Valid(app.paths)
    ensures Use(app, path, h).paths == Register(app.paths, Split(path), USE, h)
  {
  }

  /** A request with a known split resolves by the reference resolution. */
  lemma Answers(paths: Node, path: string, segs: seq<string>, verb: Method)
    requires Split(path) == segs
    ensures GetExpressValues(paths, path, Some(verb)) == Resolve(paths, segs, verb, map[])
  {
  }

  lemma RegisterLeaf(m: Method, h: HandlerId)
    ensures Register(InitPaths(), [], m, h) == Leaf(Only(m, h))
  {
  }

  /** What a single-handler node contributes at the terminus for a non-`use` method. */
  lemma SingleOwn(n: Node, m0: Method, h: HandlerId, m: Method)
    requires n.table == Some(Only(m0, h)) && m != USE
    ensures Own(n, m) == if m0 == USE || m0 == m then [h] else []
  {
    OnlyLists(m0, h, USE);
    OnlyLists(m0, h, m);
  }

  /** The trie after `use('*', mwA)` on a fresh application. */
  lemma UseStarTrie(mwA: HandlerId)
    ensures Use(NewApp(), "*", mwA).paths == Node(Some(InitPath()), [("*", Leaf(Only(USE, mwA)))])
  {
    SplitJoin(["*"]);
    RegisterLeaf(USE, mwA);
    RegisterBelowNew(InitPaths(), ["*"], USE, mwA);
  }

  /** Registering a one-segment route under a new key of `n`. */
  lemma RegisterNewLeaf(n: Node, k: string, m: Method, h: HandlerId)
    requires k !in Keys(n.children)
    ensures Register(n, [k], m, h) == n.(children := n.children + [(k, Leaf(Only(m, h)))])
  {
    RegisterLeaf(m, h);
    RegisterBelowNew(n, [k], m, h);
  }

  /** The wildcard lists of a node whose `*` child is `st`. */
  lemma StarLists(n: Node, st: Node, m: Method)
    requires Child(n.children, "*") == Some(st) && st.table.Some?
    ensures Wildcard(n, m) == st.table.value.List(USE) + st.table.value.List(m)
  {
    assert ["*"][1..] == [];
    assert At(n, ["*"]) == Some(st);
  }

  /** A node without a `*` child contributes no wildcard middleware. */
  lemma NoStarLists(n: Node, m: Method)
    requires "*" !in Keys(n.children)
    ensures Wildcard(n, m) == []
  {
    assert At(n, ["*"]) == None;
  }

  /** Following one literal segment to a terminus. */
  lemma ResolveOneLiteral(n: Node, k: string, c: Node, m: Method, p: map<string, string>)
    requires Child(n.children, k) == Some(c)
    ensures Resolve(n, [k], m, p) == Success(Values(Wildcard(n, m) + (Wildcard(c, m) + Own(c, m)), p))
  {
    assert Follow(n, k, p) == Some((c, p));
    assert [k][1..] == [];
    ResolveThrough(n, [k], m, p, c, p, Values(Wildcard(c, m) + Own(c, m), p));
  }

  /** One literal segment to a star-free leaf holding a single handler for a request method. */
  lemma ResolveLiteralLeaf(n: Node, k: string, h: HandlerId, m: Method)
    requires Child(n.children, k) == Some(Leaf(Only(m, h)))
    requires "*" !in Keys(n.children) && m != USE
    ensures Resolve(n, [k], m, map[]) == Success(Values([h], map[]))
  {
    var c := Leaf(Only(m, h));
    NoStarLists(n, m);
    NoStarLists(c, m);
    SingleOwn(c, m, h, m);
    ResolveOneLiteral(n, k, c, m, map[]);
    var none: seq<HandlerId> := [];
    assert none + (none + [h]) == [h];
  }

  /** Following one segment through a parameter key `pk` to a terminus. */
  lemma ResolveOneParam(n: Node, k: string, i: nat, m: Method, p: map<string, string>)
    requires Child(n.children, k) == None && FirstParamIndex(n.children) == Some(i)
    ensures var c := n.children[i].1;
      Resolve(n, [k], m, p) == Success(Values(Wildcard(n, m) + (Wildcard(c, m) + Own(c, m)), p[ParamName(n.children[i].0) := k]))
  {
    var c := n.children[i].1;
    var p' := p[ParamName(n.children[i].0) := k];
    assert Follow(n, k, p) == Some((c, p'));
    assert [k][1..] == [];
    ResolveThrough(n, [k], m, p, c, p', Values(Wildcard(c, m) + Own(c, m), p'));
  }

  /** Lookup and keys in a two-entry child list with distinct keys. */
  lemma TwoChildren(k1: string, n1: Node, k2: string, n2: Node)
    requires k1 != k2
    ensures Keys([(k1, n1), (k2, n2)]) == [k1, k2]
    ensures Child([(k1, n1), (k2, n2)], k1) == Some(n1)
    ensures Child([(k1, n1), (k2, n2)], k2) == Some(n2)
  {
    assert [(k1, n1), (k2, n2)][1..] == [(k2, n2)];
  }

  /** The trie a fresh application holds after `get('/' + a + '/' + b, h)`. */
  function RouteTrie(a: string, b: string, h: HandlerId): Node {
    Node(Some(InitPath()), [(a, Node(Some(InitPath()), [(b, Leaf(Only(GET, h)))]))])
  }

  lemma RouteBuilds(a: string, b: string, h: HandlerId)
    requires IsSegment(a) && IsSegment(b)
    ensures Get(NewApp(), "/" + a + "/" + b, h).paths == RouteTrie(a, b, h)
  {
    SplitTwo(a, b);
    assert [a, b][1..] == [b];
    RegisterNewLeaf(InitPaths(), b, GET, h);
    RegisterBelowNew(InitPaths(), [a, b], GET, h);
  }

  // ---- use('*', mwA); get('/x', h2) ----

  /** The trie `use('*', mwA); get('/x', h2)` builds. */
  function WildcardThenRouteTrie(mwA: HandlerId, h2: HandlerId): Node {
    Node(Some(InitPath()), [("*", Leaf(Only(USE, mwA))), ("x", Leaf(Only(GET, h2)))])
  }

  lemma WildcardThenRouteBuilds(mwA: HandlerId, h2: HandlerId)
    ensures Get(Use(NewApp(), "*", mwA), "/x", h2).paths == WildcardThenRouteTrie(mwA, h2)
  {
    assert Split("/x") == ["x"] by {
      SplitOne("x");
      assert "/" + "x" == "/x";
    }
    var a1 := Use(NewApp(), "*", mwA);
    UseStarTrie(mwA);
    GetRegisters(a1, "/x", h2);
    RegisterNewLeaf(a1.paths, "x", GET, h2);
  }

  /** The root's `*` child contributes `mwA` to a GET. */
  lemma WildcardThenRouteRootWildcard(mwA: HandlerId, h2: HandlerId)
    ensures Wildcard(WildcardThenRouteTrie(mwA, h2), GET) == [mwA]
  {
    var star := Leaf(Only(USE, mwA));
    TwoChildren("*", star, "x", Leaf(Only(GET, h2)));
    StarLists(WildcardThenRouteTrie(mwA, h2), star, GET);
    OnlyLists(USE, mwA, USE);
    OnlyLists(USE, mwA, GET);
  }

  lemma WildcardThenRouteResolves(mwA: HandlerId, h2: HandlerId)
    ensures Resolve(WildcardThenRouteTrie(mwA, h2), ["x"], GET, map[]) == Success(Values([mwA, h2], map[]))
  {
    var x := Leaf(Only(GET, h2));
    var root := WildcardThenRouteTrie(mwA, h2);
    TwoChildren("*", Leaf(Only(USE, mwA)), "x", x);
    WildcardThenRouteRootWildcard(mwA, h2);
    NoStarLists(x, GET);
    SingleOwn(x, GET, h2, GET);
    ResolveOneLiteral(root, "x", x, GET, map[]);
    assert [mwA] + ([] + [h2]) == [mwA, h2];
  }

  /** `use('*', mwA)` then `get('/x', h2)`: GET `/x` runs `[mwA, h2]` with no bindings. */
  lemma WildcardMiddlewareThenRoute(mwA: HandlerId, h2: HandlerId)
    ensures var app := Get(Use(NewApp(), "*", mwA), "/x", h2);
      GetExpressValues(app.paths, "/x", Some(GET)) == Success(Values([mwA, h2], map[]))
  {
    WildcardThenRouteBuilds(mwA, h2);
    WildcardThenRouteAnswers(mwA, h2);
  }

  lemma WildcardThenRouteAnswers(mwA: HandlerId, h2: HandlerId)
    ensures GetExpressValues(WildcardThenRouteTrie(mwA, h2), "/x", Some(GET)) == Success(Values([mwA, h2], map[]))
  {
    assert Split("/x") == ["x"] by {
      SplitOne("x");
      assert "/" + "x" == "/x";
    }
    WildcardThenRouteResolves(mwA, h2);
    Answers(WildcardThenRouteTrie(mwA, h2), "/x", ["x"], GET);
  }

  // ---- get('/user/:id', h1); GET /user/42 ----

  lemma UserIdBuilds(h1: HandlerId)
    ensures Get(NewApp(), "/user/:id", h1).paths == RouteTrie("user", ":id", h1)
  {
    RouteBuilds("user", ":id", h1);
    assert "/" + "user" + "/" + ":id" == "/user/:id";
  }

  lemma UserIdResolves(h1: HandlerId)
    ensures Resolve(RouteTrie("user", ":id", h1), ["user", "42"], GET, map[]) == Success(Values([h1], map["id" := "42"]))
  {
    var leaf := Leaf(Only(GET, h1));
    var user := Node(Some(InitPath()), [(":id", leaf)]);
    var root := RouteTrie("user", ":id", h1);
    assert Child(user.children, "42") == None;
    assert FirstParamIndex(user.children) == Some(0);
    NoStarLists(user, GET);
    NoStarLists(leaf, GET);
    SingleOwn(leaf, GET, h1, GET);
    ResolveOneParam(user, "42", 0, GET, map[]);
    assert ParamName(":id") == "id";
    assert [] + ([] + [h1]) == [h1];
    assert Resolve(user, ["42"], GET, map[]) == Success(Values([h1], map["id" := "42"]));
    assert Child(root.children, "user") == Some(user);
    NoStarLists(root, GET);
    assert ["user", "42"][1..] == ["42"];
    ResolveThrough(root, ["user", "42"], GET, map[], user, map[], Values([h1], map["id" := "42"]));
    assert [] + [h1] == [h1];
  }

  /**
   * `get('/user/:id', h1)`: a request for `/user/42` with no method runs
   * `[h1]` with `id` bound to `42`.
   */
  lemma ParameterIsBound(h1: HandlerId)
    ensures var app := Get(NewApp(), "/user/:id", h1);
      GetExpressValues(app.paths, "/user/42", None) == Success(Values([h1], map["id" := "42"]))
  {
    UserIdBuilds(h1);
    UserIdAnswers(h1);
  }

  lemma UserIdAnswers(h1: HandlerId)
    ensures GetExpressValues(RouteTrie("user", ":id", h1), "/user/42", None) == Success(Values([h1], map["id" := "42"]))
  {
    assert Split("/user/42") == ["user", "42"] by {
      SplitTwo("user", "42");
      assert "/" + "user" + "/" + "42" == "/user/42";
    }
    UserIdResolves(h1);
  }

  // ---- unregistered paths ----

  /** On a fresh application every request is handed to the not-found handler. */
  lemma UnregisteredIsNotFound(callsNext: HandlerId -> bool)
    ensures GetExpressValues(NewApp().paths, "/unregistered", Some(GET)) == Failure(PathNotFound("unregistered"))
    ensures HandleRequest(NewApp(), Some("/unregistered"), Some(GET), callsNext) == NotFoundHandled
  {
    assert Split("/unregistered") == ["unregistered"] by {
      SplitOne("unregistered");
      assert "/" + "unregistered" == "/unregistered";
    }
    var root := NewApp().paths;
    assert Child(root.children, "unregistered") == None;
    assert FirstParamIndex(root.children) == None;
    assert Resolve(root, ["unregistered"], GET, map[]) == Failure(PathNotFound("unregistered"));
    Answers(root, "/unregistered", ["unregistered"], GET);
  }

  // ---- get('/a/b', h); GET /a ----

  lemma RoutePrefixResolves(h: HandlerId)
    ensures Resolve(RouteTrie("a", "b", h), ["a"], GET, map[]) == Success(Values([], map[]))
  {
    var na := Node(Some(InitPath()), [("b", Leaf(Only(GET, h)))]);
    var root := RouteTrie("a", "b", h);
    assert Child(root.children, "a") == Some(na);
    NoStarLists(root, GET);
    NoStarLists(na, GET);
    assert Own(na, GET) == [];
    ResolveOneLiteral(root, "a", na, GET, map[]);
    var none: seq<HandlerId> := [];
    assert none + (none + none) == none;
  }

  /**
   * `get('/a/b', h)`: registration created a node for `/a` with empty lists,
   * so a request for `/a` is not reported as not found; it resolves to no
   * handler at all, and dispatch runs nothing.
   */
  lemma RoutePrefixIsNotNotFound(h: HandlerId, callsNext: HandlerId -> bool)
    ensures var app := Get(NewApp(), "/a/b", h);
      && GetExpressValues(app.paths, "/a", Some(GET)) == Success(Values([], map[]))
      && HandleRequest(app, Some("/a"), Some(GET), callsNext) == Dispatched(map[], Chain([], []))
  {
    assert "/" + "a" + "/" + "b" == "/a/b";
    RouteBuilds("a", "b", h);
    RoutePrefixAnswers(h);
  }

  lemma RoutePrefixAnswers(h: HandlerId)
    ensures GetExpressValues(RouteTrie("a", "b", h), "/a", Some(GET)) == Success(Values([], map[]))
  {
    assert Split("/a") == ["a"] by {
      SplitOne("a");
      assert "/" + "a" == "/a";
    }
    RoutePrefixResolves(h);
    Answers(RouteTrie("a", "b", h), "/a", ["a"], GET);
  }

  /** Registering at the root path creates no node: every key of the root stays absent. */
  lemma RootRegistrationAddsNoChild(h: HandlerId)
    ensures forall k :: Child(Get(NewApp(), "", h).paths.children, k).None?
  {
    assert Split("") == [];
    var r := Get(NewApp(), "", h).paths;
    forall k
      ensures Child(r.children, k).None?
    {
      AtInitPaths([k]);
      assert At(r, [k]).None?;
      assert [k][1..] == [];
    }
  }

  // ---- use('/a', mw); get('/a/b', h) ----

  function NestedTrie(mw: HandlerId, h: HandlerId): Node {
    Node(Some(InitPath()), [("a", Node(Some(Only(USE, mw)), [("b", Leaf(Only(GET, h)))]))])
  }

  lemma NestedRegisters(mw: HandlerId, h: HandlerId)
    ensures Register(Register(InitPaths(), ["a"], USE, mw), ["a", "b"], GET, h) == NestedTrie(mw, h)
  {
    RegisterNewLeaf(InitPaths(), "a", USE, mw);
    var la := Leaf(Only(USE, mw));
    var r1 := Node(Some(InitPath()), [("a", la)]);
    assert Register(InitPaths(), ["a"], USE, mw) == r1;
    RegisterNewLeaf(la, "b", GET, h);
    assert ["a", "b"][1..] == ["b"];
    assert Child(r1.children, "a") == Some(la);
    RegisterBelowExisting(r1, ["a", "b"], la, GET, h);
    assert SetChild([("a", la)], "a", Register(la, ["b"], GET, h)) == [("a", Register(la, ["b"], GET, h))];
  }

  lemma NestedBuilds(mw: HandlerId, h: HandlerId)
    ensures Get(Use(NewApp(), "/a", mw), "/a/b", h).paths == NestedTrie(mw, h)
  {
    assert Split("/a") == ["a"] by {
      SplitOne("a");
      assert "/" + "a" == "/a";
    }
    assert Split("/a/b") == ["a", "b"] by {
      SplitTwo("a", "b");
      assert "/" + "a" + "/" + "b" == "/a/b";
    }
    UseRegisters(NewApp(), "/a", mw);
    GetRegisters(Use(NewApp(), "/a", mw), "/a/b", h);
    NestedRegisters(mw, h);
  }

  lemma NestedResolvesBelow(mw: HandlerId, h: HandlerId)
    ensures Resolve(NestedTrie(mw, h), ["a", "b"], GET, map[]) == Success(Values([h], map[]))
  {
    var lb := Leaf(Only(GET, h));
    var na := Node(Some(Only(USE, mw)), [("b", lb)]);
    var root := NestedTrie(mw, h);
    assert Child(root.children, "a") == Some(na);
    assert Child(na.children, "b") == Some(lb);
    NoStarLists(root, GET);
    NoStarLists(na, GET);
    NoStarLists(lb, GET);
    SingleOwn(lb, GET, h, GET);
    ResolveOneLiteral(na, "b", lb, GET, map[]);
    assert [] + ([] + [h]) == [h];
    assert ["a", "b"][1..] == ["b"];
    ResolveThrough(root, ["a", "b"], GET, map[], na, map[], Values([h], map[]));
    assert [] + [h] == [h];
  }

  lemma NestedResolvesAt(mw: HandlerId, h: HandlerId)
    ensures Resolve(NestedTrie(mw, h), ["a"], GET, map[]) == Success(Values([mw], map[]))
  {
    var na := Node(Some(Only(USE, mw)), [("b", Leaf(Only(GET, h)))]);
    var root := NestedTrie(mw, h);
    assert Child(root.children, "a") == Some(na);
    NoStarLists(root, GET);
    NoStarLists(na, GET);
    SingleOwn(na, USE, mw, GET);
    ResolveOneLiteral(root, "a", na, GET, map[]);
    assert [] + ([] + [mw]) == [mw];
  }

  /**
   * `use('/a', mw); get('/a/b', h)`: middleware registered with `use` at `/a`
   * runs for `/a` and not for `/a/b` (it is no prefix match).
   */
  lemma UseIsExactMatch(mw: HandlerId, h: HandlerId)
    ensures var app := Get(Use(NewApp(), "/a", mw), "/a/b", h);
      && GetExpressValues(app.paths, "/a/b", Some(GET)) == Success(Values([h], map[]))
      && GetExpressValues(app.paths, "/a", Some(GET)) == Success(Values([mw], map[]))
  {
    NestedBuilds(mw, h);
    NestedAnswers(mw, h);
  }

  lemma NestedAnswers(mw: HandlerId, h: HandlerId)
    ensures GetExpressValues(NestedTrie(mw, h), "/a/b", Some(GET)) == Success(Values([h], map[]))
    ensures GetExpressValues(NestedTrie(mw, h), "/a", Some(GET)) == Success(Values([mw], map[]))
  {
    assert Split("/a") == ["a"] by {
      SplitOne("a");
      assert "/" + "a" == "/a";
    }
    assert Split("/a/b") == ["a", "b"] by {
      SplitTwo("a", "b");
      assert "/" + "a" + "/" + "b" == "/a/b";
    }
    NestedResolvesBelow(mw, h);
    NestedResolvesAt(mw, h);
    Answers(NestedTrie(mw, h), "/a/b", ["a", "b"], GET);
    Answers(NestedTrie(mw, h), "/a", ["a"], GET);
  }

  // ---- get('/user/:id', h1); get('/user/me', h2) ----

  function ShadowTrie(h1: HandlerId, h2: HandlerId): Node {
    Node(Some(InitPath()), [("user", Node(Some(InitPath()), [(":id", Leaf(Only(GET, h1))), ("me", Leaf(Only(GET, h2)))]))])
  }

  lemma ShadowRegisters(h1: HandlerId, h2: HandlerId)
    ensures Register(RouteTrie("user", ":id", h1), ["user", "me"], GET, h2) == ShadowTrie(h1, h2)
  {
    var user := Node(Some(InitPath()), [(":id", Leaf(Only(GET, h1)))]);
    RegisterNewLeaf(user, "me", GET, h2);
    assert ["user", "me"][1..] == ["me"];
    assert Child(RouteTrie("user", ":id", h1).children, "user") == Some(user);
    RegisterBelowExisting(RouteTrie("user", ":id", h1), ["user", "me"], user, GET, h2);
    assert user.children + [("me", Leaf(Only(GET, h2)))] == [(":id", Leaf(Only(GET, h1))), ("me", Leaf(Only(GET, h2)))];
    assert SetChild([("user", user)], "user", Register(user, ["me"], GET, h2)) == [("user", Register(user, ["me"], GET, h2))];
  }

  lemma ShadowBuilds(h1: HandlerId, h2: HandlerId)
    ensures Get(Get(NewApp(), "/user/:id", h1), "/user/me", h2).paths == ShadowTrie(h1, h2)
  {
    assert Split("/user/me") == ["user", "me"] by {
      SplitTwo("user", "me");
      assert "/" + "user" + "/" + "me" == "/user/me";
    }
    UserIdBuilds(h1);
    GetRegisters(Get(NewApp(), "/user/:id", h1), "/user/me", h2);
    ShadowRegisters(h1, h2);
  }

  /** Below `user`, the literal `me` is taken although a parameter key comes first. */
  lemma ShadowUserStep(h1: HandlerId, h2: HandlerId)
    ensures Resolve(Node(Some(InitPath()), [(":id", Leaf(Only(GET, h1))), ("me", Leaf(Only(GET, h2)))]), ["me"], GET, map[])
         == Success(Values([h2], map[]))
  {
    var user := Node(Some(InitPath()), [(":id", Leaf(Only(GET, h1))), ("me", Leaf(Only(GET, h2)))]);
    TwoChildren(":id", Leaf(Only(GET, h1)), "me", Leaf(Only(GET, h2)));
    ResolveLiteralLeaf(user, "me", h2, GET);
  }

  lemma ShadowResolves(h1: HandlerId, h2: HandlerId)
    ensures Resolve(ShadowTrie(h1, h2), ["user", "me"], GET, map[]) == Success(Values([h2], map[]))
  {
    var user := Node(Some(InitPath()), [(":id", Leaf(Only(GET, h1))), ("me", Leaf(Only(GET, h2)))]);
    var root := ShadowTrie(h1, h2);
    assert Child(root.children, "user") == Some(user);
    NoStarLists(root, GET);
    ShadowUserStep(h1, h2);
    assert ["user", "me"][1..] == ["me"];
    ResolveThrough(root, ["user", "me"], GET, map[], user, map[], Values([h2], map[]));
    assert [] + [h2] == [h2];
  }

  /**
   * `get('/user/:id', h1); get('/user/me', h2)`: the literal sibling wins for
   * `/user/me`, so `h1` does not run and nothing is bound.
   */
  lemma LiteralShadowsParameter(h1: HandlerId, h2: HandlerId)
    ensures var app := Get(Get(NewApp(), "/user/:id", h1), "/user/me", h2);
      GetExpressValues(app.paths, "/user/me", Some(GET)) == Success(Values([h2], map[]))
  {
    ShadowBuilds(h1, h2);
    ShadowAnswers(h1, h2);
  }

  lemma ShadowAnswers(h1: HandlerId, h2: HandlerId)
    ensures GetExpressValues(ShadowTrie(h1, h2), "/user/me", Some(GET)) == Success(Values([h2], map[]))
  {
    assert Split("/user/me") == ["user", "me"] by {
      SplitTwo("user", "me");
      assert "/" + "user" + "/" + "me" == "/user/me";
    }
    ShadowResolves(h1, h2);
    Answers(ShadowTrie(h1, h2), "/user/me", ["user", "me"], GET);
  }

  // ---- get('/files/*', h); GET /files/a ----

  lemma FilesBuilds(h: HandlerId)
    ensures Get(NewApp(), "/files/*", h).paths == RouteTrie("files", "*", h)
  {
    RouteBuilds("files", "*", h);
    assert "/" + "files" + "/" + "*" == "/files/*";
  }

  lemma FilesResolves(h: HandlerId)
    ensures Resolve(RouteTrie("files", "*", h), ["files", "a"], GET, map[]) == Failure(PathNotFound("a"))
  {
    var files := Node(Some(InitPath()), [("*", Leaf(Only(GET, h)))]);
    var root := RouteTrie("files", "*", h);
    assert Child(files.children, "a") == None;
    assert FirstParamIndex(files.children) == None;
    assert Resolve(files, ["a"], GET, map[]) == Failure(PathNotFound("a"));
    assert Child(root.children, "files") == Some(files);
    assert ["files", "a"][1..] == ["a"];
  }

  /**
   * A route `files/<star>` registered with `get`: a `*` segment in a route is matched only by a
   * literal `*` in the request, so `/files/a` is not found.
   */
  lemma StarSegmentIsLiteral(h: HandlerId)
    ensures var app := Get(NewApp(), "/files/*", h);
      GetExpressValues(app.paths, "/files/a", Some(GET)) == Failure(PathNotFound("a"))
  {
    FilesBuilds(h);
    FilesAnswers(h);
  }

  lemma FilesAnswers(h: HandlerId)
    ensures GetExpressValues(RouteTrie("files", "*", h), "/files/a", Some(GET)) == Failure(PathNotFound("a"))
  {
    assert Split("/files/a") == ["files", "a"] by {
      SplitTwo("files", "a");
      assert "/" + "files" + "/" + "a" == "/files/a";
    }
    FilesResolves(h);
    Answers(RouteTrie("files", "*", h), "/files/a", ["files", "a"], GET);
  }

  // ---- use('*', mw); GET /* ----

  lemma StarResolves(mw: HandlerId)
    ensures Resolve(Node(Some(InitPath()), [("*", Leaf(Only(USE, mw)))]), ["*"], GET, map[]) == Success(Values([mw, mw], map[]))
  {
    var star := Leaf(Only(USE, mw));
    var root := Node(Some(InitPath()), [("*", star)]);
    OnlyLists(USE, mw, USE);
    OnlyLists(USE, mw, GET);
    assert Child(root.children, "*") == Some(star);
    StarLists(root, star, GET);
    assert Wildcard(root, GET) == [mw];
    NoStarLists(star, GET);
    SingleOwn(star, USE, mw, GET);
    ResolveOneLiteral(root, "*", star, GET, map[]);
    assert [mw] + ([] + [mw]) == [mw, mw];
  }

  /**
   * `use('*', mw)`: a request for the path slash-star runs `mw` twice, once as the
   * root's wildcard middleware and once as the `*` node's own.
   */
  lemma StarRequestRepeatsMiddleware(mw: HandlerId)
    ensures var app := Use(NewApp(), "*", mw);
      GetExpressValues(app.paths, "/*", Some(GET)) == Success(Values([mw, mw], map[]))
  {
    assert Split("/*") == ["*"] by {
      SplitOne("*");
      assert "/" + "*" == "/*";
    }
    UseStarTrie(mw);
    StarResolves(mw);
    Answers(Node(Some(InitPath()), [("*", Leaf(Only(USE, mw)))]), "/*", ["*"], GET);
  }
}
