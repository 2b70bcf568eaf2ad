/**
 * Request resolution of src/Manager/ExpressValueManager.ts
 * (`getExpressValues`, also in index.ts): one walk that descends by literal
 * key or else by the first parameter child, collecting handlers and binding
 * parameters through its callbacks.
 */
module ExpressValueManager {
  import opened Wrappers
  import opened Types
  import opened Segments
  import opened PathManager
  import opened ParamsManager
  import opened MiddlewareManager

  /** The resolved handler list and parameter bindings of one request. */
  datatype Values = Values(middlewares: seq<HandlerId>, params: map<string, string>)

  /** `name.slice(1)`: the parameter name without its leading `:`. */
  function ParamName(k: string): (r: string)
    ensures |k| > 0 ==> k == [k[0]] + r
  {
    if |k| == 0 then k else k[1..]
  }

  /** Resolution's `onFound` only observes: the trie is handed back as it is. */
  function Unchanged(n: Node): Node {
    n
  }

  /** What the callback behind one event pushes onto the list. */
  function Pushed(e: Event, m: Method): seq<HandlerId> {
    match e
    case Iteration(_, at) => HandleOnIterationGetMiddlewares(at, m)
    case Found(at) => HandleOnFoundGetMiddlewares(at, m)
    case NotFound(_, _, _) => []
  }

  /** What the `onIteration` and `onFound` callbacks push, in firing order. */
  function Collect(ev: seq<Event>, m: Method): seq<HandlerId> {
    if |ev| == 0 then [] else Pushed(ev[0], m) + Collect(ev[1..], m)
  }

  /** What the `onNotFound` callback assigns: `params[name.slice(1)] = key`, later writes winning. */
  function Bind(ev: seq<Event>, params: map<string, string>): map<string, string> {
    if |ev| == 0 then params
    else
      var next := match ev[0]
        case NotFound(key, _, resolved) => params[ParamName(resolved) := key]
        case _ => params;
      Bind(ev[1..], next)
  }

  /**
   * `getExpressValues(path, { method })`, with GET as the default method. A
   * segment with neither a literal nor a parameter child makes the whole call
   * throw, so no partial list or bindings escape.
   */
  function GetExpressValues(paths: Node, path: string, verb: Option<Method>): (r: Result<Values, RouteError>)
    ensures r == Resolve(paths, Split(path), verb.GetOr(GET), map[])
  {
    WalkMatchesResolve(paths, Split(path), verb.GetOr(GET), map[]);
    Gathered(GetPath(paths, path, HandleOnNotFoundFindParam, Unchanged), verb.GetOr(GET), map[])
  }

  /** The middleware of the `*` child of `n`: its `use` list, then its list for `m`. */
  function Wildcard(n: Node, m: Method): seq<HandlerId> {
    ListAt(n, ["*"], USE) + ListAt(n, ["*"], m)
  }

  /** The handlers registered exactly at `n`: its `use` list, then its list for `m`. */
  function Own(n: Node, m: Method): seq<HandlerId> {
    ListAt(n, [], USE) + ListAt(n, [], m)
  }

  /**
   * One reference step: the literal child, else the first parameter child with
   * its name bound to the segment, else nothing.
   */
  function Follow(n: Node, seg: string, params: map<string, string>): Option<(Node, map<string, string>)> {
    match Child(n.children, seg)
    case Some(c) => Some((c, params))
    case None =>
      match FirstParamIndex(n.children)
      case None => None
      case Some(i) => Some((n.children[i].1, params[ParamName(n.children[i].0) := seg]))
  }

  /**
   * Reference resolution, stated directly on the trie: follow each segment by
   * literal key, else by the first parameter child (binding its name to the
   * segment), else fail on that segment. The list is the wildcard middleware of
   * every node visited, root first, followed by the terminus's own lists.
   */
  function Resolve(n: Node, segs: seq<string>, m: Method, params: map<string, string>): Result<Values, RouteError>
    decreases |segs|
  {
    if |segs| == 0 then Success(Values(Wildcard(n, m) + Own(n, m), params))
    else
      match Follow(n, segs[0], params)
      case None => Failure(PathNotFound(segs[0]))
      case Some((c, p)) =>
        match Resolve(c, segs[1..], m, p)
        case Failure(e) => Failure(e)
        case Success(v) => Success(Values(Wildcard(n, m) + v.middlewares, v.params))
  }

  lemma {:induction false} CollectConcat(a: seq<Event>, b: seq<Event>, m: Method)
    ensures Collect(a + b, m) == Collect(a, m) + Collect(b, m)
  {
    if |a| == 0 {
      assert a + b == b;
    } else {
      assert (a + b)[1..] == a[1..] + b;
      assert (a + b)[0] == a[0];
      CollectConcat(a[1..], b, m);
      var x := Pushed(a[0], m);
      assert x + (Collect(a[1..], m) + Collect(b, m)) == (x + Collect(a[1..], m)) + Collect(b, m);
    }
  }

  lemma {:induction false} BindConcat(a: seq<Event>, b: seq<Event>, params: map<string, string>)
    ensures Bind(a + b, params) == Bind(b, Bind(a, params))
  {
    if |a| == 0 {
      assert a + b == b;
    } else {
      assert (a + b)[1..] == a[1..] + b;
      var next := match a[0]
        case NotFound(key, _, resolved) => params[ParamName(resolved) := key]
        case _ => params;
      BindConcat(a[1..], b, next);
    }
  }

  /** The events of one descent step, folded. */
  lemma StepFolds(missed: seq<Event>, it: Event, rest: seq<Event>, m: Method, params: map<string, string>)
    requires it.Iteration?
    requires |missed| <= 1
    ensures Collect(missed + [it] + rest, m)
            == Collect(missed, m) + HandleOnIterationGetMiddlewares(it.at, m) + Collect(rest, m)
    ensures Bind(missed + [it] + rest, params) == Bind(rest, Bind(missed, params))
  {
    CollectConcat(missed, [it], m);
    CollectConcat(missed + [it], rest, m);
    BindConcat(missed, [it], params);
    BindConcat(missed + [it], rest, params);
    assert Collect([it], m) == HandleOnIterationGetMiddlewares(it.at, m) by {
      assert [it][1..] == [];
    }
    assert Bind([it], Bind(missed, params)) == Bind(missed, params) by {
      assert [it][1..] == [];
    }
  }

  /** What `getExpressValues` returns from a walk: the pushed handlers and the assigned bindings. */
  function Gathered(w: Result<Trace, RouteError>, m: Method, params: map<string, string>): Result<Values, RouteError> {
    match w
    case Failure(e) => Failure(e)
    case Success(t) => Success(Values(Collect(t.events, m), Bind(t.events, params)))
  }

  /**
   * The callback-driven walk computes the reference resolution: same success,
   * same error, same handler list in the same order, same bindings.
   */
  lemma {:induction false} WalkMatchesResolve(n: Node, segs: seq<string>, m: Method, params: map<string, string>)
    ensures Resolve(n, segs, m, params) == Gathered(Walk(n, segs, HandleOnNotFoundFindParam, Unchanged), m, params)
    decreases |segs|
  {
    if |segs| == 0 {
      FoundMatchesResolve(n, segs, m, params);
      return;
    }
    var st := Step(n, segs[0], HandleOnNotFoundFindParam);
    StepMatchesFollow(n, segs[0], m, params);
    if st.Success? {
      WalkMatchesResolve(st.value.descent.child, segs[1..], m, Bind(st.value.missed, params));
    }
    StepMatchesResolve(n, segs, m, params);
  }

  /** The inductive step of `WalkMatchesResolve`, given the claim for the rest of the path. */
  lemma StepMatchesResolve(n: Node, segs: seq<string>, m: Method, params: map<string, string>)
    requires |segs| > 0
    requires var st := Step(n, segs[0], HandleOnNotFoundFindParam);
      st.Success? ==>
        Resolve(st.value.descent.child, segs[1..], m, Bind(st.value.missed, params))
        == Gathered(Walk(st.value.descent.child, segs[1..], HandleOnNotFoundFindParam, Unchanged), m, Bind(st.value.missed, params))
    ensures Resolve(n, segs, m, params) == Gathered(Walk(n, segs, HandleOnNotFoundFindParam, Unchanged), m, params)
  {
    StepMatchesFollow(n, segs[0], m, params);
    var st := Step(n, segs[0], HandleOnNotFoundFindParam);
    if st.Success? {
      var w := Walk(st.value.descent.child, segs[1..], HandleOnNotFoundFindParam, Unchanged);
      if w.Success? {
        ConsMatchesResolve(n, segs, m, params, st.value, w.value);
      }
    }
  }

  /** The inductive step when both the step and the rest of the walk succeed. */
  lemma ConsMatchesResolve(n: Node, segs: seq<string>, m: Method, params: map<string, string>, mv: Move, sub: Trace)
    requires |segs| > 0
    requires Step(n, segs[0], HandleOnNotFoundFindParam) == Success(mv)
    requires Walk(mv.descent.child, segs[1..], HandleOnNotFoundFindParam, Unchanged) == Success(sub)
    requires |mv.missed| <= 1 && mv.descent.parent == n
    requires Follow(n, segs[0], params) == Some((mv.descent.child, Bind(mv.missed, params)))
    requires Collect(mv.missed, m) == []
    requires Resolve(mv.descent.child, segs[1..], m, Bind(mv.missed, params))
             == Success(Values(Collect(sub.events, m), Bind(sub.events, Bind(mv.missed, params))))
    ensures Resolve(n, segs, m, params) == Gathered(Walk(n, segs, HandleOnNotFoundFindParam, Unchanged), m, params)
  {
    var p := Bind(mv.missed, params);
    ResolveThrough(n, segs, m, params, mv.descent.child, p, Values(Collect(sub.events, m), Bind(sub.events, p)));
    WalkCons(n, segs, HandleOnNotFoundFindParam, Unchanged, mv, sub);
    var ev := mv.missed + [Iteration(segs[0], n)] + sub.events;
    StepFolds(mv.missed, Iteration(segs[0], n), sub.events, m, params);
    assert HandleOnIterationGetMiddlewares(n, m) == Wildcard(n, m);
    assert Collect(ev, m) == [] + Wildcard(n, m) + Collect(sub.events, m);
    assert [] + Wildcard(n, m) == Wildcard(n, m);
    assert Bind(ev, params) == Bind(sub.events, p);
  }

  /** Resolution through one step whose remainder succeeds. */
  lemma ResolveThrough(n: Node, segs: seq<string>, m: Method, p: map<string, string>, c: Node, p': map<string, string>, v: Values)
    requires |segs| > 0 && Follow(n, segs[0], p) == Some((c, p'))
    requires Resolve(c, segs[1..], m, p') == Success(v)
    ensures Resolve(n, segs, m, p) == Success(Values(Wildcard(n, m) + v.middlewares, v.params))
  {
  }

  /** With no segment left, `onFound`'s collection is the wildcard then the own lists. */
  lemma FoundMatchesResolve(n: Node, segs: seq<string>, m: Method, params: map<string, string>)
    requires |segs| == 0
    ensures Resolve(n, segs, m, params) == Gathered(Walk(n, segs, HandleOnNotFoundFindParam, Unchanged), m, params)
  {
    assert Walk(n, segs, HandleOnNotFoundFindParam, Unchanged) == Success(Trace([Found(n)], n));
    FoundGathered(n, m, params);
  }

  /** The trace of a walk that is already at its terminus folds to the wildcard then the own lists. */
  lemma FoundGathered(n: Node, m: Method, params: map<string, string>)
    ensures Gathered(Success(Trace([Found(n)], n)), m, params) == Success(Values(Wildcard(n, m) + Own(n, m), params))
  {
    assert [Found(n)][1..] == [];
    assert Collect([Found(n)], m) == HandleOnFoundGetMiddlewares(n, m) + [];
    assert Bind([Found(n)], params) == params;
    assert HandleOnFoundGetMiddlewares(n, m) + [] == Wildcard(n, m) + Own(n, m);
  }

  /** One walk step with the parameter strategy is one reference step, and its callbacks push nothing. */
  lemma StepMatchesFollow(n: Node, s: string, m: Method, params: map<string, string>)
    ensures Step(n, s, HandleOnNotFoundFindParam).Success? <==> Follow(n, s, params).Some?
    ensures Step(n, s, HandleOnNotFoundFindParam).Failure? ==>
              Step(n, s, HandleOnNotFoundFindParam).error == PathNotFound(s)
    ensures var st := Step(n, s, HandleOnNotFoundFindParam);
      st.Success? ==>
        && |st.value.missed| <= 1
        && st.value.descent.parent == n
        && Collect(st.value.missed, m) == []
        && Follow(n, s, params) == Some((st.value.descent.child, Bind(st.value.missed, params)))
  {
    var st := Step(n, s, HandleOnNotFoundFindParam);
    if st.Success? && Child(n.children, s).None? {
      var mv := st.value;
      var d := mv.descent;
      var i := FirstParamIndex(n.children).value;
      assert d == Descent(n, n.children[i].0, n.children[i].1);
      assert mv.missed == [NotFound(s, n, d.key)];
      assert mv.missed[1..] == [];
      assert Bind(mv.missed, params) == Bind([], params[ParamName(d.key) := s]);
    }
  }

  /**
   * Two segments matched through parameter children of the same name: the
   * request resolves, and the later segment's binding overwrites the earlier.
   */
  lemma LaterBindingWins(n: Node, s1: string, s2: string, i: nat, j: nat, m: Method, p: map<string, string>)
    requires Child(n.children, s1) == None && FirstParamIndex(n.children) == Some(i)
    requires Child(n.children[i].1.children, s2) == None && FirstParamIndex(n.children[i].1.children) == Some(j)
    requires ParamName(n.children[i].1.children[j].0) == ParamName(n.children[i].0)
    ensures Resolve(n, [s1, s2], m, p).Success?
    ensures Resolve(n, [s1, s2], m, p).value.params == p[ParamName(n.children[i].0) := s2]
  {
    var name := ParamName(n.children[i].0);
    var c := n.children[i].1;
    var d := c.children[j].1;
    var p1 := p[name := s1];
    var p2 := p1[name := s2];
    var vd := Values(Wildcard(d, m) + Own(d, m), p2);
    assert [s2][1..] == [];
    ResolveByParam(c, [s2], j, m, p1, vd);
    var vc := Values(Wildcard(c, m) + vd.middlewares, p2);
    assert [s1, s2][1..] == [s2];
    ResolveByParam(n, [s1, s2], i, m, p, vc);
    Overwrite(p, name, s1, s2);
  }

  /** Resolution through a parameter child whose remainder succeeds. */
  lemma ResolveByParam(n: Node, segs: seq<string>, i: nat, m: Method, p: map<string, string>, v: Values)
    requires |segs| > 0 && Child(n.children, segs[0]) == None && FirstParamIndex(n.children) == Some(i)
    requires Resolve(n.children[i].1, segs[1..], m, p[ParamName(n.children[i].0) := segs[0]]) == Success(v)
    ensures Resolve(n, segs, m, p) == Success(Values(Wildcard(n, m) + v.middlewares, v.params))
  {
    var p' := p[ParamName(n.children[i].0) := segs[0]];
    assert Follow(n, segs[0], p) == Some((n.children[i].1, p'));
    ResolveThrough(n, segs, m, p, n.children[i].1, p', v);
  }

  lemma Overwrite(p: map<string, string>, k: string, a: string, b: string)
    ensures p[k := a][k := b] == p[k := b]
  {
  }

  /** Resolution never changes the trie: its `onNotFound` inserts nothing and its `onFound` edits nothing. */
  lemma {:induction false} ResolutionLeavesTrieUnchanged(n: Node, segs: seq<string>)
    ensures Walk(n, segs, HandleOnNotFoundFindParam, Unchanged).Success? ==>
              Walk(n, segs, HandleOnNotFoundFindParam, Unchanged).value.root == n
    decreases |segs|
  {
    if |segs| > 0 {
      match Step(n, segs[0], HandleOnNotFoundFindParam)
      case Failure(_) =>
      case Success(mv) =>
        ResolutionLeavesTrieUnchanged(mv.descent.child, segs[1..]);
        SetChildSame(n.children, mv.descent.key);
    }
  }

  /** The `*` child of the root contributes first to every successful resolution. */
  lemma WildcardComesFirst(n: Node, segs: seq<string>, m: Method, params: map<string, string>)
    ensures Resolve(n, segs, m, params).Success? ==>
              Wildcard(n, m) <= Resolve(n, segs, m, params).value.middlewares
  {
  }

  /** `tail` is a suffix of `s`. */
  predicate EndsWith(s: seq<HandlerId>, tail: seq<HandlerId>) {
    |tail| <= |s| && s[|s| - |tail|..] == tail
  }

  /** A path whose segments all exist as literal keys resolves, ending with that node's own lists. */
  lemma {:induction false} LiteralPathResolves(n: Node, segs: seq<string>, m: Method, params: map<string, string>)
    requires At(n, segs).Some?
    ensures Resolve(n, segs, m, params).Success?
    ensures EndsWith(Resolve(n, segs, m, params).value.middlewares, Own(At(n, segs).value, m))
    decreases |segs|
  {
    if |segs| > 0 {
      var c := Child(n.children, segs[0]).value;
      assert At(c, segs[1..]) == At(n, segs);
      assert Follow(n, segs[0], params) == Some((c, params));
      LiteralPathResolves(c, segs[1..], m, params);
      var v := Resolve(c, segs[1..], m, params).value;
      ResolveThrough(n, segs, m, params, c, params, v);
      EndsWithAfter(Wildcard(n, m), v.middlewares, Own(At(n, segs).value, m));
    }
  }

  lemma EndsWithAfter(front: seq<HandlerId>, s: seq<HandlerId>, tail: seq<HandlerId>)
    requires EndsWith(s, tail)
    ensures EndsWith(front + s, tail)
  {
    assert (front + s)[|front + s| - |tail|..] == s[|s| - |tail|..];
  }

  /** Resolution succeeded and `h` is the last handler it lists. */
  predicate RunsLast(r: Result<Values, RouteError>, h: HandlerId) {
    r.Success? && |r.value.middlewares| > 0 && r.value.middlewares[|r.value.middlewares| - 1] == h
  }

  /**
   * A route resolves to the handler just registered for it: resolving the
   * pattern itself (every segment, `:name` and `*` included, is then an
   * existing literal key) succeeds and the handler comes last.
   */
  lemma RegisteredRouteResolves(paths: Node, path: string, m: Method, h: HandlerId)
    requires Valid(paths)
    ensures RunsLast(GetExpressValues(AddMiddleware(paths, path, m, h), path, Some(m)), h)
  {
    var after := AddMiddleware(paths, path, m, h);
    var l := ListAt(after, Split(path), m);
    assert l == ListAt(paths, Split(path), m) + [h];
    assert l[|l| - 1] == h;
    ResolvesToLast(after, Split(path), m);
    var res := Resolve(after, Split(path), m, map[]);
    assert RunsLast(res, h);
    assert GetExpressValues(after, path, Some(m)) == res;
  }

  /**
   * Registration never changes which parameter child a request falls back
   * to at an existing node: new keys are enumerated after the old ones.
   */
  lemma RegistrationKeepsFirstParam(paths: Node, path: string, m: Method, h: HandlerId, q: seq<string>, i: nat)
    requires Valid(paths)
    requires At(paths, q).Some? && FirstParamIndex(At(paths, q).value.children) == Some(i)
    ensures var after := At(AddMiddleware(paths, path, m, h), q);
      after.Some? && FirstParamIndex(after.value.children) == Some(i)
  {
    var r := AddMiddleware(paths, path, m, h);
    var before := At(paths, q).value.children;
    var now := At(r, q).value.children;
    assert Keys(before) <= Keys(now);
    FirstParamKept(before, now, i);
  }

  /** A child list whose keys extend another's has the same first parameter key. */
  lemma FirstParamKept(before: seq<(string, Node)>, now: seq<(string, Node)>, i: nat)
    requires Keys(before) <= Keys(now) && FirstParamIndex(before) == Some(i)
    ensures FirstParamIndex(now) == Some(i)
  {
    KeysPrefix(before, now);
    assert IsParamKey(now[i].0);
  }

  /** Extending the key sequence keeps every earlier key in its position. */
  lemma KeysPrefix(before: seq<(string, Node)>, now: seq<(string, Node)>)
    requires Keys(before) <= Keys(now)
    ensures |before| <= |now|
    ensures forall j :: 0 <= j < |before| ==> now[j].0 == before[j].0
  {
    forall j | 0 <= j < |before|
      ensures now[j].0 == before[j].0
    {
      assert Keys(now)[j] == Keys(before)[j];
    }
  }

  /**
   * Every prefix of a registered route is a node, so a request for it is
   * resolved (possibly to no handler at all) and never reported as not found.
   */
  lemma PrefixOfRouteResolves(paths: Node, path: string, m: Method, h: HandlerId, q: seq<string>, m': Method)
    requires Valid(paths) && q <= Split(path)
    ensures Resolve(AddMiddleware(paths, path, m, h), q, m', map[]).Success?
  {
    LiteralPathResolves(AddMiddleware(paths, path, m, h), q, m', map[]);
  }

  /** A literal path with a non-empty list for `m` resolves, and ends with that list's last handler. */
  lemma ResolvesToLast(n: Node, segs: seq<string>, m: Method)
    requires |ListAt(n, segs, m)| > 0
    ensures var r := Resolve(n, segs, m, map[]);
      r.Success? && |r.value.middlewares| > 0 &&
      r.value.middlewares[|r.value.middlewares| - 1] == ListAt(n, segs, m)[|ListAt(n, segs, m)| - 1]
  {
    OwnEndsWithList(n, segs, m);
    var own := Own(At(n, segs).value, m);
    LiteralPathResolves(n, segs, m, map[]);
    LastOfEndsWith(Resolve(n, segs, m, map[]).value.middlewares, own);
  }

  /** The own lists of the node a path names end with its list for `m`. */
  lemma OwnEndsWithList(n: Node, segs: seq<string>, m: Method)
    requires |ListAt(n, segs, m)| > 0
    ensures At(n, segs).Some?
    ensures var own := Own(At(n, segs).value, m);
      |own| > 0 && own[|own| - 1] == ListAt(n, segs, m)[|ListAt(n, segs, m)| - 1]
  {
    var l := ListAt(n, segs, m);
    var x := At(n, segs).value;
    assert Own(x, m) == ListAt(x, [], USE) + l;
  }

  /** The last element of a sequence is the last element of any non-empty suffix. */
  lemma LastOfEndsWith(s: seq<HandlerId>, tail: seq<HandlerId>)
    requires EndsWith(s, tail) && |tail| > 0
    ensures s[|s| - 1] == tail[|tail| - 1]
  {
    assert s[|s| - |tail|..][|tail| - 1] == s[|s| - 1];
  }
}
