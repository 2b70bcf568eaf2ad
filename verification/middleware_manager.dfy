/**
 * Route registration and handler collection of
 * src/Manager/MiddlewareManager.ts (the same logic is inlined in index.ts).
 */
module MiddlewareManager {
  import opened Wrappers
  import opened Types
  import opened Segments
  import opened PathManager

  /** The `onFound` of `addMiddleware`: push onto the terminus's list when it has a table. */
  function PushHandler(m: Method, h: HandlerId, cur: Node): Node {
    if cur.table.Some? then cur.(table := Some(cur.table.value.Push(m, h))) else cur
  }

  function Pusher(m: Method, h: HandlerId): Node -> Node {
    n => PushHandler(m, h, n)
  }

  /**
   * How registering along `segs` reshapes the trie from `before` to `after`:
   * the nodes afterwards are those before plus every prefix of `segs`; every
   * node off that path, with all below it, is the same as before; and each
   * existing node keeps its keys in order, with any new key enumerated after
   * them.
   */
  ghost predicate Grown(before: Node, after: Node, segs: seq<string>) {
    && (forall q :: At(after, q).Some? <==> (At(before, q).Some? || q <= segs))
    && (forall q :: !(q <= segs) ==> At(after, q) == At(before, q))
    && (forall q :: At(before, q).Some? ==>
          At(after, q).Some? && Keys(At(before, q).value.children) <= Keys(At(after, q).value.children))
  }

  /**
   * Registration over split segments: descend into the literal child or a
   * freshly created one, and push at the end of the path. It creates exactly
   * the missing prefixes of the path, each appended after its siblings, and
   * leaves every other node as it was.
   */
  function Register(n: Node, segs: seq<string>, m: Method, h: HandlerId): (r: Node)
    ensures Grown(n, r, segs)
    decreases |segs|
  {
    if |segs| == 0 then
      PushGrown(n, m, h);
      PushHandler(m, h, n)
    else
      var c := Below(n, segs[0]);
      var sub := Register(c, segs[1..], m, h);
      GrownBelow(n, segs, sub);
      n.(children := SetChild(n.children, segs[0], sub))
  }

  /** A node with no children names only itself. */
  lemma AtInitPaths(q: seq<string>)
    ensures At(InitPaths(), q).Some? <==> q == []
  {
    if |q| > 0 {
      assert Child(InitPaths().children, q[0]) == None;
    }
  }

  /** Pushing at the terminus keeps the shape of the trie. */
  lemma PushGrown(n: Node, m: Method, h: HandlerId)
    ensures Grown(n, PushHandler(m, h, n), [])
  {
    var r := PushHandler(m, h, n);
    forall q | |q| > 0
      ensures At(r, q) == At(n, q)
    {
      assert r.children == n.children;
    }
  }

  /** Two paths with the same first key: one is a prefix of the other iff their tails are. */
  lemma PrefixCons(q: seq<string>, segs: seq<string>)
    requires |q| > 0 && |segs| > 0 && q[0] == segs[0]
    ensures q <= segs <==> q[1..] <= segs[1..]
  {
    if q[1..] <= segs[1..] {
      assert q == [q[0]] + q[1..];
      assert segs[..|q|] == [segs[0]] + segs[1..][..|q| - 1];
    }
  }

  /** Rebuilding the child under the first key, grown along the rest of the path, grows the parent. */
  lemma GrownBelow(n: Node, segs: seq<string>, sub: Node)
    requires |segs| > 0
    requires Grown(Below(n, segs[0]), sub, segs[1..])
    ensures Grown(n, n.(children := SetChild(n.children, segs[0], sub)), segs)
  {
    var k := segs[0];
    var r := n.(children := SetChild(n.children, k, sub));
    SetChildKeys(n.children, k, sub);
    forall q
      ensures At(r, q).Some? <==> (At(n, q).Some? || q <= segs)
      ensures !(q <= segs) ==> At(r, q) == At(n, q)
      ensures At(n, q).Some? ==>
                At(r, q).Some? && Keys(At(n, q).value.children) <= Keys(At(r, q).value.children)
    {
      if |q| > 0 {
        GrownBelowStep(n, segs, sub, q);
      }
    }
  }

  /** The case of `GrownBelow` for one non-empty path `q`. */
  lemma GrownBelowStep(n: Node, segs: seq<string>, sub: Node, q: seq<string>)
    requires |segs| > 0 && |q| > 0
    requires Grown(Below(n, segs[0]), sub, segs[1..])
    ensures var r := n.(children := SetChild(n.children, segs[0], sub));
      && (At(r, q).Some? <==> (At(n, q).Some? || q <= segs))
      && (!(q <= segs) ==> At(r, q) == At(n, q))
      && (At(n, q).Some? ==>
            At(r, q).Some? && Keys(At(n, q).value.children) <= Keys(At(r, q).value.children))
  {
    var k := segs[0];
    var c := Below(n, k);
    var r := n.(children := SetChild(n.children, k, sub));
    SetChildLookup(n.children, k, sub, q[0]);
    if q[0] == k {
      assert At(r, q) == At(sub, q[1..]);
      PrefixCons(q, segs);
      if Child(n.children, k).Some? {
        assert At(n, q) == At(c, q[1..]);
      } else {
        AtInitPaths(q[1..]);
        assert At(n, q) == None;
      }
    } else {
      assert At(r, q) == At(n, q);
      assert !(q <= segs);
    }
  }

  /**
   * `addMiddleware(path, method, handler)`. It never fails. On a trie that
   * keeps the invariant (every node owns a table; the root is created with one
   * and so is every created node) it appends `h` at the end of the list for
   * `m` of the node the path names and changes no other list anywhere; the
   * invariant is kept, and the nodes are reshaped only as `Grown` allows.
   */
  function AddMiddleware(paths: Node, path: string, m: Method, h: HandlerId): (r: Node)
    requires Valid(paths)
    ensures Valid(r)
    ensures ListAt(r, Split(path), m) == ListAt(paths, Split(path), m) + [h]
    ensures forall q, m' :: (q != Split(path) || m' != m) ==> ListAt(r, q, m') == ListAt(paths, q, m')
    ensures Grown(paths, r, Split(path))
  {
    RegisterValid(paths, Split(path), m, h);
    forall q, m' {
      RegisterListAt(paths, Split(path), m, h, q, m');
    }
    Register(paths, Split(path), m, h)
  }

  /**
   * Registration is the generic walk with the create strategy, whose `onFound`
   * pushes the handler.
   */
  lemma {:induction false} RegisterIsCreateWalk(n: Node, segs: seq<string>, m: Method, h: HandlerId)
    ensures Walk(n, segs, HandleOnNotFoundCreate, Pusher(m, h)).Success?
    ensures Walk(n, segs, HandleOnNotFoundCreate, Pusher(m, h)).value.root == Register(n, segs, m, h)
    decreases |segs|
  {
    CreateWalkSucceeds(n, segs, Pusher(m, h));
    if |segs| > 0 {
      var c := Below(n, segs[0]);
      RegisterIsCreateWalk(c, segs[1..], m, h);
      var sub := Register(c, segs[1..], m, h);
      if Child(n.children, segs[0]).None? {
        SetChildTwice(n.children, segs[0], c, sub);
      }
    }
  }

  /** One step of `ListAt` down a literal key. */
  lemma ListAtCons(n: Node, q: seq<string>, m: Method)
    requires |q| > 0
    ensures ListAt(n, q, m) == match Child(n.children, q[0])
                               case None => []
                               case Some(c) => ListAt(c, q[1..], m)
  {
  }

  /** The child `Register` descends into below `n` for `key`. */
  function Below(n: Node, key: string): Node {
    match Child(n.children, key) case Some(x) => x case None => InitPaths()
  }

  /** Pushing at `n` grows its own list for `m` and nothing else. */
  lemma PushListAt(n: Node, m: Method, h: HandlerId, q: seq<string>, m': Method)
    requires n.table.Some?
    ensures ListAt(PushHandler(m, h, n), q, m') ==
              if q == [] && m' == m then ListAt(n, q, m) + [h] else ListAt(n, q, m')
  {
    if |q| > 0 {
      ListAtCons(PushHandler(m, h, n), q, m');
      ListAtCons(n, q, m');
    }
  }

  /** Registering below `n` keeps `n`'s own table. */
  lemma RegisterKeepsTable(n: Node, segs: seq<string>, m: Method, h: HandlerId, m': Method)
    requires |segs| > 0
    ensures ListAt(Register(n, segs, m, h), [], m') == ListAt(n, [], m')
  {
  }

  /** Registering below one key leaves every path under another key as it was. */
  lemma RegisterListAtOff(n: Node, segs: seq<string>, m: Method, h: HandlerId, q: seq<string>, m': Method)
    requires |segs| > 0 && |q| > 0 && q[0] != segs[0]
    ensures ListAt(Register(n, segs, m, h), q, m') == ListAt(n, q, m')
  {
    var r := Register(n, segs, m, h);
    SetChildLookup(n.children, segs[0], Register(Below(n, segs[0]), segs[1..], m, h), q[0]);
    assert Child(r.children, q[0]) == Child(n.children, q[0]);
    ListAtCons(r, q, m');
    ListAtCons(n, q, m');
  }

  /** Under the registered key, lists are read from the rebuilt child and the original one. */
  lemma RegisterListAtHead(n: Node, segs: seq<string>, m: Method, h: HandlerId, q: seq<string>, m': Method)
    requires |segs| > 0 && |q| > 0 && q[0] == segs[0]
    ensures ListAt(Register(n, segs, m, h), q, m') == ListAt(Register(Below(n, segs[0]), segs[1..], m, h), q[1..], m')
    ensures ListAt(n, q, m') == ListAt(Below(n, segs[0]), q[1..], m')
  {
    var r := Register(n, segs, m, h);
    SetChildLookup(n.children, segs[0], Register(Below(n, segs[0]), segs[1..], m, h), q[0]);
    ListAtCons(r, q, m');
    ListAtCons(n, q, m');
  }

  /**
   * Registration changes exactly one list: the list for `m` at `segs` grows by
   * `h`; every other list of every node, existing or created, stays as it was.
   */
  lemma {:induction false} RegisterListAt(n: Node, segs: seq<string>, m: Method, h: HandlerId, q: seq<string>, m': Method)
    requires Valid(n)
    ensures ListAt(Register(n, segs, m, h), q, m') ==
              if q == segs && m' == m then ListAt(n, q, m) + [h] else ListAt(n, q, m')
    decreases |segs|
  {
    if |segs| == 0 {
      PushListAt(n, m, h, q, m');
    } else if |q| == 0 {
      RegisterKeepsTable(n, segs, m, h, m');
    } else if q[0] != segs[0] {
      RegisterListAtOff(n, segs, m, h, q, m');
    } else {
      var c := Below(n, segs[0]);
      if Child(n.children, segs[0]).Some? {
        ChildValid(n, segs[0]);
      }
      RegisterListAt(c, segs[1..], m, h, q[1..], m');
      RegisterListAtHead(n, segs, m, h, q, m');
      SameHeadSameTail(q, segs);
    }
  }

  lemma SameHeadSameTail(a: seq<string>, b: seq<string>)
    requires |a| > 0 && |b| > 0 && a[0] == b[0]
    ensures a == b <==> a[1..] == b[1..]
  {
    if a[1..] == b[1..] {
      assert a == [a[0]] + a[1..] && b == [b[0]] + b[1..];
    }
  }

  /** Registration keeps the trie invariant: every node owns a table and keys are unique. */
  lemma {:induction false} RegisterValid(n: Node, segs: seq<string>, m: Method, h: HandlerId)
    requires Valid(n)
    ensures Valid(Register(n, segs, m, h))
    decreases |segs|
  {
    var r := Register(n, segs, m, h);
    if |segs| == 0 {
      return;
    }
    var key := segs[0];
    var c := Below(n, key);
    var sub := Register(c, segs[1..], m, h);
    if Child(n.children, key).Some? {
      ChildValid(n, key);
    }
    RegisterValid(c, segs[1..], m, h);
    ValidAfterSetChild(n, key, sub);
  }

  /**
   * `handleOnIterationGetMiddlewares`: the `*` child's `use` list then its list
   * for `m`; nothing when there is no `*` child.
   */
  function HandleOnIterationGetMiddlewares(cur: Node, m: Method): (r: seq<HandlerId>)
    ensures r == ListAt(cur, ["*"], USE) + ListAt(cur, ["*"], m)
  {
    ListAtCons(cur, ["*"], USE);
    ListAtCons(cur, ["*"], m);
    match Child(cur.children, "*")
    case Some(star) =>
      if star.table.Some? then star.table.value.List(USE) + star.table.value.List(m) else []
    case None => []
  }

  /**
   * `handleOnFoundGetMiddlewares`: the `*` child's `use` and `m` lists, then
   * the node's own `use` list, then its own list for `m`.
   */
  function HandleOnFoundGetMiddlewares(cur: Node, m: Method): (r: seq<HandlerId>)
    ensures r == (ListAt(cur, ["*"], USE) + ListAt(cur, ["*"], m)) + (ListAt(cur, [], USE) + ListAt(cur, [], m))
  {
    ListAtCons(cur, ["*"], USE);
    ListAtCons(cur, ["*"], m);
    var wildcard :=
      match Child(cur.children, "*")
      case Some(star) =>
        if star.table.Some? then star.table.value.List(USE) + star.table.value.List(m) else []
      case None => [];
    var own := if cur.table.Some? then cur.table.value.List(USE) else [];
    var exact := if cur.table.Some? then cur.table.value.List(m) else [];
    wildcard + (own + exact)
  }

  /** What is collected on passing through a node is a prefix of what is collected on stopping there. */
  lemma IterationPrefixOfFound(cur: Node, m: Method)
    ensures HandleOnIterationGetMiddlewares(cur, m) <= HandleOnFoundGetMiddlewares(cur, m)
  {
  }

  /**
   * A node's own table is not consulted when a request only passes through it,
   * so `use('/a', mw)` does not apply to `/a/b`.
   */
  lemma OwnTableIgnoredOnIteration(cur: Node, t: Option<Table>, m: Method)
    ensures HandleOnIterationGetMiddlewares(cur.(table := t), m) == HandleOnIterationGetMiddlewares(cur, m)
  {
  }

  /** Registering twice at the same method and path keeps both handlers, in registration order. */
  lemma RegisterTwice(paths: Node, path: string, m: Method, h1: HandlerId, h2: HandlerId)
    requires Valid(paths)
    ensures ListAt(AddMiddleware(AddMiddleware(paths, path, m, h1), path, m, h2), Split(path), m)
            == ListAt(paths, Split(path), m) + [h1, h2]
  {
  }
}
