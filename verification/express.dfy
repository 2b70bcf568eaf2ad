/**
 * The application object of src/Express.ts (index.ts carries a single-class
 * copy of the same logic): the
 * registration verbs, the not-found branch of request handling, and the
 * `next()` continuation that runs the resolved handlers one by one.
 */
module Express {
  import opened Wrappers
  import opened Types
  import opened Segments
  import opened PathManager
  import opened MiddlewareManager
  import opened ExpressValueManager

  /** The routing state an application owns: the root of its trie. */
  datatype App = App(paths: Node)

  /** A fresh application: the root holds a table of five empty lists and nothing else. */
  function NewApp(): (app: App)
    ensures Valid(app.paths)
    ensures app.paths.children == []
    ensures forall q, m :: ListAt(app.paths, q, m) == []
  {
    App(InitPaths())
  }

  /** `app.use(path, handler)`: registers under the USE tag and returns the app. */
  function Use(app: App, path: string, h: HandlerId): (r: App)
    requires Valid(app.paths)
    ensures Valid(r.paths)
    ensures ListAt(r.paths, Split(path), USE) == ListAt(app.paths, Split(path), USE) + [h]
    ensures forall q, m :: (q != Split(path) || m != USE) ==> ListAt(r.paths, q, m) == ListAt(app.paths, q, m)
    ensures Grown(app.paths, r.paths, Split(path))
  {
    App(AddMiddleware(app.paths, path, USE, h))
  }

  /** `app.get(path, handler)`: registers under the GET tag and returns the app. */
  function Get(app: App, path: string, h: HandlerId): (r: App)
    requires Valid(app.paths)
    ensures Valid(r.paths)
    ensures ListAt(r.paths, Split(path), GET) == ListAt(app.paths, Split(path), GET) + [h]
    ensures forall q, m :: (q != Split(path) || m != GET) ==> ListAt(r.paths, q, m) == ListAt(app.paths, q, m)
    ensures Grown(app.paths, r.paths, Split(path))
  {
    App(AddMiddleware(app.paths, path, GET, h))
  }

  /** `app.post(path, handler)`: registers under the POST tag and returns the app. */
  function Post(app: App, path: string, h: HandlerId): (r: App)
    requires Valid(app.paths)
    ensures Valid(r.paths)
    ensures ListAt(r.paths, Split(path), POST) == ListAt(app.paths, Split(path), POST) + [h]
    ensures forall q, m :: (q != Split(path) || m != POST) ==> ListAt(r.paths, q, m) == ListAt(app.paths, q, m)
    ensures Grown(app.paths, r.paths, Split(path))
  {
    App(AddMiddleware(app.paths, path, POST, h))
  }

  /** `app.put(path, handler)`: registers under the PUT tag and returns the app. */
  function Put(app: App, path: string, h: HandlerId): (r: App)
    requires Valid(app.paths)
    ensures Valid(r.paths)
    ensures ListAt(r.paths, Split(path), PUT) == ListAt(app.paths, Split(path), PUT) + [h]
    ensures forall q, m :: (q != Split(path) || m != PUT) ==> ListAt(r.paths, q, m) == ListAt(app.paths, q, m)
    ensures Grown(app.paths, r.paths, Split(path))
  {
    App(AddMiddleware(app.paths, path, PUT, h))
  }

  /** `app.delete(path, handler)`: registers under the DELETE tag and returns the app. */
  function Delete(app: App, path: string, h: HandlerId): (r: App)
    requires Valid(app.paths)
    ensures Valid(r.paths)
    ensures ListAt(r.paths, Split(path), DELETE) == ListAt(app.paths, Split(path), DELETE) + [h]
    ensures forall q, m :: (q != Split(path) || m != DELETE) ==> ListAt(r.paths, q, m) == ListAt(app.paths, q, m)
    ensures Grown(app.paths, r.paths, Split(path))
  {
    App(AddMiddleware(app.paths, path, DELETE, h))
  }

  /**
   * The state of one request's dispatch: the handlers `middlewares.shift()`
   * has not yet taken, and those already invoked, in invocation order.
   */
  datatype Chain = Chain(pending: seq<HandlerId>, invoked: seq<HandlerId>)

  /**
   * `next()`: shift the first pending handler and invoke it with `next`; a
   * handler for which `callsNext` holds calls `next` once before returning,
   * any other stops the chain. With nothing pending it does nothing. Handlers
   * are only moved from the front of `pending` to the end of `invoked`, so none
   * runs twice and they run in list order.
   */
  function Next(c: Chain, callsNext: HandlerId -> bool): (r: Chain)
    ensures r.invoked + r.pending == c.invoked + c.pending
    ensures c.invoked <= r.invoked
    ensures |c.pending| == 0 ==> r == c
    ensures |c.pending| > 0 ==> |r.invoked| > |c.invoked|
    decreases |c.pending|
  {
    if |c.pending| == 0 then c
    else
      var h := c.pending[0];
      var after := Chain(c.pending[1..], c.invoked + [h]);
      if callsNext(h) then Next(after, callsNext) else after
  }

  /**
   * How many handlers one top-level `next()` runs: every leading handler that
   * calls `next`, and then the first one that does not.
   */
  function RunLength(hs: seq<HandlerId>, callsNext: HandlerId -> bool): (k: nat)
    ensures k <= |hs|
    ensures |hs| > 0 ==> k > 0
  {
    if |hs| == 0 then 0
    else if !callsNext(hs[0]) then 1
    else RunLength(hs[1..], callsNext) + 1
  }

  /** When handler `k` is the first that withholds `next`, exactly `k + 1` handlers run. */
  lemma {:induction false} RunLengthAtHalt(hs: seq<HandlerId>, callsNext: HandlerId -> bool, k: nat)
    requires k < |hs| && !callsNext(hs[k])
    requires forall j :: 0 <= j < k ==> callsNext(hs[j])
    ensures RunLength(hs, callsNext) == k + 1
  {
    if k > 0 {
      assert callsNext(hs[0]);
      forall j | 0 <= j < k - 1
        ensures callsNext(hs[1..][j])
      {
        assert hs[1..][j] == hs[j + 1];
      }
      RunLengthAtHalt(hs[1..], callsNext, k - 1);
    }
  }

  /** When every handler calls `next`, all of them run. */
  lemma {:induction false} RunLengthAllContinue(hs: seq<HandlerId>, callsNext: HandlerId -> bool)
    requires forall j :: 0 <= j < |hs| ==> callsNext(hs[j])
    ensures RunLength(hs, callsNext) == |hs|
  {
    if |hs| > 0 {
      assert callsNext(hs[0]);
      forall j | 0 <= j < |hs| - 1
        ensures callsNext(hs[1..][j])
      {
        assert hs[1..][j] == hs[j + 1];
      }
      RunLengthAllContinue(hs[1..], callsNext);
    }
  }

  /**
   * Starting the chain runs exactly the handlers up to and including the first
   * one that does not call `next`, in list order; the rest stay pending.
   */
  lemma {:induction false} NextRunsUntilHalt(hs: seq<HandlerId>, done: seq<HandlerId>, callsNext: HandlerId -> bool)
    ensures Next(Chain(hs, done), callsNext)
            == Chain(hs[RunLength(hs, callsNext)..], done + hs[..RunLength(hs, callsNext)])
  {
    if |hs| > 0 {
      var rest := Chain(hs[1..], done + [hs[0]]);
      if callsNext(hs[0]) {
        assert Next(Chain(hs, done), callsNext) == Next(rest, callsNext);
        NextRunsUntilHalt(hs[1..], done + [hs[0]], callsNext);
        var k := RunLength(hs[1..], callsNext);
        assert hs[1..][k..] == hs[k + 1..];
        assert hs[..k + 1] == [hs[0]] + hs[1..][..k];
        assert (done + [hs[0]]) + hs[1..][..k] == done + ([hs[0]] + hs[1..][..k]);
      } else {
        assert hs[..1] == [hs[0]];
      }
    }
  }

  /** If every handler calls `next` once, all N run, each once, in order, and the chain completes. */
  lemma AllContinueCompletes(hs: seq<HandlerId>, callsNext: HandlerId -> bool)
    requires forall j :: 0 <= j < |hs| ==> callsNext(hs[j])
    ensures Next(Chain(hs, []), callsNext) == Chain([], hs)
  {
    NextRunsUntilHalt(hs, [], callsNext);
    RunLengthAllContinue(hs, callsNext);
    assert hs[..|hs|] == hs;
  }

  /** If handler k is the first that does not call `next`, handlers after k never run. */
  lemma HaltStopsChain(hs: seq<HandlerId>, callsNext: HandlerId -> bool, k: nat)
    requires k < |hs| && !callsNext(hs[k])
    requires forall j :: 0 <= j < k ==> callsNext(hs[j])
    ensures Next(Chain(hs, []), callsNext) == Chain(hs[k + 1..], hs[..k + 1])
  {
    NextRunsUntilHalt(hs, [], callsNext);
    RunLengthAtHalt(hs, callsNext, k);
  }

  /** What handling one request comes to. */
  datatype Outcome =
    | NotFoundHandled                                          // `onNotFound(req, res)` ran once, and nothing else
    | Dispatched(params: map<string, string>, chain: Chain)   // the handlers the first `next()` ran

  /**
   * `handleRequest`: resolve `req.url || ''` with `req.method` (GET when
   * absent); on failure call the not-found handler and invoke no route
   * handler; otherwise build the request with the bindings and call `next()`
   * once.
   */
  function HandleRequest(app: App, url: Option<string>, verb: Option<Method>, callsNext: HandlerId -> bool): (r: Outcome)
    ensures r.NotFoundHandled? <==> GetExpressValues(app.paths, url.GetOr(""), verb).Failure?
    ensures r.Dispatched? ==>
              && r.params == GetExpressValues(app.paths, url.GetOr(""), verb).value.params
              && r.chain.invoked + r.chain.pending == GetExpressValues(app.paths, url.GetOr(""), verb).value.middlewares
  {
    match GetExpressValues(app.paths, url.GetOr(""), verb)
    case Failure(_) => NotFoundHandled
    case Success(v) => Dispatched(v.params, Next(Chain(v.middlewares, []), callsNext))
  }

  /** A dispatched request ran its resolved handlers in order, up to the first that withheld `next`. */
  lemma HandleRequestRunsInOrder(app: App, url: Option<string>, verb: Option<Method>, callsNext: HandlerId -> bool)
    ensures var r := HandleRequest(app, url, verb, callsNext);
      r.Dispatched? ==>
        var hs := GetExpressValues(app.paths, url.GetOr(""), verb).value.middlewares;
        r.chain.invoked == hs[..RunLength(hs, callsNext)] && r.chain.pending == hs[RunLength(hs, callsNext)..]
  {
    var v := GetExpressValues(app.paths, url.GetOr(""), verb);
    if v.Success? {
      NextRunsUntilHalt(v.value.middlewares, [], callsNext);
    }
  }
}
