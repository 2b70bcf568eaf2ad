# Routing core of express-clone, in Dafny

This project models the request router of a small Express clone written in
TypeScript. Applications register handlers with `use`, `get`, `post`, `put`
and `delete`. Each request is resolved to an ordered handler list plus
parameter bindings, and the handlers then run as a `next()` chain.

The algorithm exists twice in the repository:

- in `src/Manager/*` plus `src/Express.ts`;
- inlined in `index.ts`, with the same branches (for example `index.ts:82-100`
  is `getPath`, `index.ts:103-145` is `getExpressValues`, `index.ts:147-165` is
  `addMiddleware`, `index.ts:191-196` is `next`, `index.ts:307-365` holds the
  static strategies).

It is modelled once. The table below cites the `src/` copy.

Modules, in dependency order:

- `Wrappers`: `Option` and `Result`.
- `Types` (`src/types.ts`): the five-list route table `Table` and the trie
  `Node(table, children)`.
  - The source's reserved key `'/'` is the `table` field.
  - Every other key is a child, kept in insertion order, because the
    parameter lookup enumerates keys.
  - `Valid` is the trie invariant: every node owns a table and child keys
    are unique.
  - `ListAt(n, q, m)` reads the list for `m` at the literal key path `q`.
- `Segments`: `path.split('/').filter(Boolean)` and `rest.join('/')`.
- `PathManager` (`src/Manager/PathManger.ts`): the generic walk `getPath`
  plus the throw and create strategies. `src/Manager/PathManager.ts` differs
  only in its class name, and the copy inside `index.ts` uses other
  identifiers and throws a plain object; all three behave identically.
  - Callbacks that only observe (`onIteration`, `onFound`) become an event
    trace.
  - `onNotFound` is a function value that may return a changed parent.
  - Mutation through shared references becomes a rebuilt spine.
- `ParamsManager`: the first `:`-prefixed child (`handleOnNotFoundFindParam`).
- `MiddlewareManager`: registration (`addMiddleware`) and the two collection
  callbacks.
- `ExpressValueManager`: `getExpressValues`.
  - It is proved equal to `Resolve`, a reference resolution written directly
    on the trie.
  - `Resolve` collects the wildcard middleware of every visited node, root
    first, then the terminus's own `use` list and its method list.
  - Bindings map a parameter's name (without `:`) to the segment; later
    writes win.
- `Express`: the application verbs, the not-found branch of `handleRequest`,
  and the `next()` chain.
  - A handler is an opaque id.
  - `callsNext(h)` says whether handler `h` calls `next` once, synchronously,
    before returning.
- `Scenarios`: concrete applications built with the verbs and resolved
  end to end.

Clocks, I/O and the HTTP server are not modelled. Where the code and a naive
reading of route patterns disagree, the model follows the code:

- A literal sibling shadows a parameter key: `/user/me` never reaches
  `/user/:id` once `me` exists.
- A `*` route segment is matched only by a literal `*` request segment. It
  otherwise contributes only middleware.
- Registration leaves a node at every prefix of a route. After `get('/a/b', h)`
  a request for `/a` therefore resolves to no handlers; dispatch runs nothing
  and the not-found handler is never called, so the response is left open.
- `use('*', mw)` followed by a request for `/*` collects `mw` twice. It is
  collected once as the root's wildcard middleware and once as the `*` node's
  own `use` list. This is recorded as a scenario lemma, not as a defect,
  because the intent is unclear.

## Model

| member | source | states |
|---|---|---|
| Types.Child | src/Manager/PathManger.ts:27 | `cur[key]` is defined exactly when `key` is one of the child keys, and then it is the node stored under that key |
| Types.SetChildKeys | src/Manager/PathManager.ts:62 | storing under a key keeps the enumeration order; a key that was absent is appended at the end |
| Types.SetChildAppends | src/Manager/PathManager.ts:62 | storing under an absent key appends exactly that one entry to the children |
| Types.SetChildLookup | src/Manager/PathManager.ts:62 | after `cur[key] = v`, `cur[key]` reads `v` and every other key reads as before |
| Types.SetChildTwice | src/Manager/PathManager.ts:62 | a second write to the same key replaces the first |
| Types.SetChildSame | src/Manager/PathManager.ts:62 | writing back the node a key already holds changes nothing |
| Types.ValidAfterSetChild | src/Manager/PathManager.ts:61-64 | storing a valid node under a key of a valid node keeps every node tabled and the keys unique |
| Segments.Split | src/Manager/PathManger.ts:20 | every segment produced is non-empty and free of `/` |
| Segments.SplitConcat | src/Manager/PathManger.ts:20 | splitting `a + "/" + b` gives the segments of `a` followed by those of `b` |
| Segments.ExtraSlashesIgnored | src/Manager/PathManger.ts:20 | a leading, trailing or doubled slash never changes the segments |
| Segments.SlashesExample | src/Manager/PathManger.ts:20 | `/a//b/` and `a/b` both split to `["a", "b"]` |
| Segments.SplitJoin | src/Manager/PathManger.ts:33 | joining segments with `/` and splitting again gives them back |
| Segments.RestResplits | src/Manager/PathManger.ts:20-33 | the recursive call on `rest.join('/')` sees exactly the segments after the first |
| PathManager.InitPath | src/Manager/PathManger.ts:47-55 | a fresh table has all five lists empty |
| PathManager.InitPaths | src/Manager/PathManger.ts:41-45 | a fresh node has an empty table and no children, satisfies the invariant, and every list under it is empty |
| PathManager.HandleOnNotFoundThrow | src/Manager/PathManger.ts:57-59 | the default strategy always fails, naming the missing segment |
| PathManager.HandleOnNotFoundCreate | src/Manager/PathManager.ts:61-64 | succeeds and descends into a fresh node stored under the key; the parent's table and every other key are unchanged; an absent key is appended |
| PathManager.Step | src/Manager/PathManger.ts:27-30 | an existing literal key is taken without consulting `onNotFound`; only an absent key calls it, and the step fails exactly when it fails |
| PathManager.Walk | src/Manager/PathManger.ts:20-38 | the recursion on the remaining segments: on success `onIteration` fired once per segment in path order, `onFound` fired exactly once and last, and `onNotFound` fired only for a key with no literal child |
| PathManager.GetPath | src/Manager/PathManger.ts:6-38 | walking a path string walks its split segments, with the same firing guarantees counted against the segments of the path |
| PathManager.ThrowWalkFollowsLiterals | src/Manager/PathManger.ts:10-38 | with the default strategy the walk succeeds iff every segment is an existing literal key; then `onIteration` fires on each node along the path with the segment taken from it, and `onFound` fires last on the node the path names |
| PathManager.CreateWalkSucceeds | src/Manager/MiddlewareManager.ts:12-13 | with the create strategy the walk never fails |
| ParamsManager.FirstParamIndex | src/Manager/ParamsManager.ts:12-18 | the position of a `:`-prefixed key with none before it, or none when no key starts with `:` |
| ParamsManager.FindParamKey | src/Manager/ParamsManager.ts:12-18 | the enumeration loop with `break` finds a key exactly when one starts with `:`, and it is the first such key |
| ParamsManager.HandleOnNotFoundFindParam | src/Manager/ParamsManager.ts:11-22 | fails with not-found for the segment iff no key starts with `:`; otherwise returns the first such key, with its colon, and its child, leaving the trie as it is |
| ParamsManager.FirstParamIsFirstOccurrence | src/Manager/ParamsManager.ts:21 | `cur[find]` is the child at the first parameter position |
| ParamsManager.ParamLookupIgnoresSegment | src/Manager/ParamsManager.ts:11-21 | the request segment is never inspected: any two segments reach the same parameter child or fail together |
| ParamsManager.BareColonChosenOverWildcard | src/Manager/ParamsManager.ts:14 | a `*` key is skipped while a bare `:` key is taken |
| MiddlewareManager.AddMiddleware | src/Manager/MiddlewareManager.ts:11-20 | appends the handler to the list for the method at the node the path names, changes no other list of any node, and keeps the trie invariant; afterwards a node exists exactly where one existed before or at a prefix of the path, nodes off the path are unchanged, and every node's earlier keys keep their positions |
| MiddlewareManager.Register | src/Manager/MiddlewareManager.ts:11-20 | the create walk with the push as `onFound` creates exactly the missing prefixes of the path, appends each new key after the existing ones, and leaves every node off the path as it was |
| MiddlewareManager.RegisterIsCreateWalk | src/Manager/MiddlewareManager.ts:11-20 | registration is the generic walk with the create strategy and the push as `onFound`, and it succeeds |
| MiddlewareManager.PushListAt | src/Manager/MiddlewareManager.ts:14-18 | the push grows the terminus's list for the method by the handler and leaves every other list alone |
| MiddlewareManager.RegisterListAt | src/Manager/MiddlewareManager.ts:11-20 | exactly one list changes, the one for the method at the registered path, which grows by the handler |
| MiddlewareManager.RegisterValid | src/Manager/MiddlewareManager.ts:11-20 | registration keeps every node tabled and the keys unique |
| MiddlewareManager.HandleOnIterationGetMiddlewares | src/Manager/MiddlewareManager.ts:45-56 | the `*` child's `use` list followed by its list for the method, or nothing without a `*` child |
| MiddlewareManager.HandleOnFoundGetMiddlewares | src/Manager/MiddlewareManager.ts:22-43 | the `*` child's `use` list and method list, then the node's own `use` list, then its own method list |
| MiddlewareManager.IterationPrefixOfFound | src/Manager/MiddlewareManager.ts:22-56 | what passing through a node collects is a prefix of what stopping there collects |
| MiddlewareManager.OwnTableIgnoredOnIteration | src/Manager/MiddlewareManager.ts:45-56 | a node's own table is not consulted when a request only passes through it |
| MiddlewareManager.RegisterTwice | src/Manager/MiddlewareManager.ts:16 | registering the same method and path twice keeps both handlers, in registration order |
| ExpressValueManager.ParamName | src/Manager/ExpressValueManager.ts:29 | the parameter name is the key with its first character removed |
| ExpressValueManager.GetExpressValues | src/Manager/ExpressValueManager.ts:15-50 | equals the reference resolution of the split path, with GET when no method is given |
| ExpressValueManager.WalkMatchesResolve | src/Manager/ExpressValueManager.ts:26-44 | the callback-driven walk gives the reference resolution: same failure and segment, same handlers in the same order, same bindings |
| ExpressValueManager.StepMatchesFollow | src/Manager/ExpressValueManager.ts:27-31 | one walk step with the parameter strategy is one reference step: the literal child, else the first parameter child with its name bound to the segment, else not-found for that segment |
| ExpressValueManager.FoundGathered | src/Manager/ExpressValueManager.ts:39-43 | at the terminus the collected handlers are the wildcard lists, then the own lists, and no binding changes |
| ExpressValueManager.LaterBindingWins | src/Manager/ExpressValueManager.ts:27-31 | two segments bound through parameters of the same name resolve, and the later segment's value is the one kept |
| ExpressValueManager.RegistrationKeepsFirstParam | src/Manager/ParamsManager.ts:12-18 | registering any route never changes which key a node's parameter lookup picks: new keys go after the existing first `:` key |
| ExpressValueManager.PrefixOfRouteResolves | src/Manager/MiddlewareManager.ts:11-20 | after registering a route, every prefix of its segments resolves for every method, because the create walk left a tabled node at each prefix |
| ExpressValueManager.ResolutionLeavesTrieUnchanged | src/Manager/ExpressValueManager.ts:26-44 | resolution never changes the trie |
| ExpressValueManager.WildcardComesFirst | src/Manager/ExpressValueManager.ts:32-38 | the root's wildcard middleware leads every successful resolution |
| ExpressValueManager.LiteralPathResolves | src/Manager/ExpressValueManager.ts:26-44 | a path whose segments are all existing literal keys resolves, and the list ends with that node's own lists |
| ExpressValueManager.RegisteredRouteResolves | src/Manager/ExpressValueManager.ts:11-50 | after registering a handler for a pattern and a method, resolving the pattern itself with that method succeeds and the handler runs last |
| Express.NewApp | src/Manager/PathManger.ts:4 | a new application's root holds five empty lists and no children, and satisfies the invariant |
| Express.Use | src/Express.ts:66-69 | `use` registers under the USE tag only and keeps the invariant; it creates nodes only at prefixes of the path and keeps every node's existing keys in place |
| Express.Get | src/Express.ts:71-74 | `get` registers under the GET tag only and keeps the invariant; it creates nodes only at prefixes of the path and keeps every node's existing keys in place |
| Express.Post | src/Express.ts:76-79 | `post` registers under the POST tag only and keeps the invariant; it creates nodes only at prefixes of the path and keeps every node's existing keys in place |
| Express.Put | src/Express.ts:81-84 | `put` registers under the PUT tag only and keeps the invariant; it creates nodes only at prefixes of the path and keeps every node's existing keys in place |
| Express.Delete | src/Express.ts:86-89 | `delete` registers under the DELETE tag only and keeps the invariant; it creates nodes only at prefixes of the path and keeps every node's existing keys in place |
| Express.Next | src/Express.ts:56-61 | `next()` only moves handlers from the front of the pending list to the end of the invoked list, so none runs twice and order is kept; it does nothing when no handler is left |
| Express.NextRunsUntilHalt | src/Express.ts:56-63 | starting the chain runs exactly the handlers up to and including the first that does not call `next`; the rest stay pending |
| Express.AllContinueCompletes | src/Express.ts:56-63 | if every handler calls `next`, all of them run, each once, in order |
| Express.HaltStopsChain | src/Express.ts:56-63 | if handler k is the first that does not call `next`, handlers after k never run |
| Express.HandleRequest | src/Express.ts:32-64 | the not-found handler runs iff resolution fails (with GET when no method is given); otherwise the bindings are the resolved ones, and the handlers are dispatched in resolved order |
| Express.HandleRequestRunsInOrder | src/Express.ts:32-64 | a dispatched request ran a prefix of its resolved handlers, up to the first that withheld `next` |
| Scenarios.WildcardMiddlewareThenRoute | src/Manager/ExpressValueManager.ts:26-49 | `use('*', mwA)` then `get('/x', h2)`: a GET for `/x` yields `[mwA, h2]` with no bindings |
| Scenarios.ParameterIsBound | src/Manager/ExpressValueManager.ts:15-49 | `get('/user/:id', h1)`: a request for `/user/42` with no method yields `[h1]` with `id` bound to `42` |
| Scenarios.UnregisteredIsNotFound | src/Express.ts:36-47 | on a fresh application `/unregistered` fails with not-found, and the request goes to the not-found handler |
| Scenarios.UseIsExactMatch | src/Manager/MiddlewareManager.ts:34-56 | `use('/a', mw)` then `get('/a/b', h)`: `/a/b` yields `[h]` and `/a` yields `[mw]` |
| Scenarios.RoutePrefixIsNotNotFound | src/Express.ts:36-47 | `get('/a/b', h)`: a GET for `/a` resolves to no handlers and no bindings, so it is dispatched with an empty chain and never reaches the not-found handler |
| Scenarios.RootRegistrationAddsNoChild | src/Manager/PathManger.ts:22-25 | registering at the empty path pushes at the root itself and creates no child |
| Scenarios.LiteralShadowsParameter | src/Manager/PathManger.ts:27-30 | `get('/user/:id', h1)` then `get('/user/me', h2)`: `/user/me` yields `[h2]` with no bindings |
| Scenarios.StarSegmentIsLiteral | src/Manager/ParamsManager.ts:11-22 | `get` on `files` followed by a `*` segment: `/files/a` is not found |
| Scenarios.StarRequestRepeatsMiddleware | src/Manager/ExpressValueManager.ts:32-43 | `use('*', mw)`: a request for `/*` yields `[mw, mw]` |

## Left out

- The HTTP server, `Request`, `Response`, `listen` and `close` are not modelled. They are thin wrappers over node:http.
- The request body (`getBody`) is not modelled, nor is the request object built around the bindings.
- `Express.json` and `onTimeout` in `index.ts` are not modelled: they call `JSON.parse` or use timers.
- Handlers that call `next` asynchronously, more than once, or after returning are not modelled. A handler is an id, and `callsNext` says whether it calls `next` once, synchronously.
- Methods outside the five tags are not modelled. A request verb is `Option<Method>`, with `None` for an absent method. In the source, an unknown lower-cased method such as `patch` gets undefined lists. Spreading one of those throws inside a `*` collection, which sends the request to the not-found handler. The terminus's own guarded list is skipped.
- Object keys inherited from `Object.prototype` (`constructor`, `__proto__`) are not modelled. Segments are plain strings looked up only among the keys the trie stored.
- Integer-like keys are not modelled, although JavaScript enumerates them before other keys. Such keys never start with `:`, so the first parameter key is the same.
- Query strings are not modelled. The source does not strip them from `req.url`, and the model takes the URL as an opaque string.
- The error values are simplified. The source throws an `Error` whose message names the segment (`index.ts` throws a plain object instead). The model's `PathNotFound(key)` keeps only the segment. Callers only catch it.
- The `Path` table that `getPath` returns is not modelled. The only callers discard it; the walk's trace and rebuilt trie are modelled instead.
- `ExpressValueManager.addMiddleware` forwards its arguments unchanged to the middleware manager, so `Express.Use` … `Express.Delete` call `MiddlewareManager.AddMiddleware` directly.
- `app.ts` is a demo and is not modelled.
- MiddlewareManager.AddMiddleware: requires `Valid(paths)`, the class invariant every reachable trie satisfies. `Express.NewApp` establishes it and registration keeps it. On a trie with a table-less node, `Register` still skips the push as the source does, but no contract describes that case.
- Express.HandleRequest: states the dispatch only up to the first `next()` call's effect on the chain. What handlers do with the request and response is outside the model.
