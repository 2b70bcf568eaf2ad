/**
 * The generic trie walk `getPath` of src/Manager/PathManger.ts, with its two
 * built-in not-found strategies and the constructors of fresh nodes. The
 * walks in src/Manager/PathManager.ts (which differs only in the class name)
 * and in the `Express` class of index.ts (other identifiers; its throwing
 * strategy throws a plain `{ message, error: 404 }` object) behave identically.
 *
 * The walk's callbacks are modelled as follows: `onNotFound` is a function
 * value that may return a changed parent (the create strategy inserts into
 * it); `onIteration` and `onFound` only observe, so the walk records what they
 * would observe as an event trace; the one mutation an `onFound` performs
 * (registration pushes a handler) is the `onFound` edit applied to the
 * terminus. Mutation through object references becomes a rebuilt spine.
 */
module PathManager {
  import opened Wrappers
  import opened Types
  import opened Segments

  /** What a throwing `onNotFound` raises: the segment that had no child. */
  datatype RouteError = PathNotFound(key: string)

  /**
   * What an `onNotFound` strategy hands back: the parent as it is afterwards,
   * the key the chosen child is stored under in it, and that child.
   */
  datatype Descent = Descent(parent: Node, key: string, child: Node)

  /** One callback invocation, with the node it received. */
  datatype Event =
    | NotFound(key: string, at: Node, resolved: string)
    | Iteration(key: string, at: Node)
    | Found(at: Node)

  /** A completed walk: the callbacks fired, in order, and the trie afterwards. */
  datatype Trace = Trace(events: seq<Event>, root: Node)

  /** `initPath()`: five empty handler lists. */
  function InitPath(): (t: Table)
    ensures forall m :: t.List(m) == []
  {
    Table([], [], [], [], [])
  }

  /** `initPaths()`: a node with a fresh table and no children. */
  function InitPaths(): (n: Node)
    ensures Valid(n)
    ensures n.children == [] && n.table == Some(InitPath())
    ensures forall q, m :: ListAt(n, q, m) == []
  {
    Node(Some(InitPath()), [])
  }

  /** `handleOnNotFoundThrow`: the default strategy. */
  function HandleOnNotFoundThrow(key: string, cur: Node): (r: Result<Descent, RouteError>)
    ensures r.Failure? && r.error.key == key
  {
    Failure(PathNotFound(key))
  }

  /**
   * `handleOnNotFoundCreate`: stores a fresh node under `key` and returns it.
   * Called only for a missing key, where it appends exactly one child and
   * leaves the parent's table and every sibling untouched.
   */
  function HandleOnNotFoundCreate(key: string, cur: Node): (r: Result<Descent, RouteError>)
    ensures r.Success?
    ensures r.value.key == key && r.value.child == InitPaths()
    ensures Child(r.value.parent.children, key) == Some(InitPaths())
    ensures r.value.parent.table == cur.table
    ensures forall k :: k != key ==> Child(r.value.parent.children, k) == Child(cur.children, k)
    ensures key !in Keys(cur.children) ==> Keys(r.value.parent.children) == Keys(cur.children) + [key]
  {
    var created := InitPaths();
    SetChildKeys(cur.children, key, created);
    forall k {
      SetChildLookup(cur.children, key, created, k);
    }
    Success(Descent(cur.(children := SetChild(cur.children, key, created)), key, created))
  }

  /** One descent step: the step itself and the `onNotFound` call it needed, if any. */
  datatype Move = Move(descent: Descent, missed: seq<Event>)

  /**
   * Looks `key` up as an exact literal child first; only when it is absent is
   * `onNotFound` consulted (and recorded).
   */
  function Step(cur: Node, key: string, onNotFound: (string, Node) -> Result<Descent, RouteError>): (r: Result<Move, RouteError>)
    ensures Child(cur.children, key).Some? ==>
              r == Success(Move(Descent(cur, key, Child(cur.children, key).value), []))
    ensures Child(cur.children, key).None? ==>
              (r.Failure? <==> onNotFound(key, cur).Failure?)
    ensures Child(cur.children, key).None? && r.Success? ==>
              r.value.descent == onNotFound(key, cur).value
              && r.value.missed == [NotFound(key, cur, r.value.descent.key)]
  {
    match Child(cur.children, key)
    case Some(next) => Success(Move(Descent(cur, key, next), []))
    case None =>
      match onNotFound(key, cur)
      case Failure(e) => Failure(e)
      case Success(d) => Success(Move(d, [NotFound(key, cur, d.key)]))
  }

  /**
   * `getPath` over already split segments: consume one segment, fire
   * `onIteration` on the parent, recurse; with no segment left fire `onFound`
   * once on the current node. Whatever the strategies, a successful walk fired
   * `onIteration` once per segment, in path order, and `onFound` exactly once,
   * last; `onNotFound` fired only for a segment with no literal child.
   */
  function Walk(cur: Node, segs: seq<string>,
                onNotFound: (string, Node) -> Result<Descent, RouteError>,
                onFound: Node -> Node): (r: Result<Trace, RouteError>)
    ensures r.Success? ==> WellShaped(r.value.events, segs)
    decreases |segs|
  {
    if |segs| == 0 then
      assert [Found(cur)][1..] == [];
      Success(Trace([Found(cur)], onFound(cur)))
    else
      match Step(cur, segs[0], onNotFound)
      case Failure(e) => Failure(e)
      case Success(mv) =>
        var d := mv.descent;
        match Walk(d.child, segs[1..], onNotFound, onFound)
        case Failure(e) => Failure(e)
        case Success(sub) =>
          StepMissed(cur, segs[0], onNotFound);
          ShapeCons(mv.missed, Iteration(segs[0], d.parent), sub.events, segs);
          Success(Trace(mv.missed + [Iteration(segs[0], d.parent)] + sub.events,
                        d.parent.(children := SetChild(d.parent.children, d.key, sub.root))))
  }

  /** A walk whose first step and remaining walk both succeed, unfolded once. */
  lemma WalkCons(cur: Node, segs: seq<string>,
                 onNotFound: (string, Node) -> Result<Descent, RouteError>,
                 onFound: Node -> Node, mv: Move, sub: Trace)
    requires |segs| > 0
    requires Step(cur, segs[0], onNotFound) == Success(mv)
    requires Walk(mv.descent.child, segs[1..], onNotFound, onFound) == Success(sub)
    ensures Walk(cur, segs, onNotFound, onFound)
         == Success(Trace(mv.missed + [Iteration(segs[0], mv.descent.parent)] + sub.events,
                          mv.descent.parent.(children := SetChild(mv.descent.parent.children, mv.descent.key, sub.root))))
  {
  }

  /**
   * `getPath(path, { onNotFound, onFound })` from the root `cur`: on success
   * `onIteration` fired once for each segment of the split path, in order.
   */
  function GetPath(cur: Node, path: string,
                   onNotFound: (string, Node) -> Result<Descent, RouteError>,
                   onFound: Node -> Node): (r: Result<Trace, RouteError>)
    ensures r.Success? ==> WellShaped(r.value.events, Split(path))
  {
    Walk(cur, Split(path), onNotFound, onFound)
  }

  /** The segments the `onIteration` events were fired for, in order. */
  function IterationKeys(ev: seq<Event>): seq<string> {
    if |ev| == 0 then []
    else (if ev[0].Iteration? then [ev[0].key] else []) + IterationKeys(ev[1..])
  }

  /** How many times `onFound` fired. */
  function FoundCount(ev: seq<Event>): nat {
    if |ev| == 0 then 0
    else (if ev[0].Found? then 1 else 0) + FoundCount(ev[1..])
  }

  lemma EventCountsConcat(a: seq<Event>, b: seq<Event>)
    ensures IterationKeys(a + b) == IterationKeys(a) + IterationKeys(b)
    ensures FoundCount(a + b) == FoundCount(a) + FoundCount(b)
  {
    IterationKeysConcat(a, b);
    FoundCountConcat(a, b);
  }

  lemma {:induction false} IterationKeysConcat(a: seq<Event>, b: seq<Event>)
    ensures IterationKeys(a + b) == IterationKeys(a) + IterationKeys(b)
  {
    if |a| == 0 {
      assert a + b == b;
    } else {
      assert (a + b)[1..] == a[1..] + b;
      IterationKeysConcat(a[1..], b);
      var h := if a[0].Iteration? then [a[0].key] else [];
      assert h + (IterationKeys(a[1..]) + IterationKeys(b)) == (h + IterationKeys(a[1..])) + IterationKeys(b);
    }
  }

  lemma {:induction false} FoundCountConcat(a: seq<Event>, b: seq<Event>)
    ensures FoundCount(a + b) == FoundCount(a) + FoundCount(b)
  {
    if |a| == 0 {
      assert a + b == b;
    } else {
      assert (a + b)[1..] == a[1..] + b;
      FoundCountConcat(a[1..], b);
    }
  }

  /** Prepending one descent step to a sub-walk's events. */
  lemma StepEventsCounts(missed: seq<Event>, it: Event, rest: seq<Event>)
    requires it.Iteration?
    requires forall i :: 0 <= i < |missed| ==> missed[i].NotFound?
    ensures IterationKeys(missed + [it] + rest) == [it.key] + IterationKeys(rest)
    ensures FoundCount(missed + [it] + rest) == FoundCount(rest)
  {
    EventCountsConcat(missed, [it]);
    EventCountsConcat(missed + [it], rest);
    assert IterationKeys([it]) == [it.key] by {
      assert [it][1..] == [];
    }
    assert FoundCount([it]) == 0 by {
      assert [it][1..] == [];
    }
    NotFoundEventsCountNothing(missed);
  }

  lemma {:induction false} NotFoundEventsCountNothing(missed: seq<Event>)
    requires forall i :: 0 <= i < |missed| ==> missed[i].NotFound?
    ensures IterationKeys(missed) == [] && FoundCount(missed) == 0
  {
    if |missed| > 0 {
      NotFoundEventsCountNothing(missed[1..]);
    }
  }

  /** The predicate `WalkShape` establishes about a successful walk's events. */
  ghost predicate WellShaped(ev: seq<Event>, segs: seq<string>) {
    && |ev| > 0
    && IterationKeys(ev) == segs
    && FoundCount(ev) == 1
    && ev[|ev| - 1].Found?
    && forall i :: 0 <= i < |ev| && ev[i].NotFound? ==> Child(ev[i].at.children, ev[i].key).None?
  }

  /** A successful step records at most the one `onNotFound` call it made, for an absent key. */
  lemma StepMissed(cur: Node, key: string, onNotFound: (string, Node) -> Result<Descent, RouteError>)
    ensures var st := Step(cur, key, onNotFound);
      st.Success? ==>
        forall i :: 0 <= i < |st.value.missed| ==>
          st.value.missed[i].NotFound? && Child(st.value.missed[i].at.children, st.value.missed[i].key).None?
  {
  }

  /** Prefixing a well-shaped trace with one step's events gives a well-shaped trace one segment longer. */
  lemma ShapeCons(missed: seq<Event>, it: Event, rest: seq<Event>, segs: seq<string>)
    requires |segs| > 0 && it == Iteration(segs[0], it.at)
    requires forall i :: 0 <= i < |missed| ==> missed[i].NotFound? && Child(missed[i].at.children, missed[i].key).None?
    requires WellShaped(rest, segs[1..])
    ensures WellShaped(missed + [it] + rest, segs)
  {
    var ev := missed + [it] + rest;
    StepEventsCounts(missed, it, rest);
    assert [segs[0]] + segs[1..] == segs;
    MissedOnlyWhenAbsent(missed, it, rest);
    assert ev[|ev| - 1] == rest[|rest| - 1];
  }

  lemma MissedOnlyWhenAbsent(missed: seq<Event>, it: Event, rest: seq<Event>)
    requires it.Iteration?
    requires forall i :: 0 <= i < |missed| ==> missed[i].NotFound? && Child(missed[i].at.children, missed[i].key).None?
    requires forall i :: 0 <= i < |rest| && rest[i].NotFound? ==> Child(rest[i].at.children, rest[i].key).None?
    ensures var ev := missed + [it] + rest;
      forall i :: 0 <= i < |ev| && ev[i].NotFound? ==> Child(ev[i].at.children, ev[i].key).None?
  {
    var ev := missed + [it] + rest;
    forall i | 0 <= i < |ev| && ev[i].NotFound?
      ensures Child(ev[i].at.children, ev[i].key).None?
    {
      if i > |missed| {
        assert ev[i] == rest[i - |missed| - 1];
      } else {
        assert ev[i] == missed[i];
      }
    }
  }

  /**
   * With the default (throwing) strategy the walk succeeds exactly when every
   * segment is an existing literal key. Then `onIteration` fires on each node
   * along the way, root first, with the segment consumed from it, and
   * `onFound` fires last, once, on the node the whole path names. So walking an
   * absent path never reaches `onFound`.
   */
  lemma ThrowWalkFollowsLiterals(cur: Node, segs: seq<string>, onFound: Node -> Node)
    ensures Walk(cur, segs, HandleOnNotFoundThrow, onFound).Success? <==> At(cur, segs).Some?
    ensures var w := Walk(cur, segs, HandleOnNotFoundThrow, onFound);
      w.Success? ==>
        && |w.value.events| == |segs| + 1
        && (forall i :: 0 <= i < |segs| ==>
              At(cur, segs[..i]).Some? && w.value.events[i] == Iteration(segs[i], At(cur, segs[..i]).value))
        && w.value.events[|segs|] == Found(At(cur, segs).value)
  {
    ThrowWalkSucceeds(cur, segs, onFound);
    ThrowWalkEvents(cur, segs, onFound);
  }

  lemma {:induction false} ThrowWalkSucceeds(cur: Node, segs: seq<string>, onFound: Node -> Node)
    ensures Walk(cur, segs, HandleOnNotFoundThrow, onFound).Success? <==> At(cur, segs).Some?
    decreases |segs|
  {
    if |segs| > 0 {
      match Child(cur.children, segs[0])
      case None =>
      case Some(c) =>
        ThrowWalkSucceeds(c, segs[1..], onFound);
    }
  }

  lemma {:induction false} ThrowWalkEvents(cur: Node, segs: seq<string>, onFound: Node -> Node)
    ensures var w := Walk(cur, segs, HandleOnNotFoundThrow, onFound);
      w.Success? ==>
        && At(cur, segs).Some?
        && |w.value.events| == |segs| + 1
        && (forall i :: 0 <= i < |segs| ==>
              At(cur, segs[..i]).Some? && w.value.events[i] == Iteration(segs[i], At(cur, segs[..i]).value))
        && w.value.events[|segs|] == Found(At(cur, segs).value)
    decreases |segs|
  {
    var w := Walk(cur, segs, HandleOnNotFoundThrow, onFound);
    if |segs| == 0 || w.Failure? {
      return;
    }
    var c := Child(cur.children, segs[0]).value;
    var mv := Move(Descent(cur, segs[0], c), []);
    ThrowWalkEvents(c, segs[1..], onFound);
    var sub := Walk(c, segs[1..], HandleOnNotFoundThrow, onFound).value;
    WalkCons(cur, segs, HandleOnNotFoundThrow, onFound, mv, sub);
    var ev := [Iteration(segs[0], cur)] + sub.events;
    assert w.value.events == ev;
    assert At(cur, segs) == At(c, segs[1..]);
    forall i | 0 <= i < |segs|
      ensures At(cur, segs[..i]).Some? && ev[i] == Iteration(segs[i], At(cur, segs[..i]).value)
    {
      ThrowIterationAt(cur, c, segs, sub.events, i);
    }
    assert ev[|segs|] == sub.events[|segs| - 1];
  }

  /**
   * The `i`-th event of a throwing walk that first steps into `c`: the step
   * itself, or an iteration event of the walk below `c`, shifted by one.
   */
  lemma ThrowIterationAt(cur: Node, c: Node, segs: seq<string>, below: seq<Event>, i: nat)
    requires i < |segs| && Child(cur.children, segs[0]) == Some(c)
    requires |below| == |segs|
    requires forall j :: 0 <= j < |segs| - 1 ==>
               At(c, segs[1..][..j]).Some? && below[j] == Iteration(segs[1..][j], At(c, segs[1..][..j]).value)
    ensures At(cur, segs[..i]).Some?
    ensures ([Iteration(segs[0], cur)] + below)[i] == Iteration(segs[i], At(cur, segs[..i]).value)
  {
    if i > 0 {
      AtPrefixCons(cur, c, segs, i);
      assert segs[1..][i - 1] == segs[i];
    }
  }

  /** A prefix of the path below the first step is a prefix of the path below the child. */
  lemma AtPrefixCons(cur: Node, c: Node, segs: seq<string>, i: nat)
    requires 0 < i <= |segs| && Child(cur.children, segs[0]) == Some(c)
    ensures At(cur, segs[..i]) == At(c, segs[1..][..i - 1])
  {
    assert segs[..i][1..] == segs[1..][..i - 1];
    assert segs[..i][0] == segs[0];
  }

  /** With the create strategy the walk never fails. */
  lemma {:induction false} CreateWalkSucceeds(cur: Node, segs: seq<string>, onFound: Node -> Node)
    ensures Walk(cur, segs, HandleOnNotFoundCreate, onFound).Success?
    decreases |segs|
  {
    if |segs| > 0 {
      var d := Step(cur, segs[0], HandleOnNotFoundCreate).value.descent;
      CreateWalkSucceeds(d.child, segs[1..], onFound);
    }
  }
}
