/**
 * The resolution-time not-found strategy of src/Manager/ParamsManager.ts
 * (`handleOnNotFoundFindParam`, also in index.ts): fall back to the first
 * parameter-capture child.
 */
module ParamsManager {
  import opened Wrappers
  import opened Types
  import opened PathManager

  /** `key[0] === ':'`: the empty key has no first character and is not a parameter. */
  predicate IsParamKey(k: string) {
    |k| > 0 && k[0] == ':'
  }

  /** Position of the first parameter key in enumeration order, if any. */
  function FirstParamIndex(cs: seq<(string, Node)>): (r: Option<nat>)
    ensures r.Some? ==> r.value < |cs| && IsParamKey(cs[r.value].0)
    ensures r.Some? ==> forall j :: 0 <= j < r.value ==> !IsParamKey(cs[j].0)
    ensures r.None? <==> forall j :: 0 <= j < |cs| ==> !IsParamKey(cs[j].0)
  {
    if |cs| == 0 then None
    else if IsParamKey(cs[0].0) then Some(0)
    else match FirstParamIndex(cs[1..])
      case None => None
      case Some(i) => Some(i + 1)
  }

  /**
   * The `for (const key in cur)` scan with `break`: the first child key whose
   * first character is `:`.
   */
  method FindParamKey(cur: Node) returns (find: Option<string>)
    ensures find.Some? <==> FirstParamIndex(cur.children).Some?
    ensures find.Some? ==> find.value == cur.children[FirstParamIndex(cur.children).value].0
  {
    find := None;
    var i := 0;
    while i < |cur.children|
      invariant 0 <= i <= |cur.children|
      invariant forall j :: 0 <= j < i ==> !IsParamKey(cur.children[j].0)
      invariant find == None
    {
      var key := cur.children[i].0;
      if |key| > 0 && key[0] == ':' {
        find := Some(key);
        break;
      }
      i := i + 1;
    }
  }

  /**
   * `handleOnNotFoundFindParam(key, cur)`: the first `:`-prefixed child with
   * its full key (colon included), or the not-found error for `key` when
   * there is none. The trie is left as it is.
   */
  function HandleOnNotFoundFindParam(key: string, cur: Node): (r: Result<Descent, RouteError>)
    ensures r.Failure? <==> forall j :: 0 <= j < |cur.children| ==> !IsParamKey(cur.children[j].0)
    ensures r.Failure? ==> r.error == PathNotFound(key)
    ensures r.Success? ==>
              && r.value.parent == cur
              && IsParamKey(r.value.key)
              && Child(cur.children, r.value.key) == Some(r.value.child)
              && exists i :: 0 <= i < |cur.children| && cur.children[i] == (r.value.key, r.value.child)
                             && forall j :: 0 <= j < i ==> !IsParamKey(cur.children[j].0)
  {
    match FirstParamIndex(cur.children)
    case None => HandleOnNotFoundThrow(key, cur)
    case Some(i) =>
      FirstParamIsFirstOccurrence(cur.children, i);
      Success(Descent(cur, cur.children[i].0, cur.children[i].1))
  }

  lemma {:induction false} FirstParamIsFirstOccurrence(cs: seq<(string, Node)>, i: nat)
    requires i < |cs| && IsParamKey(cs[i].0)
    requires forall j :: 0 <= j < i ==> !IsParamKey(cs[j].0)
    ensures Child(cs, cs[i].0) == Some(cs[i].1)
  {
    if i > 0 {
      FirstParamIsFirstOccurrence(cs[1..], i - 1);
    }
  }

  /**
   * The request segment is never inspected: any two segments reach the same
   * parameter child, and fail together.
   */
  lemma ParamLookupIgnoresSegment(k1: string, k2: string, cur: Node)
    ensures HandleOnNotFoundFindParam(k1, cur).Success? == HandleOnNotFoundFindParam(k2, cur).Success?
    ensures HandleOnNotFoundFindParam(k1, cur).Success? ==>
              HandleOnNotFoundFindParam(k1, cur).value == HandleOnNotFoundFindParam(k2, cur).value
  {
  }

  /** A `*` key is skipped while a bare `:` key is taken. */
  lemma BareColonChosenOverWildcard(a: Node, b: Node, key: string)
    ensures HandleOnNotFoundFindParam(key, Node(None, [("*", a), (":", b)]))
            == Success(Descent(Node(None, [("*", a), (":", b)]), ":", b))
  {
    var cs := [("*", a), (":", b)];
    assert !IsParamKey(cs[0].0);
    assert FirstParamIndex(cs[1..]) == Some(0);
  }
}
