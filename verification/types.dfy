/**
 * The shapes of src/types.ts: the five handler lists of a route table and the
 * trie of path segments that owns them.
 */
module Types {
  import opened Wrappers

  /** Handlers are opaque callbacks; the router only moves them around. */
  type HandlerId = nat

  /** The `Methods` enum: the four HTTP verbs plus the middleware tag. */
  datatype Method = USE | GET | POST | PUT | DELETE

  /** A route table (`Path` in the source): one ordered handler list per tag. */
  datatype Table = Table(
    use: seq<HandlerId>,
    get: seq<HandlerId>,
    post: seq<HandlerId>,
    put: seq<HandlerId>,
    delete: seq<HandlerId>)
  {
    /** `table[method]` */
    function List(m: Method): seq<HandlerId> {
      match m
      case USE => use
      case GET => get
      case POST => post
      case PUT => put
      case DELETE => delete
    }

    /** `table[method].push(h)`: appends to one list and leaves the other four alone. */
    function Push(m: Method, h: HandlerId): (t: Table)
      ensures t.List(m) == List(m) + [h]
      ensures forall m' :: m' != m ==> t.List(m') == List(m')
    {
      match m
      case USE => this.(use := use + [h])
      case GET => this.(get := get + [h])
      case POST => this.(post := post + [h])
      case PUT => this.(put := put + [h])
      case DELETE => this.(delete := delete + [h])
    }
  }

  /**
   * A trie node (`Paths` in the source). The reserved key `'/'` of the source
   * object is the `table` field; every other key is a child, kept in insertion
   * order because the parameter lookup enumerates them.
   */
  datatype Node = Node(table: Option<Table>, children: seq<(string, Node)>)

  /** The child keys, in enumeration order. */
  function Keys(cs: seq<(string, Node)>): (ks: seq<string>)
    ensures |ks| == |cs|
    ensures forall i :: 0 <= i < |cs| ==> ks[i] == cs[i].0
  {
    if |cs| == 0 then [] else [cs[0].0] + Keys(cs[1..])
  }

  /** `cur[key]`: the child stored under `key`, or `None` (`undefined`). */
  function Child(cs: seq<(string, Node)>, key: string): (r: Option<Node>)
    ensures r.Some? <==> key in Keys(cs)
    ensures r.Some? ==> (key, r.value) in cs
  {
    if |cs| == 0 then None
    else if cs[0].0 == key then Some(cs[0].1)
    else Child(cs[1..], key)
  }

  /**
   * `cur[key] = v`: overwrites the entry in place when the key exists,
   * otherwise appends a new key at the end of the enumeration order.
   */
  function SetChild(cs: seq<(string, Node)>, key: string, v: Node): seq<(string, Node)> {
    if |cs| == 0 then [(key, v)]
    else if cs[0].0 == key then [(key, v)] + cs[1..]
    else [cs[0]] + SetChild(cs[1..], key, v)
  }

  /** `cur[key] = v` keeps the enumeration order, appending a key that was absent. */
  lemma {:induction false} SetChildKeys(cs: seq<(string, Node)>, key: string, v: Node)
    ensures Keys(SetChild(cs, key, v)) == if key in Keys(cs) then Keys(cs) else Keys(cs) + [key]
  {
    if |cs| > 0 && cs[0].0 != key {
      SetChildKeys(cs[1..], key, v);
      assert Keys(cs) == [cs[0].0] + Keys(cs[1..]);
    }
  }

  /** Storing under a new key appends the entry. */
  lemma {:induction false} SetChildAppends(cs: seq<(string, Node)>, key: string, v: Node)
    requires key !in Keys(cs)
    ensures SetChild(cs, key, v) == cs + [(key, v)]
  {
    if |cs| > 0 {
      assert cs[0].0 == Keys(cs)[0];
      assert Keys(cs) == [cs[0].0] + Keys(cs[1..]);
      assert key !in Keys(cs[1..]);
      SetChildAppends(cs[1..], key, v);
      assert SetChild(cs, key, v) == [cs[0]] + SetChild(cs[1..], key, v);
      assert [cs[0]] + (cs[1..] + [(key, v)]) == cs + [(key, v)];
    }
  }

  /** After `cur[key] = v`, `cur[key]` is `v` and every other key reads as before. */
  lemma {:induction false} SetChildLookup(cs: seq<(string, Node)>, key: string, v: Node, k: string)
    ensures Child(SetChild(cs, key, v), k) == if k == key then Some(v) else Child(cs, k)
  {
    if |cs| > 0 && cs[0].0 != key {
      SetChildLookup(cs[1..], key, v, k);
    }
  }

  /** Every entry after `cur[key] = v` was there before or is the new one. */
  lemma {:induction false} SetChildEntries(cs: seq<(string, Node)>, key: string, v: Node)
    ensures forall i :: 0 <= i < |SetChild(cs, key, v)| ==> SetChild(cs, key, v)[i] in cs || SetChild(cs, key, v)[i] == (key, v)
  {
    if |cs| > 0 && cs[0].0 != key {
      SetChildEntries(cs[1..], key, v);
      var r := SetChild(cs, key, v);
      forall i | 0 <= i < |r|
        ensures r[i] in cs || r[i] == (key, v)
      {
        if i > 0 {
          assert r[i] == SetChild(cs[1..], key, v)[i - 1];
        }
      }
    }
  }

  /** A second write to the same key replaces the first. */
  lemma {:induction false} SetChildTwice(cs: seq<(string, Node)>, key: string, v: Node, w: Node)
    ensures SetChild(SetChild(cs, key, v), key, w) == SetChild(cs, key, w)
  {
    if |cs| > 0 && cs[0].0 != key {
      SetChildTwice(cs[1..], key, v, w);
    }
  }

  /** Overwriting a key with the node it already holds changes nothing. */
  lemma {:induction false} SetChildSame(cs: seq<(string, Node)>, key: string)
    requires Child(cs, key).Some?
    ensures SetChild(cs, key, Child(cs, key).value) == cs
  {
    if cs[0].0 != key {
      SetChildSame(cs[1..], key);
    }
  }

  predicate NoDuplicates(ks: seq<string>) {
    forall i, j :: 0 <= i < j < |ks| ==> ks[i] != ks[j]
  }

  /**
   * The trie invariant the source maintains: every node, root included, owns a
   * `'/'` route table, and child keys are unique.
   */
  predicate Valid(n: Node)
    decreases n
  {
    && n.table.Some?
    && NoDuplicates(Keys(n.children))
    && forall i :: 0 <= i < |n.children| ==> Valid(n.children[i].1)
  }

  /** The children of a valid node are valid. */
  lemma ChildValid(n: Node, key: string)
    requires Valid(n) && Child(n.children, key).Some?
    ensures Valid(Child(n.children, key).value)
  {
    var c := Child(n.children, key).value;
    var i :| 0 <= i < |n.children| && n.children[i] == (key, c);
  }

  /** Storing a valid node under a key of a valid node keeps it valid. */
  lemma ValidAfterSetChild(n: Node, key: string, v: Node)
    requires Valid(n) && Valid(v)
    ensures Valid(n.(children := SetChild(n.children, key, v)))
  {
    var r := SetChild(n.children, key, v);
    SetChildEntries(n.children, key, v);
    SetChildKeys(n.children, key, v);
    assert NoDuplicates(Keys(r)) by {
      if key !in Keys(n.children) {
        assert Keys(r) == Keys(n.children) + [key];
      }
    }
    forall i | 0 <= i < |r|
      ensures Valid(r[i].1)
    {
      if r[i] != (key, v) {
        assert r[i] in n.children;
        var j :| 0 <= j < |n.children| && n.children[j] == r[i];
      }
    }
  }

  /** The node reached by following `q` as exact literal keys, if every key exists. */
  function At(n: Node, q: seq<string>): Option<Node>
    decreases |q|
  {
    if |q| == 0 then Some(n)
    else match Child(n.children, q[0])
      case None => None
      case Some(c) => At(c, q[1..])
  }

  /** The handler list for `m` registered exactly at literal path `q` (empty when there is none). */
  function ListAt(n: Node, q: seq<string>, m: Method): seq<HandlerId> {
    match At(n, q)
    case Some(x) => if x.table.Some? then x.table.value.List(m) else []
    case None => []
  }
}
