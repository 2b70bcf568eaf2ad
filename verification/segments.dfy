/**
 * Path splitting as the walk does it: `path.split('/').filter(Boolean)`, and
 * the `rest.join('/')` the walk hands to its recursive call.
 */
module Segments {

  /** A token that survives the split: non-empty and free of `/`. */
  predicate IsSegment(s: string) {
    |s| > 0 && '/' !in s
  }

  predicate AllSegments(xs: seq<string>) {
    forall i :: 0 <= i < |xs| ==> IsSegment(xs[i])
  }

  /** `String.prototype.split('/')`: one token more than there are slashes. */
  function SplitOnSlash(s: string): (r: seq<string>)
    ensures |r| >= 1
    ensures forall i :: 0 <= i < |r| ==> '/' !in r[i]
  {
    if |s| == 0 then [""]
    else if s[0] == '/' then [""] + SplitOnSlash(s[1..])
    else
      var t := SplitOnSlash(s[1..]);
      [[s[0]] + t[0]] + t[1..]
  }

  /** `.filter(Boolean)`: drops the empty tokens, keeping the order of the others. */
  function DropEmpty(xs: seq<string>): seq<string> {
    if |xs| == 0 then []
    else if |xs[0]| == 0 then DropEmpty(xs[1..])
    else [xs[0]] + DropEmpty(xs[1..])
  }

  /** The segments of a path. */
  function Split(path: string): (r: seq<string>)
    ensures AllSegments(r)
  {
    DropEmptyKeepsSegments(SplitOnSlash(path));
    DropEmpty(SplitOnSlash(path))
  }

  /** `Array.prototype.join('/')`. */
  function Join(xs: seq<string>): string {
    if |xs| == 0 then ""
    else if |xs| == 1 then xs[0]
    else xs[0] + "/" + Join(xs[1..])
  }

  lemma {:induction false} DropEmptyKeepsSegments(xs: seq<string>)
    requires forall i :: 0 <= i < |xs| ==> '/' !in xs[i]
    ensures AllSegments(DropEmpty(xs))
  {
    if |xs| > 0 {
      DropEmptyKeepsSegments(xs[1..]);
    }
  }

  lemma {:induction false} DropEmptyConcat(xs: seq<string>, ys: seq<string>)
    ensures DropEmpty(xs + ys) == DropEmpty(xs) + DropEmpty(ys)
  {
    if |xs| > 0 {
      assert (xs + ys)[1..] == xs[1..] + ys;
      DropEmptyConcat(xs[1..], ys);
    } else {
      assert xs + ys == ys;
    }
  }

  /** Splitting distributes over a `/` separator. */
  lemma {:induction false} SplitOnSlashConcat(a: string, b: string)
    ensures SplitOnSlash(a + "/" + b) == SplitOnSlash(a) + SplitOnSlash(b)
  {
    if |a| == 0 {
      assert a + "/" + b == "/" + b;
      assert ("/" + b)[1..] == b;
    } else {
      assert (a + "/" + b)[0] == a[0];
      assert (a + "/" + b)[1..] == a[1..] + "/" + b;
      SplitOnSlashConcat(a[1..], b);
    }
  }

  /**
   * Splitting a concatenation at a separator concatenates the segments, so
   * leading, trailing and doubled slashes never change the segments.
   */
  lemma SplitConcat(a: string, b: string)
    ensures Split(a + "/" + b) == Split(a) + Split(b)
  {
    SplitOnSlashConcat(a, b);
    DropEmptyConcat(SplitOnSlash(a), SplitOnSlash(b));
  }

  /** Empty tokens are discarded: extra slashes anywhere leave the segments unchanged. */
  lemma ExtraSlashesIgnored(a: string, b: string)
    ensures Split("/" + a) == Split(a)
    ensures Split(a + "/") == Split(a)
    ensures Split(a + "//" + b) == Split(a + "/" + b)
  {
    LeadingSlashIgnored(a);
    TrailingSlashIgnored(a);
    DoubleSlashIgnored(a, b);
  }

  lemma LeadingSlashIgnored(a: string)
    ensures Split("/" + a) == Split(a)
  {
    SplitConcat("", a);
    assert "" + "/" + a == "/" + a;
  }

  lemma TrailingSlashIgnored(a: string)
    ensures Split(a + "/") == Split(a)
  {
    SplitConcat(a, "");
    assert a + "/" + "" == a + "/";
  }

  lemma DoubleSlashIgnored(a: string, b: string)
    ensures Split(a + "//" + b) == Split(a + "/" + b)
  {
    SplitConcat(a + "/", b);
    assert a + "/" + "/" + b == a + "//" + b;
    TrailingSlashIgnored(a);
    SplitConcat(a, b);
  }

  lemma {:induction false} SplitOnSlashOfSegment(s: string)
    requires '/' !in s
    ensures SplitOnSlash(s) == [s]
  {
    if |s| > 0 {
      SplitOnSlashOfSegment(s[1..]);
      assert [s[0]] + s[1..] == s;
    }
  }

  /**
   * Joining segments and splitting again gives them back. This is what makes
   * the walk's recursion on `rest.join('/')` consume exactly the remaining segments.
   */
  lemma {:induction false} SplitJoin(xs: seq<string>)
    requires AllSegments(xs)
    ensures Split(Join(xs)) == xs
  {
    if |xs| == 1 {
      SplitOnSlashOfSegment(xs[0]);
      assert DropEmpty([xs[0]]) == [xs[0]];
    } else if |xs| > 1 {
      assert Join(xs) == xs[0] + "/" + Join(xs[1..]);
      SplitConcat(xs[0], Join(xs[1..]));
      SplitOnSlashOfSegment(xs[0]);
      assert DropEmpty([xs[0]]) == [xs[0]];
      SplitJoin(xs[1..]);
    }
  }

  /** The recursive call of the walk sees exactly the segments after the first. */
  lemma RestResplits(path: string)
    requires |Split(path)| > 0
    ensures Split(Join(Split(path)[1..])) == Split(path)[1..]
  {
    SplitJoin(Split(path)[1..]);
  }

  /** `/a//b/` and `a/b` walk identically. */
  lemma SlashesExample()
    ensures Split("/a//b/") == Split("a/b") == ["a", "b"]
  {
    SplitJoin(["a", "b"]);
    assert Join(["a", "b"]) == "a/b";
    DoubleSlashIgnored("a", "b");
    assert "a" + "//" + "b" == "a//b";
    TrailingSlashIgnored("a//b");
    assert "a//b" + "/" == "a//b/";
    LeadingSlashIgnored("a//b/");
    assert "/" + "a//b/" == "/a//b/";
  }
}
