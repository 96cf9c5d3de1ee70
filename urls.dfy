/**
  The URL helpers of the kkiosk collection scraper: the collection handle
  taken from a collection URL's path, the `products.json` endpoint built from
  it, and the rewrite of protocol-relative image sources to `https:`.
 */
module Urls {
  import opened Wrappers

  predicate StartsWith(s: string, prefix: string)
  {
    |prefix| <= |s| && s[..|prefix|] == prefix
  }

  /** `if src.startswith("//"): src = "https:" + src` */
  function WithScheme(src: string): (r: string)
    ensures StartsWith(src, "//") ==> r == "https:" + src
    ensures !StartsWith(src, "//") ==> r == src
  {
    if StartsWith(src, "//") then "https:" + src else src
  }

  /** The rewrite never leaves a protocol-relative URL behind, so applying it
      twice is the same as applying it once. */
  lemma WithSchemeIdempotent(src: string)
    ensures !StartsWith(WithScheme(src), "//")
    ensures WithScheme(WithScheme(src)) == WithScheme(src)
  {
    if StartsWith(src, "//") {
      assert WithScheme(src)[..2] == "ht";
    }
  }

  /** `sep.join(parts)` */
  function Join(parts: seq<string>, sep: char): string
    requires |parts| >= 1
  {
    if |parts| == 1 then parts[0] else parts[0] + [sep] + Join(parts[1..], sep)
  }

  /** `s.split(sep)`: the pieces between separators, empty ones included. */
  function Split(s: string, sep: char): (parts: seq<string>)
    ensures |parts| >= 1
    ensures forall i :: 0 <= i < |parts| ==> sep !in parts[i]
    decreases |s|
  {
    if s == [] then [[]]
    else
      var rest := Split(s[1..], sep);
      if s[0] == sep then [[]] + rest
      else [[s[0]] + rest[0]] + rest[1..]
  }

  /** Joining the pieces of a split gives back the text. */
  lemma {:induction false} JoinSplit(s: string, sep: char)
    ensures Join(Split(s, sep), sep) == s
    decreases |s|
  {
    if s != [] {
      var rest := Split(s[1..], sep);
      JoinSplit(s[1..], sep);
      if s[0] == sep {
        assert ([[]] + rest)[1..] == rest;
      } else {
        var parts := [[s[0]] + rest[0]] + rest[1..];
        assert parts[1..] == rest[1..];
        assert |rest| > 1 ==> Join(rest, sep) == rest[0] + [sep] + Join(rest[1..], sep);
      }
      assert s == [s[0]] + s[1..];
    }
  }

  /** Splitting a separator-free piece followed by more text glues the piece to
      the first part of the rest. */
  lemma {:induction false} SplitPrefix(p: string, x: string, sep: char)
    requires sep !in p
    ensures Split(p + x, sep) == [p + Split(x, sep)[0]] + Split(x, sep)[1..]
    decreases |p|
  {
    if p != [] {
      assert (p + x)[1..] == p[1..] + x;
      assert (p + x)[0] == p[0];
      SplitPrefix(p[1..], x, sep);
      var sx := Split(x, sep);
      var rest := Split(p[1..] + x, sep);
      assert rest[0] == p[1..] + sx[0] && rest[1..] == sx[1..];
      assert Split(p + x, sep) == [[p[0]] + rest[0]] + rest[1..];
      assert [p[0]] + (p[1..] + sx[0]) == p + sx[0];
    } else {
      var sx := Split(x, sep);
      assert p + x == x;
      assert p + sx[0] == sx[0];
      assert [sx[0]] + sx[1..] == sx;
    }
  }

  /** A leading separator splits off an empty first part. */
  lemma SplitLeadingSep(x: string, sep: char)
    ensures Split([sep] + x, sep) == [[]] + Split(x, sep)
  {
    assert ([sep] + x)[1..] == x;
  }

  /** `split` undoes `join` when no part contains the separator. */
  lemma {:induction false} SplitJoin(parts: seq<string>, sep: char)
    requires |parts| >= 1
    requires forall i :: 0 <= i < |parts| ==> sep !in parts[i]
    ensures Split(Join(parts, sep), sep) == parts
    decreases |parts|
  {
    if |parts| == 1 {
      SplitPrefix(parts[0], [], sep);
      assert parts[0] + [] == parts[0];
    } else {
      var rest := parts[1..];
      var tail := Join(rest, sep);
      assert forall i :: 0 <= i < |rest| ==> rest[i] == parts[i + 1];
      SplitJoin(rest, sep);
      SplitLeadingSep(tail, sep);
      SplitPrefix(parts[0], [sep] + tail, sep);
      assert Join(parts, sep) == parts[0] + [sep] + tail;
      assert parts[0] + [sep] + tail == parts[0] + ([sep] + tail);
      assert ([[]] + rest)[1..] == rest;
      assert parts[0] + [] == parts[0];
      assert [parts[0]] + rest == parts;
    }
  }

  /** `[q for q in parts if q]` */
  function NonEmpty(parts: seq<string>): (r: seq<string>)
    ensures forall i :: 0 <= i < |r| ==> r[i] != [] && r[i] in parts
    ensures forall q :: q in parts && q != [] ==> q in r
  {
    if parts == [] then []
    else if parts[0] == [] then NonEmpty(parts[1..])
    else [parts[0]] + NonEmpty(parts[1..])
  }

  /** A list without empty strings passes the filter unchanged. */
  lemma {:induction false} NonEmptyKeepsAll(parts: seq<string>)
    requires forall i :: 0 <= i < |parts| ==> parts[i] != []
    ensures NonEmpty(parts) == parts
  {
    if parts != [] {
      NonEmptyKeepsAll(parts[1..]);
      assert parts == [parts[0]] + parts[1..];
    }
  }

  /** The filter on a list that starts with `w`. */
  lemma NonEmptyCons(w: string, rest: seq<string>)
    ensures NonEmpty([w] + rest) == (if w == [] then [] else [w]) + NonEmpty(rest)
  {
    assert ([w] + rest)[0] == w && ([w] + rest)[1..] == rest;
  }

  /** The filter works piece by piece: it keeps order and repeats. */
  lemma {:induction false} NonEmptyAppend(a: seq<string>, b: seq<string>)
    ensures NonEmpty(a + b) == NonEmpty(a) + NonEmpty(b)
  {
    if a == [] {
      assert a + b == b;
    } else {
      var w, tail := a[0], a[1..];
      assert (a + b)[0] == w && (a + b)[1..] == tail + b;
      NonEmptyAppend(tail, b);
      if w != [] {
        assert NonEmpty(a + b) == [w] + NonEmpty(tail + b);
        assert NonEmpty(a) == [w] + NonEmpty(tail);
        assert [w] + (NonEmpty(tail) + NonEmpty(b)) == ([w] + NonEmpty(tail)) + NonEmpty(b);
      }
    }
  }

  /** One piece is dropped when it is empty and kept otherwise. */
  lemma NonEmptyOne(w: string)
    ensures NonEmpty([w]) == if w == [] then [] else [w]
  {
    NonEmptyCons(w, []);
    assert [w] + [] == [w];
  }

  /** Joining two lists of pieces puts one separator between their joins. */
  lemma {:induction false} JoinAppend(ps: seq<string>, qs: seq<string>, sep: char)
    requires |ps| >= 1 && |qs| >= 1
    ensures Join(ps + qs, sep) == Join(ps, sep) + [sep] + Join(qs, sep)
    decreases |ps|
  {
    assert (ps + qs)[0] == ps[0];
    assert (ps + qs)[1..] == ps[1..] + qs;
    if |ps| > 1 {
      JoinAppend(ps[1..], qs, sep);
      var a, b := Join(ps[1..], sep), Join(qs, sep);
      assert ps[0] + [sep] + (a + [sep] + b) == (ps[0] + [sep] + a) + [sep] + b;
    } else {
      assert ps[1..] + qs == qs;
    }
  }

  /** A separator splits the text in two: the pieces of the left part, then
      those of the right part. */
  lemma SplitAtSep(p: string, q: string, sep: char)
    ensures Split(p + [sep] + q, sep) == Split(p, sep) + Split(q, sep)
  {
    var ps, qs := Split(p, sep), Split(q, sep);
    JoinSplit(p, sep);
    JoinSplit(q, sep);
    JoinAppend(ps, qs, sep);
    assert forall i :: 0 <= i < |ps + qs| ==> sep !in (ps + qs)[i] by {
      forall i | 0 <= i < |ps + qs| ensures sep !in (ps + qs)[i] {
        if i < |ps| { assert (ps + qs)[i] == ps[i]; } else { assert (ps + qs)[i] == qs[i - |ps|]; }
      }
    }
    SplitJoin(ps + qs, sep);
  }

  /** A single non-empty, slash-free word is its own only segment. */
  lemma SegmentsOfWord(w: string)
    requires w != [] && '/' !in w
    ensures Segments(w) == [w]
  {
    SplitPrefix(w, [], '/');
    assert w + [] == w;
    NonEmptyOne(w);
  }

  /** The segments of `p/q` are those of `p` followed by those of `q`, in
      order and with repeats. */
  lemma SegmentsAtSlash(p: string, q: string)
    ensures Segments(p + "/" + q) == Segments(p) + Segments(q)
  {
    SplitAtSep(p, q, '/');
    NonEmptyAppend(Split(p, '/'), Split(q, '/'));
  }

  /** The non-empty segments of a URL path. */
  function Segments(path: string): (segs: seq<string>)
    ensures forall i :: 0 <= i < |segs| ==> segs[i] != [] && '/' !in segs[i]
  {
    var parts := Split(path, '/');
    var segs := NonEmpty(parts);
    assert forall i :: 0 <= i < |segs| ==> '/' !in segs[i] by {
      forall i | 0 <= i < |segs| ensures '/' !in segs[i] {
        var j :| 0 <= j < |parts| && parts[j] == segs[i];
      }
    }
    segs
  }

  /** `parts.index(x)`: the first position of `x`. */
  function IndexOf(segs: seq<string>, x: string): (i: nat)
    requires x in segs
    ensures i < |segs| && segs[i] == x
    ensures x !in segs[..i]
  {
    if segs[0] == x then 0
    else
      var i := 1 + IndexOf(segs[1..], x);
      assert segs[..i] == [segs[0]] + segs[1..][..i - 1];
      i
  }

  /** The collection handle of a path's segments: the segment after the first
      `collections` when there is one, otherwise the last segment. `None`
      where the source raises `IndexError`: no segment at all, or a first
      `collections` that is the last segment. */
  function CollectionHandle(segs: seq<string>): (h: Option<string>)
    ensures h.None? <==>
      (segs == [] || (segs[|segs| - 1] == "collections" && "collections" !in segs[..|segs| - 1]))
    ensures h.Some? && "collections" in segs ==>
      exists i :: 0 <= i < |segs| - 1 && segs[i] == "collections"
        && "collections" !in segs[..i] && h.value == segs[i + 1]
    ensures h.Some? && "collections" !in segs ==> h.value == segs[|segs| - 1]
  {
    if "collections" in segs then
      var i := IndexOf(segs, "collections");
      if i + 1 < |segs| then Some(segs[i + 1])
      else
        assert segs[..|segs| - 1] == segs[..i];
        None
    else if |segs| > 0 then Some(segs[|segs| - 1])
    else None
  }

  /** The part of a URL the scraper uses after `urlparse`. */
  datatype ParsedUrl = ParsedUrl(scheme: string, netloc: string, path: string)

  function EndpointPath(handle: string): string
  {
    "/collections/" + handle + "/products.json"
  }

  /** `f"{p.scheme}://{p.netloc}/collections/{handle}/products.json"` */
  function ProductsEndpoint(u: ParsedUrl): (r: Option<string>)
    ensures r.None? <==> CollectionHandle(Segments(u.path)).None?
    ensures r.Some? ==>
      r.value == u.scheme + "://" + u.netloc + EndpointPath(CollectionHandle(Segments(u.path)).value)
  {
    match CollectionHandle(Segments(u.path))
    case None => None
    case Some(handle) => Some(u.scheme + "://" + u.netloc + EndpointPath(handle))
  }

  /** The segments of `/a/b/...` are `a`, `b`, ... when none of them is empty
      or holds a slash. */
  lemma SegmentsOfAbsolutePath(segs: seq<string>)
    requires |segs| >= 1
    requires forall i :: 0 <= i < |segs| ==> segs[i] != [] && '/' !in segs[i]
    ensures Segments("/" + Join(segs, '/')) == segs
  {
    var parts := [[]] + segs;
    assert parts[1..] == segs;
    assert Join(parts, '/') == "/" + Join(segs, '/');
    SplitJoin(parts, '/');
    NonEmptyKeepsAll(segs);
  }

  /** The endpoint path splits into `collections`, the handle and
      `products.json`, so the handle derived from it is the one it was built from. */
  lemma EndpointKeepsHandle(handle: string)
    requires handle != [] && '/' !in handle
    ensures Segments(EndpointPath(handle)) == ["collections", handle, "products.json"]
    ensures CollectionHandle(Segments(EndpointPath(handle))) == Some(handle)
  {
    var segs := ["collections", handle, "products.json"];
    assert Join(segs, '/') == "collections/" + handle + "/products.json" by {
      assert segs[1..][1..] == ["products.json"];
      assert Join(segs[1..], '/') == handle + "/products.json";
    }
    assert EndpointPath(handle) == "/" + Join(segs, '/');
    SegmentsOfAbsolutePath(segs);
    assert IndexOf(segs, "collections") == 0;
  }

  /** A collection URL's path `/collections/<handle>` yields that handle. */
  lemma CollectionPathHandle(handle: string)
    requires handle != [] && '/' !in handle
    ensures CollectionHandle(Segments("/collections/" + handle)) == Some(handle)
  {
    var segs := ["collections", handle];
    assert Join(segs, '/') == "collections/" + handle by {
      assert segs[1..] == [handle];
    }
    assert "/collections/" + handle == "/" + Join(segs, '/');
    SegmentsOfAbsolutePath(segs);
    assert IndexOf(segs, "collections") == 0;
  }
}
