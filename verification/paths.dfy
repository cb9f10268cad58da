/**
  The string handling the request handler does on paths: `urlparse(p).path`,
  `str.startswith`, `str.strip('/')`, `str.split('/')`, and the extraction of
  the book identifier from a `/books/<id>` path.
 */
module Paths {
  import opened Options

  /** `s.startswith(prefix)`. */
  predicate StartsWith(s: string, prefix: string)
  {
    |prefix| <= |s| && s[..|prefix|] == prefix
  }

  /**
    `urlparse(p).path` for a request path: everything before the query
    (`?`) or the fragment (`#`), whichever comes first.
   */
  function UrlPath(p: string): (r: string)
    ensures StartsWith(p, r)
    ensures '?' !in r && '#' !in r
    ensures '?' !in p && '#' !in p ==> r == p
    ensures |r| == |p| || p[|r|] == '?' || p[|r|] == '#'
  {
    if |p| == 0 || p[0] == '?' || p[0] == '#' then ""
    else [p[0]] + UrlPath(p[1..])
  }

  /** `t.lstrip('/')`. */
  function LStrip(t: string): (r: string)
    ensures |r| <= |t| && r == t[|t| - |r|..]
    ensures forall i :: 0 <= i < |t| - |r| ==> t[i] == '/'
    ensures |r| > 0 ==> r[0] != '/'
  {
    if |t| > 0 && t[0] == '/' then
      var r := LStrip(t[1..]);
      assert t[1..][|t| - 1 - |r|..] == t[|t| - |r|..];
      assert forall i :: 1 <= i < |t| - |r| ==> t[i] == t[1..][i - 1];
      r
    else t
  }

  /** `t.rstrip('/')`. */
  function RStrip(t: string): (r: string)
    ensures |r| <= |t| && r == t[..|r|]
    ensures forall i :: |r| <= i < |t| ==> t[i] == '/'
    ensures |r| > 0 ==> r[|r| - 1] != '/'
  {
    if |t| > 0 && t[|t| - 1] == '/' then RStrip(t[..|t| - 1]) else t
  }

  /**
    `t.strip('/')`: neither end of the result is a slash, a text of slashes
    alone strips to nothing, and a slash-free text is left as it is.
   */
  function Strip(t: string): (r: string)
    ensures |r| <= |t|
    ensures |r| > 0 ==> r[0] != '/' && r[|r| - 1] != '/'
    ensures r == "" <==> forall i :: 0 <= i < |t| ==> t[i] == '/'
    ensures '/' !in t ==> r == t
  {
    StripEmpty(t);
    RStrip(LStrip(t))
  }

  lemma StripEmpty(t: string)
    ensures RStrip(LStrip(t)) == "" <==> forall i :: 0 <= i < |t| ==> t[i] == '/'
  {
    LStripEmpty(t);
    RStripEmpty(LStrip(t));
  }

  lemma LStripEmpty(t: string)
    ensures LStrip(t) == "" <==> forall i :: 0 <= i < |t| ==> t[i] == '/'
  {
    var u := LStrip(t);
    assert |u| > 0 ==> u[0] == t[|t| - |u|];
  }

  lemma RStripEmpty(u: string)
    requires |u| == 0 || u[0] != '/'
    ensures RStrip(u) == "" <==> |u| == 0
  {
    assert |u| > 0 ==> RStrip(u)[..1] == u[..1];
  }

  /**
    What `strip` removes: the stripped text is the slice of `t` that a run
    of leading slashes precedes and a run of trailing slashes follows.
   */
  lemma StripSlice(t: string) returns (a: nat)
    ensures a + |Strip(t)| <= |t|
    ensures Strip(t) == t[a..a + |Strip(t)|]
    ensures forall i :: 0 <= i < a ==> t[i] == '/'
    ensures forall i :: a + |Strip(t)| <= i < |t| ==> t[i] == '/'
  {
    var u := LStrip(t);
    a := |t| - |u|;
    var r := RStrip(u);
    SliceOfSuffix(t, u, r);
    assert Strip(t) == r;
  }

  /** A prefix `r` of a suffix `u` of `t` is a slice of `t`, and what follows `r` in `u` follows it in `t`. */
  lemma SliceOfSuffix(t: string, u: string, r: string)
    requires |u| <= |t| && u == t[|t| - |u|..]
    requires |r| <= |u| && r == u[..|r|]
    requires forall i :: |r| <= i < |u| ==> u[i] == '/'
    ensures var a := |t| - |u|;
      && r == t[a..a + |r|]
      && (forall i :: a + |r| <= i < |t| ==> t[i] == '/')
  {
    var a := |t| - |u|;
    forall j | 0 <= j < |r|
      ensures t[a..a + |r|][j] == r[j]
    {
      assert r[j] == u[j] == t[a + j];
    }
    assert t[a..a + |r|] == r;
    forall i | a + |r| <= i < |t|
      ensures t[i] == '/'
    {
      assert t[i] == u[i - a];
    }
  }

  /** `t.split('/')`: always at least one segment, and no segment holds a slash. */
  function Split(t: string): (parts: seq<string>)
    ensures |parts| >= 1
    ensures forall i :: 0 <= i < |parts| ==> '/' !in parts[i]
  {
    if |t| == 0 then [""]
    else
      var rest := Split(t[1..]);
      if t[0] == '/' then [""] + rest
      else [[t[0]] + rest[0]] + rest[1..]
  }

  /** `'/'.join(parts)`, the inverse of `Split`. */
  function Join(parts: seq<string>): string
    requires |parts| >= 1
  {
    if |parts| == 1 then parts[0] else parts[0] + "/" + Join(parts[1..])
  }

  /** Joining the segments of a split gives the text back. */
  lemma {:induction false} JoinSplit(t: string)
    ensures Join(Split(t)) == t
  {
    if |t| > 0 {
      var rest := Split(t[1..]);
      JoinSplit(t[1..]);
      if t[0] == '/' {
        assert Split(t) == [""] + rest;
        assert Split(t)[1..] == rest;
      } else {
        var parts := Split(t);
        assert parts[1..] == rest[1..];
        if |rest| == 1 {
          assert Join(parts) == [t[0]] + rest[0];
        } else {
          assert Join(rest) == rest[0] + "/" + Join(rest[1..]);
          assert Join(parts) == ([t[0]] + rest[0]) + "/" + Join(rest[1..]);
        }
      }
    }
  }

  /** A slash-free segment followed by a slash splits off as one segment. */
  lemma {:induction false} SplitSegment(a: string, b: string)
    requires '/' !in a
    ensures Split(a + "/" + b) == [a] + Split(b)
  {
    if |a| == 0 {
      assert a + "/" + b == "/" + b;
      assert ("/" + b)[1..] == b;
    } else {
      var t := a + "/" + b;
      assert t[0] == a[0] && t[1..] == a[1..] + "/" + b;
      var rest := Split(t[1..]);
      assert rest == [a[1..]] + Split(b) by {
        SplitSegment(a[1..], b);
      }
      assert rest[0] == a[1..] && rest[1..] == Split(b);
      assert [a[0]] + a[1..] == a;
    }
  }

  /** A slash-free text is a single segment. */
  lemma {:induction false} SplitWhole(a: string)
    requires '/' !in a
    ensures Split(a) == [a]
  {
    if |a| > 0 {
      SplitWhole(a[1..]);
      assert [a[0]] + a[1..] == a;
    }
  }

  /** Splitting the slash-free segments of a join gives them back. */
  lemma {:induction false} SplitJoin(parts: seq<string>)
    requires |parts| >= 1
    requires forall i :: 0 <= i < |parts| ==> '/' !in parts[i]
    ensures Split(Join(parts)) == parts
  {
    if |parts| == 1 {
      SplitWhole(parts[0]);
    } else {
      SplitJoin(parts[1..]);
      SplitSegment(parts[0], Join(parts[1..]));
    }
  }

  /** Trailing slashes after a text that does not end in one are stripped from the tail alone. */
  lemma {:induction false} RStripAppend(x: string, y: string)
    requires |x| > 0 && x[|x| - 1] != '/'
    ensures RStrip(x + y) == x + RStrip(y)
    decreases |y|
  {
    if |y| == 0 {
      assert x + y == x;
    } else if y[|y| - 1] == '/' {
      assert (x + y)[..|x + y| - 1] == x + y[..|y| - 1];
      RStripAppend(x, y[..|y| - 1]);
    }
  }

  /** The prefix of a `/books/<id>` path, after the leading slashes are gone. */
  const BooksPrefix := "books/"

  /**
    `t` starts with `books/` followed by the identifier `id` (non-empty,
    slash-free), which is either the end of `t` or followed by a slash.
   */
  predicate IdSegment(t: string, id: string)
  {
    && |id| > 0
    && '/' !in id
    && StartsWith(t, BooksPrefix + id)
    && (|t| == |BooksPrefix + id| || t[|BooksPrefix + id|] == '/')
  }

  /**
    `_get_book_id_from_path`: strip the slashes, split on `/`, and take the
    second segment when the first is exactly `books` and the second is not
    empty; further segments are ignored.
   */
  function PathId(rawPath: string): (r: Option<string>)
    ensures r.Some? ==> |r.value| > 0 && '/' !in r.value
  {
    var parts := Split(Strip(UrlPath(rawPath)));
    if |parts| >= 2 && parts[0] == "books" && parts[1] != "" then Some(parts[1]) else None
  }

  /**
    The identifier extracted from a path is exactly the segment that follows
    `books/` once the leading slashes of the path are dropped.
   */
  lemma PathIdMeaning(rawPath: string, id: string)
    ensures PathId(rawPath) == Some(id) <==> IdSegment(LStrip(UrlPath(rawPath)), id)
  {
    var t := LStrip(UrlPath(rawPath));
    if IdSegment(t, id) {
      PathIdFromSegment(t, id);
    }
    if PathId(rawPath) == Some(id) {
      SegmentFromPathId(t, id);
    }
  }

  lemma PathIdFromSegment(t: string, id: string)
    requires IdSegment(t, id)
    ensures var parts := Split(RStrip(t));
      |parts| >= 2 && parts[0] == "books" && parts[1] == id
  {
    var x := BooksPrefix + id;
    var rest := t[|x|..];
    assert t == x + rest;
    assert x[|x| - 1] == id[|id| - 1];
    RStripAppend(x, rest);
    var r := RStrip(rest);
    assert |r| > 0 ==> r[0] == rest[0] == t[|x|];
    SplitBooksId(id, r);
  }

  /** `books/<id>` with nothing or a slash after it splits into `books`, `id`, .... */
  lemma SplitBooksId(id: string, r: string)
    requires '/' !in id
    requires |r| == 0 || r[0] == '/'
    ensures var parts := Split(BooksPrefix + id + r);
      |parts| >= 2 && parts[0] == "books" && parts[1] == id
  {
    assert BooksPrefix + id + r == "books" + "/" + (id + r);
    SplitSegment("books", id + r);
    if |r| == 0 {
      assert id + r == id;
      SplitWhole(id);
    } else {
      assert id + r == id + "/" + r[1..];
      SplitSegment(id, r[1..]);
    }
  }

  lemma SegmentFromPathId(t: string, id: string)
    requires var parts := Split(RStrip(t)); |parts| >= 2 && parts[0] == "books" && parts[1] == id && id != ""
    ensures IdSegment(t, id)
  {
    SegmentOfSplit(RStrip(t), id);
    SegmentBeforeSlashes(t, id);
  }

  /** A text whose split starts with `books` and `id` starts with the segment `books/<id>`. */
  lemma SegmentOfSplit(u: string, id: string)
    requires var parts := Split(u); |parts| >= 2 && parts[0] == "books" && parts[1] == id && id != ""
    ensures IdSegment(u, id)
  {
    var parts := Split(u);
    var x := BooksPrefix + id;
    var rest0 := if |parts| == 2 then "" else "/" + Join(parts[2..]);
    assert u == x + rest0 by {
      JoinSplit(u);
      assert Join(parts[1..]) == id + rest0;
    }
    if |rest0| > 0 {
      assert u[|x|] == rest0[0];
    }
  }

  /** Stripping trailing slashes does not disturb a `books/<id>` segment, so it was there before. */
  lemma SegmentBeforeSlashes(t: string, id: string)
    requires IdSegment(RStrip(t), id)
    ensures IdSegment(t, id)
  {
    var u := RStrip(t);
    var x := BooksPrefix + id;
    assert t[..|x|] == x by {
      assert t == u + t[|u|..];
    }
    if |t| > |x| && |u| == |x| {
      assert t[|x|] == '/';
    }
  }

  /** Characters that survive `urlparse` and `split` untouched inside a segment. */
  predicate PlainSegment(id: string)
  {
    |id| > 0 && '/' !in id && '?' !in id && '#' !in id
  }

  /** The client's `/books/<id>` path yields `id` back. */
  lemma BookPathYieldsId(id: string)
    requires PlainSegment(id)
    ensures PathId("/books/" + id) == Some(id)
  {
    var p := "/books/" + id;
    assert '?' !in "/books/" && '#' !in "/books/";
    assert LStrip(p) == BooksPrefix + id by {
      assert p[1..] == BooksPrefix + id;
    }
    PathIdMeaning(p, id);
  }
}
