/** URL paths: how the gateway cuts a path into segments. */
module Paths {

  const SLASH: char := '/'

  /** strings.Split(s, "/"): the pieces between slashes; never empty. */
  function Split(s: string): (parts: seq<string>)
    ensures |parts| >= 1
  {
    if s == [] then [""]
    else
      var rest := Split(s[1..]);
      if s[0] == SLASH then [""] + rest
      else [[s[0]] + rest[0]] + rest[1..]
  }

  function TrimLeft(s: string): string {
    if s != [] && s[0] == SLASH then TrimLeft(s[1..]) else s
  }

  function TrimRight(s: string): string {
    if s != [] && s[|s| - 1] == SLASH then TrimRight(s[..|s| - 1]) else s
  }

  /** strings.Trim(s, "/"). */
  function Trim(s: string): string {
    TrimRight(TrimLeft(s))
  }

  function NonEmpty(parts: seq<string>): seq<string> {
    if parts == [] then []
    else if parts[0] == "" then NonEmpty(parts[1..])
    else [parts[0]] + NonEmpty(parts[1..])
  }

  /** The meaning of a path: its non-empty pieces between slashes. */
  function Segments(path: string): seq<string> {
    NonEmpty(Split(path))
  }

  predicate IsSegment(s: string) {
    s != "" && SLASH !in s
  }

  /** The canonical path with the given segments. */
  function Join(segs: seq<string>): string {
    if segs == [] then "" else Join(segs[..|segs| - 1]) + "/" + segs[|segs| - 1]
  }

  /** splitPath: trims, splits, and compacts the pieces within the same slice. */
  method SplitPath(path: string) returns (result: seq<string>)
    ensures result == Segments(path)
  {
    var split := Split(Trim(path));
    var parts := new string[|split|](i requires 0 <= i < |split| => split[i]);
    assert parts[..] == split;
    var n := 0;
    for i := 0 to parts.Length
      invariant n <= i
      invariant parts[i..] == split[i..]
      invariant parts[..n] == NonEmpty(split[..i])
    {
      var p := parts[i];
      assert p == parts[i..][0];
      assert split[..i + 1] == split[..i] + [p];
      NonEmptyAppend(split[..i], [p]);
      if p != "" {
        ghost var tail := parts[i + 1..];
        assert tail == parts[i..][1..];
        parts[n] := p;
        n := n + 1;
        assert parts[..n] == parts[..n - 1] + [p];
        assert parts[i + 1..] == tail;
      } else {
        assert parts[i + 1..] == parts[i..][1..];
      }
    }
    result := parts[..n];
    assert split[..|split|] == split;
    TrimKeepsSegments(path);
  }

  lemma {:induction false} NonEmptyAppend(a: seq<string>, b: seq<string>)
    ensures NonEmpty(a + b) == NonEmpty(a) + NonEmpty(b)
  {
    if a == [] {
      assert a + b == b;
    } else {
      assert (a + b)[1..] == a[1..] + b;
      NonEmptyAppend(a[1..], b);
    }
  }

  /** How one more leading character changes the pieces. */
  function Prepend(c: char, parts: seq<string>): seq<string>
    requires |parts| >= 1
  {
    if c == SLASH then [""] + parts else [[c] + parts[0]] + parts[1..]
  }

  lemma SplitCons(c: char, t: string)
    ensures Split([c] + t) == Prepend(c, Split(t))
  {
    assert ([c] + t)[1..] == t;
  }

  lemma PrependAppend(c: char, p: seq<string>, q: seq<string>)
    requires |p| >= 1
    ensures Prepend(c, p + q) == Prepend(c, p) + q
  {
    assert (p + q)[1..] == p[1..] + q;
  }

  lemma {:induction false} SplitAppend(a: string, b: string)
    ensures Split(a + "/" + b) == Split(a) + Split(b)
  {
    hide Prepend;
    if a == [] {
      assert a + "/" + b == [SLASH] + b;
      SplitCons(SLASH, b);
      assert Prepend(SLASH, Split(b)) == [""] + Split(b) by { PrependSlash(Split(b)); }
    } else {
      var rest := a[1..] + "/" + b;
      assert a == [a[0]] + a[1..] && a + "/" + b == [a[0]] + rest;
      SplitCons(a[0], a[1..]);
      SplitCons(a[0], rest);
      hide Split;
      SplitAppend(a[1..], b);
      PrependAppend(a[0], Split(a[1..]), Split(b));
    }
  }

  lemma PrependSlash(parts: seq<string>)
    requires |parts| >= 1
    ensures Prepend(SLASH, parts) == [""] + parts
  {
  }

  /** A slash between two strings separates their segments. */
  lemma SegmentsAppend(a: string, b: string)
    ensures Segments(a + "/" + b) == Segments(a) + Segments(b)
  {
    SplitAppend(a, b);
    NonEmptyAppend(Split(a), Split(b));
  }

  lemma {:induction false} SplitSlashFree(s: string)
    requires SLASH !in s
    ensures Split(s) == [s]
  {
    if s != [] {
      SplitSlashFree(s[1..]);
      assert [s[0]] + s[1..] == s;
    }
  }

  lemma {:induction false} TrimLeftKeepsSegments(s: string)
    ensures Segments(TrimLeft(s)) == Segments(s)
  {
    if s != [] && s[0] == SLASH {
      TrimLeftKeepsSegments(s[1..]);
    }
  }

  lemma {:induction false} TrimRightKeepsSegments(s: string)
    ensures Segments(TrimRight(s)) == Segments(s)
  {
    if s != [] && s[|s| - 1] == SLASH {
      TrimRightKeepsSegments(s[..|s| - 1]);
      assert s == s[..|s| - 1] + "/" + "";
      SegmentsAppend(s[..|s| - 1], "");
    }
  }

  /** Trimming before splitting never changes the segments. */
  lemma TrimKeepsSegments(s: string)
    ensures Segments(Trim(s)) == Segments(s)
  {
    TrimLeftKeepsSegments(s);
    TrimRightKeepsSegments(TrimLeft(s));
  }

  lemma {:induction false} SplitPieces(s: string)
    ensures forall p :: p in Split(s) ==> SLASH !in p
  {
    if s != [] {
      SplitPieces(s[1..]);
    }
  }

  lemma {:induction false} NonEmptyPieces(parts: seq<string>)
    ensures forall p :: p in NonEmpty(parts) <==> p in parts && p != ""
  {
    if parts != [] {
      NonEmptyPieces(parts[1..]);
      assert parts == [parts[0]] + parts[1..];
    }
  }

  /** Every segment is a segment: non-empty and without a slash. */
  lemma SegmentsAreSegments(path: string)
    ensures forall p :: p in Segments(path) ==> IsSegment(p)
  {
    SplitPieces(path);
    NonEmptyPieces(Split(path));
  }

  /** Cutting the canonical path of any segments gives them back. */
  lemma {:induction false} SegmentsOfJoin(segs: seq<string>)
    requires forall s :: s in segs ==> IsSegment(s)
    ensures Segments(Join(segs)) == segs
  {
    if segs != [] {
      var last := |segs| - 1;
      assert segs[last] in segs && segs == segs[..last] + [segs[last]];
      SegmentsOfJoin(segs[..last]);
      SplitSlashFree(segs[last]);
      assert Segments(segs[last]) == [segs[last]] + NonEmpty([]);
      SegmentsAppend(Join(segs[..last]), segs[last]);
    }
  }
}
