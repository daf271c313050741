/**
 Paths as the program builds and takes them apart: `str.split('/')` and its
 inverse `'/'.join`, and the last segment a directory's tag is read from.
 */
module Paths {

  /** No separator inside. */
  predicate Plain(s: string) {
    forall i :: 0 <= i < |s| ==> s[i] != '/'
  }

  /** `s.split('/')`: the pieces between separators, empty ones included. */
  function Segments(s: string): (r: seq<string>)
    ensures |r| >= 1
  {
    if |s| == 0 then [""]
    else
      var rest := Segments(s[1..]);
      if s[0] == '/' then [""] + rest
      else [[s[0]] + rest[0]] + rest[1..]
  }

  /** `'/'.join(parts)`. */
  function JoinSegments(parts: seq<string>): string
    requires |parts| >= 1
  {
    if |parts| == 1 then parts[0] else parts[0] + "/" + JoinSegments(parts[1..])
  }

  /** `s.split('/')[-1]`: the text after the last separator. */
  function LastSegment(s: string): string {
    var r := Segments(s);
    r[|r| - 1]
  }

  /** Splitting finds no separator inside a segment and loses nothing: joining gives the text back. */
  lemma {:induction false} SegmentsRoundTrip(s: string)
    ensures forall i :: 0 <= i < |Segments(s)| ==> Plain(Segments(s)[i])
    ensures JoinSegments(Segments(s)) == s
    decreases |s|
  {
    if |s| > 0 {
      var rest := Segments(s[1..]);
      SegmentsRoundTrip(s[1..]);
      ConsTail(s[0], s[1..]);
      SegmentsCons(s[0], s[1..]);
      if s[0] == '/' {
        ConsTail("", rest);
        ConsOfEmpty(s);
      } else {
        var r := [[s[0]] + rest[0]] + rest[1..];
        forall i | 0 <= i < |r|
          ensures Plain(r[i])
        {
          if i > 0 {
            ConsIndex([s[0]] + rest[0], rest[1..], i);
          }
        }
        JoinHead(s[0], rest);
      }
    }
  }

  lemma ConsOfEmpty(s: string)
    requires |s| > 0 && s[0] == '/'
    ensures "" + "/" + s[1..] == s
  {
  }

  lemma ConsIndex<T>(x: T, a: seq<T>, i: nat)
    requires 0 < i <= |a|
    ensures ([x] + a)[i] == a[i - 1]
  {
  }

  lemma JoinHead(c: char, rest: seq<string>)
    requires |rest| >= 1
    ensures JoinSegments([[c] + rest[0]] + rest[1..]) == [c] + JoinSegments(rest)
  {
    var parts := [[c] + rest[0]] + rest[1..];
    if |rest| > 1 {
      ConsTail([c] + rest[0], rest[1..]);
      var j := JoinSegments(rest[1..]);
      assert JoinSegments(parts) == ([c] + rest[0]) + "/" + j;
      assert JoinSegments(rest) == rest[0] + "/" + j;
      AppendAssoc3([c], rest[0], "/", j);
    }
  }

  lemma AppendAssoc3<T>(w: seq<T>, x: seq<T>, y: seq<T>, z: seq<T>)
    ensures w + x + y + z == w + (x + y + z)
  {
  }

  lemma ConsTail<T>(x: T, a: seq<T>)
    ensures ([x] + a)[1..] == a
  {
  }

  /** A text without separators is a single segment. */
  lemma {:induction false} PlainSegments(s: string)
    requires Plain(s)
    ensures Segments(s) == [s]
    decreases |s|
  {
    if |s| > 0 {
      PlainSegments(s[1..]);
      assert [s[0]] + s[1..] == s;
    }
  }

  /** Splitting a join of two texts at the separator between them. */
  lemma {:induction false} SegmentsOfJoin(x: string, y: string)
    ensures Segments(x + "/" + y) == Segments(x) + Segments(y)
    decreases |x|
  {
    if |x| == 0 {
      assert x + "/" + y == ['/'] + y;
      SegmentsCons('/', y);
    } else {
      SegmentsOfJoin(x[1..], y);
      JoinStep(x[0], x[1..], y);
      assert x == [x[0]] + x[1..];
    }
  }

  lemma JoinStep(c: char, u: string, y: string)
    requires Segments(u + "/" + y) == Segments(u) + Segments(y)
    ensures Segments([c] + u + "/" + y) == Segments([c] + u) + Segments(y)
  {
    var t := u + "/" + y;
    assert [c] + u + "/" + y == [c] + t;
    SegmentsCons(c, t);
    SegmentsCons(c, u);
    var a, b := Segments(u), Segments(y);
    if c == '/' {
      AppendAssoc([""], a, b);
    } else {
      AppendTail(a, b);
      AppendAssoc([[c] + a[0]], a[1..], b);
    }
  }

  lemma AppendAssoc<T>(x: seq<T>, a: seq<T>, b: seq<T>)
    ensures x + (a + b) == (x + a) + b
  {
  }

  lemma AppendTail<T>(a: seq<T>, b: seq<T>)
    requires |a| >= 1
    ensures (a + b)[0] == a[0] && (a + b)[1..] == a[1..] + b
  {
  }

  lemma SegmentsCons(c: char, t: string)
    ensures Segments([c] + t) == if c == '/' then [""] + Segments(t) else [[c] + Segments(t)[0]] + Segments(t)[1..]
  {
    assert ([c] + t)[1..] == t;
  }

  /** Splitting a join of plain segments gives the segments back. */
  lemma {:induction false} JoinSegmentsRoundTrip(parts: seq<string>)
    requires |parts| >= 1
    requires forall i :: 0 <= i < |parts| ==> Plain(parts[i])
    ensures Segments(JoinSegments(parts)) == parts
    decreases |parts|
  {
    PlainSegments(parts[0]);
    if |parts| > 1 {
      JoinSegmentsRoundTrip(parts[1..]);
      SegmentsOfJoin(parts[0], JoinSegments(parts[1..]));
      assert [parts[0]] + parts[1..] == parts;
    }
  }

  /** The tag of `dir + "/" + name` is `name` whenever the name has no separator, whatever the directory. */
  lemma LastSegmentOfChild(dir: string, name: string)
    requires Plain(name)
    ensures LastSegment(dir + "/" + name) == name
  {
    SegmentsOfJoin(dir, name);
    PlainSegments(name);
  }
}
