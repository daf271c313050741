/**
 The natural sort key of src/chart.py: `natural_keys(text)` splits `text` with
 the pattern `[+-]?([0-9]+(?:[.][0-9]*)?|[.][0-9]+)` and applies `atof` to
 every piece. The scanner below follows the leftmost-match semantics of that
 pattern by hand; `Split` is what `re.split` returns for it.
 */
module NaturalKey {
  import opened Wrappers
  import opened FloatSyntax

  /** One element of a key: a text piece, or a number parsed from a digit run. */
  datatype Token = Text(text: string) | Num(value: real)

  /** The shape every natural key has: odd length, text at even and numbers at odd positions. */
  predicate Alternating(key: seq<Token>) {
    |key| % 2 == 1 && forall i :: 0 <= i < |key| ==> (key[i].Text? <==> i % 2 == 0)
  }

  /**
   `atof(text)`: the number `float(text)` denotes, or the text itself where
   `float` raises ValueError. The infinities and not-a-number are outside the
   token type and excluded.
   */
  function Atof(s: string): (t: Token)
    requires !SpecialFloatWord(s)
    ensures t.Text? ==> t.text == s
    ensures t.Num? <==> ParseFloat(s).Some?
    ensures t.Num? ==> ParseFloat(s) == Some(t.value)
  {
    match ParseFloat(s)
    case Some(v) => Num(v)
    case None => Text(s)
  }

  /** The length of the run of ASCII digits starting at `i` (`[0-9]*`, greedy). */
  function DigitRun(s: string, i: nat): (n: nat)
    requires i <= |s|
    ensures i + n <= |s|
    ensures forall k :: i <= k < i + n ==> IsDigit(s[k])
    ensures i + n == |s| || !IsDigit(s[i + n])
    decreases |s| - i
  {
    if i < |s| && IsDigit(s[i]) then 1 + DigitRun(s, i + 1) else 0
  }

  /** A string the capture group matches in full: `[0-9]+(?:[.][0-9]*)?` or `[.][0-9]+`. */
  predicate IsDecimalRun(x: string) {
    var a := DigitRun(x, 0);
    if a == |x| then a > 0
    else x[a] == '.' && a + 1 + DigitRun(x, a + 1) == |x| && (a > 0 || a + 1 < |x|)
  }

  /** The exact value of a captured run: integer digits, then the fraction after the point. */
  function RunValue(x: string): (v: real)
    requires IsDecimalRun(x)
    ensures v >= 0.0
  {
    var a := DigitRun(x, 0);
    if a == |x| then IntValue(x) as real
    else IntValue(x[..a]) as real + FracValue(x[a + 1..])
  }

  /** A digit run of exactly `j - i` characters starts at `i`. */
  lemma DigitRunExact(s: string, i: nat, j: nat)
    requires i <= j <= |s|
    requires forall k :: i <= k < j ==> IsDigit(s[k])
    requires j == |s| || !IsDigit(s[j])
    ensures DigitRun(s, i) == j - i
  {

  }

  /**
   Where the capture group matches when tried at `q`: the first alternative
   when a digit is there, else the second when a point and a digit are.
   */
  function GroupEnd(s: string, q: nat): (r: Option<nat>)
    requires q <= |s|
    ensures r.Some? <==> (q < |s| && IsDigit(s[q])) || (q + 1 < |s| && s[q] == '.' && IsDigit(s[q + 1]))
    ensures r.Some? ==> q < r.value <= |s| && IsDecimalRun(s[q..r.value])
  {
    if q < |s| && IsDigit(s[q]) then
      var a := q + DigitRun(s, q);
      if a < |s| && s[a] == '.' then
        var e := a + 1 + DigitRun(s, a + 1);
        PointedRun(s, q, a, e);
        Some(e)
      else
        WholeRun(s, q, a);
        Some(a)
    else if q + 1 < |s| && s[q] == '.' && IsDigit(s[q + 1]) then
      var e := q + 1 + DigitRun(s, q + 1);
      PointedRun(s, q, q, e);
      Some(e)
    else None
  }

  /** The group is greedy: no longer run starting at `q` matches it. */
  lemma GroupEndLongest(s: string, q: nat, e: nat)
    requires q <= |s| && GroupEnd(s, q).Some? && GroupEnd(s, q).value < e <= |s|
    ensures !IsDecimalRun(s[q..e])
  {
    var r := GroupEnd(s, q).value;
    var a := if IsDigit(s[q]) then q + DigitRun(s, q) else q;
    var x := s[q..e];
    assert q <= a <= r < e;
    assert forall k :: 0 <= k < a - q ==> x[k] == s[q + k] && IsDigit(x[k]);
    assert x[a - q] == s[a] && x[r - q] == s[r];
    if a < r {
      assert s[a] == '.' && r == a + 1 + DigitRun(s, a + 1);
      assert forall k :: a - q < k < r - q ==> x[k] == s[q + k] && IsDigit(x[k]);
    }
    CutRunShort(x, a - q, r - q);
  }

  /**
   A string whose leading digits stop at `a` on something other than a
   point, or on a point whose digits stop at `r` before its end, is not a run.
   */
  lemma CutRunShort(x: string, a: nat, r: nat)
    requires a <= r < |x|
    requires forall k :: 0 <= k < a ==> IsDigit(x[k])
    requires !IsDigit(x[a])
    requires a == r ==> x[a] != '.'
    requires a < r ==> x[a] == '.' && (forall k :: a < k < r ==> IsDigit(x[k])) && !IsDigit(x[r])
    ensures !IsDecimalRun(x)
  {
    DigitRunExact(x, 0, a);
    if a < r {
      DigitRunExact(x, a + 1, r);
    }
  }

  /** Digits on `[q, a)`, ended by a non-digit or the end, form a run. */
  lemma WholeRun(s: string, q: nat, a: nat)
    requires q < a <= |s|
    requires forall k :: q <= k < a ==> IsDigit(s[k])
    requires a == |s| || !IsDigit(s[a])
    ensures IsDecimalRun(s[q..a])
  {
    DigitRunExact(s[q..a], 0, a - q);
  }

  /** Digits on `[q, a)`, a point at `a`, and a maximal digit run on `(a, e)` form a run when some digit is present. */
  lemma PointedRun(s: string, q: nat, a: nat, e: nat)
    requires q <= a < e <= |s|
    requires forall k :: q <= k < a ==> IsDigit(s[k])
    requires s[a] == '.'
    requires forall k :: a + 1 <= k < e ==> IsDigit(s[k])
    requires e == |s| || !IsDigit(s[e])
    requires q < a || a + 1 < e
    ensures IsDecimalRun(s[q..e])
  {
    var x := s[q..e];
    DigitRunExact(x, 0, a - q);
    DigitRunExact(x, a - q + 1, e - q);
  }

  /** A match of the whole pattern: where its capture group starts and where the match ends. */
  datatype Span = Span(group: nat, end: nat)

  /**
   The match of the pattern starting at `p`, if any. The optional sign is
   tried first and given up only when the group cannot follow it.
   */
  function MatchAt(s: string, p: nat): (m: Option<Span>)
    requires p < |s|
    ensures m.Some? ==> p <= m.value.group < m.value.end <= |s|
    ensures m.Some? ==> (m.value.group == p + 1 <==> IsSign(s[p])) && m.value.group <= p + 1
    ensures m.Some? ==> IsDecimalRun(s[m.value.group..m.value.end])
    ensures IsDigit(s[p]) ==> m.Some?
  {
    if IsSign(s[p]) && GroupEnd(s, p + 1).Some? then Some(Span(p + 1, GroupEnd(s, p + 1).value))
    else
      match GroupEnd(s, p)
      case Some(e) => Some(Span(p, e))
      case None => None
  }

  /** One match with the text before it: the sign the pattern consumed and the captured run. */
  datatype Chunk = Chunk(gap: string, sign: string, run: string)

  /** All matches of a string in order, and the text after the last one. */
  datatype Scanned = Scanned(chunks: seq<Chunk>, tail: string)

  function JoinChunks(cs: seq<Chunk>): string
  {
    if cs == [] then "" else cs[0].gap + cs[0].sign + cs[0].run + JoinChunks(cs[1..])
  }

  /** The text a scan came from, with the consumed signs put back. */
  function Join(sc: Scanned): string
  {
    JoinChunks(sc.chunks) + sc.tail
  }

  /** Every chunk well formed and no digit left in the tail. */
  predicate WellFormedScan(sc: Scanned) {
    (forall c :: c in sc.chunks ==> WellFormedChunk(c)) && NoDigit(sc.tail)
  }

  predicate WellFormedChunk(c: Chunk) {
    && NoDigit(c.gap)
    && (c.sign == "" || c.sign == "+" || c.sign == "-")
    && IsDecimalRun(c.run)
  }

  /**
   The matches of `s` from position `p` on, the current text piece having
   begun at `start`.
   */
  function ScanFrom(s: string, start: nat, p: nat): Scanned
    requires start <= p <= |s|
    decreases |s| - p
  {
    if p == |s| then Scanned([], s[start..])
    else
      match MatchAt(s, p)
      case None => ScanFrom(s, start, p + 1)
      case Some(m) =>
        var rest := ScanFrom(s, m.end, m.end);
        Scanned([Chunk(s[start..p], s[p..m.group], s[m.group..m.end])] + rest.chunks, rest.tail)
  }

  /**
   Every chunk of a scan has a digit-free gap, a consumed sign or none, and
   a complete run; the tail is digit-free; and nothing of the text is lost.
   */
  lemma {:induction false} ScanFromWellFormed(s: string, start: nat, p: nat)
    requires start <= p <= |s|
    requires forall k :: start <= k < p ==> !IsDigit(s[k])
    ensures WellFormedScan(ScanFrom(s, start, p))
    ensures Join(ScanFrom(s, start, p)) == s[start..]
    decreases |s| - p
  {
    if p == |s| {
      ScanEndWellFormed(s, start);
    } else {
      match MatchAt(s, p)
      case None =>
        assert !IsDigit(s[p]);
        ScanFromWellFormed(s, start, p + 1);
        ScanMissStep(s, start, p);
      case Some(m) =>
        ScanFromWellFormed(s, m.end, m.end);
        MatchWellFormed(s, start, p, m);
    }
  }

  lemma ScanEndWellFormed(s: string, start: nat)
    requires start <= |s|
    requires forall k :: start <= k < |s| ==> !IsDigit(s[k])
    ensures WellFormedScan(ScanFrom(s, start, |s|))
    ensures Join(ScanFrom(s, start, |s|)) == s[start..]
  {
    assert ScanFrom(s, start, |s|) == Scanned([], s[start..]);
  }

  lemma MatchWellFormed(s: string, start: nat, p: nat, m: Span)
    requires start <= p < |s|
    requires forall k :: start <= k < p ==> !IsDigit(s[k])
    requires MatchAt(s, p) == Some(m)
    requires WellFormedScan(ScanFrom(s, m.end, m.end))
    requires Join(ScanFrom(s, m.end, m.end)) == s[m.end..]
    ensures WellFormedScan(ScanFrom(s, start, p))
    ensures Join(ScanFrom(s, start, p)) == s[start..]
  {
    ScanMatchStep(s, start, p, m);
    var chunk := Chunk(s[start..p], s[p..m.group], s[m.group..m.end]);
    ChunkWellFormed(s, start, p, m);
    ConsWellFormed(chunk, ScanFrom(s, m.end, m.end));
    SliceSplit(s, start, p, m.group, m.end);
  }

  lemma ChunkWellFormed(s: string, start: nat, p: nat, m: Span)
    requires start <= p < |s|
    requires forall k :: start <= k < p ==> !IsDigit(s[k])
    requires MatchAt(s, p) == Some(m)
    ensures WellFormedChunk(Chunk(s[start..p], s[p..m.group], s[m.group..m.end]))
  {
    assert s[p..m.group] == "" || s[p..m.group] == [s[p]];
  }

  lemma ConsWellFormed(c: Chunk, rest: Scanned)
    requires WellFormedChunk(c)
    requires WellFormedScan(rest)
    ensures WellFormedScan(Scanned([c] + rest.chunks, rest.tail))
    ensures Join(Scanned([c] + rest.chunks, rest.tail)) == c.gap + c.sign + c.run + Join(rest)
  {
    JoinCons(c, rest);
  }

  lemma JoinCons(c: Chunk, rest: Scanned)
    ensures Join(Scanned([c] + rest.chunks, rest.tail)) == c.gap + c.sign + c.run + Join(rest)
  {
    assert ([c] + rest.chunks)[1..] == rest.chunks;
  }

  lemma SliceSplit(s: string, a: nat, b: nat, c: nat, d: nat)
    requires a <= b <= c <= d <= |s|
    ensures s[a..] == s[a..b] + s[b..c] + s[c..d] + s[d..]
  {
  }

  /** The matches of the pattern in `s`, leftmost first; nothing of `s` is lost. */
  function Scan(s: string): (r: Scanned)
    ensures WellFormedScan(r)
    ensures Join(r) == s
  {
    ScanFromWellFormed(s, 0, 0);
    ScanFrom(s, 0, 0)
  }

  function PiecesOf(cs: seq<Chunk>, tail: string): (r: seq<string>)
    ensures |r| == 2 * |cs| + 1
    ensures forall i :: 0 <= i < |cs| ==> r[2 * i] == cs[i].gap && r[2 * i + 1] == cs[i].run
    ensures r[2 * |cs|] == tail
  {
    if cs == [] then [tail] else [cs[0].gap, cs[0].run] + PiecesOf(cs[1..], tail)
  }

  /**
   `re.split(pattern, s)`: the text pieces between matches at even positions
   and the captured runs at odd positions; the signs the pattern consumed
   appear in no piece.
   */
  function Split(s: string): (pieces: seq<string>)
    ensures WellFormedPieces(pieces)
    ensures |pieces| == 2 * |Scan(s).chunks| + 1
    ensures forall i :: 0 <= i < |Scan(s).chunks| ==> pieces[2 * i] == Scan(s).chunks[i].gap && pieces[2 * i + 1] == Scan(s).chunks[i].run
    ensures pieces[|pieces| - 1] == Scan(s).tail
  {
    var sc := Scan(s);
    PiecesWellFormed(sc.chunks, sc.tail);
    PiecesOf(sc.chunks, sc.tail)
  }

  /** Text pieces without digits at even positions, captured runs at odd positions, odd length. */
  predicate WellFormedPieces(pieces: seq<string>) {
    && |pieces| % 2 == 1
    && (forall i :: 0 <= i < |pieces| && i % 2 == 0 ==> NoDigit(pieces[i]))
    && (forall i :: 0 <= i < |pieces| && i % 2 == 1 ==> IsDecimalRun(pieces[i]))
  }

  lemma {:induction false} PiecesWellFormed(cs: seq<Chunk>, tail: string)
    requires forall c :: c in cs ==> WellFormedChunk(c)
    requires NoDigit(tail)
    ensures WellFormedPieces(PiecesOf(cs, tail))
  {
    if cs != [] {
      assert cs[0] in cs;
      assert forall c :: c in cs[1..] ==> c in cs;
      PiecesWellFormed(cs[1..], tail);
      ConsPieces(cs[0].gap, cs[0].run, PiecesOf(cs[1..], tail));
    }
  }

  lemma ConsPieces(gap: string, run: string, rest: seq<string>)
    requires NoDigit(gap) && IsDecimalRun(run)
    requires WellFormedPieces(rest)
    ensures WellFormedPieces([gap, run] + rest)
  {
    var pieces := [gap, run] + rest;
    forall i | 2 <= i < |pieces|
      ensures i % 2 == 0 ==> NoDigit(pieces[i])
      ensures i % 2 == 1 ==> IsDecimalRun(pieces[i])
    {
      assert pieces[i] == rest[i - 2];
      assert (i - 2) % 2 == i % 2;
    }
  }

  /**
   A text piece whose `atof` the model computes as Python does: it is no word
   `float` reads as an infinity or not-a-number, and `float` cannot find a
   non-ASCII decimal digit in it.
   */
  predicate TextPieceOk(t: string) {
    !SpecialFloatWord(t) && DigitsAscii(t)
  }

  /** The texts whose key the model computes: every text piece is `TextPieceOk`. */
  predicate NameOk(s: string) {
    var pieces := Split(s);
    forall i :: 0 <= i < |pieces| && i % 2 == 0 ==> TextPieceOk(pieces[i])
  }

  /** `natural_keys(text)`: `atof` applied to every piece of the split. */
  function NaturalKeys(s: string): (key: seq<Token>)
    requires NameOk(s)
    ensures Alternating(key)
    ensures KeyOfPieces(key, Split(s))
  {
    var pieces := Split(s);
    PiecesParse(pieces);
    var key := AtofAll(pieces);
    assert Alternating(key);
    key
  }

  /** `key` holds the text pieces verbatim and the exact values of the runs. */
  predicate KeyOfPieces(key: seq<Token>, pieces: seq<string>)
    requires WellFormedPieces(pieces)
  {
    && |key| == |pieces|
    && (forall i :: 0 <= i < |key| && i % 2 == 0 ==> key[i] == Text(pieces[i]))
    && (forall i :: 0 <= i < |key| && i % 2 == 1 ==> key[i] == Num(RunValue(pieces[i])))
  }

  /** `atof` over the pieces of a split, whose text pieces are never numbers and whose runs always are. */
  function AtofAll(pieces: seq<string>): (key: seq<Token>)
    requires WellFormedPieces(pieces)
    requires forall i :: 0 <= i < |pieces| ==> !SpecialFloatWord(pieces[i])
    requires forall i :: 0 <= i < |pieces| && i % 2 == 0 ==> ParseFloat(pieces[i]) == None
    requires forall i :: 0 <= i < |pieces| && i % 2 == 1 ==> ParseFloat(pieces[i]) == Some(RunValue(pieces[i]))
    ensures KeyOfPieces(key, pieces)
  {
    seq(|pieces|, i requires 0 <= i < |pieces| => Atof(pieces[i]))
  }

  /** Text pieces are never numbers and runs always are. */
  lemma PiecesParse(pieces: seq<string>)
    requires WellFormedPieces(pieces)
    ensures forall i :: 0 <= i < |pieces| && i % 2 == 0 ==> ParseFloat(pieces[i]) == None
    ensures forall i :: 0 <= i < |pieces| && i % 2 == 1 ==> !SpecialFloatWord(pieces[i]) && ParseFloat(pieces[i]) == Some(RunValue(pieces[i]))
  {
    forall i | 0 <= i < |pieces|
      ensures i % 2 == 0 ==> ParseFloat(pieces[i]) == None
      ensures i % 2 == 1 ==> !SpecialFloatWord(pieces[i]) && ParseFloat(pieces[i]) == Some(RunValue(pieces[i]))
    {
      if i % 2 == 0 {
        NoDigitIsNotNumber(pieces[i]);
      } else {
        RunParses(pieces[i]);
      }
    }
  }

  /** A captured run is a literal `float` accepts, with the value `RunValue` gives it. */
  lemma RunParses(x: string)
    requires IsDecimalRun(x)
    ensures !SpecialFloatWord(x)
    ensures ParseFloat(x) == Some(RunValue(x))
  {
    RunStrip(x);
    RunNotSpecial(x);
    RunUnsigned(x);
    UnsignedLiteral(x);
  }

  /** Text without surrounding space or sign is read by `float` as an unsigned literal. */
  lemma UnsignedLiteral(s: string)
    requires |s| > 0 && Strip(s) == s && !IsSign(s[0])
    ensures ParseFloat(s) == ParseUnsigned(s)
  {
  }

  lemma RunStrip(x: string)
    requires IsDecimalRun(x)
    ensures |x| > 0 && !IsSpace(x[0]) && !IsSpace(x[|x| - 1])
    ensures Strip(x) == x
    ensures x[0] == '.' || IsDigit(x[0])
  {
    assert x[0] == '.' || IsDigit(x[0]);
    assert x[|x| - 1] == '.' || IsDigit(x[|x| - 1]);
  }

  /** Text starting with a point or a digit, with no space at either end, is no special float word. */
  lemma RunNotSpecial(x: string)
    requires |x| > 0 && !IsSpace(x[0]) && !IsSpace(x[|x| - 1])
    requires x[0] == '.' || IsDigit(x[0])
    ensures !SpecialFloatWord(x)
  {
    NotSpecialByHead(x);
  }

  lemma RunUnsigned(x: string)
    requires IsDecimalRun(x)
    ensures ParseUnsigned(x) == Some(RunValue(x))
  {
    var a := DigitRun(x, 0);
    RunHasNoSeparator(x);
    DigitPartIsRun(x, 0);
    if a < |x| {
      DigitPartIsRun(x, a + 1);
      UnsignedDotted(x, a);
    } else {
      UnsignedInteger(x);
    }
  }

  lemma RunHasNoSeparator(x: string)
    requires IsDecimalRun(x)
    ensures forall k :: 0 <= k < |x| ==> x[k] != '_'
  {
    var a := DigitRun(x, 0);
    if a < |x| {
      var b := DigitRun(x, a + 1);
      forall k | 0 <= k < |x|
        ensures x[k] != '_'
      {
        if k > a {
          assert a + 1 <= k < a + 1 + b;
        }
      }
    }
  }

  /** Without separators a digitpart is a plain digit run. */
  lemma DigitPartIsRun(x: string, i: nat)
    requires i <= |x|
    requires forall k :: i <= k < |x| ==> x[k] != '_'
    ensures DigitPart(x, i) == i + DigitRun(x, i)
  {
    if i < |x| && IsDigit(x[i]) {
      DigitPartEndIsRun(x, i + 1);
    }
  }

  lemma DigitPartEndIsRun(x: string, i: nat)
    requires i <= |x|
    requires forall k :: i <= k < |x| ==> x[k] != '_'
    ensures DigitPartEnd(x, i) == i + DigitRun(x, i)
    decreases |x| - i
  {
    if i < |x| && IsDigit(x[i]) {
      DigitPartEndIsRun(x, i + 1);
    }
  }

  /**
   No match can start at `q`: no digit there, no point, sign, or sign and
   point directly before a digit.
   */
  predicate QuietAt(s: string, q: nat)
    requires q < |s|
  {
    && !IsDigit(s[q])
    && !(q + 1 < |s| && (s[q] == '.' || IsSign(s[q])) && IsDigit(s[q + 1]))
    && !(q + 2 < |s| && IsSign(s[q]) && s[q + 1] == '.' && IsDigit(s[q + 2]))
  }

  lemma QuietNoMatch(s: string, q: nat)
    requires q < |s|
    ensures QuietAt(s, q) <==> MatchAt(s, q) == None
  {
  }

  /**
   `ps` are the positions where the leftmost-first matches of the pattern
   begin, searching from `from`: no match begins before the first of them,
   the pattern matches at each, the next is searched from the end of that
   match, and none begins after the last.
   */
  predicate LeftmostStarts(s: string, from: nat, ps: seq<nat>)
    decreases |ps|
  {
    if ps == [] then
      && from <= |s|
      && forall q :: from <= q < |s| ==> QuietAt(s, q)
    else
      && from <= ps[0] < |s|
      && (forall q :: from <= q < ps[0] ==> QuietAt(s, q))
      && MatchAt(s, ps[0]).Some?
      && LeftmostStarts(s, MatchAt(s, ps[0]).value.end, ps[1..])
  }

  /** The pieces of `s` around the matches beginning at `ps`: before each match, its sign, its run; then the text after the last. */
  function Assemble(s: string, from: nat, ps: seq<nat>): Scanned
    requires LeftmostStarts(s, from, ps)
    decreases |ps|
  {
    if ps == [] then Scanned([], s[from..])
    else
      var m := MatchAt(s, ps[0]).value;
      var rest := Assemble(s, m.end, ps[1..]);
      Scanned([Chunk(s[from..ps[0]], s[ps[0]..m.group], s[m.group..m.end])] + rest.chunks, rest.tail)
  }

  /** Where the chunks `cs`, laid out from `from`, have their matches begin. */
  function Starts(from: nat, cs: seq<Chunk>): seq<nat>
    decreases |cs|
  {
    if cs == [] then [] else [from + |cs[0].gap|] + Starts(ChunkEnd(from, cs[0]), cs[1..])
  }

  function ChunkEnd(from: nat, c: Chunk): nat
  {
    from + |c.gap| + |c.sign| + |c.run|
  }

  /** The scan from `p`, with no match beginning on `[start, p)`, puts its matches at the leftmost-first positions. */
  lemma {:induction false} ScanFromLeftmost(s: string, start: nat, p: nat)
    requires start <= p <= |s|
    requires forall q :: start <= q < p ==> QuietAt(s, q)
    ensures LeftmostStarts(s, start, Starts(start, ScanFrom(s, start, p).chunks))
    decreases |s| - p
  {
    if p < |s| {
      match MatchAt(s, p)
      case None =>
        QuietNoMatch(s, p);
        ScanFromLeftmost(s, start, p + 1);
      case Some(m) =>
        ScanFromLeftmost(s, m.end, m.end);
        var rest := ScanFrom(s, m.end, m.end);
        ScanMatchStep(s, start, p, m);
        var c := Chunk(s[start..p], s[p..m.group], s[m.group..m.end]);
        assert ChunkEnd(start, c) == m.end;
        assert ([c] + rest.chunks)[0] == c && ([c] + rest.chunks)[1..] == rest.chunks;
        assert Starts(start, [c] + rest.chunks) == [p] + Starts(m.end, rest.chunks);
    }
  }

  /** Cutting `s` around the leftmost-first matches from `from` gives the scan from `from`. */
  lemma {:induction false} LeftmostIsScan(s: string, from: nat, ps: seq<nat>)
    requires LeftmostStarts(s, from, ps)
    ensures Assemble(s, from, ps) == ScanFrom(s, from, from)
    decreases |ps|
  {
    if ps == [] {
      ScanSkip(s, from, from, |s|);
    } else {
      var p := ps[0];
      var m := MatchAt(s, p).value;
      ScanSkip(s, from, from, p);
      ScanMatchStep(s, from, p, m);
      LeftmostIsScan(s, m.end, ps[1..]);
    }
  }

  /**
   `Scan` puts its matches exactly at the leftmost-first positions of the
   pattern, and cutting `s` around any leftmost-first positions gives `Scan(s)`.
   */
  lemma ScanUnique(s: string, ps: seq<nat>)
    ensures LeftmostStarts(s, 0, Starts(0, Scan(s).chunks))
    ensures LeftmostStarts(s, 0, ps) ==> Assemble(s, 0, ps) == Scan(s)
  {
    ScanFromLeftmost(s, 0, 0);
    if LeftmostStarts(s, 0, ps) {
      LeftmostIsScan(s, 0, ps);
    }
  }

  /** Positions at which the pattern does not match leave the scan unchanged. */
  lemma {:induction false} ScanSkip(s: string, start: nat, p: nat, m: nat)
    requires start <= p <= m <= |s|
    requires forall q :: p <= q < m ==> QuietAt(s, q)
    ensures ScanFrom(s, start, p) == ScanFrom(s, start, m)
    decreases m - p
  {
    if p < m {
      assert QuietAt(s, p);
      QuietNoMatch(s, p);
      ScanMissStep(s, start, p);
      ScanSkip(s, start, p + 1, m);
    }
  }

  lemma ScanMissStep(s: string, start: nat, p: nat)
    requires start <= p < |s|
    requires MatchAt(s, p) == None
    ensures ScanFrom(s, start, p) == ScanFrom(s, start, p + 1)
  {
  }

  /** The scan at a position where the pattern matches emits that match and resumes after it. */
  lemma ScanMatchStep(s: string, start: nat, p: nat, m: Span)
    requires start <= p < |s|
    requires MatchAt(s, p) == Some(m)
    ensures var rest := ScanFrom(s, m.end, m.end);
      ScanFrom(s, start, p) == Scanned([Chunk(s[start..p], s[p..m.group], s[m.group..m.end])] + rest.chunks, rest.tail)
  {
  }

  /** A text with no ASCII digit has the one-token key `[atof(text)]`, which is the text itself. */
  lemma DigitFreeKey(s: string)
    requires NoDigit(s) && TextPieceOk(s)
    ensures Split(s) == [s]
    ensures NameOk(s)
    ensures NaturalKeys(s) == [Text(s)]
  {
    DigitFreeScan(s);
    assert Split(s) == [s];
    OnePieceKey(s, s);
  }

  /** The key of a text split into a single text piece. */
  lemma OnePieceKey(s: string, text: string)
    requires Split(s) == [text]
    requires TextPieceOk(text)
    ensures NameOk(s)
    ensures NaturalKeys(s) == [Text(text)]
  {
    var key := NaturalKeys(s);
    assert |key| == 1 && key[0] == Text(text);
  }

  lemma DigitFreeScan(s: string)
    requires NoDigit(s)
    ensures Scan(s) == Scanned([], s)
  {
    ScanSkip(s, 0, 0, |s|);
    assert s[0..] == s;
  }

  /**
   A digit-free prefix followed by one captured run, the prefix ending in
   neither a point nor a sign (either would join the match), has the key
   `[prefix, value of the run, ""]`.
   */
  lemma PrefixRunKey(prefix: string, run: string)
    requires NoDigit(prefix) && TextPieceOk(prefix)
    requires |prefix| == 0 || (prefix[|prefix| - 1] != '.' && !IsSign(prefix[|prefix| - 1]))
    requires IsDecimalRun(run)
    ensures Split(prefix + run) == [prefix, run, ""]
    ensures NameOk(prefix + run)
    ensures NaturalKeys(prefix + run) == [Text(prefix), Num(RunValue(run)), Text("")]
  {
    var s := prefix + run;
    var n := |prefix|;
    QuietPrefix(prefix, run);
    RunMatchAtEnd(prefix, run);
    SingleMatchScan(s, n);
    assert s[..n] == prefix && s[n..] == run;
    PiecesOfOne(Chunk(prefix, "", run), "");
    assert Split(s) == [prefix, run, ""];
    EmptyTextOk();
    ThreePieceKey(s, prefix, run, "");
    assert NameOk(prefix + run);
    assert NaturalKeys(prefix + run) == [Text(prefix), Num(RunValue(run)), Text("")];
  }

  lemma PiecesOfOne(c: Chunk, tail: string)
    ensures PiecesOf([c], tail) == [c.gap, c.run, tail]
  {
    assert [c][1..] == [];
  }

  /** The key of a text split into one run between two text pieces. */
  lemma ThreePieceKey(s: string, before: string, run: string, after: string)
    requires Split(s) == [before, run, after]
    requires TextPieceOk(before) && TextPieceOk(after)
    ensures NameOk(s)
    ensures IsDecimalRun(run)
    ensures NaturalKeys(s) == [Text(before), Num(RunValue(run)), Text(after)]
  {
    var pieces := Split(s);
    assert pieces[1] == run;
    assert NameOk(s) by {
      forall i | 0 <= i < |pieces| && i % 2 == 0
        ensures TextPieceOk(pieces[i])
      {
        assert i == 0 || i == 2;
      }
    }
    var key := NaturalKeys(s);
    assert |key| == 3;
    assert key[0] == Text(before) && key[1] == Num(RunValue(run)) && key[2] == Text(after);
    SeqOfThree(key, Text(before), Num(RunValue(run)), Text(after));
  }

  lemma SeqOfThree<T>(a: seq<T>, x: T, y: T, z: T)
    requires |a| == 3 && a[0] == x && a[1] == y && a[2] == z
    ensures a == [x, y, z]
  {
  }

  lemma EmptyTextOk()
    ensures TextPieceOk("")
  {
    assert Strip("") == "";
    assert LowerAscii("") == "";
  }

  /** A text whose only match is an unsigned one running to its end scans into that one chunk. */
  lemma SingleMatchScan(s: string, n: nat)
    requires n < |s|
    requires forall q :: 0 <= q < n ==> QuietAt(s, q)
    requires MatchAt(s, n) == Some(Span(n, |s|))
    ensures Scan(s) == Scanned([Chunk(s[..n], "", s[n..])], "")
  {
    ScanSkip(s, 0, 0, n);
    ScanMatchStep(s, 0, n, Span(n, |s|));
    assert ScanFrom(s, |s|, |s|) == Scanned([], "");
    assert s[0..n] == s[..n] && s[n..n] == "" && s[n..|s|] == s[n..];
  }

  /** No match starts inside a digit-free prefix that ends in neither a point nor a sign. */
  lemma QuietPrefix(prefix: string, run: string)
    requires NoDigit(prefix)
    requires |prefix| == 0 || (prefix[|prefix| - 1] != '.' && !IsSign(prefix[|prefix| - 1]))
    ensures forall q :: 0 <= q < |prefix| ==> QuietAt(prefix + run, q)
  {
    var s := prefix + run;
    assert forall q :: 0 <= q < |prefix| ==> s[q] == prefix[q];
  }

  lemma RunMatchAtEnd(prefix: string, run: string)
    requires IsDecimalRun(run)
    ensures |prefix| < |prefix + run|
    ensures MatchAt(prefix + run, |prefix|) == Some(Span(|prefix|, |prefix + run|))
  {
    var s := prefix + run;
    RunGroupAtEnd(prefix, run);
    assert s[|prefix|] == run[0];
    assert !IsSign(s[|prefix|]);
  }

  /** The group tried where a complete run begins at the end of the text matches all of it. */
  lemma RunGroupAtEnd(prefix: string, run: string)
    requires IsDecimalRun(run)
    ensures GroupEnd(prefix + run, |prefix|) == Some(|prefix + run|)
  {
    var s := prefix + run;
    var n := |prefix|;
    var a := DigitRun(run, 0);
    assert forall k :: n <= k < |s| ==> s[k] == run[k - n];
    DigitRunExact(s, n, n + a);
    if a < |run| {
      var b := DigitRun(run, a + 1);
      DigitRunExact(s, n + a + 1, n + a + 1 + b);
      if a == 0 {
        assert IsDigit(run[1]);
      }
    }
  }

  /**
   Two runs joined by a sign, as in a range "25-250": the sign is consumed by
   the second match and appears in no piece, so `+` and `-` give one key.
   */
  lemma SignedPairKey(r1: string, c: char, r2: string)
    requires IsDecimalRun(r1) && IsDecimalRun(r2) && IsSign(c)
    ensures Split(r1 + [c] + r2) == ["", r1, "", r2, ""]
    ensures NameOk(r1 + [c] + r2)
    ensures NaturalKeys(r1 + [c] + r2) == [Text(""), Num(RunValue(r1)), Text(""), Num(RunValue(r2)), Text("")]
  {
    var s := r1 + [c] + r2;
    SignedPairScan(r1, c, r2);
    PiecesOfTwo(Chunk("", "", r1), Chunk("", [c], r2), "");
    EmptyTextOk();
    FivePieceKey(s, r1, r2);
  }

  lemma SignedPairScan(r1: string, c: char, r2: string)
    requires IsDecimalRun(r1) && IsDecimalRun(r2) && IsSign(c)
    ensures Scan(r1 + [c] + r2) == Scanned([Chunk("", "", r1), Chunk("", [c], r2)], "")
  {
    var s := r1 + [c] + r2;
    var n := |r1|;
    RunMatchFollowed(r1, [c] + r2);
    assert r1 + ([c] + r2) == s;
    ScanMatchStep(s, 0, 0, Span(0, n));
    assert s[0..0] == "" && s[0..n] == r1;
    assert s[n] == c && s[n + 1..] == r2;
    SignedTailScan(s, n);
    PairOfChunks(Chunk("", "", r1), Chunk("", [c], r2));
  }

  lemma PairOfChunks(first: Chunk, second: Chunk)
    ensures [first] + [second] == [first, second]
  {
  }

  /** From a sign followed by a run that ends the text, the scan emits that one signed match. */
  lemma SignedTailScan(s: string, n: nat)
    requires n < |s| && IsSign(s[n])
    requires IsDecimalRun(s[n + 1..])
    ensures ScanFrom(s, n, n) == Scanned([Chunk("", [s[n]], s[n + 1..])], "")
  {
    SignedMatchAtEnd(s, n);
    ScanMatchStep(s, n, n, Span(n + 1, |s|));
    assert ScanFrom(s, |s|, |s|) == Scanned([], "");
    assert s[n..n] == "" && s[n..n + 1] == [s[n]] && s[n + 1..|s|] == s[n + 1..];
  }

  lemma PiecesOfTwo(c1: Chunk, c2: Chunk, tail: string)
    ensures PiecesOf([c1, c2], tail) == [c1.gap, c1.run, c2.gap, c2.run, tail]
  {
    assert [c1, c2][1..] == [c2];
    PiecesOfOne(c2, tail);
  }

  /** The key of a text split into two runs, each preceded by an empty text piece. */
  lemma FivePieceKey(s: string, r1: string, r2: string)
    requires IsDecimalRun(r1) && IsDecimalRun(r2)
    requires Split(s) == ["", r1, "", r2, ""]
    requires TextPieceOk("")
    ensures NameOk(s)
    ensures NaturalKeys(s) == [Text(""), Num(RunValue(r1)), Text(""), Num(RunValue(r2)), Text("")]
  {
    var pieces := Split(s);
    assert NameOk(s) by {
      forall i | 0 <= i < |pieces| && i % 2 == 0
        ensures TextPieceOk(pieces[i])
      {
        assert pieces[i] == "";
      }
    }
    KeyOfFive(NaturalKeys(s), r1, r2);
  }

  lemma KeyOfFive(key: seq<Token>, r1: string, r2: string)
    requires IsDecimalRun(r1) && IsDecimalRun(r2)
    requires WellFormedPieces(["", r1, "", r2, ""])
    requires KeyOfPieces(key, ["", r1, "", r2, ""])
    ensures key == [Text(""), Num(RunValue(r1)), Text(""), Num(RunValue(r2)), Text("")]
  {
    var pieces := ["", r1, "", r2, ""];
    assert key[0] == Text(pieces[0]) && key[2] == Text(pieces[2]) && key[4] == Text(pieces[4]);
    assert key[1] == Num(RunValue(pieces[1])) && key[3] == Num(RunValue(pieces[3]));
  }

  /** A complete run followed by a character that can neither extend it nor start a fraction is matched alone. */
  lemma RunMatchFollowed(run: string, rest: string)
    requires IsDecimalRun(run)
    requires |rest| > 0 && !IsDigit(rest[0]) && rest[0] != '.'
    ensures MatchAt(run + rest, 0) == Some(Span(0, |run|))
  {
    var s := run + rest;
    RunGroupFollowed(run, rest);
    assert s[0] == run[0];
    assert !IsSign(s[0]);
  }

  lemma RunGroupFollowed(run: string, rest: string)
    requires IsDecimalRun(run)
    requires |rest| > 0 && !IsDigit(rest[0]) && rest[0] != '.'
    ensures GroupEnd(run + rest, 0) == Some(|run|)
  {
    var s := run + rest;
    var a := DigitRun(run, 0);
    assert forall k :: 0 <= k < |run| ==> s[k] == run[k];
    assert s[|run|] == rest[0];
    DigitRunExact(s, 0, a);
    if a < |run| {
      var b := DigitRun(run, a + 1);
      DigitRunExact(s, a + 1, a + 1 + b);
      if a == 0 {
        assert IsDigit(run[1]);
      }
    }
  }

  /** A sign directly before a complete run at the end of the text is consumed by the match of that run. */
  lemma SignedMatchAtEnd(s: string, n: nat)
    requires n < |s| && IsSign(s[n])
    requires IsDecimalRun(s[n + 1..])
    ensures MatchAt(s, n) == Some(Span(n + 1, |s|))
  {
    RunGroupAtEnd(s[..n + 1], s[n + 1..]);
    assert s[..n + 1] + s[n + 1..] == s;
  }

  /** Digits only: the whole text is one run whose value is its integer value. */
  lemma IntegerRunValue(x: string)
    requires |x| > 0 && forall k :: 0 <= k < |x| ==> IsDigit(x[k])
    ensures IsDecimalRun(x) && RunValue(x) == IntValue(x) as real
  {
    DigitRunExact(x, 0, |x|);
  }

  /** Digits, a point, digits: a run whose value is the integer part plus the fraction. */
  lemma PointedRunValue(i: string, f: string)
    requires forall k :: 0 <= k < |i| ==> IsDigit(i[k])
    requires forall k :: 0 <= k < |f| ==> IsDigit(f[k])
    requires |i| > 0 || |f| > 0
    ensures IsDecimalRun(i + "." + f)
    ensures RunValue(i + "." + f) == IntValue(i) as real + FracValue(f)
  {
    var x := i + "." + f;
    assert forall k :: 0 <= k < |i| ==> x[k] == i[k];
    assert forall k :: |i| < k < |x| ==> x[k] == f[k - |i| - 1];
    DigitRunExact(x, 0, |i|);
    DigitRunExact(x, |i| + 1, |x|);
    assert x[..|i|] == i && x[|i| + 1..] == f;
  }
}
