/**
 The order Python's `<` puts on natural keys: lists are compared element by
 element up to the first pair that differs, a proper prefix coming first;
 two strings are compared the same way by code point, two floats by value,
 and a string against a float raises `TypeError`, written here as `None`.
 */
module KeyOrder {
  import opened Wrappers
  import opened FloatSyntax
  import opened NaturalKey

  /** `a < b` on Python strings: code-point lexicographic, a proper prefix first. */
  function StrLt(a: string, b: string): bool
  {
    if |a| == 0 || |b| == 0 then |a| < |b|
    else if a[0] == b[0] then StrLt(a[1..], b[1..])
    else a[0] < b[0]
  }

  /** `x < y` on two tokens; comparing text with a number raises. */
  function TokenLt(x: Token, y: Token): (r: Option<bool>)
    ensures r.Some? <==> x.Text? == y.Text?
  {
    match (x, y)
    case (Text(a), Text(b)) => Some(StrLt(a, b))
    case (Num(u), Num(v)) => Some(u < v)
    case _ => None
  }

  /** `a < b` on two keys, raising exactly where Python's list comparison would. */
  function KeyLt(a: seq<Token>, b: seq<Token>): Option<bool>
  {
    if |a| == 0 || |b| == 0 then Some(|a| < |b|)
    else if a[0] == b[0] then KeyLt(a[1..], b[1..])
    else TokenLt(a[0], b[0])
  }

  /** `not (b < a)`, the test a stable sort uses to keep `a` ahead of `b`. */
  predicate KeyLe(a: seq<Token>, b: seq<Token>) {
    KeyLt(b, a) == Some(false)
  }

  /** Tokens at the same position are both text or both numbers. */
  predicate Compatible(a: seq<Token>, b: seq<Token>) {
    forall i :: 0 <= i < |a| && i < |b| ==> (a[i].Text? <==> b[i].Text?)
  }

  /**
   The first position where two keys differ, independently of the recursion:
   `a < b` holds exactly when a common prefix of length `i` is followed either
   by the end of `a` (but not of `b`) or by a smaller token of `a`.
   */
  predicate LessAt(a: seq<Token>, b: seq<Token>, i: nat) {
    && i <= |a| && i <= |b|
    && a[..i] == b[..i]
    && (if i == |a| then i < |b| else i < |b| && TokenLt(a[i], b[i]) == Some(true))
  }

  // ---------------------------------------------------------------- strings

  lemma {:induction false} StrLtIrreflexive(a: string)
    ensures !StrLt(a, a)
    decreases |a|
  {
    if |a| > 0 {
      StrLtIrreflexive(a[1..]);
    }
  }

  lemma {:induction false} StrLtTransitive(a: string, b: string, c: string)
    requires StrLt(a, b) && StrLt(b, c)
    ensures StrLt(a, c)
    decreases |a|
  {
    if |a| > 0 && |b| > 0 && |c| > 0 && a[0] == b[0] && b[0] == c[0] {
      StrLtTransitive(a[1..], b[1..], c[1..]);
    }
  }

  lemma {:induction false} StrLtTrichotomy(a: string, b: string)
    ensures StrLt(a, b) || StrLt(b, a) || a == b
    decreases |a|
  {
    if |a| > 0 && |b| > 0 && a[0] == b[0] {
      StrLtTrichotomy(a[1..], b[1..]);
      if a[1..] == b[1..] {
        assert a == [a[0]] + a[1..] && b == [b[0]] + b[1..];
      }
    }
  }

  lemma StrLtAsymmetric(a: string, b: string)
    requires StrLt(a, b)
    ensures !StrLt(b, a)
  {
    if StrLt(b, a) {
      StrLtTransitive(a, b, a);
      StrLtIrreflexive(a);
    }
  }

  // ---------------------------------------------------------------- tokens

  lemma TokenLtIrreflexive(x: Token)
    ensures TokenLt(x, x) == Some(false)
  {
    if x.Text? {
      StrLtIrreflexive(x.text);
    }
  }

  lemma TokenLtTransitive(x: Token, y: Token, z: Token)
    requires TokenLt(x, y) == Some(true) && TokenLt(y, z) == Some(true)
    ensures TokenLt(x, z) == Some(true)
  {
    if x.Text? {
      StrLtTransitive(x.text, y.text, z.text);
    }
  }

  /** Two tokens of the same kind are ordered one way or the other, or equal. */
  lemma TokenLtTrichotomy(x: Token, y: Token)
    requires x.Text? == y.Text?
    ensures TokenLt(x, y) == Some(true) || TokenLt(y, x) == Some(true) || x == y
  {
    if x.Text? {
      StrLtTrichotomy(x.text, y.text);
    }
  }

  lemma TokenLtAsymmetric(x: Token, y: Token)
    requires TokenLt(x, y) == Some(true)
    ensures TokenLt(y, x) == Some(false)
  {
    if x.Text? {
      StrLtAsymmetric(x.text, y.text);
    }
  }

  // ---------------------------------------------------------------- keys

  /** Keys whose kinds agree position by position never make the comparison raise. */
  lemma {:induction false} KeyLtDefined(a: seq<Token>, b: seq<Token>)
    requires Compatible(a, b)
    ensures KeyLt(a, b).Some?
    decreases |a|
  {
    if |a| > 0 && |b| > 0 {
      if a[0] == b[0] {
        assert Compatible(a[1..], b[1..]) by {
          forall i | 0 <= i < |a[1..]| && i < |b[1..]|
            ensures a[1..][i].Text? <==> b[1..][i].Text?
          {
            assert a[1..][i] == a[i + 1] && b[1..][i] == b[i + 1];
          }
        }
        KeyLtDefined(a[1..], b[1..]);
      } else {
        assert a[0].Text? <==> b[0].Text?;
      }
    }
  }

  /** Two alternating keys have text at even and numbers at odd positions, so they agree in kind. */
  lemma AlternatingCompatible(a: seq<Token>, b: seq<Token>)
    requires Alternating(a) && Alternating(b)
    ensures Compatible(a, b)
  {
  }

  /** Any two natural keys can be compared without raising. */
  lemma NaturalKeysComparable(a: seq<Token>, b: seq<Token>)
    requires Alternating(a) && Alternating(b)
    ensures KeyLt(a, b).Some? && KeyLt(b, a).Some?
  {
    AlternatingCompatible(a, b);
    AlternatingCompatible(b, a);
    KeyLtDefined(a, b);
    KeyLtDefined(b, a);
  }

  lemma {:induction false} KeyLtIrreflexive(a: seq<Token>)
    ensures KeyLt(a, a) == Some(false)
    decreases |a|
  {
    if |a| > 0 {
      KeyLtIrreflexive(a[1..]);
    }
  }

  lemma {:induction false} KeyLtTransitive(a: seq<Token>, b: seq<Token>, c: seq<Token>)
    requires KeyLt(a, b) == Some(true) && KeyLt(b, c) == Some(true)
    ensures KeyLt(a, c) == Some(true)
    decreases |a|
  {
    if |a| > 0 && |b| > 0 && |c| > 0 {
      if a[0] == b[0] && b[0] == c[0] {
        KeyLtTransitive(a[1..], b[1..], c[1..]);
      } else if a[0] != b[0] && b[0] != c[0] {
        TokenLtTransitive(a[0], b[0], c[0]);
        if a[0] == c[0] {
          TokenLtIrreflexive(a[0]);
        }
      }
    }
  }

  lemma {:induction false} KeyLtAsymmetric(a: seq<Token>, b: seq<Token>)
    requires KeyLt(a, b) == Some(true)
    ensures KeyLt(b, a) == Some(false)
    decreases |a|
  {
    if |a| > 0 && |b| > 0 {
      if a[0] == b[0] {
        KeyLtAsymmetric(a[1..], b[1..]);
      } else {
        TokenLtAsymmetric(a[0], b[0]);
      }
    }
  }

  /** Of two keys that agree in kind, one is smaller or they are equal. */
  lemma {:induction false} KeyLtTrichotomy(a: seq<Token>, b: seq<Token>)
    requires Compatible(a, b)
    ensures KeyLt(a, b) == Some(true) || KeyLt(b, a) == Some(true) || a == b
    decreases |a|
  {
    if |a| > 0 && |b| > 0 {
      if a[0] == b[0] {
        assert Compatible(a[1..], b[1..]) by {
          forall i | 0 <= i < |a[1..]| && i < |b[1..]|
            ensures a[1..][i].Text? <==> b[1..][i].Text?
          {
            assert a[1..][i] == a[i + 1] && b[1..][i] == b[i + 1];
          }
        }
        KeyLtTrichotomy(a[1..], b[1..]);
        if a[1..] == b[1..] {
          assert a == [a[0]] + a[1..] && b == [b[0]] + b[1..];
        }
      } else {
        TokenLtTrichotomy(a[0], b[0]);
      }
    }
  }

  /** The recursive comparison agrees with the first-difference definition, in both directions. */
  lemma {:induction false} KeyLtIffLessAt(a: seq<Token>, b: seq<Token>)
    ensures KeyLt(a, b) == Some(true) <==> exists i: nat :: LessAt(a, b, i)
    decreases |a|
  {
    if |a| == 0 || |b| == 0 {
      if KeyLt(a, b) == Some(true) {
        assert LessAt(a, b, 0);
      }
      if exists i: nat :: LessAt(a, b, i) {
        var i: nat :| LessAt(a, b, i);
        assert i == 0;
      }
    } else if a[0] == b[0] {
      KeyLtIffLessAt(a[1..], b[1..]);
      if KeyLt(a, b) == Some(true) {
        var i: nat :| LessAt(a[1..], b[1..], i);
        LessAtCons(a, b, i);
      }
      if exists i: nat :: LessAt(a, b, i) {
        var i: nat :| LessAt(a, b, i);
        LessAtUncons(a, b, i);
      }
    } else {
      if KeyLt(a, b) == Some(true) {
        assert LessAt(a, b, 0);
      }
      if exists i: nat :: LessAt(a, b, i) {
        var i: nat :| LessAt(a, b, i);
        if i > 0 {
          SamePrefixSameHead(a, b, i);
        }
      }
    }
  }

  lemma SamePrefixSameHead(a: seq<Token>, b: seq<Token>, i: nat)
    requires 0 < i <= |a| && i <= |b| && a[..i] == b[..i]
    ensures a[0] == b[0]
  {
    assert a[..i][0] == a[0] && b[..i][0] == b[0];
  }

  lemma LessAtCons(a: seq<Token>, b: seq<Token>, i: nat)
    requires |a| > 0 && |b| > 0 && a[0] == b[0]
    requires LessAt(a[1..], b[1..], i)
    ensures LessAt(a, b, i + 1)
  {
    assert a[..i + 1] == [a[0]] + a[1..][..i];
    assert b[..i + 1] == [b[0]] + b[1..][..i];
  }

  lemma LessAtUncons(a: seq<Token>, b: seq<Token>, i: nat)
    requires |a| > 0 && |b| > 0 && a[0] == b[0]
    requires LessAt(a, b, i)
    ensures i > 0 && LessAt(a[1..], b[1..], i - 1)
  {
    if i == 0 {
      assert !(0 == |a|);
      assert TokenLt(a[0], b[0]) == Some(true);
      TokenLtIrreflexive(a[0]);
    }
    assert a[1..][..i - 1] == a[..i][1..];
    assert b[1..][..i - 1] == b[..i][1..];
  }

  // ---------------------------------------------------------------- the preorder

  /** On natural keys `not (b < a)` is reflexive. */
  lemma KeyLeReflexive(a: seq<Token>)
    ensures KeyLe(a, a)
  {
    KeyLtIrreflexive(a);
  }

  /** Any two natural keys are ordered one way or the other. */
  lemma KeyLeTotal(a: seq<Token>, b: seq<Token>)
    requires Alternating(a) && Alternating(b)
    ensures KeyLe(a, b) || KeyLe(b, a)
  {
    NaturalKeysComparable(a, b);
    if KeyLt(a, b) == Some(true) {
      KeyLtAsymmetric(a, b);
    } else {
      var r := KeyLt(a, b);
      assert r.Some?;
      assert r.value == false;
    }
  }

  lemma KeyLeTransitive(a: seq<Token>, b: seq<Token>, c: seq<Token>)
    requires Alternating(a) && Alternating(b) && Alternating(c)
    requires KeyLe(a, b) && KeyLe(b, c)
    ensures KeyLe(a, c)
  {
    NaturalKeysComparable(a, c);
    var r := KeyLt(c, a);
    assert r.Some?;
    if r.value {
      AlternatingCompatible(a, b);
      KeyLtTrichotomy(a, b);
      if KeyLt(a, b) == Some(true) {
        KeyLtTransitive(c, a, b);
      }
    }
  }

  /** Natural keys that are each not less than the other are equal. */
  lemma KeyLeAntisymmetric(a: seq<Token>, b: seq<Token>)
    requires Alternating(a) && Alternating(b)
    requires KeyLe(a, b) && KeyLe(b, a)
    ensures a == b
  {
    AlternatingCompatible(a, b);
    KeyLtTrichotomy(a, b);
  }

  // ---------------------------------------------------------------- human sorting

  /**
   Names that differ only in a trailing number compare by the value of that
   number, not by its digits: the "human sorting" the key exists for.
   */
  lemma NumericOrder(prefix: string, d1: string, d2: string)
    requires NoDigit(prefix) && TextPieceOk(prefix)
    requires |prefix| == 0 || (prefix[|prefix| - 1] != '.' && !IsSign(prefix[|prefix| - 1]))
    requires IsDecimalRun(d1) && IsDecimalRun(d2)
    ensures NameOk(prefix + d1) && NameOk(prefix + d2)
    ensures KeyLt(NaturalKeys(prefix + d1), NaturalKeys(prefix + d2)) == Some(RunValue(d1) < RunValue(d2))
  {
    PrefixRunKey(prefix, d1);
    PrefixRunKey(prefix, d2);
    ThreeTokenOrder(Text(prefix), RunValue(d1), RunValue(d2), Text(""));
  }

  /** Keys that differ only in their middle number compare as those numbers. */
  lemma ThreeTokenOrder(t: Token, u: real, v: real, w: Token)
    ensures KeyLt([t, Num(u), w], [t, Num(v), w]) == Some(u < v)
  {
    var a := [t, Num(u), w];
    var b := [t, Num(v), w];
    assert a[1..] == [Num(u), w] && b[1..] == [Num(v), w];
    if u == v {
      assert a[1..][1..] == [w] == b[1..][1..];
      KeyLtIrreflexive([w]);
    }
  }

  /** "path2" sorts before "path10", although as strings "path10" is the smaller. */
  lemma Path2BeforePath10()
    ensures NameOk("path2") && NameOk("path10")
    ensures KeyLt(NaturalKeys("path2"), NaturalKeys("path10")) == Some(true)
    ensures StrLt("path10", "path2")
  {
    Path2KeyBelowPath10();
    Path10TextBelowPath2();
  }

  lemma Path2KeyBelowPath10()
    ensures NameOk("path2") && NameOk("path10")
    ensures KeyLt(NaturalKeys("path2"), NaturalKeys("path10")) == Some(true)
  {
    NotSpecialByHead("path");
    AsciiDigitsAscii("path");
    ValueOfTwo();
    ValueOfTen();
    PathNames();
    NumericOrder("path", "2", "10");
  }

  lemma ValueOfTwo()
    ensures IsDecimalRun("2") && RunValue("2") == 2.0
  {
    IntegerRunValue("2");
  }

  lemma ValueOfTen()
    ensures IsDecimalRun("10") && RunValue("10") == 10.0
  {
    IntegerRunValue("10");
    assert "10"[..1] == "1";
  }

  lemma PathNames()
    ensures "path" + "2" == "path2" && "path" + "10" == "path10"
  {
  }

  lemma Path10TextBelowPath2()
    ensures StrLt("path10", "path2")
  {
    assert "path10"[1..] == "ath10" && "path2"[1..] == "ath2";
    assert "ath10"[1..] == "th10" && "ath2"[1..] == "th2";
    assert "th10"[1..] == "h10" && "th2"[1..] == "h2";
    assert "h10"[1..] == "10" && "h2"[1..] == "2";
  }

  /** Decimal runs compare by exact value: "0.05" < "0.2" < "1.00". */
  lemma DecimalsByValue()
    ensures NameOk("0.05") && NameOk("0.2") && NameOk("1.00")
    ensures KeyLt(NaturalKeys("0.05"), NaturalKeys("0.2")) == Some(true)
    ensures KeyLt(NaturalKeys("0.2"), NaturalKeys("1.00")) == Some(true)
  {
    FiveHundredthsBelowTwoTenths();
    TwoTenthsBelowOne();
  }

  lemma FiveHundredthsBelowTwoTenths()
    ensures NameOk("0.05") && NameOk("0.2")
    ensures KeyLt(NaturalKeys("0.05"), NaturalKeys("0.2")) == Some(true)
  {
    EmptyTextOk();
    PointedRunValue("0", "05");
    PointedRunValue("0", "2");
    assert FracValue("05") == 0.05 by {
      assert "05"[1..] == "5";
    }
    assert "" + ("0" + "." + "05") == "0.05" && "" + ("0" + "." + "2") == "0.2";
    NumericOrder("", "0" + "." + "05", "0" + "." + "2");
  }

  lemma TwoTenthsBelowOne()
    ensures NameOk("0.2") && NameOk("1.00")
    ensures KeyLt(NaturalKeys("0.2"), NaturalKeys("1.00")) == Some(true)
  {
    EmptyTextOk();
    PointedRunValue("0", "2");
    PointedRunValue("1", "00");
    assert FracValue("00") == 0.0 by {
      assert "00"[1..] == "0";
    }
    assert "" + ("0" + "." + "2") == "0.2" && "" + ("1" + "." + "00") == "1.00";
    NumericOrder("", "0" + "." + "2", "1" + "." + "00");
  }

  /** The sign between two numbers is dropped: "25-250" and "25+250" have one key, with no negative number in it. */
  lemma RangeSignDropped()
    ensures NameOk("25-250") && NameOk("25+250")
    ensures NaturalKeys("25-250") == NaturalKeys("25+250")
    ensures NaturalKeys("25-250") == [Text(""), Num(25.0), Text(""), Num(250.0), Text("")]
  {
    ValueOfTwentyFive();
    ValueOfTwoHundredFifty();
    RangeNames();
    SignedPairKey("25", '-', "250");
    SignedPairKey("25", '+', "250");
  }

  lemma ValueOfTwentyFive()
    ensures IsDecimalRun("25") && RunValue("25") == 25.0
  {
    IntegerRunValue("25");
    assert "25"[..1] == "2";
  }

  lemma ValueOfTwoHundredFifty()
    ensures IsDecimalRun("250") && RunValue("250") == 250.0
  {
    IntegerRunValue("250");
    assert "250"[..2] == "25";
    assert "25"[..1] == "2";
  }

  lemma RangeNames()
    ensures "25" + ['-'] + "250" == "25-250" && "25" + ['+'] + "250" == "25+250"
  {
  }
}
