/**
 `all_paths.sort(key=natural_keys)`. Python computes each key once, sorts
 the decorated entries stably comparing keys with `<` only, and drops the
 keys again. The sort is modelled as an insertion sort and shown to be a
 permutation that is sorted and stable, and to be the only sequence that
 is all three, so it is the result of any stable sort.
 */
module NaturalSort {
  import opened Wrappers
  import opened NaturalKey
  import opened KeyOrder

  /** A path together with its natural key. */
  datatype Entry = Entry(path: string, key: seq<Token>)

  /** Every key alternates text and numbers, as natural keys do. */
  predicate AllKeyed(s: seq<Entry>) {
    forall e :: e in s ==> Alternating(e.key)
  }

  /** Every path has a key: every text piece of its split is `TextPieceOk`. */
  predicate AllNamed(paths: seq<string>) {
    forall i :: 0 <= i < |paths| ==> NameOk(paths[i])
  }

  /** `key(x) < key(y)`. */
  predicate Before(x: Entry, y: Entry) {
    KeyLt(x.key, y.key) == Some(true)
  }

  /** No later entry has a smaller key than an earlier one. */
  predicate SortedByKey(s: seq<Entry>) {
    forall i, j :: 0 <= i < j < |s| ==> !Before(s[j], s[i])
  }

  /** The entries of `s` whose key is `k`, in their order in `s`. */
  function WithKey(s: seq<Entry>, k: seq<Token>): seq<Entry>
  {
    if |s| == 0 then []
    else (if s[0].key == k then [s[0]] else []) + WithKey(s[1..], k)
  }

  /** Entries with equal keys keep their relative order. */
  ghost predicate StableFor(r: seq<Entry>, s: seq<Entry>) {
    forall k :: WithKey(r, k) == WithKey(s, k)
  }

  /** Each path paired with its key, in order. */
  function Decorate(paths: seq<string>): (s: seq<Entry>)
    requires AllNamed(paths)
    ensures |s| == |paths|
    ensures forall i :: 0 <= i < |s| ==> s[i].path == paths[i] && s[i].key == NaturalKeys(paths[i])
    ensures AllKeyed(s)
  {
    seq(|paths|, i requires 0 <= i < |paths| => Entry(paths[i], NaturalKeys(paths[i])))
  }

  /** The paths of the entries, in order. */
  function Paths(s: seq<Entry>): (paths: seq<string>)
    ensures |paths| == |s|
    ensures forall i :: 0 <= i < |s| ==> paths[i] == s[i].path
  {
    seq(|s|, i requires 0 <= i < |s| => s[i].path)
  }

  /** Puts `x` after every entry whose key is not greater than its own, in front of the first that is. */
  function Insert(sorted: seq<Entry>, x: Entry): (r: seq<Entry>)
    ensures |r| == |sorted| + 1
    ensures multiset(r) == multiset(sorted) + multiset{x}
  {
    if |sorted| == 0 then [x]
    else if Before(x, sorted[0]) then [x] + sorted
    else
      assert sorted == [sorted[0]] + sorted[1..];
      [sorted[0]] + Insert(sorted[1..], x)
  }

  /** The entries in ascending key order, ties in their original order. */
  function SortByKey(s: seq<Entry>): (r: seq<Entry>)
    ensures |r| == |s|
    ensures multiset(r) == multiset(s)
  {
    if |s| == 0 then []
    else
      assert s == s[..|s| - 1] + [s[|s| - 1]];
      Insert(SortByKey(s[..|s| - 1]), s[|s| - 1])
  }

  /** `all_paths.sort(key=natural_keys)`: the same paths, in natural-key order, ties kept in place. */
  function SortPaths(paths: seq<string>): (sorted: seq<string>)
    requires AllNamed(paths)
    ensures |sorted| == |paths|
  {
    Paths(SortByKey(Decorate(paths)))
  }

  // ---------------------------------------------------------------- the key order on entries

  lemma BeforeIrreflexive(x: Entry)
    ensures !Before(x, x)
  {
    KeyLtIrreflexive(x.key);
  }

  lemma BeforeAsymmetric(x: Entry, y: Entry)
    requires Before(x, y)
    ensures !Before(y, x)
  {
    KeyLtAsymmetric(x.key, y.key);
  }

  /** Smaller than `y`, and `y` not greater than `z`: smaller than `z`. */
  lemma BeforeThenNotAfter(x: Entry, y: Entry, z: Entry)
    requires Alternating(y.key) && Alternating(z.key)
    requires Before(x, y) && !Before(z, y)
    ensures Before(x, z)
  {
    AlternatingCompatible(y.key, z.key);
    KeyLtTrichotomy(y.key, z.key);
    if KeyLt(y.key, z.key) == Some(true) {
      KeyLtTransitive(x.key, y.key, z.key);
    }
  }

  /** Neither entry is smaller: their keys are equal. */
  lemma NeitherBefore(x: Entry, y: Entry)
    requires Alternating(x.key) && Alternating(y.key)
    requires !Before(x, y) && !Before(y, x)
    ensures x.key == y.key
  {
    AlternatingCompatible(x.key, y.key);
    KeyLtTrichotomy(x.key, y.key);
  }

  lemma AllKeyedSlice(s: seq<Entry>, a: nat, b: nat)
    requires AllKeyed(s) && a <= b <= |s|
    ensures AllKeyed(s[a..b])
  {
    forall e | e in s[a..b]
      ensures e in s
    {
      var m :| 0 <= m < b - a && s[a..b][m] == e;
      assert s[a + m] == e;
    }
  }

  lemma SortedSlice(s: seq<Entry>, a: nat)
    requires SortedByKey(s) && a <= |s|
    ensures SortedByKey(s[a..])
  {
    forall i, j | 0 <= i < j < |s[a..]|
      ensures !Before(s[a..][j], s[a..][i])
    {
      assert s[a..][i] == s[a + i] && s[a..][j] == s[a + j];
    }
  }

  lemma AllKeyedSorted(s: seq<Entry>)
    requires AllKeyed(s)
    ensures AllKeyed(SortByKey(s))
  {
    var r := SortByKey(s);
    forall e | e in r
      ensures Alternating(e.key)
    {
      assert e in multiset(r);
    }
  }

  // ---------------------------------------------------------------- sorted

  /** Inserting into a sorted sequence keeps it sorted. */
  lemma {:induction false} InsertSorted(sorted: seq<Entry>, x: Entry)
    requires AllKeyed(sorted)
    requires SortedByKey(sorted)
    ensures SortedByKey(Insert(sorted, x))
    decreases |sorted|
  {
    if |sorted| > 0 {
      if Before(x, sorted[0]) {
        InsertFront(sorted, x);
      } else {
        AllKeyedSlice(sorted, 1, |sorted|);
        SortedSlice(sorted, 1);
        assert sorted[1..|sorted|] == sorted[1..];
        InsertSorted(sorted[1..], x);
        HeadBelowInserted(sorted, x);
        ConsSorted(sorted[0], Insert(sorted[1..], x));
      }
    }
  }

  lemma InsertFront(sorted: seq<Entry>, x: Entry)
    requires AllKeyed(sorted) && SortedByKey(sorted)
    requires |sorted| > 0 && Before(x, sorted[0])
    ensures SortedByKey([x] + sorted)
  {
    var r := [x] + sorted;
    forall i, j | 0 <= i < j < |r|
      ensures !Before(r[j], r[i])
    {
      if i == 0 {
        assert r[j] == sorted[j - 1];
        assert sorted[j - 1] in sorted;
        if j > 1 {
          BeforeThenNotAfter(x, sorted[0], sorted[j - 1]);
        }
        BeforeAsymmetric(x, r[j]);
      } else {
        assert r[i] == sorted[i - 1] && r[j] == sorted[j - 1];
      }
    }
  }

  /** A head below none of a sorted rest gives a sorted sequence. */
  lemma ConsSorted(head: Entry, rest: seq<Entry>)
    requires SortedByKey(rest)
    requires forall y :: y in rest ==> !Before(y, head)
    ensures SortedByKey([head] + rest)
  {
    var r := [head] + rest;
    forall i, j | 0 <= i < j < |r|
      ensures !Before(r[j], r[i])
    {
      assert r[j] == rest[j - 1];
      if i == 0 {
        assert rest[j - 1] in rest;
      } else {
        assert r[i] == rest[i - 1];
      }
    }
  }

  /** The head of a sorted sequence is below nothing inserted behind it. */
  lemma HeadBelowInserted(sorted: seq<Entry>, x: Entry)
    requires SortedByKey(sorted)
    requires |sorted| > 0 && !Before(x, sorted[0])
    ensures forall y :: y in Insert(sorted[1..], x) ==> !Before(y, sorted[0])
  {
    var rest := Insert(sorted[1..], x);
    forall y | y in rest
      ensures !Before(y, sorted[0])
    {
      assert y in multiset(rest);
      if y != x {
        assert y in multiset(sorted[1..]);
        var m :| 0 <= m < |sorted[1..]| && sorted[1..][m] == y;
        assert sorted[m + 1] == y;
      }
    }
  }

  /** The sort orders the entries by key. */
  lemma {:induction false} SortSorted(s: seq<Entry>)
    requires AllKeyed(s)
    ensures SortedByKey(SortByKey(s))
    decreases |s|
  {
    if |s| > 0 {
      var init := s[..|s| - 1];
      AllKeyedSlice(s, 0, |s| - 1);
      assert s[0..|s| - 1] == init;
      SortSorted(init);
      AllKeyedSorted(init);
      InsertSorted(SortByKey(init), s[|s| - 1]);
    }
  }

  // ---------------------------------------------------------------- stable

  /** Entries all greater than `x` contribute nothing to the entries with the key of `x`. */
  lemma {:induction false} AboveHasNoneWithKey(s: seq<Entry>, x: Entry)
    requires forall i :: 0 <= i < |s| ==> Before(x, s[i])
    ensures WithKey(s, x.key) == []
    decreases |s|
  {
    if |s| > 0 {
      KeyLtIrreflexive(x.key);
      assert s[0].key != x.key;
      AboveHasNoneWithKey(s[1..], x);
    }
  }

  /** Inserting `x` appends it to the entries with its key and changes no other key's entries. */
  lemma {:induction false} InsertWithKey(sorted: seq<Entry>, x: Entry, k: seq<Token>)
    requires AllKeyed(sorted)
    requires SortedByKey(sorted)
    ensures WithKey(Insert(sorted, x), k) == WithKey(sorted, k) + (if x.key == k then [x] else [])
    decreases |sorted|
  {
    if |sorted| == 0 {
      WithKeyCons(x, [], k);
    } else if Before(x, sorted[0]) {
      InsertWithKeyFront(sorted, x, k);
    } else {
      AllKeyedSlice(sorted, 1, |sorted|);
      SortedSlice(sorted, 1);
      assert sorted[1..|sorted|] == sorted[1..];
      InsertWithKey(sorted[1..], x, k);
      InsertWithKeyBehind(sorted, x, k);
    }
  }

  lemma InsertWithKeyFront(sorted: seq<Entry>, x: Entry, k: seq<Token>)
    requires AllKeyed(sorted) && SortedByKey(sorted)
    requires |sorted| > 0 && Before(x, sorted[0])
    ensures WithKey(Insert(sorted, x), k) == WithKey(sorted, k) + (if x.key == k then [x] else [])
  {
    WithKeyCons(x, sorted, k);
    if x.key == k {
      BeforeHeadBeforeAll(sorted, x);
      AboveHasNoneWithKey(sorted, x);
    }
  }

  /** An entry before the head of a sorted sequence is before every entry of it. */
  lemma BeforeHeadBeforeAll(sorted: seq<Entry>, x: Entry)
    requires AllKeyed(sorted) && SortedByKey(sorted)
    requires |sorted| > 0 && Before(x, sorted[0])
    ensures forall i :: 0 <= i < |sorted| ==> Before(x, sorted[i])
  {
    forall i | 0 < i < |sorted|
      ensures Before(x, sorted[i])
    {
      assert sorted[i] in sorted && sorted[0] in sorted;
      BeforeThenNotAfter(x, sorted[0], sorted[i]);
    }
  }

  lemma InsertWithKeyBehind(sorted: seq<Entry>, x: Entry, k: seq<Token>)
    requires |sorted| > 0 && !Before(x, sorted[0])
    requires WithKey(Insert(sorted[1..], x), k) == WithKey(sorted[1..], k) + (if x.key == k then [x] else [])
    ensures WithKey(Insert(sorted, x), k) == WithKey(sorted, k) + (if x.key == k then [x] else [])
  {
    var rest := Insert(sorted[1..], x);
    assert Insert(sorted, x) == [sorted[0]] + rest;
    WithKeyCons(sorted[0], rest, k);
    WithKeyCons(sorted[0], sorted[1..], k);
    assert [sorted[0]] + sorted[1..] == sorted;
  }

  lemma WithKeyCons(x: Entry, s: seq<Entry>, k: seq<Token>)
    ensures WithKey([x] + s, k) == (if x.key == k then [x] else []) + WithKey(s, k)
  {
    assert ([x] + s)[1..] == s;
  }

  lemma {:induction false} WithKeyAppend(s: seq<Entry>, t: seq<Entry>, k: seq<Token>)
    ensures WithKey(s + t, k) == WithKey(s, k) + WithKey(t, k)
    decreases |s|
  {
    if |s| > 0 {
      WithKeyAppend(s[1..], t, k);
      WithKeyCons(s[0], s[1..] + t, k);
      WithKeyCons(s[0], s[1..], k);
      assert [s[0]] + (s[1..] + t) == s + t;
      assert [s[0]] + s[1..] == s;
    } else {
      assert s + t == t;
    }
  }

  /** Entries with equal keys come out of the sort in the order they went in. */
  lemma {:induction false} SortStable(s: seq<Entry>, k: seq<Token>)
    requires AllKeyed(s)
    ensures WithKey(SortByKey(s), k) == WithKey(s, k)
    decreases |s|
  {
    if |s| > 0 {
      var init := s[..|s| - 1];
      var x := s[|s| - 1];
      assert init + [x] == s;
      AllKeyedSlice(s, 0, |s| - 1);
      assert s[0..|s| - 1] == init;
      SortStable(init, k);
      SortSorted(init);
      AllKeyedSorted(init);
      InsertWithKey(SortByKey(init), x, k);
      WithKeyAppend(init, [x], k);
      WithKeyCons(x, [], k);
      assert [x] + [] == [x];
    }
  }

  /** The sort is a sorted, stable permutation of its input. */
  lemma SortCorrect(s: seq<Entry>)
    requires AllKeyed(s)
    ensures multiset(SortByKey(s)) == multiset(s)
    ensures SortedByKey(SortByKey(s))
    ensures StableFor(SortByKey(s), s)
  {
    SortSorted(s);
    forall k {
      SortStable(s, k);
    }
  }

  // ---------------------------------------------------------------- unique

  /** Any sorted, stable rearrangement of the entries is the sort's result, so every stable sort agrees with it. */
  lemma SortUnique(s: seq<Entry>, r: seq<Entry>)
    requires AllKeyed(s) && AllKeyed(r)
    requires SortedByKey(r) && StableFor(r, s)
    ensures r == SortByKey(s)
  {
    SortCorrect(s);
    AllKeyedSorted(s);
    var t := SortByKey(s);
    forall k
      ensures WithKey(r, k) == WithKey(t, k)
    {
      assert WithKey(r, k) == WithKey(s, k);
      assert WithKey(t, k) == WithKey(s, k);
    }
    SortedStableEqual(r, t);
  }

  /** Two sorted sequences with the same entries under every key are equal. */
  lemma {:induction false} SortedStableEqual(a: seq<Entry>, b: seq<Entry>)
    requires AllKeyed(a) && AllKeyed(b)
    requires SortedByKey(a) && SortedByKey(b)
    requires forall k :: WithKey(a, k) == WithKey(b, k)
    ensures a == b
    decreases |a|
  {
    BothNonEmpty(a, b);
    BothNonEmpty(b, a);
    if |a| > 0 {
      SameHead(a, b);
      forall k
        ensures WithKey(a[1..], k) == WithKey(b[1..], k)
      {
        DropHead(a, b, k);
      }
      AllKeyedSlice(a, 1, |a|);
      AllKeyedSlice(b, 1, |b|);
      assert a[1..|a|] == a[1..] && b[1..|b|] == b[1..];
      SortedSlice(a, 1);
      SortedSlice(b, 1);
      SortedStableEqual(a[1..], b[1..]);
      assert a == [a[0]] + a[1..] && b == [b[0]] + b[1..];
    }
  }

  lemma BothNonEmpty(a: seq<Entry>, b: seq<Entry>)
    requires forall k :: WithKey(a, k) == WithKey(b, k)
    ensures |b| > 0 ==> |a| > 0
  {
    if |b| > 0 {
      NonEmptyWithKey(b);
      assert WithKey(a, b[0].key) != [];
    }
  }

  lemma NonEmptyWithKey(s: seq<Entry>)
    requires |s| > 0
    ensures WithKey(s, s[0].key) != []
  {
    WithKeyCons(s[0], s[1..], s[0].key);
    assert s == [s[0]] + s[1..];
  }

  lemma DropHead(a: seq<Entry>, b: seq<Entry>, k: seq<Token>)
    requires |a| > 0 && |b| > 0 && a[0] == b[0]
    requires WithKey(a, k) == WithKey(b, k)
    ensures WithKey(a[1..], k) == WithKey(b[1..], k)
  {
    WithKeyCons(a[0], a[1..], k);
    WithKeyCons(b[0], b[1..], k);
    assert a == [a[0]] + a[1..] && b == [b[0]] + b[1..];
    var head := if a[0].key == k then [a[0]] else [];
    assert head + WithKey(a[1..], k) == head + WithKey(b[1..], k);
    assert WithKey(a[1..], k) == (head + WithKey(a[1..], k))[|head|..];
    assert WithKey(b[1..], k) == (head + WithKey(b[1..], k))[|head|..];
  }

  /** Two sorted sequences with the same entries under every key start with the same entry. */
  lemma SameHead(a: seq<Entry>, b: seq<Entry>)
    requires |a| > 0 && |b| > 0
    requires AllKeyed(a) && AllKeyed(b)
    requires SortedByKey(a) && SortedByKey(b)
    requires forall k :: WithKey(a, k) == WithKey(b, k)
    ensures a[0] == b[0]
  {
    HeadNotAbove(a, b);
    HeadNotAbove(b, a);
    assert a[0] in a && b[0] in b;
    NeitherBefore(a[0], b[0]);
    FirstWithOwnKey(a);
    FirstWithOwnKey(b);
    var w := WithKey(a, a[0].key);
    assert w == WithKey(b, b[0].key);
    assert w[0] == a[0] && w[0] == b[0];
  }

  /** The head of `a` is not below the head of `b`: some entry of `b` has its key, and none of `b` is below `b[0]`. */
  lemma HeadNotAbove(a: seq<Entry>, b: seq<Entry>)
    requires |a| > 0 && |b| > 0
    requires SortedByKey(b)
    requires forall k :: WithKey(a, k) == WithKey(b, k)
    ensures !Before(a[0], b[0])
  {
    NonEmptyWithKey(a);
    assert WithKey(b, a[0].key) == WithKey(a, a[0].key);
    var j := MemberOfWithKey(b, a[0].key);
    SortedHeadLeast(b, j);
  }

  lemma FirstWithOwnKey(s: seq<Entry>)
    requires |s| > 0
    ensures WithKey(s, s[0].key) == [s[0]] + WithKey(s[1..], s[0].key)
  {
    WithKeyCons(s[0], s[1..], s[0].key);
    assert s == [s[0]] + s[1..];
  }

  lemma SortedHeadLeast(s: seq<Entry>, j: nat)
    requires SortedByKey(s) && j < |s|
    ensures !Before(s[j], s[0])
  {
    if j == 0 {
      BeforeIrreflexive(s[0]);
    }
  }

  /** A key whose selection is non-empty is the key of some entry. */
  lemma {:induction false} MemberOfWithKey(s: seq<Entry>, k: seq<Token>) returns (j: nat)
    requires WithKey(s, k) != []
    ensures j < |s| && s[j].key == k
    decreases |s|
  {
    if s[0].key == k {
      j := 0;
    } else {
      WithKeyCons(s[0], s[1..], k);
      assert s == [s[0]] + s[1..];
      var m := MemberOfWithKey(s[1..], k);
      j := m + 1;
    }
  }

  // ---------------------------------------------------------------- on paths

  /** The sorted paths are the input paths rearranged, in ascending natural-key order. */
  lemma SortPathsCorrect(paths: seq<string>)
    requires AllNamed(paths)
    ensures multiset(SortPaths(paths)) == multiset(paths)
    ensures AllNamed(SortPaths(paths))
    ensures forall i, j :: 0 <= i < j < |paths| ==>
      KeyLe(NaturalKeys(SortPaths(paths)[i]), NaturalKeys(SortPaths(paths)[j]))
  {
    var d := Decorate(paths);
    var r := SortByKey(d);
    SortCorrect(d);
    PathsMultiset(r, d);
    assert Paths(d) == paths;
    SortedEntriesNamed(paths);
    forall i, j | 0 <= i < j < |paths|
      ensures KeyLe(NaturalKeys(r[i].path), NaturalKeys(r[j].path))
    {
      SortedPair(paths, i, j);
    }
  }

  lemma SortedEntriesNamed(paths: seq<string>)
    requires AllNamed(paths)
    ensures forall e :: e in SortByKey(Decorate(paths)) ==> NameOk(e.path) && e.key == NaturalKeys(e.path)
    ensures AllNamed(SortPaths(paths))
  {
    var d := Decorate(paths);
    var r := SortByKey(d);
    forall e | e in r
      ensures NameOk(e.path) && e.key == NaturalKeys(e.path)
    {
      assert e in multiset(r);
      assert e in multiset(d);
      var m :| 0 <= m < |d| && d[m] == e;
    }
    EntriesNamed(r);
  }

  lemma EntriesNamed(r: seq<Entry>)
    requires forall e :: e in r ==> NameOk(e.path)
    ensures AllNamed(Paths(r))
  {
    forall i | 0 <= i < |r|
      ensures NameOk(Paths(r)[i])
    {
      assert r[i] in r;
    }
  }

  lemma SortedPair(paths: seq<string>, i: nat, j: nat)
    requires AllNamed(paths)
    requires i < j < |paths|
    requires forall e :: e in SortByKey(Decorate(paths)) ==> NameOk(e.path) && e.key == NaturalKeys(e.path)
    requires SortedByKey(SortByKey(Decorate(paths)))
    ensures NameOk(SortByKey(Decorate(paths))[i].path) && NameOk(SortByKey(Decorate(paths))[j].path)
    ensures KeyLe(NaturalKeys(SortByKey(Decorate(paths))[i].path), NaturalKeys(SortByKey(Decorate(paths))[j].path))
  {
    var r := SortByKey(Decorate(paths));
    var x, y := r[i], r[j];
    assert x in r && y in r;
    assert !Before(y, x);
    NaturalKeysComparable(y.key, x.key);
    var c := KeyLt(y.key, x.key);
    assert c.Some? && !c.value;
  }

  /** Entries that are a rearrangement of each other have paths that are a rearrangement of each other. */
  lemma {:induction false} PathsMultiset(r: seq<Entry>, s: seq<Entry>)
    requires multiset(r) == multiset(s)
    ensures multiset(Paths(r)) == multiset(Paths(s))
    decreases |s|
  {
    if |s| == 0 {
      assert |r| == |multiset(r)| == 0;
    } else {
      var x := s[0];
      assert x in multiset(r);
      var m :| 0 <= m < |r| && r[m] == x;
      var r', s' := r[..m] + r[m + 1..], s[1..];
      RemoveAt(r, m);
      RemoveHead(s);
      Cancel(multiset(r'), multiset(s'), x);
      PathsMultiset(r', s');
      PathsRemoveAt(r, m);
      PathsRemoveHead(s);
      MultisetStep(multiset(Paths(r)), multiset(Paths(r')), multiset(Paths(s)), multiset(Paths(s')), x.path);
    }
  }

  lemma MultisetStep(a: multiset<string>, a': multiset<string>, b: multiset<string>, b': multiset<string>, p: string)
    requires a == a' + multiset{p} && b == b' + multiset{p} && a' == b'
    ensures a == b
  {
  }

  lemma Cancel(a: multiset<Entry>, b: multiset<Entry>, x: Entry)
    requires a + multiset{x} == b + multiset{x}
    ensures a == b
  {
    assert forall y :: a[y] == (a + multiset{x})[y] - multiset{x}[y];
  }

  /** Removing the element at `m` takes exactly one copy of it out of the multiset. */
  lemma RemoveAt<T>(r: seq<T>, m: nat)
    requires m < |r|
    ensures multiset(r) == multiset(r[..m] + r[m + 1..]) + multiset{r[m]}
  {
    assert r == r[..m] + [r[m]] + r[m + 1..];
  }

  lemma RemoveHead(s: seq<Entry>)
    requires |s| > 0
    ensures multiset(s) == multiset(s[1..]) + multiset{s[0]}
  {
    assert s == [s[0]] + s[1..];
  }

  lemma PathsRemoveAt(r: seq<Entry>, m: nat)
    requires m < |r|
    ensures multiset(Paths(r)) == multiset(Paths(r[..m] + r[m + 1..])) + multiset{r[m].path}
  {
    var p, q := Paths(r), Paths(r[..m] + r[m + 1..]);
    forall i | 0 <= i < |q|
      ensures q[i] == (p[..m] + p[m + 1..])[i]
    {
      if i < m {
        assert (r[..m] + r[m + 1..])[i] == r[i];
      } else {
        assert (r[..m] + r[m + 1..])[i] == r[i + 1];
      }
    }
    assert q == p[..m] + p[m + 1..];
    RemoveAt(p, m);
  }

  lemma PathsRemoveHead(s: seq<Entry>)
    requires |s| > 0
    ensures multiset(Paths(s)) == multiset(Paths(s[1..])) + multiset{s[0].path}
  {
    var t := Paths(s[1..]);
    assert Paths(s) == [s[0].path] + t;
    MultisetCons(s[0].path, t);
  }

  lemma MultisetCons(p: string, t: seq<string>)
    ensures multiset([p] + t) == multiset(t) + multiset{p}
  {
  }
}
