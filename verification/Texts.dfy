/** ASCII strings: splitting, joining, and the byte order in which they are sorted. */
module Texts {
  import opened Common

  type Char = c: char | c as int < 0x80 witness 'a'
  type Text = seq<Char>

  /** Position of the first c; the length if there is none. */
  function Index(s: Text, c: Char): (i: nat)
    ensures i <= |s| && c !in s[..i] && (i < |s| ==> s[i] == c)
    ensures i == |s| <==> c !in s
  {
    if s == [] then 0
    else if s[0] == c then 0
    else
      var i := 1 + Index(s[1..], c);
      assert s[..i] == [s[0]] + s[1..][..i - 1];
      i
  }

  /** strings.SplitN(s, c, 2): None when it gives one part only. */
  function SplitFirst(s: Text, c: Char): Option<(Text, Text)> {
    var i := Index(s, c);
    if i == |s| then None else Some((s[..i], s[i + 1..]))
  }

  lemma {:induction false} NotAmong(s: Text, c: Char, n: nat)
    requires n <= |s| && c !in s[..n]
    ensures forall k :: 0 <= k < n ==> s[k] != c
  {
    forall k | 0 <= k < n ensures s[k] != c {
      assert s[..n][k] == s[k];
    }
  }

  lemma {:induction false} IndexIsFirst(s: Text, c: Char, i: nat)
    requires i < |s| && s[i] == c && c !in s[..i]
    ensures Index(s, c) == i
  {
    NotAmong(s, c, i);
    NotAmong(s, c, Index(s, c));
  }

  lemma {:induction false} SplitFirstOf(a: Text, c: Char, b: Text)
    requires c !in a
    ensures SplitFirst(a + [c] + b, c) == Some((a, b))
  {
    var s := a + [c] + b;
    assert s[..|a|] == a;
    IndexIsFirst(s, c, |a|);
    assert s[|a| + 1..] == b;
  }

  lemma {:induction false} SplitFirstGlues(s: Text, c: Char)
    ensures SplitFirst(s, c).Some? ==>
              var (a, b) := SplitFirst(s, c).value;
              s == a + [c] + b && c !in a
    ensures SplitFirst(s, c).None? <==> c !in s
  {
  }

  /** strings.Split(s, c): at least one part. */
  function Split(s: Text, c: Char): (parts: seq<Text>)
    ensures parts != []
  {
    var i := Index(s, c);
    if i == |s| then [s] else [s[..i]] + Split(s[i + 1..], c)
  }

  function Join(parts: seq<Text>, c: Char): Text {
    if parts == [] then []
    else if |parts| == 1 then parts[0]
    else parts[0] + [c] + Join(parts[1..], c)
  }

  /** Splitting undoes joining parts without the separator. */
  lemma {:induction false} SplitJoin(parts: seq<Text>, c: Char)
    requires parts != [] && forall i :: 0 <= i < |parts| ==> c !in parts[i]
    ensures Split(Join(parts, c), c) == parts
  {
    if |parts| > 1 {
      SplitFirstOf(parts[0], c, Join(parts[1..], c));
      var s := Join(parts, c);
      assert s[..|parts[0]|] == parts[0];
      IndexIsFirst(s, c, |parts[0]|);
      assert s[|parts[0]| + 1..] == Join(parts[1..], c);
      SplitJoin(parts[1..], c);
    }
  }

  /** Joining undoes splitting, and no part holds the separator. */
  lemma {:induction false} JoinSplit(s: Text, c: Char)
    ensures Join(Split(s, c), c) == s
    ensures forall p <- Split(s, c) :: c !in p
  {
    var i := Index(s, c);
    if i < |s| {
      JoinSplit(s[i + 1..], c);
      assert s == s[..i] + [c] + s[i + 1..];
      assert Split(s, c)[1..] == Split(s[i + 1..], c);
    }
  }

  lemma {:induction false} JoinAppend(xs: seq<Text>, ys: seq<Text>, c: Char)
    requires xs != [] && ys != []
    ensures Join(xs + ys, c) == Join(xs, c) + [c] + Join(ys, c)
  {
    assert (xs + ys)[1..] == xs[1..] + ys;
    if |xs| == 1 {
      assert xs[1..] + ys == ys;
    } else {
      JoinAppend(xs[1..], ys, c);
      assert xs[0] + [c] + (Join(xs[1..], c) + [c] + Join(ys, c)) == xs[0] + [c] + Join(xs[1..], c) + [c] + Join(ys, c);
    }
  }

  lemma {:induction false} SplitAppend(a: Text, c: Char, b: Text)
    ensures Split(a + [c] + b, c) == Split(a, c) + Split(b, c)
  {
    var xs, ys := Split(a, c), Split(b, c);
    JoinSplit(a, c);
    JoinSplit(b, c);
    hide Split, Join;
    JoinAppend(xs, ys, c);
    var parts := xs + ys;
    forall i | 0 <= i < |parts| ensures c !in parts[i] {
      assert i < |xs| ==> xs[i] in xs;
      assert i >= |xs| ==> ys[i - |xs|] in ys;
    }
    SplitJoin(parts, c);
  }

  lemma {:induction false} JoinHas(parts: seq<Text>, c: Char, d: Char)
    requires c != d && forall i :: 0 <= i < |parts| ==> d !in parts[i]
    ensures d !in Join(parts, c)
  {
    if |parts| > 1 {
      JoinHas(parts[1..], c, d);
    }
  }

  // ---------------------------------------------------------------- order

  /** Byte order. */
  predicate Less(s: Text, t: Text) {
    t != [] && (s == [] || s[0] < t[0] || (s[0] == t[0] && Less(s[1..], t[1..])))
  }

  lemma {:induction false} LessIsTotal(s: Text, t: Text)
    ensures s == t || Less(s, t) || Less(t, s)
    ensures !(Less(s, t) && Less(t, s)) && !Less(s, s)
  {
    if s != [] {
      LessIsTotal(s[1..], s[1..]);
      if t != [] {
        LessIsTotal(s[1..], t[1..]);
        if s[0] == t[0] && s[1..] == t[1..] {
          assert s == [s[0]] + s[1..] == t;
        }
      }
    }
  }

  /** The first difference, or the end, comes after k equal characters and puts s before t. */
  predicate BeforeAt(s: Text, t: Text, k: int) {
    && 0 <= k <= |s| && k < |t| && s[..k] == t[..k]
    && (k == |s| || s[k] as int < t[k] as int)
  }

  /** Less is the order of strings in bytes: a beginning comes first, else the first difference decides. */
  lemma {:induction false} LessIs(s: Text, t: Text)
    ensures Less(s, t) <==> exists k :: BeforeAt(s, t, k)
  {
    if t != [] && s != [] && s[0] == t[0] {
      LessIs(s[1..], t[1..]);
      if k :| BeforeAt(s[1..], t[1..], k) {
        assert s[..k + 1] == [s[0]] + s[1..][..k] && t[..k + 1] == [t[0]] + t[1..][..k];
        assert BeforeAt(s, t, k + 1);
      }
      if k :| BeforeAt(s, t, k) && k > 0 {
        assert s[1..][..k - 1] == s[..k][1..] && t[1..][..k - 1] == t[..k][1..];
        assert BeforeAt(s[1..], t[1..], k - 1);
      }
    } else {
      assert t != [] && (s == [] || s[0] < t[0]) ==> BeforeAt(s, t, 0);
    }
  }

  lemma {:induction false} LessIsTransitive(s: Text, t: Text, u: Text)
    requires Less(s, t) && Less(t, u)
    ensures Less(s, u)
  {
    if s != [] && s[0] == t[0] == u[0] {
      LessIsTransitive(s[1..], t[1..], u[1..]);
    }
  }

  /** Strictly increasing: sorted, and without repetition. */
  predicate Sorted(xs: seq<Text>) {
    forall i, j :: 0 <= i < j < |xs| ==> Less(xs[i], xs[j])
  }

  function Insert(x: Text, xs: seq<Text>): seq<Text> {
    if xs == [] then [x]
    else if x == xs[0] then xs
    else if Less(x, xs[0]) then [x] + xs
    else [xs[0]] + Insert(x, xs[1..])
  }

  /** The distinct elements in increasing order. */
  function SortUnique(xs: seq<Text>): seq<Text> {
    if xs == [] then [] else Insert(xs[0], SortUnique(xs[1..]))
  }

  lemma {:induction false} InsertElements(x: Text, xs: seq<Text>)
    ensures Elements(Insert(x, xs)) == Elements(xs) + {x}
    ensures |Insert(x, xs)| <= |xs| + 1
  {
    hide Less;
    if xs != [] {
      InsertElements(x, xs[1..]);
      ElementsCons(x, xs);
      ElementsCons(xs[0], xs[1..]);
      ElementsCons(xs[0], Insert(x, xs[1..]));
      assert [xs[0]] + xs[1..] == xs;
      assert xs[0] in Elements(xs);
      hide Elements;
    }
  }

  lemma {:induction false} SortedCons(x: Text, xs: seq<Text>)
    requires Sorted(xs) && forall y <- xs :: Less(x, y)
    ensures Sorted([x] + xs)
  {
    hide Less;
    assert forall j :: 0 <= j < |xs| ==> xs[j] in xs;
  }

  lemma {:induction false} InsertSorts(x: Text, xs: seq<Text>)
    requires Sorted(xs)
    ensures Sorted(Insert(x, xs))
  {
    if xs != [] {
      LessIsTotal(x, xs[0]);
      hide Less;
      if Less(x, xs[0]) {
        forall y | y in xs ensures Less(x, y) {
          var j :| 0 <= j < |xs| && xs[j] == y;
          if j > 0 {
            LessIsTransitive(x, xs[0], xs[j]);
          }
        }
        SortedCons(x, xs);
      } else if x != xs[0] {
        var rest := Insert(x, xs[1..]);
        InsertSorts(x, xs[1..]);
        InsertElements(x, xs[1..]);
        forall y | y in rest ensures Less(xs[0], y) {
          assert y in Elements(rest);
          if y != x {
            assert y in xs[1..];
          }
        }
        SortedCons(xs[0], rest);
      }
    }
  }

  lemma {:induction false} SortUniqueSorts(xs: seq<Text>)
    ensures Sorted(SortUnique(xs))
    ensures Elements(SortUnique(xs)) == Elements(xs)
    ensures |SortUnique(xs)| <= |xs|
  {
    if xs != [] {
      SortUniqueSorts(xs[1..]);
      InsertSorts(xs[0], SortUnique(xs[1..]));
      InsertElements(xs[0], SortUnique(xs[1..]));
      ElementsCons(xs[0], xs[1..]);
      assert [xs[0]] + xs[1..] == xs;
      hide Elements, Insert, Sorted;
    }
  }

  /** There is one strictly increasing sequence of a set of texts. */
  lemma {:induction false} SortedIsUnique(xs: seq<Text>, ys: seq<Text>)
    requires Sorted(xs) && Sorted(ys) && Elements(xs) == Elements(ys)
    ensures xs == ys
  {
    assert xs != [] ==> xs[0] in Elements(xs);
    assert ys != [] ==> ys[0] in Elements(ys);
    if xs != [] {
      var i :| 0 <= i < |ys| && ys[i] == xs[0];
      var j :| 0 <= j < |xs| && xs[j] == ys[0];
      LessIsTotal(xs[0], ys[0]);
      assert xs[0] == ys[0];
      forall y ensures y in xs[1..] <==> y in ys[1..] {
        LessIsTotal(y, y);
        assert y in Elements(xs) <==> y in Elements(ys);
      }
      SortedIsUnique(xs[1..], ys[1..]);
    }
  }

  lemma {:induction false} SortUniqueOfSorted(xs: seq<Text>)
    requires Sorted(xs)
    ensures SortUnique(xs) == xs
  {
    SortUniqueSorts(xs);
    SortedIsUnique(SortUnique(xs), xs);
  }
}
