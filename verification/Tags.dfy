/** Stream tags: normalising, deduplicating, sorting and base64-encoding them, and merging them
    into metric names (internal/tags/tags.go), over ASCII strings. */
module Tags {
  import opened Common
  import opened Texts
  import Base64

  datatype Tag = Tag(category: Text, value: Text)

  const MAX_TAGS := 256

  /** What a part starts with that is base64-encoded already: b and a double quote. */
  const SIG: Text := ['b', '"']
  const ST_OPEN: Text := ['|', 'S', 'T', '[']

  // ---------------------------------------------------------------- parsing

  /** FromList: the elements without a colon are left out. */
  function FromList(list: seq<Text>): seq<Tag> {
    if list == [] then []
    else
      match SplitFirst(list[0], ':')
      case None => FromList(list[1..])
      case Some((c, v)) => [Tag(c, v)] + FromList(list[1..])
  }

  lemma {:induction false} FromListSplits(a: seq<Text>, b: seq<Text>)
    ensures FromList(a + b) == FromList(a) + FromList(b)
  {
    if a == [] {
      assert a + b == b;
    } else {
      assert (a + b)[1..] == a[1..] + b;
      FromListSplits(a[1..], b);
    }
  }

  /** fromList, as the loop it is. */
  method ParseList(list: seq<Text>) returns (tags: seq<Tag>)
    ensures tags == FromList(list)
  {
    tags := [];
    for i := 0 to |list|
      invariant tags == FromList(list[..i])
    {
      assert list[..i + 1] == list[..i] + [list[i]];
      FromListSplits(list[..i], [list[i]]);
      var t := SplitFirst(list[i], ':');
      if t.None? {
        continue;
      }
      tags := tags + [Tag(t.value.0, t.value.1)];
    }
    assert list[..|list|] == list;
  }

  // ---------------------------------------------------------------- normalising

  function Lower(c: Char): Char {
    if 'A' <= c <= 'Z' then (c as int + 32) as char else c
  }

  function ToLower(s: Text): Text {
    seq(|s|, i requires 0 <= i < |s| => Lower(s[i]))
  }

  predicate IsSpace(c: Char) {
    c == ' ' || 9 <= c as int <= 13
  }

  function RemoveSpaces(s: Text): Text {
    if s == [] then [] else (if IsSpace(s[0]) then [] else [s[0]]) + RemoveSpaces(s[1..])
  }

  function NormalCategory(category: Text): Text {
    if SIG <= category then category else RemoveSpaces(ToLower(category))
  }

  /** The tag as it counts; None when its category or value is empty then. */
  function Normal(t: Tag): Option<Tag> {
    var c := NormalCategory(t.category);
    if c == [] || t.value == [] then None else Some(Tag(c, t.value))
  }

  function NormalTags(tags: seq<Tag>): seq<Tag> {
    if tags == [] then []
    else (match Normal(tags[0]) case None => [] case Some(n) => [n]) + NormalTags(tags[1..])
  }

  lemma {:induction false} NormalTagsSplits(a: seq<Tag>, b: seq<Tag>)
    ensures NormalTags(a + b) == NormalTags(a) + NormalTags(b)
  {
    if a == [] {
      assert a + b == b;
    } else {
      assert (a + b)[1..] == a[1..] + b;
      NormalTagsSplits(a[1..], b);
    }
  }

  /** What of a category that is not encoded stays: all but the blanks, in order, and of a capital
      letter its small one. */
  predicate Remains(c: Text, n: Text, kept: seq<nat>) {
    && |kept| == |n|
    && (forall k :: 0 <= k < |kept| ==> kept[k] < |c| && n[k] == Small(c[kept[k]]))
    && (forall j, k :: 0 <= j < k < |kept| ==> kept[j] < kept[k])
    && (forall i :: 0 <= i < |c| ==> (i in kept <==> !Blank(c[i])))
  }

  predicate Blank(c: char) {
    c == ' ' || c == '\t' || c == '\n' || c as int == 11 || c as int == 12 || c == '\r'
  }

  /** 'A' to 'Z' are 32 below 'a' to 'z'. */
  function Small(c: char): char {
    if c in "ABCDEFGHIJKLMNOPQRSTUVWXYZ" then (c as int + 32) as char else c
  }

  lemma {:induction false} LowerIsSmall(c: Char)
    ensures Lower(c) == Small(c) && (IsSpace(c) <==> Blank(c)) && (IsSpace(Lower(c)) <==> Blank(c))
    ensures Small(c) !in "ABCDEFGHIJKLMNOPQRSTUVWXYZ"
  {
    CapitalsAre(c);
    CapitalsAre(Lower(c));
  }

  lemma {:induction false} CapitalsAre(c: char)
    ensures c in "ABCDEFGHIJKLMNOPQRSTUVWXYZ" <==> 65 <= c as int <= 90
  {
    var capitals := "ABCDEFGHIJKLMNOPQRSTUVWXYZ";
    assert forall i :: 0 <= i < 26 ==> capitals[i] as int == 65 + i;
    if 65 <= c as int <= 90 {
      assert capitals[c as int - 65] == c;
    }
  }

  lemma {:induction false} RemainsOf(c: Text) returns (kept: seq<nat>)
    ensures Remains(c, RemoveSpaces(ToLower(c)), kept)
    decreases |c|
  {
    if c == [] {
      kept := [];
    } else {
      var before := RemainsOf(c[1..]);
      NormalFirst(c);
      hide *;
      kept := RemainsCons(c, RemoveSpaces(ToLower(c[1..])), before);
    }
  }

  lemma {:induction false} NormalFirst(c: Text)
    requires c != []
    ensures RemoveSpaces(ToLower(c))
         == if Blank(c[0]) then RemoveSpaces(ToLower(c[1..])) else [Small(c[0])] + RemoveSpaces(ToLower(c[1..]))
  {
    LowerIsSmall(c[0]);
    hide Lower, IsSpace, Small, Blank;
    assert ToLower(c)[1..] == ToLower(c[1..]) && ToLower(c)[0] == Lower(c[0]);
  }

  lemma {:induction false} RemainsCons(c: Text, n: Text, before: seq<nat>) returns (kept: seq<nat>)
    requires c != [] && Remains(c[1..], n, before)
    ensures if Blank(c[0]) then Remains(c, n, kept) else Remains(c, [Small(c[0])] + n, kept)
  {
    var shifted: seq<nat> := seq(|before|, k requires 0 <= k < |before| => before[k] + 1);
    ShiftKept(c, n, before, shifted);
    hide Small, Blank;
    if Blank(c[0]) {
      kept := shifted;
    } else {
      kept := [0] + shifted;
      PutFirst(c, n, shifted);
    }
  }

  lemma {:induction false} PutFirst(c: Text, n: Text, shifted: seq<nat>)
    requires c != [] && |shifted| == |n| && !Blank(c[0])
    requires forall k :: 0 <= k < |shifted| ==> 0 < shifted[k] < |c| && n[k] == Small(c[shifted[k]])
    requires forall j, k :: 0 <= j < k < |shifted| ==> shifted[j] < shifted[k]
    requires forall i :: 0 < i < |c| ==> (i in shifted <==> !Blank(c[i]))
    ensures Remains(c, [Small(c[0])] + n, [0] + shifted)
  {
    hide Small, Blank;
    var kept: seq<nat> := [0] + shifted;
    var m := [Small(c[0])] + n;
    forall k | 0 <= k < |kept| ensures kept[k] < |c| && m[k] == Small(c[kept[k]]) {
      assert k > 0 ==> kept[k] == shifted[k - 1] && m[k] == n[k - 1];
    }
    forall j, k | 0 <= j < k < |kept| ensures kept[j] < kept[k] {
      assert kept[k] == shifted[k - 1];
      assert j > 0 ==> kept[j] == shifted[j - 1];
    }
    assert forall i :: i in kept <==> i == 0 || i in shifted;
  }

  lemma {:induction false} ShiftKept(c: Text, n: Text, before: seq<nat>, shifted: seq<nat>)
    requires c != [] && Remains(c[1..], n, before)
    requires |shifted| == |before| && forall k :: 0 <= k < |before| ==> shifted[k] == before[k] + 1
    ensures forall k :: 0 <= k < |shifted| ==> 0 < shifted[k] < |c| && n[k] == Small(c[shifted[k]])
    ensures forall j, k :: 0 <= j < k < |shifted| ==> shifted[j] < shifted[k]
    ensures 0 !in shifted && forall i :: 0 < i < |c| ==> (i in shifted <==> !Blank(c[i]))
  {
    hide Small, Blank;
    forall i | 0 < i < |c| ensures i in shifted <==> i - 1 in before {
      if k :| 0 <= k < |before| && before[k] == i - 1 {
        assert shifted[k] == i;
      }
    }
    assert forall i :: 0 < i < |c| ==> c[1..][i - 1] == c[i];
  }

  /** Normalising, stated on the characters: an encoded category stays as it is; of any other the
      blanks go and capitals become small. What is left of the tag counts, unless either part is
      empty. */
  lemma {:induction false} NormalisingIs(t: Tag) returns (kept: seq<nat>)
    ensures var n := NormalCategory(t.category);
            && (['b', '"'] <= t.category ==> n == t.category)
            && (!(['b', '"'] <= t.category) ==>
                  && Remains(t.category, n, kept)
                  && forall c <- n :: !Blank(c) && c !in "ABCDEFGHIJKLMNOPQRSTUVWXYZ")
            && Normal(t) == if n == [] || t.value == [] then None else Some(Tag(n, t.value))
  {
    kept := RemainsOf(t.category);
    var n := RemoveSpaces(ToLower(t.category));
    forall c | c in n ensures !Blank(c) && c !in "ABCDEFGHIJKLMNOPQRSTUVWXYZ" {
      var k :| 0 <= k < |n| && n[k] == c;
      assert kept[k] in kept;
      LowerIsSmall(t.category[kept[k]]);
      LowerIsSmall(c);
      BlankWhenSmall(t.category[kept[k]]);
    }
  }

  lemma {:induction false} BlankWhenSmall(c: Char)
    ensures Blank(Small(c)) ==> Blank(c)
  {
    LowerIsSmall(c);
    CapitalsAre(c);
  }

  /** Two characters that are equal but for their case. */
  predicate SameLetter(c: char, d: char) {
    Small(c) == Small(d)
  }

  lemma {:induction false} CaseDoesNotCount(a: Text, b: Text)
    requires |a| == |b| && forall i :: 0 <= i < |a| ==> SameLetter(a[i], b[i])
    ensures ToLower(a) == ToLower(b)
  {
    forall i | 0 <= i < |a| ensures ToLower(a)[i] == ToLower(b)[i] {
      LowerIsSmall(a[i]);
      LowerIsSmall(b[i]);
      assert SameLetter(a[i], b[i]);
    }
  }

  lemma {:induction false} BlanksDoNotCount(a: Text, blank: Char, b: Text)
    requires Blank(blank)
    ensures RemoveSpaces(ToLower(a + [blank] + b)) == RemoveSpaces(ToLower(a + b))
    decreases |a|
  {
    LowerIsSmall(blank);
    hide Lower, IsSpace, Small, Blank;
    var with, without := a + [blank] + b, a + b;
    assert ToLower(with)[1..] == ToLower(with[1..]);
    if a == [] {
      assert with[1..] == b == without;
    } else {
      assert ToLower(without)[1..] == ToLower(without[1..]);
      assert with[1..] == a[1..] + [blank] + b && without[1..] == a[1..] + b;
      BlanksDoNotCount(a[1..], blank, b);
    }
  }

  /** The tags looked at: no more than 256. */
  function First<T>(xs: seq<T>): seq<T> {
    if |xs| > MAX_TAGS then xs[..MAX_TAGS] else xs
  }

  /** The set of tags a list stands for. */
  ghost function NormalSet(tags: seq<Tag>): set<Tag> {
    Elements(NormalTags(First(tags)))
  }

  function Plain(t: Tag): Text {
    t.category + [':'] + t.value
  }

  function Map(f: Tag -> Text, tags: seq<Tag>): seq<Text> {
    seq(|tags|, i requires 0 <= i < |tags| => f(tags[i]))
  }

  function MapText(f: Text -> Text, ts: seq<Text>): seq<Text> {
    seq(|ts|, i requires 0 <= i < |ts| => f(ts[i]))
  }

  /** EncodeMetricTags */
  function EncodeMetricTags(tags: seq<Tag>): seq<Text> {
    SortUnique(Map(Plain, NormalTags(First(tags))))
  }

  lemma {:induction false} PlainTextsSnoc(tags: seq<Tag>, t: Tag)
    ensures Map(Plain, NormalTags(tags + [t]))
         == Map(Plain, NormalTags(tags)) + (match Normal(t) case None => [] case Some(n) => [Plain(n)])
  {
    NormalTagsSplits(tags, [t]);
    assert NormalTags([t]) == (match Normal(t) case None => [] case Some(n) => [n]) + NormalTags([]);
  }

  /** EncodeMetricTags as the program does it: collect the distinct texts, list them in no
      particular order, sort. */
  method CollectTags(tags: seq<Tag>) returns (tagList: seq<Text>)
    ensures tagList == EncodeMetricTags(tags)
  {
    var unique: set<Text> := {};
    var n := if |tags| > MAX_TAGS then MAX_TAGS else |tags|;
    for i := 0 to n
      invariant unique == Elements(Map(Plain, NormalTags(tags[..i])))
    {
      var t := tags[i];
      assert tags[..i + 1] == tags[..i] + [t];
      PlainTextsSnoc(tags[..i], t);
      var tc := t.category;
      if !(SIG <= tc) {
        tc := RemoveSpaces(ToLower(tc));
      }
      if tc == [] || t.value == [] {
        continue;
      }
      var tag := tc + [':'] + t.value;
      unique := unique + {tag};
    }
    assert tags[..n] == First(tags);
    tagList := SortedList(unique);
    SortUniqueSorts(Map(Plain, NormalTags(First(tags))));
    SortedIsUnique(tagList, EncodeMetricTags(tags));
  }

  /** The keys of a map in any order, then sorted. */
  method SortedList(unique: set<Text>) returns (list: seq<Text>)
    ensures Sorted(list) && Elements(list) == unique
  {
    list := [];
    var left := unique;
    while left != {}
      invariant Sorted(list) && Elements(list) == unique - left && left <= unique
      decreases left
    {
      var t :| t in left;
      InsertSorts(t, list);
      InsertElements(t, list);
      list := Insert(t, list);
      left := left - {t};
    }
  }

  // ---------------------------------------------------------------- encoding

  /** b"..." around the base64 form. */
  function Wrap(p: Text): Text {
    SIG + Base64.Encode(Base64.Bytes(p)) + ['"']
  }

  /** A value, encoded unless it is already. */
  function EncodeValue(v: Text): Text {
    if SIG <= v then v else Wrap(v)
  }

  function EncodeCategory(c: Text): Text {
    if SIG <= c then c else Wrap(ToLower(c))
  }

  /** One element of the stream tag list, from "category:value". */
  function EncodeEntry(t: Text): Text {
    match SplitFirst(t, ':')
    case None => []
    case Some((c, v)) => EncodeCategory(c) + [':'] + EncodeValue(v)
  }

  function Entries(tags: seq<Tag>): seq<Text> {
    MapText(EncodeEntry, EncodeMetricTags(tags))
  }

  /** EncodeMetricStreamTags */
  function EncodeMetricStreamTags(tags: seq<Tag>): Text {
    Join(Entries(tags), ',')
  }

  /** EncodeMetricStreamTags as the program does it: a list of empty texts, filled one by one; the
      limit is never met and no element is skipped, so none is still empty when they are joined. */
  method StreamTags(tags: seq<Tag>) returns (s: Text)
    ensures s == EncodeMetricStreamTags(tags)
    ensures forall e <- Entries(tags) :: e != []
  {
    EncodedTexts(tags);
    if |tags| == 0 {
      return [];
    }
    var tmpTags := CollectTags(tags);
    if |tmpTags| == 0 {
      return [];
    }
    PlainTextsHaveColons(tags);
    var tagList: seq<Text> := seq(|tmpTags|, _ => []);
    hide EncodeMetricTags, EncodeEntry, SplitFirst;
    for i := 0 to |tmpTags|
      invariant |tagList| == |tmpTags|
      invariant forall k :: 0 <= k < i ==> tagList[k] == EncodeEntry(tmpTags[k])
    {
      if i >= MAX_TAGS {
        assert false;
      }
      var parts := SplitFirst(tmpTags[i], ':');
      if parts.None? {
        assert false;
      }
      var encoded := EncodeParts(tmpTags[i], parts.value.0, parts.value.1);
      tagList := tagList[i := encoded];
    }
    assert tagList == Entries(tags);
    s := Join(tagList, ',');
  }

  method EncodeParts(ghost t: Text, c: Text, v: Text) returns (e: Text)
    requires SplitFirst(t, ':') == Some((c, v))
    ensures e == EncodeEntry(t)
  {
    var tc, tv := c, v;
    if !(SIG <= tc) {
      tc := Wrap(ToLower(tc));
    }
    if !(SIG <= tv) {
      tv := Wrap(tv);
    }
    e := tc + [':'] + tv;
  }

  lemma {:induction false} NormalTagsShort(tags: seq<Tag>)
    ensures |NormalTags(tags)| <= |tags|
  {
    if tags != [] {
      NormalTagsShort(tags[1..]);
    }
  }

  lemma {:induction false} PlainHasColon(n: Tag)
    ensures SplitFirst(Plain(n), ':').Some?
  {
    assert Plain(n)[|n.category|] == ':';
  }

  lemma {:induction false} PlainTextsHaveColons(tags: seq<Tag>)
    ensures |EncodeMetricTags(tags)| <= MAX_TAGS
    ensures forall t <- EncodeMetricTags(tags) :: SplitFirst(t, ':').Some?
  {
    var ns := NormalTags(First(tags));
    assert |ns| <= MAX_TAGS by { NormalTagsShort(First(tags)); }
    var texts := Map(Plain, ns);
    assert |texts| == |ns|;
    SortUniqueSorts(texts);
    MapSet(ns);
    hide SortUnique, Map, NormalTags, Plain, SplitFirst, First;
    forall t | t in EncodeMetricTags(tags) ensures SplitFirst(t, ':').Some? {
      assert t in Elements(texts);
      var n :| n in Elements(ns) && t == Plain(n);
      PlainHasColon(n);
    }
  }

  // ---------------------------------------------------------------- canonical form

  lemma {:induction false} MapSet(ns: seq<Tag>)
    ensures Elements(Map(Plain, ns)) == set n | n in Elements(ns) :: Plain(n)
  {
    hide Plain;
    var texts := Map(Plain, ns);
    forall i | 0 <= i < |ns| ensures texts[i] == Plain(ns[i]) && ns[i] in Elements(ns) {}
    forall n | n in Elements(ns) ensures Plain(n) in texts {
      var i :| 0 <= i < |ns| && ns[i] == n;
      assert texts[i] == Plain(n);
    }
  }

  lemma {:induction false} EntrySetOf(ts: seq<Text>)
    ensures Elements(MapText(EncodeEntry, ts)) == set t | t in Elements(ts) :: EncodeEntry(t)
  {
    hide EncodeEntry;
    var entries := MapText(EncodeEntry, ts);
    forall i | 0 <= i < |ts| ensures entries[i] == EncodeEntry(ts[i]) && ts[i] in Elements(ts) {}
    forall t | t in Elements(ts) ensures EncodeEntry(t) in entries {
      var i :| 0 <= i < |ts| && ts[i] == t;
      assert entries[i] == EncodeEntry(t);
    }
  }

  lemma {:induction false} EncodedTexts(tags: seq<Tag>)
    ensures Sorted(EncodeMetricTags(tags))
    ensures Elements(EncodeMetricTags(tags)) == set n | n in NormalSet(tags) :: Plain(n)
    ensures Elements(Entries(tags)) == set n | n in NormalSet(tags) :: EncodeEntry(Plain(n))
    ensures forall e <- Entries(tags) :: e != []
  {
    var ns := NormalTags(First(tags));
    SortUniqueSorts(Map(Plain, ns));
    MapSet(ns);
    EntrySetOf(EncodeMetricTags(tags));
    hide SortUnique, Map, MapText, NormalTags, Plain, EncodeEntry, First;
    var texts := set n | n in NormalSet(tags) :: Plain(n);
    assert Elements(Entries(tags)) == set t | t in texts :: EncodeEntry(t);
    forall e | e in Entries(tags) ensures e != [] {
      assert e in Elements(Entries(tags));
      var n :| n in NormalSet(tags) && e == EncodeEntry(Plain(n));
      EntryIsSome(n);
    }
  }

  lemma {:induction false} EntryIsSome(n: Tag)
    ensures EncodeEntry(Plain(n)) != []
  {
    PlainHasColon(n);
  }

  /** The encoding depends only on the set of normalised tags: not on order or repetition. */
  lemma {:induction false} CanonicalEncoding(a: seq<Tag>, b: seq<Tag>)
    requires NormalSet(a) == NormalSet(b)
    ensures EncodeMetricTags(a) == EncodeMetricTags(b)
    ensures EncodeMetricStreamTags(a) == EncodeMetricStreamTags(b)
  {
    EncodedTexts(a);
    EncodedTexts(b);
    SortedIsUnique(EncodeMetricTags(a), EncodeMetricTags(b));
  }

  lemma {:induction false} SameNormalSameEncoding(t: Tag, u: Tag, before: seq<Tag>, rest: seq<Tag>)
    requires Normal(t) == Normal(u)
    ensures EncodeMetricStreamTags(before + [t] + rest) == EncodeMetricStreamTags(before + [u] + rest)
  {
    var a, b := before + [t] + rest, before + [u] + rest;
    var n := |First(a)|;
    if n <= |before| {
      assert First(a) == First(b);
    } else {
      var more := rest[..n - |before| - 1];
      assert First(a) == before + [t] + more && First(b) == before + [u] + more;
      NormalTagsSplits(before + [t], more);
      NormalTagsSplits(before + [u], more);
      NormalTagsSplits(before, [t]);
      NormalTagsSplits(before, [u]);
      assert NormalTags([t]) == NormalTags([u]) by {
        assert [t][1..] == [u][1..] == [];
      }
    }
    hide First, NormalTags;
    CanonicalEncoding(a, b);
  }

  /** Tags whose categories, not encoded, differ only in case are encoded alike, among any others. */
  lemma {:induction false} CaseIsNotEncoded(c: Text, d: Text, value: Text, before: seq<Tag>, rest: seq<Tag>)
    requires !(SIG <= c) && !(SIG <= d) && |c| == |d| && forall i :: 0 <= i < |c| ==> SameLetter(c[i], d[i])
    ensures EncodeMetricStreamTags(before + [Tag(c, value)] + rest) == EncodeMetricStreamTags(before + [Tag(d, value)] + rest)
  {
    CaseDoesNotCount(c, d);
    SameNormalSameEncoding(Tag(c, value), Tag(d, value), before, rest);
  }

  /** So are tags whose categories differ by a blank. */
  lemma {:induction false} BlanksAreNotEncoded(c: Text, blank: Char, d: Text, value: Text, before: seq<Tag>, rest: seq<Tag>)
    requires Blank(blank) && !(SIG <= c + [blank] + d) && !(SIG <= c + d)
    ensures EncodeMetricStreamTags(before + [Tag(c + [blank] + d, value)] + rest)
         == EncodeMetricStreamTags(before + [Tag(c + d, value)] + rest)
  {
    BlanksDoNotCount(c, blank, d);
    SameNormalSameEncoding(Tag(c + [blank] + d, value), Tag(c + d, value), before, rest);
  }

  // ---------------------------------------------------------------- decoding

  /** What a broker makes of a wrapped part. */
  function Unwrap(p: Text): seq<byte> {
    if |p| < 3 then [] else Base64.Decode(p[2..|p| - 1])
  }

  function DecodeEntry(e: Text): Option<(seq<byte>, seq<byte>)> {
    match SplitFirst(e, ':')
    case None => None
    case Some((c, v)) => Some((Unwrap(c), Unwrap(v)))
  }

  /** The set of tags in a stream tag list. */
  ghost function DecodeTags(s: Text): set<Option<(seq<byte>, seq<byte>)>> {
    if s == [] then {} else set e | e in Split(s, ',') :: DecodeEntry(e)
  }

  function AsBytes(n: Tag): Option<(seq<byte>, seq<byte>)> {
    Some((Base64.Bytes(n.category), Base64.Bytes(n.value)))
  }

  /** A tag whose parts are both encoded: no colon in the category, nothing encoded before. */
  predicate IsPlain(n: Tag) {
    ':' !in n.category && !(SIG <= n.category) && !(SIG <= n.value)
  }

  lemma {:induction false} WrapIsClean(p: Text)
    ensures Unwrap(Wrap(p)) == Base64.Bytes(p)
    ensures SIG <= Wrap(p) && ':' !in Wrap(p) && ',' !in Wrap(p)
  {
    var b := Base64.Bytes(p);
    Base64.DecodeEncode(b);
    Base64.EncodeUsesSymbols(b);
    hide Base64.Encode, Base64.Decode;
    var w := Wrap(p);
    assert w[2..|w| - 1] == Base64.Encode(b);
    assert forall c <- Base64.Encode(b) :: Base64.IsSymbol(c);
  }

  lemma {:induction false} SpacesStayLower(s: Text)
    ensures ToLower(RemoveSpaces(ToLower(s))) == RemoveSpaces(ToLower(s))
  {
    if s != [] {
      var t := RemoveSpaces(ToLower(s));
      assert ToLower(s)[1..] == ToLower(s[1..]);
      SpacesStayLower(s[1..]);
      var rest := RemoveSpaces(ToLower(s[1..]));
      assert forall i :: 0 <= i < |rest| ==> Lower(rest[i]) == ToLower(rest)[i] == rest[i];
      assert forall i :: 0 <= i < |t| ==> Lower(t[i]) == t[i];
    }
  }

  lemma {:induction false} NormalTagsAreNormal(tags: seq<Tag>)
    ensures forall n <- NormalTags(tags) ::
              && n.category != [] && n.value != []
              && (SIG <= n.category || ToLower(n.category) == n.category)
    ensures (forall t <- tags :: ':' !in t.category) ==> forall n <- NormalTags(tags) :: ':' !in n.category
  {
    if tags != [] {
      NormalTagsAreNormal(tags[1..]);
      SpacesStayLower(tags[0].category);
      if ':' !in tags[0].category {
        RemoveSpacesKeeps(tags[0].category);
      }
    }
  }

  lemma {:induction false} RemoveSpacesKeeps(s: Text)
    requires ':' !in s
    ensures ':' !in RemoveSpaces(ToLower(s))
  {
    if s != [] {
      assert ToLower(s)[1..] == ToLower(s[1..]);
      RemoveSpacesKeeps(s[1..]);
    }
  }

  /** Encoded parts with commas or colons would be taken apart: no tag of the set has them. */
  predicate Passable(n: Tag) {
    && ':' !in n.category
    && (SIG <= n.category ==> ',' !in n.category)
    && (SIG <= n.value ==> ',' !in n.value)
  }

  /** An element of a stream tag list with both parts encoded. */
  predicate Encoded(e: Text) {
    && ',' !in e
    && match SplitFirst(e, ':')
       case None => false
       case Some((c, v)) => SIG <= c && SIG <= v
  }

  lemma {:induction false} EncodedEntry(n: Tag)
    requires Passable(n)
    ensures var e := EncodeEntry(Plain(n));
            && SplitFirst(e, ':') == Some((EncodeCategory(n.category), EncodeValue(n.value)))
            && Encoded(e)
  {
    SplitFirstOf(n.category, ':', n.value);
    WrapIsClean(ToLower(n.category));
    WrapIsClean(n.value);
    hide Wrap;
    SplitFirstOf(EncodeCategory(n.category), ':', EncodeValue(n.value));
  }

  lemma {:induction false} EntriesAreEncoded(tags: seq<Tag>)
    requires forall n <- NormalSet(tags) :: Passable(n)
    ensures forall e <- Entries(tags) :: Encoded(e)
  {
    EncodedTexts(tags);
    forall e | e in Entries(tags) ensures Encoded(e) {
      assert e in Elements(Entries(tags));
      var n :| n in NormalSet(tags) && e == EncodeEntry(Plain(n));
      EncodedEntry(n);
    }
  }

  lemma {:induction false} SplitEntries(entries: seq<Text>)
    requires entries != [] && forall e <- entries :: Encoded(e)
    ensures Split(Join(entries, ','), ',') == entries && Join(entries, ',') != []
  {
    forall i | 0 <= i < |entries| ensures ',' !in entries[i] {
      assert Encoded(entries[i]);
    }
    SplitJoin(entries, ',');
    assert Encoded(entries[0]) && entries[0] != [];
  }

  /** Splitting the encoding on commas and colons and decoding the parts gives exactly the set
      of normalised tags. */
  lemma {:induction false} DecodingRoundTrip(tags: seq<Tag>)
    requires forall n <- NormalSet(tags) :: IsPlain(n)
    ensures DecodeTags(EncodeMetricStreamTags(tags)) == set n | n in NormalSet(tags) :: AsBytes(n)
  {
    EncodedTexts(tags);
    NormalTagsAreNormal(First(tags));
    EntriesAreEncoded(tags);
    var entries := Entries(tags);
    forall n | n in NormalSet(tags) ensures DecodeEntry(EncodeEntry(Plain(n))) == AsBytes(n) {
      EncodedEntry(n);
      WrapIsClean(n.category);
      WrapIsClean(n.value);
    }
    JoinedDecoding(entries);
    var got := DecodeTags(EncodeMetricStreamTags(tags));
    var wanted := set n | n in NormalSet(tags) :: AsBytes(n);
    hide DecodeEntry, EncodeEntry, AsBytes, DecodeTags, Entries, IsPlain;
    forall d ensures d in got <==> d in wanted {
      if d in got {
        var e :| e in Elements(entries) && d == DecodeEntry(e);
        var n :| n in NormalSet(tags) && e == EncodeEntry(Plain(n));
      }
      if d in wanted {
        var n :| n in NormalSet(tags) && d == AsBytes(n);
        assert EncodeEntry(Plain(n)) in Elements(entries);
      }
    }
  }

  lemma {:induction false} JoinedDecoding(list: seq<Text>)
    requires forall e <- list :: Encoded(e)
    ensures DecodeTags(Join(list, ',')) == set e | e in Elements(list) :: DecodeEntry(e)
  {
    if list != [] {
      SplitEntries(list);
    }
  }

  /** Different sets of plain tags never share an encoding; with CanonicalEncoding: equal sets
      and equal encodings are the same thing. */
  lemma {:induction false} EncodingIsInjective(a: seq<Tag>, b: seq<Tag>)
    requires forall n <- NormalSet(a) + NormalSet(b) :: IsPlain(n)
    ensures EncodeMetricStreamTags(a) == EncodeMetricStreamTags(b) <==> NormalSet(a) == NormalSet(b)
  {
    if NormalSet(a) == NormalSet(b) {
      CanonicalEncoding(a, b);
    }
    if EncodeMetricStreamTags(a) == EncodeMetricStreamTags(b) {
      DecodingRoundTrip(a);
      DecodingRoundTrip(b);
      var image := set n | n in NormalSet(a) :: AsBytes(n);
      assert image == set n | n in NormalSet(b) :: AsBytes(n);
      SameBytes(NormalSet(a), NormalSet(b));
      SameBytes(NormalSet(b), NormalSet(a));
    }
  }

  lemma {:induction false} SameBytes(a: set<Tag>, b: set<Tag>)
    requires (set n | n in a :: AsBytes(n)) == (set n | n in b :: AsBytes(n))
    ensures a <= b
  {
    forall n | n in a ensures n in b {
      var image := set m | m in a :: AsBytes(m);
      assert AsBytes(n) in image;
      var m :| m in b && AsBytes(m) == AsBytes(n);
      Base64.BytesInjective(n.category, m.category);
      Base64.BytesInjective(n.value, m.value);
    }
  }

  // ---------------------------------------------------------------- re-encoding

  /** Take an encoded tag string apart and encode it again. */
  function Reencode(s: Text): Text {
    EncodeMetricStreamTags(FromList(Split(s, ',')))
  }

  /** The elements of a stream tag list. */
  function Pieces(s: Text): seq<Text> {
    if s == [] then [] else Split(s, ',')
  }

  ghost function EntrySet(s: Text): set<Text> {
    Elements(Pieces(s))
  }

  predicate AllEncoded(list: seq<Text>) {
    forall e <- list :: Encoded(e)
  }

  lemma {:induction false} EncodedIsFixed(e: Text)
    requires Encoded(e)
    ensures EncodeEntry(e) == e
    ensures var (c, v) := SplitFirst(e, ':').value;
            Normal(Tag(c, v)) == Some(Tag(c, v)) && Plain(Tag(c, v)) == e && Passable(Tag(c, v))
  {
    SplitFirstGlues(e, ':');
  }

  /** Encoded elements are read as tags that give them back. */
  lemma {:induction false} FromEncoded(list: seq<Text>)
    requires forall e <- list :: Encoded(e)
    ensures |FromList(list)| == |list|
    ensures NormalTags(FromList(list)) == FromList(list)
    ensures Map(Plain, FromList(list)) == list
    ensures forall t <- FromList(list) :: Passable(t)
  {
    if list != [] {
      var t := FirstFromEncoded(list);
      FromEncoded(list[1..]);
      hide Encoded, Normal, Plain, Passable, SplitFirst, FromList;
      var rest := FromList(list[1..]);
      assert ([t] + rest)[1..] == rest;
      assert Map(Plain, [t] + rest) == [Plain(t)] + Map(Plain, rest);
    }
  }

  lemma {:induction false} FirstFromEncoded(list: seq<Text>) returns (t: Tag)
    requires list != [] && Encoded(list[0])
    ensures FromList(list) == [t] + FromList(list[1..])
    ensures Normal(t) == Some(t) && Plain(t) == list[0] && Passable(t)
  {
    EncodedIsFixed(list[0]);
    hide Normal, Plain, Passable;
    var (c, v) := SplitFirst(list[0], ':').value;
    t := Tag(c, v);
  }

  lemma {:induction false} EncodedTextsAreSorted(list: seq<Text>)
    requires |list| <= MAX_TAGS && forall e <- list :: Encoded(e)
    ensures EncodeMetricTags(FromList(list)) == SortUnique(list)
  {
    FromEncoded(list);
    hide Encoded, SortUnique, FromList, NormalTags, Map;
  }

  lemma {:induction false} EncodedEntriesAreSorted(list: seq<Text>)
    requires |list| <= MAX_TAGS && forall e <- list :: Encoded(e)
    ensures Entries(FromList(list)) == SortUnique(list)
  {
    EncodedTextsAreSorted(list);
    SortUniqueSorts(list);
    var sorted := SortUnique(list);
    hide Encoded, SortUnique, FromList, EncodeMetricTags, EncodeEntry, SplitFirst, Normal, Passable, Plain;
    forall i | 0 <= i < |sorted| ensures EncodeEntry(sorted[i]) == sorted[i] {
      assert sorted[i] in Elements(sorted);
      assert sorted[i] in Elements(list);
      EncodedIsFixed(sorted[i]);
    }
  }

  lemma {:induction false} ReencodeSorts(list: seq<Text>)
    requires |list| <= MAX_TAGS && forall e <- list :: Encoded(e)
    ensures Reencode(Join(list, ',')) == Join(SortUnique(list), ',')
  {
    if list == [] {
      assert Split([], ',') == [[]];
      assert FromList([[]]) == FromList([]) == [];
    } else {
      SplitEntries(list);
      EncodedEntriesAreSorted(list);
    }
  }

  lemma {:induction false} PiecesOfJoin(list: seq<Text>)
    requires AllEncoded(list)
    ensures Pieces(Join(list, ',')) == list
  {
    if list != [] {
      SplitEntries(list);
    }
  }

  lemma {:induction false} JoinOfPieces(s: Text)
    ensures Join(Pieces(s), ',') == s
    ensures forall p <- Pieces(s) :: ',' !in p
  {
    JoinSplit(s, ',');
  }

  lemma {:induction false} RemoveSpacesNoNew(s: Text, c: Char)
    requires c !in s && Lower(c) == c && !('a' <= c <= 'z')
    ensures c !in RemoveSpaces(ToLower(s))
  {
    if s != [] {
      assert ToLower(s)[1..] == ToLower(s[1..]);
      RemoveSpacesNoNew(s[1..], c);
    }
  }

  /** Tags read from texts without commas have no comma, and no colon in the category. */
  lemma {:induction false} PartsArePassable(list: seq<Text>)
    requires forall i :: 0 <= i < |list| ==> ',' !in list[i]
    ensures forall n <- NormalTags(FromList(list)) :: Passable(n)
  {
    if list != [] {
      PartsArePassable(list[1..]);
      if SplitFirst(list[0], ':').Some? {
        SplitFirstGlues(list[0], ':');
        var (c, v) := SplitFirst(list[0], ':').value;
        RemoveSpacesNoNew(c, ':');
        RemoveSpacesNoNew(c, ',');
        var rest := FromList(list[1..]);
        assert NormalTags([Tag(c, v)] + rest)
            == (match Normal(Tag(c, v)) case None => [] case Some(n) => [n]) + NormalTags(rest) by {
          assert ([Tag(c, v)] + rest)[1..] == rest;
        }
      }
    }
  }

  lemma {:induction false} FirstIsPart(tags: seq<Tag>)
    ensures NormalSet(tags) <= Elements(NormalTags(tags))
  {
    assert tags == First(tags) + tags[|First(tags)|..];
    NormalTagsSplits(First(tags), tags[|First(tags)|..]);
  }

  /** Whatever text is taken apart: the elements of its re-encoding are encoded, and are the entries
      of the tags read from it. */
  lemma {:induction false} ReencodedPieces(s: Text)
    ensures AllEncoded(Pieces(Reencode(s))) && |Pieces(Reencode(s))| <= MAX_TAGS
    ensures Pieces(Reencode(s)) == Entries(FromList(Split(s, ',')))
  {
    var parts := Split(s, ',');
    var tags := FromList(parts);
    JoinSplit(s, ',');
    assert forall i :: 0 <= i < |parts| ==> parts[i] in parts;
    PartsArePassable(parts);
    FirstIsPart(tags);
    PlainTextsHaveColons(tags);
    hide NormalTags, FromList, Passable, Encoded, EncodeMetricTags, EncodeEntry, First, NormalSet;
    assert forall n <- NormalSet(tags) :: n in Elements(NormalTags(tags));
    EntriesAreEncoded(tags);
    PiecesOfJoin(Entries(tags));
  }

  /** Encoding a text again keeps its set of elements exactly if they were encoded. */
  lemma {:induction false} ReencodingKeepsTheSetIff(s: Text)
    requires |Pieces(s)| <= MAX_TAGS
    ensures EntrySet(Reencode(s)) == EntrySet(s) <==> AllEncoded(Pieces(s))
  {
    var list := Pieces(s);
    JoinOfPieces(s);
    ReencodedPieces(s);
    hide Reencode, Pieces, Encoded;
    if AllEncoded(list) {
      ReencodeSorts(list);
      SortUniqueSorts(list);
      EncodedSubset(list, SortUnique(list));
      PiecesOfJoin(SortUnique(list));
    }
    if EntrySet(Reencode(s)) == EntrySet(s) {
      EncodedSubset(Pieces(Reencode(s)), list);
    }
  }

  lemma {:induction false} EncodedSubset(list: seq<Text>, sub: seq<Text>)
    requires AllEncoded(list) && Elements(sub) <= Elements(list)
    ensures AllEncoded(sub)
  {
    hide Encoded;
    forall e | e in sub ensures Encoded(e) {
      assert e in Elements(sub);
    }
  }

  /** Encoding a text again gives the very text exactly if its elements are encoded and sorted. */
  lemma {:induction false} ReencodingIsIdleIff(s: Text)
    requires |Pieces(s)| <= MAX_TAGS
    ensures Reencode(s) == s <==> AllEncoded(Pieces(s)) && Sorted(Pieces(s))
  {
    var list := Pieces(s);
    JoinOfPieces(s);
    ReencodedPieces(s);
    hide Reencode, Pieces, Encoded, Less;
    if AllEncoded(list) {
      ReencodeSorts(list);
      SortUniqueSorts(list);
      EncodedSubset(list, SortUnique(list));
      if Sorted(list) {
        SortUniqueOfSorted(list);
      }
      if Reencode(s) == s {
        PiecesOfJoin(SortUnique(list));
      }
    }
  }

  /** Any text settles: after one pass the set of its elements stays, and after two the text itself;
      after one already exactly if that left the elements sorted. */
  lemma {:induction false} ReencodingIsStable(s: Text)
    ensures var once := Reencode(s);
            && EntrySet(Reencode(once)) == EntrySet(once)
            && Reencode(Reencode(once)) == Reencode(once)
            && (Reencode(once) == once <==> Sorted(Pieces(once)))
  {
    var once := Reencode(s);
    var list := Pieces(once);
    ReencodedPieces(s);
    JoinOfPieces(once);
    hide Reencode, Pieces, Encoded, Less;
    ReencodingKeepsTheSetIff(once);
    ReencodingIsIdleIff(once);
    ReencodeSorts(list);
    SortUniqueSorts(list);
    EncodedSubset(list, SortUnique(list));
    PiecesOfJoin(SortUnique(list));
    ReencodingIsIdleIff(Reencode(once));
  }

  predicate ColonFree(n: Tag) {
    ':' !in n.category
  }

  /** An encoding is taken apart into its entries exactly if no part that passes as encoded holds a
      comma. */
  lemma {:induction false} EncodingSplitsIff(tags: seq<Tag>)
    requires forall n <- NormalSet(tags) :: ColonFree(n)
    ensures Pieces(EncodeMetricStreamTags(tags)) == Entries(tags) <==> forall n <- NormalSet(tags) :: Passable(n)
  {
    if forall n <- NormalSet(tags) :: Passable(n) {
      EntriesAreEncoded(tags);
      PiecesOfJoin(Entries(tags));
    }
    if Pieces(EncodeMetricStreamTags(tags)) == Entries(tags) {
      JoinOfPieces(EncodeMetricStreamTags(tags));
      EncodedTexts(tags);
      hide Entries, NormalSet, EncodeMetricStreamTags, Pieces, EncodeEntry, Plain, Passable;
      forall n | n in NormalSet(tags) ensures Passable(n) {
        assert EncodeEntry(Plain(n)) in Elements(Entries(tags));
        CommaStays(n);
      }
    }
  }

  lemma {:induction false} CommaStays(n: Tag)
    requires ColonFree(n) && ',' !in EncodeEntry(Plain(n))
    ensures Passable(n)
  {
    SplitFirstOf(n.category, ':', n.value);
    hide Wrap, SplitFirst;
  }

  /** Of tags that can be taken apart, encoding again keeps the set of elements and settles at once;
      it gives the very encoding exactly if sorting by plain text had sorted the entries too. */
  lemma {:induction false} ReencodingOfTags(tags: seq<Tag>)
    requires forall n <- NormalSet(tags) :: Passable(n)
    ensures var s := EncodeMetricStreamTags(tags);
            && EntrySet(Reencode(s)) == EntrySet(s)
            && Reencode(Reencode(s)) == Reencode(s)
            && (Reencode(s) == s <==> Sorted(Entries(tags)))
  {
    var s, list := EncodeMetricStreamTags(tags), Entries(tags);
    EntriesAreEncoded(tags);
    PlainTextsHaveColons(tags);
    PiecesOfJoin(list);
    hide Entries, Reencode, Pieces, Encoded, Less, Passable, NormalSet;
    ReencodingKeepsTheSetIff(s);
    ReencodingIsIdleIff(s);
    ReencodeSorts(list);
    SortUniqueSorts(list);
    EncodedSubset(list, SortUnique(list));
    PiecesOfJoin(SortUnique(list));
    ReencodingIsIdleIff(Reencode(s));
  }

  /** A tag that cannot: its value passes as encoded and holds a comma. */
  const COMMA_TAG := Tag(['a'], ['b', '"', 'x', ',', 'y', ':', 'z'])

  /** Its one entry falls into two, the second is no encoded element, and encoding again changes
      the set. */
  lemma {:induction false} CommaIsSplit()
    ensures var s := EncodeMetricStreamTags([COMMA_TAG]);
            && Pieces(s) != Entries([COMMA_TAG])
            && EntrySet(Reencode(s)) != EntrySet(s)
  {
    CommaTagIsNormal();
    OneNormalTag(COMMA_TAG);
    CommaEntry();
    hide *;
    var e := EncodeEntry(Plain(COMMA_TAG));
    var left, right := CommaLeft(), CommaRight();
    SplitAppend(left, ',', right);
    TwoPieces();
    PiecesOfEntry(e, left, right);
  }

  function CommaLeft(): Text {
    Wrap(['a']) + [':', 'b', '"', 'x']
  }

  function CommaRight(): Text {
    ['y', ':', 'z']
  }

  lemma {:induction false} PiecesOfEntry(e: Text, left: Text, right: Text)
    requires e == left + [','] + right && Split(e, ',') == [left, right] && !Encoded(right)
    ensures Pieces(e) != [e] && EntrySet(Reencode(e)) != EntrySet(e)
  {
    assert e != [];
    assert [left, right][1] == right;
    hide Reencode, Encoded, Split;
    assert Pieces(e) == [left, right];
    ReencodingKeepsTheSetIff(e);
    assert right in Pieces(e);
  }

  lemma {:induction false} CommaTagIsNormal()
    ensures Normal(COMMA_TAG) == Some(COMMA_TAG)
  {
    var c: Text := ['a'];
    assert ToLower(c) == c && c[1..] == [];
    assert RemoveSpaces(c) == [c[0]] + RemoveSpaces([]) == c;
    assert NormalCategory(c) == c;
    assert COMMA_TAG == Tag(c, COMMA_TAG.value);
  }

  lemma {:induction false} CommaEntry()
    ensures EncodeEntry(Plain(COMMA_TAG)) == CommaLeft() + [','] + CommaRight()
  {
    var c, v: Text := ['a'], COMMA_TAG.value;
    SplitFirstOf(c, ':', v);
    hide Wrap, SplitFirst;
    assert ToLower(c) == c;
    assert SIG <= v && !(SIG <= c);
    assert v == ['b', '"', 'x'] + [','] + ['y', ':', 'z'];
    assert EncodeEntry(Plain(COMMA_TAG)) == Wrap(c) + [':'] + v;
  }

  lemma {:induction false} OneNormalTag(n: Tag)
    requires Normal(n) == Some(n)
    ensures Entries([n]) == [EncodeEntry(Plain(n))] && EncodeMetricStreamTags([n]) == EncodeEntry(Plain(n))
  {
    hide Normal;
    assert [n][1..] == [];
    assert NormalTags([n]) == [n] + NormalTags([]) == [n];
    assert Map(Plain, [n]) == [Plain(n)];
    SortUniqueOfSorted([Plain(n)]);
    assert EncodeMetricTags([n]) == [Plain(n)];
    hide EncodeMetricTags, Plain;
    assert Entries([n]) == [EncodeEntry(Plain(n))];
  }

  lemma {:induction false} TwoPieces()
    ensures Split(CommaLeft(), ',') + Split(CommaRight(), ',') == [CommaLeft(), CommaRight()]
    ensures !Encoded(CommaRight())
  {
    WrapIsClean(['a']);
    hide Wrap;
    SplitJoin([CommaLeft()], ',');
    SplitJoin([CommaRight()], ',');
    SplitFirstOf(['y'], ':', ['z']);
    assert ['y'] + [':'] + ['z'] == CommaRight();
  }

  lemma {:induction false} LessAt(s: Text, t: Text, k: nat)
    requires k < |s| && k < |t| && s[..k] == t[..k] && s[k] < t[k]
    ensures Less(s, t)
  {
    if k > 0 {
      assert s[0] == s[..k][0] == t[..k][0] == t[0];
      assert s[1..][..k - 1] == s[..k][1..] == t[..k][1..] == t[1..][..k - 1];
      LessAt(s[1..], t[1..], k - 1);
    }
  }

  /** A plain tag of lower-case letters is its own normal form, and its encoding is known. */
  lemma {:induction false} LetterTag(x: Char, y: Char)
    requires 'a' <= x <= 'z' && 'a' <= y <= 'z'
    ensures var n := Tag([x, y], ['x']);
            && Normal(n) == Some(n) && Passable(n)
            && EncodeEntry(Plain(n)) == Wrap([x, y]) + [':'] + Wrap(['x'])
  {
    var c: Text := [x, y];
    assert ToLower(c) == c;
    assert c[1..] == [y] && [y][1..] == [];
    assert RemoveSpaces([y]) == [y] + RemoveSpaces([]);
    assert RemoveSpaces(c) == c;
    SplitFirstOf(c, ':', ['x']);
  }

  lemma {:induction false} TwoNormalTags(n: Tag, m: Tag)
    requires Normal(n) == Some(n) && Normal(m) == Some(m) && Less(Plain(n), Plain(m))
    ensures Entries([n, m]) == [EncodeEntry(Plain(n)), EncodeEntry(Plain(m))]
  {
    assert [n, m][1..] == [m] && [m][1..] == [];
    assert NormalTags([m]) == [m] + NormalTags([]);
    assert NormalTags([n, m]) == [n, m];
    assert Map(Plain, [n, m]) == [Plain(n), Plain(m)];
    SortUniqueOfSorted([Plain(n), Plain(m)]);
  }

  /** b"Y2..." sorts before b"YW..." */
  lemma {:induction false} EncodedOrder(rest: Text)
    ensures Less(Wrap(['c', 'a']) + rest, Wrap(['a', 'a']) + rest)
  {
    var a, c: Text := ['a', 'a'], ['c', 'a'];
    assert Base64.Encode(Base64.Bytes(a)) == [Base64.Symbol(24), Base64.Symbol(22), Base64.Symbol(4), '='];
    assert Base64.Encode(Base64.Bytes(c)) == [Base64.Symbol(24), Base64.Symbol(54), Base64.Symbol(4), '='];
    var e, f := Wrap(a) + rest, Wrap(c) + rest;
    assert e[..3] == SIG + ['Y'] == f[..3];
    assert e[3] == 'W' && f[3] == '2';
    LessAt(f, e, 3);
  }

  lemma {:induction false} ExampleOrder()
    ensures var n, m := Tag(['a', 'a'], ['x']), Tag(['c', 'a'], ['x']);
            && Less(Plain(n), Plain(m))
            && Less(EncodeEntry(Plain(m)), EncodeEntry(Plain(n)))
  {
    PlainOrder();
    hide *;
    LetterTag('a', 'a');
    LetterTag('c', 'a');
    var rest := [':'] + Wrap(['x']);
    EncodedOrder(rest);
    assert Wrap(['a', 'a']) + [':'] + Wrap(['x']) == Wrap(['a', 'a']) + rest;
    assert Wrap(['c', 'a']) + [':'] + Wrap(['x']) == Wrap(['c', 'a']) + rest;
  }

  lemma {:induction false} PlainOrder()
    ensures Less(Plain(Tag(['a', 'a'], ['x'])), Plain(Tag(['c', 'a'], ['x'])))
  {
    LessAt(Plain(Tag(['a', 'a'], ['x'])), Plain(Tag(['c', 'a'], ['x'])), 0);
  }

  /** One pass may be needed: the encoding is sorted by plain text, encoding again sorts by
      encoded text, and aa:x and ca:x change places. */
  lemma {:induction false} ReencodingMayReorder()
    ensures var tags := [Tag(['a', 'a'], ['x']), Tag(['c', 'a'], ['x'])];
            Reencode(EncodeMetricStreamTags(tags)) != EncodeMetricStreamTags(tags)
  {
    var n, m := Tag(['a', 'a'], ['x']), Tag(['c', 'a'], ['x']);
    hide EncodeEntry, Less, Normal, Passable, Plain, Reencode, EncodeMetricStreamTags, Entries;
    LetterTag('a', 'a');
    LetterTag('c', 'a');
    ExampleOrder();
    TwoNormalTags(n, m);
    NotSorted(Entries([n, m]));
    OnlyThese(n, m);
    ReencodingOfTags([n, m]);
  }

  lemma {:induction false} NotSorted(list: seq<Text>)
    requires |list| == 2 && Less(list[1], list[0])
    ensures !Sorted(list)
  {
    LessIsTotal(list[0], list[1]);
  }

  lemma {:induction false} OnlyThese(n: Tag, m: Tag)
    requires Normal(n) == Some(n) && Normal(m) == Some(m)
    ensures forall k <- NormalSet([n, m]) :: k in {n, m}
  {
    assert [n, m][1..] == [m] && [m][1..] == [];
    assert NormalTags([m]) == [m] + NormalTags([]);
    assert NormalTags([n, m]) == [n, m];
  }

  // ---------------------------------------------------------------- written out

  lemma {:induction false} NormalTagsHas(tags: seq<Tag>, n: Tag)
    ensures n in NormalTags(tags) <==> exists i :: 0 <= i < |tags| && Normal(tags[i]) == Some(n)
  {
    if tags != [] {
      hide Normal;
      NormalTagsHas(tags[1..], n);
      if i :| 0 <= i < |tags| && Normal(tags[i]) == Some(n) {
        assert i > 0 ==> tags[1..][i - 1] == tags[i];
      }
      if i :| 0 <= i < |tags| - 1 && Normal(tags[1..][i]) == Some(n) {
        assert tags[i + 1] == tags[1..][i];
      }
    }
  }

  /** Which tags count: the first 256 of a list, as they are once normalised. */
  lemma {:induction false} WhoCounts(tags: seq<Tag>, n: Tag)
    ensures n in NormalSet(tags) <==> exists i :: 0 <= i < |tags| && i < 256 && Normal(tags[i]) == Some(n)
  {
    hide Normal, NormalTags;
    NormalTagsHas(First(tags), n);
    assert forall i :: 0 <= i < |First(tags)| ==> First(tags)[i] == tags[i];
  }

  /** A part between b" and ", in base64, unless it looks like that. */
  function Part(p: Text): Text {
    if "b\"" <= p then p else "b\"" + Base64.Encode(Base64.Bytes(p)) + "\""
  }

  lemma {:induction false} EntryIs(t: Tag, n: Tag)
    requires Normal(t) == Some(n) && ':' !in n.category
    ensures EncodeEntry(Plain(n)) == Part(n.category) + ":" + Part(n.value)
  {
    NormalTagsAreNormal([t]);
    NormalTagsHas([t], n);
    assert [t][0] == t;
    SplitFirstOf(n.category, ':', n.value);
  }

  /** One tag is encoded part by part, its category normalised. */
  lemma {:induction false} OneTagEncoded(t: Tag, n: Tag)
    requires Normal(t) == Some(n) && ':' !in n.category
    ensures EncodeMetricStreamTags([t]) == Part(n.category) + ":" + Part(n.value)
  {
    EntryIs(t, n);
    hide Normal, EncodeEntry, Part;
    assert [t][1..] == [];
    assert NormalTags([t]) == [n] + NormalTags([]) == [n];
    assert Map(Plain, [n]) == [Plain(n)];
    SortUniqueOfSorted([Plain(n)]);
    assert EncodeMetricTags([t]) == [Plain(n)];
    hide EncodeMetricTags, Plain;
    assert Entries([t]) == [EncodeEntry(Plain(n))];
  }

  /** Two tags are encoded one by one, a comma between them, in the order of their plain texts. */
  lemma {:induction false} TwoTagsEncoded(t: Tag, u: Tag, n: Tag, m: Tag)
    requires Normal(t) == Some(n) && Normal(u) == Some(m) && ':' !in n.category && ':' !in m.category
    requires Less(Plain(m), Plain(n))
    ensures EncodeMetricStreamTags([t, u])
         == Part(m.category) + ":" + Part(m.value) + "," + Part(n.category) + ":" + Part(n.value)
  {
    EntryIs(t, n);
    EntryIs(u, m);
    TwoTexts(t, u, n, m);
    hide *;
    TwoEntries(EncodeMetricTags([t, u]), Plain(m), Plain(n));
    TwoJoined(Part(m.category), Part(m.value), Part(n.category), Part(n.value));
    assert EncodeMetricStreamTags([t, u]) == Join(MapText(EncodeEntry, EncodeMetricTags([t, u])), ',') by {
      StreamTagsAre([t, u]);
    }
  }

  lemma {:induction false} StreamTagsAre(tags: seq<Tag>)
    ensures EncodeMetricStreamTags(tags) == Join(MapText(EncodeEntry, EncodeMetricTags(tags)), ',')
  {
  }

  lemma {:induction false} TwoEntries(texts: seq<Text>, a: Text, b: Text)
    requires texts == [a, b]
    ensures MapText(EncodeEntry, texts) == [EncodeEntry(a), EncodeEntry(b)]
  {
    hide EncodeEntry;
  }

  lemma {:induction false} TwoJoined(a: Text, b: Text, c: Text, d: Text)
    ensures Join([a + ":" + b, c + ":" + d], ',') == a + ":" + b + "," + c + ":" + d
  {
    var parts := [a + ":" + b, c + ":" + d];
    assert parts[1..] == [c + ":" + d];
    assert Join(parts, ',') == (a + ":" + b) + [','] + (c + ":" + d);
  }

  lemma {:induction false} TwoTexts(t: Tag, u: Tag, n: Tag, m: Tag)
    requires Normal(t) == Some(n) && Normal(u) == Some(m)
    requires Less(Plain(m), Plain(n))
    ensures EncodeMetricTags([t, u]) == [Plain(m), Plain(n)]
  {
    LessIsTotal(Plain(m), Plain(n));
    hide Normal, Plain, Less;
    assert [t, u][1..] == [u] && [u][1..] == [];
    assert NormalTags([u]) == [m] + NormalTags([]);
    assert NormalTags([t, u]) == [n, m];
    assert Map(Plain, [n, m]) == [Plain(n), Plain(m)];
    SortUniqueSorts([Plain(n), Plain(m)]);
    SortedIsUnique(SortUnique([Plain(n), Plain(m)]), [Plain(m), Plain(n)]);
  }

  /** Env:prod is encoded as env:prod would be. */
  lemma {:induction false} ExampleEncoding()
    ensures EncodeMetricStreamTags([Tag("Env", "prod")]) == "b\"ZW52\":b\"cHJvZA==\""
  {
    ExampleNormal();
    ExampleCategory();
    ExampleValue();
    hide *;
    var n := Tag("env", "prod");
    assert ':' !in n.category;
    OneTagEncoded(Tag("Env", "prod"), n);
    assert "b\"ZW52\"" + ":" + "b\"cHJvZA==\"" == "b\"ZW52\":b\"cHJvZA==\"";
  }

  lemma {:induction false} ExampleNormal()
    ensures Normal(Tag("Env", "prod")) == Some(Tag("env", "prod"))
  {
    var env: Text := "env";
    assert ToLower("Env") == env;
    NothingRemoved(env);
  }

  lemma {:induction false} NothingRemoved(s: Text)
    requires forall i :: 0 <= i < |s| ==> s[i] > ' '
    ensures RemoveSpaces(s) == s
  {
    if s != [] {
      NothingRemoved(s[1..]);
    }
  }

  lemma {:induction false} ExampleCategory()
    ensures Part("env") == "b\"ZW52\""
  {
    assert Base64.Bytes("env") == [101, 110, 118] + [];
    hide Base64.Bytes;
    ExampleGroups();
    hide Base64.Encode;
  }

  lemma {:induction false} ExampleValue()
    ensures Part("prod") == "b\"cHJvZA==\""
  {
    assert Base64.Bytes("prod") == [112, 114, 111] + [100];
    hide Base64.Bytes;
    ExampleGroups();
    hide Base64.Encode;
  }

  lemma {:induction false} ExampleGroups()
    ensures Base64.Encode([101, 110, 118] + []) == "ZW52"
    ensures Base64.Encode([112, 114, 111] + [100]) == "cHJvZA=="
  {
    assert Base64.Encode([]) == "" && Base64.Encode([100]) == "ZA==";
    hide Base64.Encode;
    Base64.FullGroup(101, 110, 118, []);
    Base64.FullGroup(112, 114, 111, [100]);
  }
}
