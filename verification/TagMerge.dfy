/** Metric names with stream tags, and merging further tags into them (internal/tags/tags.go). */
module TagMerge {
  import opened Common
  import opened Texts
  import opened Tags
  import Base64

  /** Position of the first "|ST[", or the length. */
  function IndexST(s: Text): (i: nat)
    ensures i <= |s| && (i < |s| ==> ST_OPEN <= s[i..])
    ensures forall j :: 0 <= j < i ==> !(ST_OPEN <= s[j..])
  {
    if s == [] then 0
    else if ST_OPEN <= s then 0
    else
      var i := 1 + IndexST(s[1..]);
      assert forall j :: 0 < j < i ==> s[j..] == s[1..][j - 1..];
      assert s[i..] == s[1..][i - 1..] && s[0..] == s;
      i
  }

  predicate HasStreamTags(name: Text) {
    IndexST(name) < |name|
  }

  function TrimBracket(s: Text): Text {
    if s != [] && s[|s| - 1] == ']' then s[..|s| - 1] else s
  }

  function WithTags(base: Text, encoded: Text): Text {
    base + ST_OPEN + encoded + [']']
  }

  /** MetricNameWithStreamTags */
  function MetricNameWithStreamTags(metric: Text, tags: seq<Tag>): Text {
    if tags == [] || HasStreamTags(metric) then metric
    else
      var encoded := EncodeMetricStreamTags(tags);
      if encoded != [] then WithTags(metric, encoded) else metric
  }

  /** MergeTags */
  function MergeTags(name: Text, more: seq<Text>): Text {
    if more == [] then name
    else if !HasStreamTags(name) then EncodeMetricStreamTags(FromList(more))
    else
      var i := IndexST(name);
      var listed := Split(TrimBracket(name[i + 4..]), ',');
      var encoded := EncodeMetricStreamTags(FromList(listed + more));
      if encoded != [] then WithTags(name[..i], encoded) else name[..i]
  }

  /** Without "|ST[" in the name, merging gives the encoded tags alone: the name is lost. */
  lemma {:induction false} MergeForgetsThePlainName(name: Text, other: Text, more: seq<Text>)
    requires more != [] && !HasStreamTags(name) && !HasStreamTags(other)
    ensures MergeTags(name, more) == MergeTags(other, more) == EncodeMetricStreamTags(FromList(more))
  {
  }

  lemma {:induction false} HasStreamTagsIff(name: Text)
    ensures HasStreamTags(name) <==> exists i :: 0 <= i < |name| && "|ST[" <= name[i..]
  {
  }

  /** Merging nothing gives back the name, with stream tags or not. */
  lemma {:induction false} MergeNothing(name: Text)
    ensures MergeTags(name, []) == name
  {
  }

  /** The closing bracket does not matter to a merge, for what does not end with another. */
  lemma {:induction false} MergeWithoutBracket(base: Text, listed: Text, more: seq<Text>)
    requires !HasStreamTags(base) && more != [] && (listed == [] || listed[|listed| - 1] != ']')
    ensures MergeTags(base + "|ST[" + listed, more) == MergeTags(base + "|ST[" + listed + "]", more)
  {
    StreamNameParts(base, listed);
    OpenNameParts(base, listed);
    assert base + "|ST[" + listed + "]" == WithTags(base, listed);
    hide IndexST, TrimBracket, EncodeMetricStreamTags, FromList, Split, WithTags;
  }

  lemma {:induction false} OpenNameParts(base: Text, listed: Text)
    requires !HasStreamTags(base) && (listed == [] || listed[|listed| - 1] != ']')
    ensures var name := base + "|ST[" + listed;
            && HasStreamTags(name) && IndexST(name) == |base|
            && name[..|base|] == base && TrimBracket(name[|base| + 4..]) == listed
  {
    var name := base + "|ST[" + listed;
    FirstOpen(base, listed);
    hide IndexST;
    assert name[..|base|] == base && name[|base| + 4..] == listed;
  }

  lemma {:induction false} FirstOpen(base: Text, listed: Text)
    requires !HasStreamTags(base)
    ensures IndexST(base + "|ST[" + listed) == |base|
  {
    FirstST(base, listed);
    hide IndexST;
    var name, closed := base + ST_OPEN + listed, WithTags(base, listed);
    assert closed == name + [']'];
    assert name[|base|..] == ST_OPEN + listed;
    FirstInPrefix(name, closed, |base|);
  }

  lemma {:induction false} FirstInPrefix(name: Text, closed: Text, n: nat)
    requires name <= closed && n < |name| && ST_OPEN <= name[n..] && IndexST(closed) == n
    ensures IndexST(name) == n
  {
    var i := IndexST(name);
    hide IndexST;
    assert name[i..] <= closed[i..];
  }

  // ---------------------------------------------------------------- the parts of a name

  function Base(name: Text): Text
    requires HasStreamTags(name)
  {
    name[..IndexST(name)]
  }

  /** The elements between the brackets. */
  function Listed(name: Text): seq<Text>
    requires HasStreamTags(name)
  {
    Split(TrimBracket(name[IndexST(name) + 4..]), ',')
  }

  /** The tags a merge encodes. */
  function MergedTags(name: Text, more: seq<Text>): seq<Tag>
    requires HasStreamTags(name)
  {
    FromList(Listed(name) + more)
  }

  lemma {:induction false} StreamNameParts(base: Text, encoded: Text)
    requires !HasStreamTags(base)
    ensures var name := WithTags(base, encoded);
            && HasStreamTags(name) && IndexST(name) == |base|
            && name[..|base|] == base && TrimBracket(name[|base| + 4..]) == encoded
  {
    var name := WithTags(base, encoded);
    FirstST(base, encoded);
    hide IndexST;
    assert name[..|base|] == base && name[|base| + 4..] == encoded + [']'];
  }

  lemma {:induction false} FirstST(base: Text, encoded: Text)
    requires !HasStreamTags(base)
    ensures IndexST(WithTags(base, encoded)) == |base|
  {
    hide IndexST;
    var name := WithTags(base, encoded);
    var i := IndexST(name);
    assert name[|base|..] == ST_OPEN + (encoded + [']']);
    assert ST_OPEN <= name[|base|..];
    assert i <= |base|;
    if i < |base| {
      hide WithTags;
      StartsInBase(base, encoded, i);
    }
  }

  /** A "|ST[" that starts in the base lies in it: no '|' follows inside the pattern. */
  lemma {:induction false} StartsInBase(base: Text, encoded: Text, i: nat)
    requires i < |base| && ST_OPEN <= WithTags(base, encoded)[i..]
    ensures HasStreamTags(base)
  {
    var name := WithTags(base, encoded);
    assert name[i + 0] == '|' && name[i + 1] == 'S' && name[i + 2] == 'T' && name[i + 3] == '[' by {
      assert name[i..][0] == '|' && name[i..][1] == 'S' && name[i..][2] == 'T' && name[i..][3] == '[';
    }
    assert name[|base|] == '|';
    if i + 4 <= |base| {
      assert base[i..][..4] == ST_OPEN;
      assert ST_OPEN <= base[i..];
    }
  }

  /** The base holds no "|ST[" of its own. */
  lemma {:induction false} BaseIsPlain(name: Text)
    requires HasStreamTags(name)
    ensures !HasStreamTags(Base(name))
  {
    var base := Base(name);
    hide IndexST;
    forall j | 0 <= j < |base| ensures !(ST_OPEN <= base[j..]) {
      assert base[j..] <= name[j..];
    }
  }

  lemma {:induction false} NameParts(base: Text, encoded: Text)
    requires !HasStreamTags(base)
    ensures var name := WithTags(base, encoded);
            HasStreamTags(name) && Base(name) == base && Listed(name) == Split(encoded, ',')
  {
    StreamNameParts(base, encoded);
  }

  /** An encoding is empty exactly if no tag is left to encode. */
  lemma {:induction false} EmptyIffNoTags(tags: seq<Tag>)
    ensures EncodeMetricStreamTags(tags) == [] <==> NormalSet(tags) == {}
  {
    EncodedTexts(tags);
    var entries := Entries(tags);
    hide Entries, NormalSet, EncodeEntry, Plain;
    forall n | n in NormalSet(tags) ensures entries != [] {
      assert EncodeEntry(Plain(n)) in Elements(entries);
    }
    if entries != [] {
      assert entries[0] in entries && entries[0] in Elements(entries);
      assert Join(entries, ',') != [];
      var n :| n in NormalSet(tags) && entries[0] == EncodeEntry(Plain(n));
    }
  }

  /** For any name with stream tags: the base stays, and the tags merged follow it, encoded; unless
      there are none. */
  lemma {:induction false} MergeKeepsTheBase(name: Text, more: seq<Text>)
    requires HasStreamTags(name) && more != []
    ensures var tags := MergedTags(name, more);
            if NormalSet(tags) == {} then MergeTags(name, more) == Base(name)
            else
              && MergeTags(name, more) == WithTags(Base(name), EncodeMetricStreamTags(tags))
              && HasStreamTags(MergeTags(name, more))
              && Base(MergeTags(name, more)) == Base(name)
              && Listed(MergeTags(name, more)) == Pieces(EncodeMetricStreamTags(tags))
  {
    var tags := MergedTags(name, more);
    EmptyIffNoTags(tags);
    BaseIsPlain(name);
    hide NormalSet, EncodeMetricStreamTags, IndexST;
    if NormalSet(tags) != {} {
      NameParts(Base(name), EncodeMetricStreamTags(tags));
    }
  }

  /** Tags are put into a name that has none, in brackets behind it; a second time never. */
  lemma {:induction false} NameGetsItsTags(metric: Text, tags: seq<Tag>, others: seq<Tag>)
    ensures var name := MetricNameWithStreamTags(metric, tags);
            if HasStreamTags(metric) || NormalSet(tags) == {} then name == metric
            else
              && name == metric + "|ST[" + EncodeMetricStreamTags(tags) + "]"
              && HasStreamTags(name) && Base(name) == metric
              && Listed(name) == Pieces(EncodeMetricStreamTags(tags))
              && MetricNameWithStreamTags(name, others) == name
  {
    EmptyIffNoTags(tags);
    assert tags == [] ==> NormalSet(tags) == {};
    hide NormalSet, EncodeMetricStreamTags, IndexST;
    if !HasStreamTags(metric) {
      NameParts(metric, EncodeMetricStreamTags(tags));
    }
  }

  // ---------------------------------------------------------------- union

  /** The new tags that still fit beside those listed. */
  function Fitting(listed: seq<Tag>, new': seq<Tag>): seq<Tag> {
    new'[..Min(|new'|, Max(0, MAX_TAGS - |listed|))]
  }

  lemma {:induction false} FirstOfBoth(listed: seq<Tag>, new': seq<Tag>)
    ensures First(listed + new') == First(listed) + Fitting(listed, new')
    ensures |listed| + |new'| <= MAX_TAGS ==> Fitting(listed, new') == First(new')
    ensures Fitting(listed, new') <= new'
  {
  }

  lemma {:induction false} NormalOfBoth(a: seq<Tag>, b: seq<Tag>)
    ensures Elements(NormalTags(a + b)) == Elements(NormalTags(a)) + Elements(NormalTags(b))
  {
    NormalTagsSplits(a, b);
    hide NormalTags;
  }

  lemma {:induction false} SetOfBoth(listed: seq<Tag>, new': seq<Tag>)
    ensures NormalSet(listed + new') == NormalSet(listed) + Elements(NormalTags(Fitting(listed, new')))
    ensures |listed| + |new'| <= MAX_TAGS ==> NormalSet(listed + new') == NormalSet(listed) + NormalSet(new')
    ensures Elements(NormalTags(Fitting(listed, new'))) <= Elements(NormalTags(new'))
  {
    FirstOfBoth(listed, new');
    hide First, Fitting, NormalTags, Elements;
    var fit := Fitting(listed, new');
    NormalOfBoth(First(listed), fit);
    NormalOfBoth(fit, new'[|fit|..]);
    assert new' == fit + new'[|fit|..];
  }

  /** Merging yields the union of the two sets of tags, whatever form the listed ones have; with more
      than 256 in all, of the listed ones and the new ones that still fit. */
  lemma {:induction false} MergeIsUnion(name: Text, more: seq<Text>)
    requires HasStreamTags(name) && more != []
    ensures var (listed, new', tags) := (FromList(Listed(name)), FromList(more), MergedTags(name, more));
            && NormalSet(tags) == NormalSet(listed) + Elements(NormalTags(Fitting(listed, new')))
            && (|listed| + |new'| <= MAX_TAGS ==>
                  && NormalSet(tags) == NormalSet(listed) + NormalSet(new')
                  && Elements(Entries(tags)) == Elements(Entries(listed)) + Elements(Entries(new')))
  {
    var listed, new' := FromList(Listed(name)), FromList(more);
    FromListSplits(Listed(name), more);
    SetOfBoth(listed, new');
    EncodedTexts(listed + new');
    EncodedTexts(listed);
    EncodedTexts(new');
    hide FromList, Listed, Entries, NormalSet, EncodeEntry, Plain, Fitting;
    if |listed| + |new'| <= MAX_TAGS {
      ImageOfUnion(NormalSet(listed), NormalSet(new'));
    }
  }

  lemma {:induction false} ImageOfUnion(a: set<Tag>, b: set<Tag>)
    ensures (set n | n in a + b :: EncodeEntry(Plain(n)))
         == (set n | n in a :: EncodeEntry(Plain(n))) + (set n | n in b :: EncodeEntry(Plain(n)))
  {
    hide EncodeEntry, Plain;
  }

  // ---------------------------------------------------------------- merging again

  lemma {:induction false} ListedIsPassable(name: Text)
    requires HasStreamTags(name)
    ensures forall n <- NormalSet(FromList(Listed(name))) :: Passable(n)
    ensures AllEncoded(Entries(FromList(Listed(name))))
  {
    var list := Listed(name);
    JoinSplit(TrimBracket(name[IndexST(name) + 4..]), ',');
    assert forall i :: 0 <= i < |list| ==> list[i] in list;
    PartsArePassable(list);
    FirstIsPart(FromList(list));
    EntriesAreEncoded(FromList(list));
  }

  /** The elements of the joined list are those of its members. */
  lemma {:induction false} PiecesOfMembers(list: seq<Text>)
    requires list != []
    ensures forall p :: p in Split(Join(list, ','), ',') <==> exists e :: e in list && p in Split(e, ',')
  {
    hide Split;
    if |list| == 1 {
      forall p ensures p in Split(Join(list, ','), ',') <==> exists e :: e in list && p in Split(e, ',') {
        assert Join(list, ',') == list[0];
      }
    } else {
      PiecesOfMembers(list[1..]);
      SplitAppend(list[0], ',', Join(list[1..], ','));
      assert Join(list, ',') == list[0] + [','] + Join(list[1..], ',');
      hide Join;
      forall p ensures p in Split(Join(list, ','), ',') <==> exists e :: e in list && p in Split(e, ',') {
        if e :| e in list && p in Split(e, ',') {
          assert e == list[0] || e in list[1..];
        }
      }
    }
  }

  lemma {:induction false} PiecesOfEncoding(tags: seq<Tag>)
    ensures forall p :: p in EntrySet(EncodeMetricStreamTags(tags))
                   <==> exists e :: e in Elements(Entries(tags)) && p in Split(e, ',')
  {
    EncodedTexts(tags);
    var entries := Entries(tags);
    if entries != [] {
      assert entries[0] in entries && entries[0] != [];
      assert Join(entries, ',') != [];
      PiecesOfMembers(entries);
      hide Split, Join, Entries;
      forall p ensures p in Elements(Split(Join(entries, ','), ','))
                  <==> exists e :: e in Elements(entries) && p in Split(e, ',') {
        if e :| e in entries && p in Split(e, ',') {
          assert e in Elements(entries);
        }
      }
    }
  }

  /** An encoded element stays when its list is read and encoded again. */
  lemma {:induction false} EncodedStays(list: seq<Text>, e: Text)
    requires e in list && Encoded(e) && |FromList(list)| <= MAX_TAGS
    ensures e in Elements(Entries(FromList(list)))
  {
    EncodedIsFixed(e);
    var (c, v) := SplitFirst(e, ':').value;
    MemberIsRead(list, e);
    NormalMember(FromList(list), Tag(c, v));
    EncodedTexts(FromList(list));
    assert First(FromList(list)) == FromList(list);
    assert Tag(c, v) in NormalSet(FromList(list));
  }

  lemma {:induction false} MemberIsRead(list: seq<Text>, e: Text)
    requires e in list && SplitFirst(e, ':').Some?
    ensures var (c, v) := SplitFirst(e, ':').value;
            Tag(c, v) in FromList(list)
  {
    if e != list[0] {
      assert e in list[1..];
      MemberIsRead(list[1..], e);
    }
  }

  lemma {:induction false} NormalMember(tags: seq<Tag>, t: Tag)
    requires t in tags && Normal(t) == Some(t)
    ensures t in NormalTags(tags)
  {
    if t != tags[0] {
      assert t in tags[1..];
      NormalMember(tags[1..], t);
    }
  }

  /** The elements after a second merge: those of the first result encoded again, and those of the
      new tags. */
  lemma {:induction false} SecondMerge(once: Text, more: seq<Text>)
    requires HasStreamTags(once) && more != []
    requires |FromList(Listed(once))| + |FromList(more)| <= MAX_TAGS
    ensures var again := Elements(Entries(FromList(Listed(once))));
            forall p :: p in EntrySet(EncodeMetricStreamTags(MergedTags(once, more)))
                   <==> p in again || exists e :: e in Elements(Entries(FromList(more))) && p in Split(e, ',')
  {
    var listed, new' := FromList(Listed(once)), FromList(more);
    var tags := MergedTags(once, more);
    MergeIsUnion(once, more);
    ListedIsPassable(once);
    PiecesOfEncoding(tags);
    hide FromList, Listed, Entries, EntrySet, Encoded, EncodeMetricStreamTags, NormalSet, MergedTags, Fitting;
    forall e | e in Elements(Entries(listed)) ensures Split(e, ',') == [e] {
      WholePiece(e);
    }
    forall p
      ensures p in EntrySet(EncodeMetricStreamTags(tags))
         <==> p in Elements(Entries(listed)) || exists e :: e in Elements(Entries(new')) && p in Split(e, ',')
    {
      if p in Elements(Entries(listed)) {
        assert p in Split(p, ',');
      }
    }
  }

  lemma {:induction false} WholePiece(e: Text)
    requires Encoded(e)
    ensures Split(e, ',') == [e]
  {
    SplitJoin([e], ',');
  }

  /** What a second merge can do to the set of elements: it loses none, and adds some exactly if
      encoding the first result again does. */
  lemma {:induction false} SecondMergeSets(name: Text, more: seq<Text>)
    requires HasStreamTags(name) && more != []
    requires |FromList(Listed(name))| + |FromList(more)| <= MAX_TAGS
    requires NormalSet(MergedTags(name, more)) != {}
    requires var s := EncodeMetricStreamTags(MergedTags(name, more));
             |FromList(Pieces(s))| + |FromList(more)| <= MAX_TAGS
    ensures HasStreamTags(MergeTags(name, more))
    ensures var s := EncodeMetricStreamTags(MergedTags(name, more));
            var s2 := EncodeMetricStreamTags(MergedTags(MergeTags(name, more), more));
            && s != [] && EntrySet(s) <= EntrySet(s2)
            && (EntrySet(s2) <= EntrySet(s) <==> EntrySet(Reencode(s)) <= EntrySet(s))
  {
    var tags := MergedTags(name, more);
    var s, once := EncodeMetricStreamTags(tags), MergeTags(name, more);
    MergeKeepsTheBase(name, more);
    EmptyIffNoTags(tags);
    MergeIsUnion(name, more);
    PiecesOfEncoding(tags);
    ListedIsPassable(name);
    ReencodedPieces(s);
    SecondMerge(once, more);
    var listed, new' := Elements(Entries(FromList(Listed(name)))), Elements(Entries(FromList(more)));
    var again := EntrySet(Reencode(s));
    assert Pieces(s) == Split(s, ',') == Listed(once);
    assert again == Elements(Entries(FromList(Listed(once))));
    forall e | e in listed && e in EntrySet(s) ensures e in again {
      EncodedStays(Pieces(s), e);
    }
    hide FromList, Listed, Entries, EntrySet, Encoded, EncodeMetricStreamTags, NormalSet, MergedTags, Fitting, Reencode, MergeTags, Pieces;
    forall p | p in EntrySet(s) ensures p in EntrySet(EncodeMetricStreamTags(MergedTags(once, more))) {
      var e :| e in Elements(Entries(tags)) && p in Split(e, ',');
      if e in listed {
        WholePiece(e);
      }
    }
  }

  /** The entry an element becomes when it is read and encoded again; none if it reads as no tag. */
  function EntryOf(p: Text): Option<Text> {
    match TagOf(p)
    case None => None
    case Some(n) => Some(EncodeEntry(Plain(n)))
  }

  function TagOf(p: Text): Option<Tag> {
    match SplitFirst(p, ':')
    case None => None
    case Some((c, v)) => Normal(Tag(c, v))
  }

  /** Read again, the element is no tag, or its entry is an element of the list. */
  predicate Stays(p: Text, list: seq<Text>) {
    EntryOf(p).Some? ==> EntryOf(p).value in list
  }

  /** The pieces that the entries of the new tags fall into. */
  ghost predicate NewPiecesStay(more: seq<Text>, list: seq<Text>) {
    forall e, p :: e in Elements(Entries(FromList(more))) && p in Split(e, ',') ==> Stays(p, list)
  }

  lemma {:induction false} ReadTags(list: seq<Text>)
    ensures forall n :: n in NormalTags(FromList(list)) <==> exists p :: p in list && TagOf(p) == Some(n)
  {
    if list != [] {
      var rest := list[1..];
      ReadTags(rest);
      ReadFirst(list);
      hide TagOf, FromList, NormalTags;
      forall n ensures n in NormalTags(FromList(list)) <==> exists p :: p in list && TagOf(p) == Some(n) {
        if p :| p in list && TagOf(p) == Some(n) {
          assert p == list[0] || p in rest;
        }
        if TagOf(list[0]) == Some(n) {
          assert list[0] in list;
        }
        if p :| p in rest && TagOf(p) == Some(n) {
          assert p in list;
        }
      }
    }
  }

  lemma {:induction false} ReadFirst(list: seq<Text>)
    requires list != []
    ensures forall n :: n in NormalTags(FromList(list))
                   <==> TagOf(list[0]) == Some(n) || n in NormalTags(FromList(list[1..]))
  {
    if SplitFirst(list[0], ':').Some? {
      var (c, v) := SplitFirst(list[0], ':').value;
      var rest := FromList(list[1..]);
      assert ([Tag(c, v)] + rest)[1..] == rest;
    }
  }

  lemma {:induction false} ReadEntries(list: seq<Text>)
    requires |FromList(list)| <= MAX_TAGS
    ensures forall e :: e in Elements(Entries(FromList(list))) <==> exists p :: p in list && EntryOf(p) == Some(e)
  {
    var tags := FromList(list);
    ReadTags(list);
    EncodedTexts(tags);
    assert First(tags) == tags;
    assert forall n :: n in NormalSet(tags) <==> n in NormalTags(tags);
    hide FromList, NormalTags, NormalSet, TagOf, Entries, EncodeEntry, Plain;
    forall e ensures e in Elements(Entries(tags)) <==> exists p :: p in list && EntryOf(p) == Some(e) {
      if e in Elements(Entries(tags)) {
        var n :| n in NormalSet(tags) && e == EncodeEntry(Plain(n));
        var p :| p in list && TagOf(p) == Some(n);
        assert EntryOf(p) == Some(e);
      }
      if p :| p in list && EntryOf(p) == Some(e) {
        assert TagOf(p).value in NormalSet(tags);
      }
    }
  }

  lemma {:induction false} EncodedIsItsEntry(e: Text)
    requires Encoded(e)
    ensures EntryOf(e) == Some(e)
  {
    EncodedIsFixed(e);
  }

  /** Encoding the first result again adds nothing exactly if every piece of the new entries stays. */
  lemma {:induction false} ReencodingAddsNothingIff(name: Text, more: seq<Text>)
    requires HasStreamTags(name) && more != []
    requires |FromList(Listed(name))| + |FromList(more)| <= MAX_TAGS
    requires NormalSet(MergedTags(name, more)) != {}
    requires |FromList(Pieces(EncodeMetricStreamTags(MergedTags(name, more))))| <= MAX_TAGS
    ensures var s := EncodeMetricStreamTags(MergedTags(name, more));
            EntrySet(Reencode(s)) <= EntrySet(s) <==> NewPiecesStay(more, Pieces(s))
  {
    var tags := MergedTags(name, more);
    var s := EncodeMetricStreamTags(tags);
    EmptyIffNoTags(tags);
    MergeIsUnion(name, more);
    PiecesOfEncoding(tags);
    ListedIsPassable(name);
    ReencodedPieces(s);
    ReadEntries(Pieces(s));
    var listed, new' := Elements(Entries(FromList(Listed(name)))), Elements(Entries(FromList(more)));
    var again := EntrySet(Reencode(s));
    assert again == Elements(Entries(FromList(Pieces(s))));
    hide FromList, Listed, Entries, Encoded, EncodeMetricStreamTags, NormalSet, MergedTags, Fitting, Reencode, Pieces, EntryOf;
    forall e | e in listed ensures Split(e, ',') == [e] && Stays(e, Pieces(s)) {
      WholePiece(e);
      EncodedIsItsEntry(e);
      assert e in Split(e, ',');
      assert e in EntrySet(s);
    }
    PiecesStayIff(s, again, listed, new');
  }

  lemma {:induction false} PiecesStayIff(s: Text, again: set<Text>, listed: set<Text>, new': set<Text>)
    requires forall p :: p in EntrySet(s) <==> exists e :: e in listed + new' && p in Split(e, ',')
    requires forall e :: e in again <==> exists p :: p in Pieces(s) && EntryOf(p) == Some(e)
    requires forall e <- listed :: Split(e, ',') == [e] && Stays(e, Pieces(s))
    ensures again <= EntrySet(s) <==> forall e, p :: e in new' && p in Split(e, ',') ==> Stays(p, Pieces(s))
  {
    hide Split, EntryOf, Pieces;
    if again <= EntrySet(s) {
      forall e, p | e in new' && p in Split(e, ',') ensures Stays(p, Pieces(s)) {
        assert p in EntrySet(s);
      }
    }
    if forall e, p :: e in new' && p in Split(e, ',') ==> Stays(p, Pieces(s)) {
      forall q | q in again ensures q in EntrySet(s) {
        var p :| p in Pieces(s) && EntryOf(p) == Some(q);
        assert p in EntrySet(s);
        var e :| e in listed + new' && p in Split(e, ',');
        assert Stays(p, Pieces(s));
      }
    }
  }

  /** Merging the same tags again keeps the base and, of the set of elements, all; it adds none
      exactly if each piece of the new tags' entries reads as no tag, or its entry is an element. */
  lemma {:induction false} SecondMergeIsIdleIff(name: Text, more: seq<Text>)
    requires HasStreamTags(name) && more != []
    requires |FromList(Listed(name))| + |FromList(more)| <= MAX_TAGS
    requires NormalSet(MergedTags(name, more)) != {}
    requires var s := EncodeMetricStreamTags(MergedTags(name, more));
             |FromList(Pieces(s))| + |FromList(more)| <= MAX_TAGS
    ensures var (once, twice) := (MergeTags(name, more), MergeTags(MergeTags(name, more), more));
            && HasStreamTags(once) && HasStreamTags(twice) && Base(once) == Base(twice) == Base(name)
            && (Elements(Listed(twice)) == Elements(Listed(once)) <==> NewPiecesStay(more, Listed(once)))
            && (Elements(Listed(twice)) == Elements(Listed(once))
                <==> var s := EncodeMetricStreamTags(MergedTags(name, more)); EntrySet(Reencode(s)) <= EntrySet(s))
  {
    hide *;
    SecondMergeSets(name, more);
    SecondMergeNames(name, more);
    ReencodingAddsNothingIff(name, more);
    var once := MergeTags(name, more);
    SamePieces(EncodeMetricStreamTags(MergedTags(name, more)), EncodeMetricStreamTags(MergedTags(once, more)));
  }

  lemma {:induction false} SamePieces(s: Text, s2: Text)
    ensures Elements(Pieces(s2)) == Elements(Pieces(s)) <==> EntrySet(s) <= EntrySet(s2) && EntrySet(s2) <= EntrySet(s)
  {
    hide Pieces;
  }

  lemma {:induction false} SecondMergeNames(name: Text, more: seq<Text>)
    requires HasStreamTags(name) && more != []
    requires HasStreamTags(MergeTags(name, more)) && NormalSet(MergedTags(name, more)) != {}
    requires var (s, s2) := (EncodeMetricStreamTags(MergedTags(name, more)),
                             EncodeMetricStreamTags(MergedTags(MergeTags(name, more), more)));
             s != [] && EntrySet(s) <= EntrySet(s2)
    ensures var (once, twice) := (MergeTags(name, more), MergeTags(MergeTags(name, more), more));
            && HasStreamTags(twice) && Base(once) == Base(twice) == Base(name)
            && Listed(once) == Pieces(EncodeMetricStreamTags(MergedTags(name, more)))
            && Listed(twice) == Pieces(EncodeMetricStreamTags(MergedTags(once, more)))
  {
    var once := MergeTags(name, more);
    hide Listed, EncodeMetricStreamTags, NormalSet, MergedTags, MergeTags, HasStreamTags, Base;
    SomePiece(EncodeMetricStreamTags(MergedTags(name, more)), EncodeMetricStreamTags(MergedTags(once, more)));
    EmptyIffNoTags(MergedTags(once, more));
    MergeKeepsTheBase(name, more);
    MergeKeepsTheBase(once, more);
  }

  lemma {:induction false} SomePiece(s: Text, s2: Text)
    requires s != [] && EntrySet(s) <= EntrySet(s2)
    ensures s2 != []
  {
    assert Pieces(s)[0] in EntrySet(s);
  }

  /** New tags of which no part passes as encoded and holds a comma can be merged any number of
      times: the base and the set of elements stay. */
  lemma {:induction false} MergeIsIdempotentOnSets(name: Text, more: seq<Text>)
    requires HasStreamTags(name) && more != []
    requires |FromList(Listed(name))| + |FromList(more)| <= MAX_TAGS
    requires NormalSet(MergedTags(name, more)) != {}
    requires forall n <- NormalTags(FromList(more)) :: Passable(n)
    ensures var (once, twice) := (MergeTags(name, more), MergeTags(MergeTags(name, more), more));
            && HasStreamTags(once) && HasStreamTags(twice) && Base(once) == Base(twice) == Base(name)
            && Elements(Listed(once)) == Elements(Entries(MergedTags(name, more)))
            && Elements(Listed(twice)) == Elements(Listed(once))
  {
    var tags, once := MergedTags(name, more), MergeTags(name, more);
    MergedIsPassable(name, more);
    MergeKeepsTheBase(name, more);
    var list := Entries(tags);
    EntriesAreEncoded(tags);
    PiecesOfJoin(list);
    PlainTextsHaveColons(tags);
    EmptyIffNoTags(tags);
    assert Listed(once) == list;
    MergeIsUnion(name, more);
    assert Elements(Entries(FromList(more))) <= Elements(list);
    hide FromList, Listed, Entries, Encoded, NormalSet, EncodeMetricTags, Passable, MergeTags, NormalTags, Fitting, MergedTags;
    NothingNew(once, list, more);
    MergeKeepsTheBase(once, more);
  }

  lemma {:induction false} MergedIsPassable(name: Text, more: seq<Text>)
    requires HasStreamTags(name) && more != []
    requires forall n <- NormalTags(FromList(more)) :: Passable(n)
    ensures forall n <- NormalSet(MergedTags(name, more)) :: Passable(n)
  {
    var listed, new' := FromList(Listed(name)), FromList(more);
    FromListSplits(Listed(name), more);
    SetOfBoth(listed, new');
    ListedIsPassable(name);
    hide FromList, Listed, Fitting, Passable, NormalSet, NormalTags;
    forall n | n in NormalSet(MergedTags(name, more)) ensures Passable(n) {
      assert n in NormalSet(listed) || n in Elements(NormalTags(new'));
    }
  }

  /** Merging tags whose entries are listed already gives the same set again. */
  lemma {:induction false} NothingNew(once: Text, list: seq<Text>, more: seq<Text>)
    requires HasStreamTags(once) && Listed(once) == list && list != [] && more != []
    requires AllEncoded(list) && |list| <= MAX_TAGS && |FromList(more)| <= MAX_TAGS
    requires Elements(Entries(FromList(more))) <= Elements(list)
    ensures var tags := MergedTags(once, more);
            && NormalSet(tags) != {}
            && Elements(Pieces(EncodeMetricStreamTags(tags))) == Elements(list)
  {
    var tags := MergedTags(once, more);
    FromListSplits(list, more);
    SameEntries(FromList(list), FromList(more), list);
    EncodedTexts(tags);
    hide FromList, Listed, Encoded, EncodeEntry, Plain, EncodeMetricStreamTags, HasStreamTags, Entries, NormalSet;
    assert list[0] in Elements(Entries(tags));
    EncodedSubset(list, Entries(tags));
    PiecesOfEncoded(tags);
    var n :| n in NormalSet(tags) && EncodeEntry(Plain(n)) == list[0];
  }

  lemma {:induction false} SameEntries(listed: seq<Tag>, new': seq<Tag>, list: seq<Text>)
    requires AllEncoded(list) && listed == FromList(list) && list != []
    requires |list| <= MAX_TAGS && |new'| <= MAX_TAGS && Elements(Entries(new')) <= Elements(list)
    ensures Elements(Entries(listed + new')) == Elements(list) && list[0] in Elements(list)
  {
    hide FromList, Encoded, EncodeEntry, Plain, SortUnique, EncodeMetricTags, NormalTags;
    var fit := Elements(NormalTags(Fitting(listed, new')));
    SetOfBoth(listed, new');
    FittingIsSome(listed, new');
    EncodedEntriesAreSorted(list);
    SortUniqueSorts(list);
    EncodedTexts(listed + new');
    EncodedTexts(listed);
    EncodedTexts(new');
    hide Entries, NormalSet, Fitting;
    ImageOfUnion(NormalSet(listed), fit);
    ImageOfSubset(fit, NormalSet(new'));
  }

  lemma {:induction false} FittingIsSome(listed: seq<Tag>, new': seq<Tag>)
    requires |new'| <= MAX_TAGS
    ensures Elements(NormalTags(Fitting(listed, new'))) <= NormalSet(new')
  {
    SetOfBoth(listed, new');
    assert First(new') == new';
  }

  lemma {:induction false} PiecesOfEncoded(tags: seq<Tag>)
    requires AllEncoded(Entries(tags))
    ensures Pieces(EncodeMetricStreamTags(tags)) == Entries(tags)
  {
    PiecesOfJoin(Entries(tags));
  }

  lemma {:induction false} ImageOfSubset(a: set<Tag>, b: set<Tag>)
    requires a <= b
    ensures (set n | n in a :: EncodeEntry(Plain(n))) <= (set n | n in b :: EncodeEntry(Plain(n)))
  {
    hide EncodeEntry, Plain;
  }

  /** With no tag at all to encode, one merge leaves the base alone, and the next loses it. */
  lemma {:induction false} MergeTwiceLosesTheBase(name: Text, more: seq<Text>)
    requires HasStreamTags(name) && more != []
    requires |FromList(Listed(name))| + |FromList(more)| <= MAX_TAGS
    requires NormalSet(MergedTags(name, more)) == {}
    ensures MergeTags(name, more) == Base(name) && MergeTags(Base(name), more) == []
  {
    MergeKeepsTheBase(name, more);
    MergeIsUnion(name, more);
    BaseIsPlain(name);
    EmptyIffNoTags(FromList(more));
  }

  /** A name without tags and a tag that falls apart: merging it again adds elements. */
  lemma {:induction false} CommaMergedTwice(base: Text)
    requires !HasStreamTags(base)
    ensures var (name, more) := (WithTags(base, []), [Plain(COMMA_TAG)]);
            var (once, twice) := (MergeTags(name, more), MergeTags(MergeTags(name, more), more));
            HasStreamTags(once) && HasStreamTags(twice) && Elements(Listed(twice)) != Elements(Listed(once))
  {
    var name, more := WithTags(base, []), [Plain(COMMA_TAG)];
    var s := CommaLeft() + [','] + CommaRight();
    NameParts(base, []);
    CommaTags();
    assert Listed(name) == [[]] && [[]] + more == [[], Plain(COMMA_TAG)];
    CommaAdds();
    hide *;
    SecondMergeIsIdleIff(name, more);
  }

  lemma {:induction false} FromListShort(list: seq<Text>)
    ensures |FromList(list)| <= |list|
  {
    if list != [] {
      FromListShort(list[1..]);
    }
  }

  lemma {:induction false} CommaTags()
    ensures Split([], ',') == [[]] && FromList([[]]) == []
    ensures FromList([Plain(COMMA_TAG)]) == [COMMA_TAG] == FromList([[], Plain(COMMA_TAG)])
    ensures NormalSet([COMMA_TAG]) == {COMMA_TAG}
    ensures EncodeMetricStreamTags([COMMA_TAG]) == CommaLeft() + [','] + CommaRight()
    ensures |FromList(Pieces(CommaLeft() + [','] + CommaRight()))| <= 2
  {
    CommaTagIsNormal();
    OneNormalTag(COMMA_TAG);
    CommaEntry();
    CommaPieces();
    FromListShort([CommaLeft(), CommaRight()]);
    hide EncodeEntry, Plain, Normal, EncodeMetricStreamTags, CommaLeft, CommaRight, Pieces;
    ReadPlain(COMMA_TAG);
  }

  lemma {:induction false} ReadPlain(n: Tag)
    requires ':' !in n.category && Normal(n) == Some(n)
    ensures FromList([Plain(n)]) == [n] == FromList([[], Plain(n)])
    ensures FromList([[]]) == [] && Split([], ',') == [[]]
    ensures NormalSet([n]) == {n}
  {
    SplitFirstOf(n.category, ':', n.value);
    hide Normal;
    var list: seq<Text> := [[], Plain(n)];
    assert FromList([Plain(n)]) == [n] + FromList([]);
    assert list[1..] == [Plain(n)];
    assert NormalTags([n]) == [n] + NormalTags([]) == [n];
  }

  lemma {:induction false} CommaPieces()
    ensures Pieces(CommaLeft() + [','] + CommaRight()) == [CommaLeft(), CommaRight()]
  {
    TwoPieces();
    SplitAppend(CommaLeft(), ',', CommaRight());
  }

  /** Read again, the second piece is a tag, and its entry is neither piece. */
  lemma {:induction false} CommaAdds()
    ensures var s := CommaLeft() + [','] + CommaRight();
            !(EntrySet(Reencode(s)) <= EntrySet(s))
  {
    hide CommaLeft, CommaRight, FromList, EncodeEntry, Plain, Normal, SplitFirst, Pieces, Reencode, Passable, EntrySet;
    YTagIsNormal();
    CommaPieces();
    YEntryIsNew();
    var list := [CommaLeft(), CommaRight()];
    FromListShort(list);
    assert list[1] == CommaRight();
    EntryIsAdded(CommaLeft() + [','] + CommaRight(), CommaRight(), Tag(['y'], ['z']));
  }

  /** An element read as a tag whose entry is not an element: encoding again adds that entry. */
  lemma {:induction false} EntryIsAdded(s: Text, e: Text, t: Tag)
    ensures var list := Pieces(s);
            e in list && SplitFirst(e, ':') == Some((t.category, t.value)) && Normal(t) == Some(t)
            && |FromList(list)| <= MAX_TAGS && EncodeEntry(Plain(t)) !in list
            ==> !(EntrySet(Reencode(s)) <= EntrySet(s))
  {
    hide *;
    var list := Pieces(s);
    if && e in list && SplitFirst(e, ':') == Some((t.category, t.value)) && Normal(t) == Some(t)
       && |FromList(list)| <= MAX_TAGS && EncodeEntry(Plain(t)) !in list
    {
      PiecesOfSome(s, list);
      ReencodedPieces(s);
      MemberIsRead(list, e);
      NormalMember(FromList(list), t);
      SetOfFew(FromList(list), t);
      EncodedTexts(FromList(list));
      InEntries(s, list, EncodeEntry(Plain(t)));
    }
  }

  lemma {:induction false} PiecesOfSome(s: Text, list: seq<Text>)
    requires Pieces(s) == list && list != []
    ensures Split(s, ',') == list
  {
  }

  lemma {:induction false} SetOfFew(tags: seq<Tag>, t: Tag)
    requires |tags| <= MAX_TAGS && t in NormalTags(tags)
    ensures t in NormalSet(tags)
  {
  }

  lemma {:induction false} InEntries(s: Text, list: seq<Text>, q: Text)
    requires Pieces(s) == list && Pieces(Reencode(s)) == Entries(FromList(list))
    requires q in Elements(Entries(FromList(list))) && q !in list
    ensures !(EntrySet(Reencode(s)) <= EntrySet(s))
  {
    hide Pieces, Reencode, Entries, FromList;
    assert q in EntrySet(Reencode(s));
  }

  lemma {:induction false} YTagIsNormal()
    ensures var t := Tag(['y'], ['z']);
            Normal(t) == Some(t) && Passable(t) && SplitFirst(CommaRight(), ':') == Some((t.category, t.value))
  {
    var c: Text := ['y'];
    assert ToLower(c) == c && c[1..] == [];
    assert RemoveSpaces(c) == [c[0]] + RemoveSpaces([]) == c;
    assert NormalCategory(c) == c;
    SplitFirstOf(c, ':', ['z']);
    assert c + [':'] + ['z'] == CommaRight();
  }

  lemma {:induction false} YEntryIsNew()
    ensures EncodeEntry(Plain(Tag(['y'], ['z']))) !in [CommaLeft(), CommaRight()]
  {
    hide *;
    YTagIsNormal();
    EncodedEntry(Tag(['y'], ['z']));
    TwoPieces();
    CategoriesDiffer();
  }

  lemma {:induction false} CategoriesDiffer()
    ensures SplitFirst(CommaLeft(), ':').Some? && SplitFirst(CommaLeft(), ':').value.0 != EncodeCategory(['y'])
  {
    var rest: Text := ['b', '"', 'x'];
    var y: Text := ['y'];
    WrapsDiffer();
    WrapIsClean(['a']);
    hide Wrap, Unwrap, SplitFirst;
    SplitFirstOf(Wrap(['a']), ':', rest);
    assert Wrap(['a']) + [':'] + rest == CommaLeft();
    assert ToLower(y) == y && EncodeCategory(y) == Wrap(y);
  }

  lemma {:induction false} WrapsDiffer()
    ensures Wrap(['a']) != Wrap(['y'])
  {
    WrapIsClean(['a']);
    WrapIsClean(['y']);
    hide Wrap, Unwrap;
    assert Base64.Bytes(['a'])[0] != Base64.Bytes(['y'])[0];
  }

  // ---------------------------------------------------------------- repeated entries

  predicate NoRepeats<T(==)>(list: seq<T>) {
    forall i, j :: 0 <= i < j < |list| ==> list[i] != list[j]
  }

  /** Texts with one entry are one text. */
  predicate ToldApart(t: Text, u: Text) {
    EncodeEntry(t) == EncodeEntry(u) ==> t == u
  }

  lemma {:induction false} NoRepeatsIffInjective<A, B>(xs: seq<A>, ys: seq<B>, apart: (A, A) -> bool)
    requires |xs| == |ys| && NoRepeats(xs)
    requires forall i, j :: 0 <= i < |xs| && 0 <= j < |xs| ==> (apart(xs[i], xs[j]) <==> (ys[i] == ys[j] ==> i == j))
    ensures NoRepeats(ys) <==> forall x, y :: x in xs && y in xs ==> apart(x, y)
  {
    if NoRepeats(ys) {
      forall x, y | x in xs && y in xs ensures apart(x, y) {
        var i :| 0 <= i < |xs| && xs[i] == x;
        var j :| 0 <= j < |xs| && xs[j] == y;
        assert ys[i] == ys[j] ==> i == j;
      }
    } else {
      var i, j :| 0 <= i < j < |ys| && ys[i] == ys[j];
      assert !apart(xs[i], xs[j]) && xs[i] in xs && xs[j] in xs;
    }
  }

  /** No entry is repeated exactly if different texts have different entries: deduplication comes
      before encoding. */
  lemma {:induction false} RepeatsIff(tags: seq<Tag>)
    ensures NoRepeats(Entries(tags))
        <==> forall n, m :: n in NormalSet(tags) && m in NormalSet(tags) ==> ToldApart(Plain(n), Plain(m))
  {
    var texts := EncodeMetricTags(tags);
    TextsAreDistinct(tags);
    EncodedTexts(tags);
    hide EncodeMetricTags, EncodeEntry, Plain, NormalSet, ToldApart;
    forall i, j | 0 <= i < |texts| && 0 <= j < |texts|
      ensures ToldApart(texts[i], texts[j]) <==> (Entries(tags)[i] == Entries(tags)[j] ==> i == j)
    {
      ApartAt(tags, i, j);
    }
    hide Entries;
    NoRepeatsIffInjective(texts, Entries(tags), (t: Text, u: Text) => ToldApart(t, u));
    ImageApart(NormalSet(tags), texts);
  }

  lemma {:induction false} ImageApart(ns: set<Tag>, texts: seq<Text>)
    requires Elements(texts) == set n | n in ns :: Plain(n)
    ensures (forall t, u :: t in texts && u in texts ==> ToldApart(t, u))
        <==> forall n, m :: n in ns && m in ns ==> ToldApart(Plain(n), Plain(m))
  {
    hide Plain, ToldApart;
    assert forall n :: n in ns ==> Plain(n) in Elements(texts);
    assert forall t :: t in texts ==> t in Elements(texts);
  }

  lemma {:induction false} TextsAreDistinct(tags: seq<Tag>)
    ensures NoRepeats(EncodeMetricTags(tags)) && |EncodeMetricTags(tags)| == |Entries(tags)|
  {
    var texts := EncodeMetricTags(tags);
    EncodedTexts(tags);
    hide EncodeMetricTags, EncodeEntry, Plain, Less;
    forall i, j | 0 <= i < j < |texts| ensures texts[i] != texts[j] {
      LessIsTotal(texts[i], texts[j]);
    }
  }

  lemma {:induction false} ApartAt(tags: seq<Tag>, i: nat, j: nat)
    requires var texts := EncodeMetricTags(tags);
             i < |texts| == |Entries(tags)| && j < |texts| && NoRepeats(texts)
    ensures var texts := EncodeMetricTags(tags);
            ToldApart(texts[i], texts[j]) <==> (Entries(tags)[i] == Entries(tags)[j] ==> i == j)
  {
    hide EncodeMetricTags, EncodeEntry;
  }

  /** Each encoded element is read as a tag that is its own entry. */
  lemma {:induction false} TagsOfListed(list: seq<Text>)
    requires AllEncoded(list) && |list| <= MAX_TAGS
    ensures forall t <- NormalSet(FromList(list)) :: Plain(t) in list && EncodeEntry(Plain(t)) == Plain(t)
    ensures forall e <- list :: exists t :: t in NormalSet(FromList(list)) && Plain(t) == e
  {
    hide Encoded, Normal, Plain, Passable, SplitFirst, FromList, NormalTags, EncodeEntry;
    FromEncoded(list);
    var tags := FromList(list);
    assert First(tags) == tags;
    assert forall i :: 0 <= i < |tags| ==> Map(Plain, tags)[i] == Plain(tags[i]);
    hide Map, First;
    forall t | t in NormalSet(tags) ensures Plain(t) in list && EncodeEntry(Plain(t)) == Plain(t) {
      var i :| 0 <= i < |tags| && tags[i] == t;
      assert Plain(t) == list[i];
      EncodedIsFixed(list[i]);
    }
    forall e | e in list ensures exists t :: t in NormalSet(tags) && Plain(t) == e {
      var i :| 0 <= i < |list| && list[i] == e;
      assert tags[i] in NormalSet(tags);
    }
  }

  lemma {:induction false} PlainEntriesDiffer(n: Tag, m: Tag)
    requires IsPlain(n) && IsPlain(m) && ToLower(n.category) == n.category && ToLower(m.category) == m.category
    requires EncodeEntry(Plain(n)) == EncodeEntry(Plain(m))
    ensures n == m
  {
    EncodedEntry(n);
    EncodedEntry(m);
    WrapIsClean(n.category);
    WrapIsClean(n.value);
    WrapIsClean(m.category);
    WrapIsClean(m.value);
    hide Wrap, Unwrap, EncodeEntry, Plain, Encoded, SplitFirst;
    Base64.BytesInjective(n.category, m.category);
    Base64.BytesInjective(n.value, m.value);
  }

  /** Plain tags merged into encoded elements: an entry is repeated exactly if a new tag that fits
      has its encoded form among them. */
  lemma {:induction false} MergeRepeatsIff(list: seq<Text>, more: seq<Text>)
    requires AllEncoded(list) && |list| <= MAX_TAGS
    requires forall n <- NormalTags(FromList(more)) :: IsPlain(n)
    ensures NoRepeats(Entries(FromList(list + more)))
        <==> forall n <- NormalTags(Fitting(FromList(list), FromList(more))) :: EncodeEntry(Plain(n)) !in list
  {
    var listed, new' := FromList(list), FromList(more);
    var fit := NormalTags(Fitting(listed, new'));
    FromListSplits(list, more);
    SetOfBoth(listed, new');
    TagsOfListed(list);
    RepeatsIff(listed + new');
    NormalTagsAreNormal(Fitting(listed, new'));
    assert forall n <- fit :: n in Elements(fit) && n in Elements(NormalTags(new'));
    assert forall n <- fit :: IsPlain(n) && ToLower(n.category) == n.category;
    hide FromList, NormalTags, Fitting, Entries, NormalSet, EncodeEntry, Plain, IsPlain, NoRepeats, Encoded;
    var all := NormalSet(listed + new');
    if n :| n in fit && EncodeEntry(Plain(n)) in list {
      var t :| t in NormalSet(listed) && Plain(t) == EncodeEntry(Plain(n));
      PlainIsNotEncoded(n, Plain(t));
      assert n in all && t in all && !ToldApart(Plain(n), Plain(t));
    } else {
      forall n, m | n in all && m in all ensures ToldApart(Plain(n), Plain(m)) {
        if n in Elements(fit) && m in Elements(fit) && EncodeEntry(Plain(n)) == EncodeEntry(Plain(m)) {
          PlainEntriesDiffer(n, m);
        }
      }
    }
  }

  /** The same for a name: what a merge lists holds an element twice exactly if one of the plain new
      tags that fit was listed in its encoded form. */
  lemma {:induction false} NameRepeatsIff(name: Text, more: seq<Text>)
    requires HasStreamTags(name) && more != [] && AllEncoded(Listed(name)) && |Listed(name)| <= MAX_TAGS
    requires forall n <- NormalTags(FromList(more)) :: IsPlain(n)
    ensures HasStreamTags(MergeTags(name, more))
    ensures NoRepeats(Listed(MergeTags(name, more)))
        <==> forall n <- NormalTags(Fitting(FromList(Listed(name)), FromList(more))) ::
               EncodeEntry(Plain(n)) !in Listed(name)
  {
    var tags := MergedTags(name, more);
    assert forall n <- NormalTags(FromList(more)) :: Passable(n);
    hide Encoded, Passable, IsPlain, NormalTags, FromList, Fitting, EncodeEntry, Plain, MergeTags, HasStreamTags;
    MergedIsPassable(name, more);
    MergeRepeatsIff(Listed(name), more);
    TagsOfListed(Listed(name));
    MergeIsUnion(name, more);
    assert Listed(name)[0] in Listed(name);
    hide NoRepeats, Entries, NormalSet;
    MergeKeepsTheBase(name, more);
    EntriesAreEncoded(tags);
    PiecesOfEncoded(tags);
  }

  lemma {:induction false} TwoSorted(s: Text, t: Text)
    requires s != t
    ensures SortUnique([s, t]) == [s, t] || SortUnique([s, t]) == [t, s]
  {
    LessIsTotal(s, t);
    assert [s, t][1..] == [t] && [t][1..] == [];
    assert SortUnique([t]) == Insert(t, []);
    assert SortUnique([s, t]) == Insert(s, [t]);
    assert Insert(s, []) == [s];
    assert [s] + [t] == [s, t] && [t] + [s] == [t, s];
  }

  /** But not on strings: deduplication comes before encoding, so merging a plain tag into a
      name that has its encoded form lists that form twice. */
  lemma {:induction false} MergeMayRepeat(base: Text, n: Tag)
    requires !HasStreamTags(base)
    requires IsPlain(n) && Normal(n) == Some(n)
    ensures var e := EncodeEntry(Plain(n));
            MergeTags(WithTags(base, e), [Plain(n)]) == WithTags(base, e + [','] + e)
  {
    var e := EncodeEntry(Plain(n));
    PlainIsPassable(n);
    MixedMerged(n);
    hide *;
    EncodedEntry(n);
    WholePiece(e);
    EntryIsSome(n);
    MergeGives(base, e, [Plain(n)], [e, e]);
    JoinOfTwo(e);
  }

  lemma {:induction false} JoinOfTwo(e: Text)
    ensures Join([e, e], ',') == e + [','] + e
  {
    assert [e, e][1..] == [e];
  }

  lemma {:induction false} MergeGives(base: Text, encoded: Text, more: seq<Text>, list: seq<Text>)
    requires !HasStreamTags(base) && more != []
    requires Entries(FromList(Split(encoded, ',') + more)) == list && list != [] && list[0] != []
    ensures MergeTags(WithTags(base, encoded), more) == WithTags(base, Join(list, ','))
  {
    NameParts(base, encoded);
    hide HasStreamTags, WithTags, Base, Listed, FromList, Entries, Split, NormalSet;
    MergeKeepsTheBase(WithTags(base, encoded), more);
    EmptyIffNoTags(MergedTags(WithTags(base, encoded), more));
    assert Join(list, ',') != [];
  }

  lemma {:induction false} MixedMerged(n: Tag)
    requires IsPlain(n) && Normal(n) == Some(n)
    ensures var e := EncodeEntry(Plain(n));
            Entries(FromList([e] + [Plain(n)])) == [e, e]
  {
    hide *;
    var p := Plain(n);
    var e := EncodeEntry(p);
    PlainIsPassable(n);
    EncodedEntry(n);
    EncodedIsFixed(e);
    MixedTexts(e, n);
    PlainIsNotEncoded(n, e);
    TwoSorted(e, p);
    MapTwo(e, p, e);
    MapTwo(p, e, e);
    assert [e] + [p] == [e, p];
    EntriesAre(FromList([e] + [p]));
  }

  lemma {:induction false} PlainIsPassable(n: Tag)
    requires IsPlain(n)
    ensures Passable(n)
  {
  }

  lemma {:induction false} EntriesAre(tags: seq<Tag>)
    ensures Entries(tags) == MapText(EncodeEntry, EncodeMetricTags(tags))
  {
  }

  lemma {:induction false} MapTwo(s: Text, t: Text, e: Text)
    requires EncodeEntry(s) == e && EncodeEntry(t) == e
    ensures MapText(EncodeEntry, [s, t]) == [e, e]
  {
    hide EncodeEntry;
  }

  lemma {:induction false} OnePlain(n: Tag)
    requires IsPlain(n) && Normal(n) == Some(n)
    ensures FromList([Plain(n)]) == [n] && NormalTags([n]) == [n]
  {
    SplitFirstOf(n.category, ':', n.value);
    assert FromList([Plain(n)]) == [n] + FromList([]);
    assert NormalTags([n]) == [n] + NormalTags([]);
  }

  /** An encoded element and a plain tag are deduplicated as they are. */
  lemma {:induction false} MixedTexts(e: Text, n: Tag)
    requires Encoded(e) && IsPlain(n) && Normal(n) == Some(n)
    ensures EncodeMetricTags(FromList([e, Plain(n)])) == SortUnique([e, Plain(n)])
  {
    OnePlain(n);
    var t := FirstFromEncoded([e, Plain(n)]);
    hide Encoded, IsPlain, Normal, Plain, SortUnique, SplitFirst;
    assert [e, Plain(n)][1..] == [Plain(n)] && [t, n][1..] == [n];
    hide FromList;
    assert FromList([e, Plain(n)]) == [t, n];
    assert NormalTags([t, n]) == [t, n];
    assert Map(Plain, [t, n]) == [e, Plain(n)];
  }

  lemma {:induction false} PlainIsNotEncoded(n: Tag, e: Text)
    requires IsPlain(n) && Encoded(e)
    ensures e != Plain(n)
  {
    SplitFirstOf(n.category, ':', n.value);
  }
}
