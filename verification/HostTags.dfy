/** Merging the host's tags into the tags of a check bundle (internal/check/bundle/bundle.go). */
module HostTags {
  predicate HasColon(tag: string) {
    ':' in tag
  }

  /** The part up to the first colon (the whole tag without one), and a colon. */
  function Category(tag: string): (c: string) {
    if tag == [] || tag[0] == ':' then ":" else [tag[0]] + Category(tag[1..])
  }

  /** Index of the first entry of a category, or the length. */
  function FirstWith(list: seq<string>, category: string): (i: nat)
    ensures i <= |list| && (i < |list| ==> category <= list[i])
    ensures forall j :: 0 <= j < i ==> !(category <= list[j])
  {
    if list == [] || category <= list[0] then 0 else 1 + FirstWith(list[1..], category)
  }

  function MergeOne(list: seq<string>, tag: string): (seq<string>, bool) {
    var i := FirstWith(list, Category(tag));
    if i == |list| then (list + [tag], true)
    else if list[i] != tag then (list[i := tag], true)
    else (list, false)
  }

  function MergeAll(list: seq<string>, tags: seq<string>): (seq<string>, bool)
    decreases |tags|
  {
    if tags == [] then (list, false)
    else
      var (list1, changed1) := MergeOne(list, tags[0]);
      var (list2, changed2) := MergeAll(list1, tags[1..]);
      (list2, changed1 || changed2)
  }

  /** updateCheckBundleTags: the tags the bundle has then, and whether it is sent to the API. */
  function UpdateTags(existing: seq<string>, tags: seq<string>): (seq<string>, bool) {
    if existing == [] then (tags, true) else MergeAll(existing, tags)
  }

  /** The same, as the nested loops with their flags. */
  method UpdateCheckBundleTags(existing: seq<string>, newTags: seq<string>)
    returns (tags: seq<string>, updateCheck: bool)
    ensures (tags, updateCheck) == UpdateTags(existing, newTags)
  {
    updateCheck := false;
    tags := existing;
    if |existing| == 0 {
      return newTags, true;
    }
    var updTags := existing;
    for n := 0 to |newTags|
      invariant updTags != []
      invariant var (list, changed) := MergeAll(updTags, newTags[n..]);
                MergeAll(existing, newTags) == (list, updateCheck || changed)
      invariant !updateCheck ==> updTags == existing
    {
      var tag := newTags[n];
      assert newTags[n..][0] == tag && newTags[n..][1..] == newTags[n + 1..];
      var tagCat := Category(tag);
      var found, replace, repIdx := false, false, 0;
      for i := 0 to |updTags|
        invariant !found && !replace
        invariant i <= FirstWith(updTags, tagCat)
      {
        if tagCat <= updTags[i] {
          found := true;
          if updTags[i] != tag {
            replace, repIdx := true, i;
          }
          break;
        }
      }
      if found {
        if replace {
          updateCheck := true;
          updTags := updTags[repIdx := tag];
        }
      } else {
        updateCheck := true;
        updTags := updTags + [tag];
      }
    }
    assert newTags[|newTags|..] == [];
    if updateCheck {
      tags := updTags;
    }
  }

  // ---------------------------------------------------------------- categories

  lemma {:induction false} CategoryIsPrefix(tag: string)
    ensures Category(tag) <= tag <==> HasColon(tag)
  {
    if tag != [] && tag[0] != ':' {
      CategoryIsPrefix(tag[1..]);
      assert Category(tag)[1..] == Category(tag[1..]);
      if Category(tag) <= tag {
        assert Category(tag[1..]) <= tag[1..];
      }
    }
  }

  /** The category of "a:b" is "a:", where a has no colon; of a tag without one, the tag and a colon. */
  lemma {:induction false} CategoryIs(a: string, b: string)
    requires ':' !in a
    ensures Category(a + ":" + b) == a + ":" == Category(a)
  {
    if a != [] {
      assert (a + ":" + b)[1..] == a[1..] + ":" + b;
      CategoryIs(a[1..], b);
    }
  }

  /** An entry has one category at most. */
  lemma {:induction false} OneCategory(entry: string, tag: string)
    requires Category(tag) <= entry
    ensures HasColon(entry) && Category(entry) == Category(tag)
  {
    assert Category(tag)[0] == entry[0];
    if tag != [] && tag[0] != ':' {
      assert Category(tag)[1..] == Category(tag[1..]);
      OneCategory(entry[1..], tag[1..]);
    }
  }

  lemma {:induction false} FirstWithIs(list: seq<string>, category: string, i: nat)
    requires i <= |list| && (i < |list| ==> category <= list[i])
    requires forall j :: 0 <= j < i ==> !(category <= list[j])
    ensures FirstWith(list, category) == i
  {
  }

  /** Merging one tag leaves the first entry of any other category where and as it was. */
  lemma {:induction false} OtherCategories(list: seq<string>, tag: string, other: string)
    requires HasColon(tag) && Category(tag) != Category(other)
    ensures var list' := MergeOne(list, tag).0;
            var i := FirstWith(list, Category(other));
            && |list| <= |list'|
            && (i < |list| ==> FirstWith(list', Category(other)) == i && list'[i] == list[i])
            && (i == |list| ==> FirstWith(list', Category(other)) == |list'|)
  {
    var list' := MergeOne(list, tag).0;
    var c := Category(other);
    CategoryIsPrefix(tag);
    if c <= tag {
      OneCategory(tag, other);
    }
    var at := FirstWith(list, Category(tag));
    if at < |list| && c <= list[at] {
      OneCategory(list[at], other);
      OneCategory(list[at], tag);
    }
    var i := FirstWith(list, c);
    FirstWithIs(list', c, if i < |list| then i else |list'|);
  }

  // ---------------------------------------------------------------- what merging does

  predicate Distinct(tags: seq<string>) {
    forall i, j :: 0 <= i < j < |tags| ==> Category(tags[i]) != Category(tags[j])
  }

  predicate Proper(tags: seq<string>) {
    Distinct(tags) && forall i :: 0 <= i < |tags| ==> HasColon(tags[i])
  }

  /** Entry i of the merged list: the new tag whose category has its first entry there, if any. */
  function Replaced(list: seq<string>, tags: seq<string>, i: nat): string
    requires i < |list|
  {
    if tags == [] then list[i]
    else if FirstWith(list, Category(tags[0])) == i then tags[0]
    else Replaced(list, tags[1..], i)
  }

  /** The new tags whose category has no entry, in order. */
  function Unmatched(list: seq<string>, tags: seq<string>): seq<string> {
    if tags == [] then []
    else (if FirstWith(list, Category(tags[0])) == |list| then [tags[0]] else []) + Unmatched(list, tags[1..])
  }

  function ReplacedAll(list: seq<string>, tags: seq<string>): seq<string> {
    seq(|list|, i requires 0 <= i < |list| => Replaced(list, tags, i))
  }

  function Expected(list: seq<string>, tags: seq<string>): seq<string> {
    ReplacedAll(list, tags) + Unmatched(list, tags)
  }

  lemma {:induction false} AfterOne(list: seq<string>, tag: string, rest: seq<string>)
    requires HasColon(tag) && forall i :: 0 <= i < |rest| ==> Category(tag) != Category(rest[i])
    ensures var list' := MergeOne(list, tag).0;
            && (forall i :: 0 <= i < |list| && i != FirstWith(list, Category(tag)) ==>
                  Replaced(list', rest, i) == Replaced(list, rest, i))
            && (FirstWith(list, Category(tag)) < |list'| && Replaced(list', rest, FirstWith(list, Category(tag))) == tag)
            && Unmatched(list', rest) == Unmatched(list, rest)
  {
    if rest != [] {
      AfterOne(list, tag, rest[1..]);
      OtherCategories(list, tag, rest[0]);
      var at := FirstWith(list, Category(tag));
      if at < |list| && FirstWith(list, Category(rest[0])) == at {
        OneCategory(list[at], rest[0]);
        OneCategory(list[at], tag);
      }
    }
  }

  /** For new tags of distinct categories: the first entry of each of their categories becomes the
      new tag, every other entry keeps its place and value, and the tags without an entry are
      appended in order. */
  lemma {:induction false} MergeIsExpected(list: seq<string>, tags: seq<string>)
    requires Proper(tags)
    ensures MergeAll(list, tags).0 == Expected(list, tags)
    decreases |tags|
  {
    if tags == [] {
      assert Expected(list, []) == list;
    } else {
      ExpectedStep(list, tags);
      hide MergeOne, Expected;
      MergeIsExpected(MergeOne(list, tags[0]).0, tags[1..]);
    }
  }

  lemma {:induction false} ExpectedStep(list: seq<string>, tags: seq<string>)
    requires Proper(tags) && tags != []
    ensures Expected(MergeOne(list, tags[0]).0, tags[1..]) == Expected(list, tags)
  {
    var tag, rest := tags[0], tags[1..];
    AfterOne(list, tag, rest);
    var (list', at) := (MergeOne(list, tag).0, FirstWith(list, Category(tag)));
    assert |list'| == |list| + if at == |list| then 1 else 0;
    forall i | 0 <= i < |list| ensures Replaced(list', rest, i) == Replaced(list, tags, i) {
      Unfolded(list, tags, i);
    }
    UnfoldedUnmatched(list, tags);
    hide *;
    AppendedOrNot(list, tags, list', at);
  }

  lemma {:induction false} Unfolded(list: seq<string>, tags: seq<string>, i: nat)
    requires i < |list| && tags != []
    ensures Replaced(list, tags, i)
         == if FirstWith(list, Category(tags[0])) == i then tags[0] else Replaced(list, tags[1..], i)
  {
  }

  lemma {:induction false} UnfoldedUnmatched(list: seq<string>, tags: seq<string>)
    requires tags != []
    ensures Unmatched(list, tags)
         == (if FirstWith(list, Category(tags[0])) == |list| then [tags[0]] else []) + Unmatched(list, tags[1..])
  {
  }

  lemma {:induction false} AppendedOrNot(list: seq<string>, tags: seq<string>, list': seq<string>, at: nat)
    requires tags != [] && at <= |list| && |list'| == |list| + if at == |list| then 1 else 0
    requires forall i :: 0 <= i < |list| ==> Replaced(list', tags[1..], i) == Replaced(list, tags, i)
    requires at == |list| ==> Replaced(list', tags[1..], at) == tags[0]
    requires Unmatched(list, tags) == (if at == |list| then [tags[0]] else []) + Unmatched(list', tags[1..])
    ensures Expected(list', tags[1..]) == Expected(list, tags)
  {
    hide Replaced, Unmatched;
    var (r', r) := (ReplacedAll(list', tags[1..]), ReplacedAll(list, tags));
    var u := Unmatched(list', tags[1..]);
    assert forall i :: 0 <= i < |r| ==> r'[i] == r[i];
    if at < |list| {
      Same(r', r);
      EmptyAppended(u);
    } else {
      Same(r', r + [tags[0]]);
      Associates(r, [tags[0]], u);
    }
  }

  lemma {:induction false} Same<T>(a: seq<T>, b: seq<T>)
    requires |a| == |b| && forall i :: 0 <= i < |a| ==> a[i] == b[i]
    ensures a == b
  {
  }

  lemma {:induction false} EmptyAppended<T>(a: seq<T>)
    ensures [] + a == a
  {
  }

  lemma {:induction false} Associates<T>(a: seq<T>, b: seq<T>, c: seq<T>)
    ensures (a + b) + c == a + (b + c)
  {
  }

  // ---------------------------------------------------------------- merging again

  /** The first entry of the tag's category is the tag. */
  predicate Settled(list: seq<string>, tag: string) {
    var i := FirstWith(list, Category(tag));
    i < |list| && list[i] == tag
  }

  predicate AllSettled(list: seq<string>, tags: seq<string>) {
    forall i :: 0 <= i < |tags| ==> Settled(list, tags[i])
  }

  /** Nothing is changed exactly if every new tag is the first of its category already. */
  lemma {:induction false} UnchangedIffSettled(list: seq<string>, tags: seq<string>)
    ensures !MergeAll(list, tags).1 <==> AllSettled(list, tags)
    ensures !MergeAll(list, tags).1 ==> MergeAll(list, tags).0 == list
    decreases |tags|
  {
    if tags != [] {
      UnchangedIffSettled(MergeOne(list, tags[0]).0, tags[1..]);
      assert Settled(list, tags[0]) <==> !MergeOne(list, tags[0]).1;
      assert forall i :: 0 < i < |tags| ==> tags[i] == tags[1..][i - 1];
      if AllSettled(list, tags) {
        assert AllSettled(list, tags[1..]);
      }
      if !MergeAll(list, tags).1 {
        assert AllSettled(list, tags[1..]);
        forall i | 0 <= i < |tags| ensures Settled(list, tags[i]) {
          assert i > 0 ==> Settled(list, tags[1..][i - 1]);
        }
      }
    }
  }

  /** Two new tags of one category are the same tag. */
  predicate Agreeing(tags: seq<string>) {
    forall i, j :: 0 <= i < |tags| && 0 <= j < |tags| && Category(tags[i]) == Category(tags[j]) ==> tags[i] == tags[j]
  }

  /** What a caller can see in the new tags alone: each has a colon, and they agree. */
  predicate Stable(tags: seq<string>) {
    (forall i :: 0 <= i < |tags| ==> HasColon(tags[i])) && Agreeing(tags)
  }

  lemma {:induction false} OneStaysSettled(list: seq<string>, tag: string, other: string)
    requires HasColon(tag) && (Category(other) == Category(tag) ==> other == tag)
    ensures Settled(MergeOne(list, tag).0, tag)
    ensures Settled(list, other) ==> Settled(MergeOne(list, tag).0, other)
  {
    CategoryIsPrefix(tag);
    var list' := MergeOne(list, tag).0;
    FirstWithIs(list', Category(tag), FirstWith(list, Category(tag)));
    if Category(other) != Category(tag) {
      OtherCategories(list, tag, other);
    }
  }

  lemma {:induction false} MergeSettles(list: seq<string>, all: seq<string>, n: nat)
    requires Stable(all) && n <= |all| && AllSettled(list, all[..n])
    ensures AllSettled(MergeAll(list, all[n..]).0, all)
    decreases |all| - n
  {
    if n == |all| {
      assert all[..n] == all && all[n..] == [];
    } else {
      var tag := all[n];
      var list' := MergeOne(list, tag).0;
      assert all[n..][0] == tag && all[n..][1..] == all[n + 1..];
      var done := all[..n + 1];
      forall i | 0 <= i < |done| ensures Settled(list', done[i]) {
        assert done[i] == all[i];
        assert i < n ==> Settled(list, all[..n][i]);
        OneStaysSettled(list, tag, all[i]);
      }
      MergeSettles(list', all, n + 1);
    }
  }

  lemma {:induction false} VerbatimSettles(tags: seq<string>)
    requires Stable(tags)
    ensures AllSettled(tags, tags)
  {
    forall i | 0 <= i < |tags| ensures Settled(tags, tags[i]) {
      CategoryIsPrefix(tags[i]);
      var j := FirstWith(tags, Category(tags[i]));
      OneCategory(tags[j], tags[i]);
    }
  }

  lemma {:induction false} SettledIsStable(list: seq<string>, tags: seq<string>)
    requires AllSettled(list, tags)
    ensures Stable(tags)
  {
    forall i | 0 <= i < |tags| ensures HasColon(tags[i]) {
      assert Settled(list, tags[i]);
      CategoryIsPrefix(tags[i]);
    }
    forall i, j | 0 <= i < |tags| && 0 <= j < |tags| && Category(tags[i]) == Category(tags[j])
      ensures tags[i] == tags[j]
    {
      assert Settled(list, tags[i]) && Settled(list, tags[j]);
    }
  }

  /** A second update changes nothing exactly if the new tags are stable (and there are tags at
      all: a bundle without any is updated every time). */
  lemma {:induction false} SecondUpdateIsIdleIff(existing: seq<string>, tags: seq<string>)
    ensures var once := UpdateTags(existing, tags).0;
            var (twice, changed) := UpdateTags(once, tags);
            && (!changed <==> Stable(tags) && (existing != [] || tags != []))
            && (!changed ==> twice == once)
  {
    var once := UpdateTags(existing, tags).0;
    if existing != [] {
      MergeKeepsSome(existing, tags);
    }
    if once != [] {
      UnchangedIffSettled(once, tags);
      if Stable(tags) {
        if existing == [] {
          VerbatimSettles(tags);
        } else {
          assert tags[..0] == [] && tags[0..] == tags;
          MergeSettles(existing, tags, 0);
        }
      }
      if AllSettled(once, tags) {
        SettledIsStable(once, tags);
      }
    }
  }

  lemma {:induction false} MergeKeepsSome(list: seq<string>, tags: seq<string>)
    requires list != []
    ensures MergeAll(list, tags).0 != []
    decreases |tags|
  {
    if tags != [] {
      MergeKeepsSome(MergeOne(list, tags[0]).0, tags[1..]);
    }
  }

  /** Once an entry is a new tag, merging tags that agree with it leaves it so. */
  lemma {:induction false} StaysReplaced(list: seq<string>, tags: seq<string>, i: nat)
    requires i < |list| && forall j :: 0 <= j < |tags| && Category(tags[j]) == Category(list[i]) ==> tags[j] == list[i]
    ensures |MergeAll(list, tags).0| >= |list| && MergeAll(list, tags).0[i] == list[i]
    decreases |tags|
  {
    if tags != [] {
      var list' := MergeOne(list, tags[0]).0;
      if FirstWith(list, Category(tags[0])) == i {
        OneCategory(list[i], tags[0]);
      }
      assert list'[i] == list[i];
      StaysReplaced(list', tags[1..], i);
    }
  }

  lemma {:induction false} NeverShorter(list: seq<string>, tags: seq<string>)
    ensures |MergeAll(list, tags).0| >= |list|
    decreases |tags|
  {
    if tags != [] {
      NeverShorter(MergeOne(list, tags[0]).0, tags[1..]);
    }
  }

  lemma {:induction false} FlaggedIffChanged(list: seq<string>, tags: seq<string>)
    requires Agreeing(tags)
    ensures MergeAll(list, tags).1 <==> MergeAll(list, tags).0 != list
    decreases |tags|
  {
    if tags != [] {
      var tag, rest := tags[0], tags[1..];
      var (list', changed) := MergeOne(list, tag);
      assert Agreeing(rest);
      if !changed {
        FlaggedIffChanged(list, rest);
      } else {
        var i := FirstWith(list, Category(tag));
        NeverShorter(list', rest);
        forall j | 0 <= j < |rest| && Category(rest[j]) == Category(tag) ensures rest[j] == tag {
          assert rest[j] == tags[j + 1];
        }
        assert list'[i] == tag;
        StaysReplaced(list', rest, i);
        assert i < |list| ==> MergeAll(list', rest).0[i] != list[i];
      }
    }
  }

  /** For new tags that agree the bundle is sent to the API exactly if its tags changed (and when
      there are none at all, before and after). */
  lemma {:induction false} UpdatedIffChanged(existing: seq<string>, tags: seq<string>)
    requires Agreeing(tags)
    ensures UpdateTags(existing, tags).1
        <==> UpdateTags(existing, tags).0 != existing || (existing == [] && tags == [])
  {
    FlaggedIffChanged(existing, tags);
  }

  /** Others can be changed and changed back, and the bundle is sent for nothing. */
  lemma {:induction false} ChangedBack(s: string, t: string)
    requires HasColon(s) && HasColon(t) && Category(s) == Category(t) && s != t
    ensures UpdateTags([t], [s, t]) == ([t], true)
  {
    CategoryIsPrefix(s);
    CategoryIsPrefix(t);
    assert [s, t][1..] == [t] && [t][1..] == [];
    assert [t][0 := s] == [s] && [s][0 := t] == [t];
    assert MergeOne([t], s) == ([s], true);
    assert MergeOne([s], t) == ([t], true);
    assert MergeAll([t], []) == ([t], false);
    assert MergeAll([s], [t]) == ([t], true);
    var tags := [s, t];
    assert MergeAll([t], tags) == ([t], true);
  }

  // ---------------------------------------------------------------- when the flag can be trusted

  predicate SomeColonless(tags: seq<string>) {
    exists k :: 0 <= k < |tags| && !HasColon(tags[k])
  }

  /** No new tag replaces an entry without a colon. */
  lemma {:induction false} StaysColonless(list: seq<string>, tags: seq<string>, i: nat)
    requires i < |list| && !HasColon(list[i])
    ensures |MergeAll(list, tags).0| >= |list| && MergeAll(list, tags).0[i] == list[i]
    decreases |tags|
  {
    if tags != [] {
      ReplacesItsCategory(list, tags[0]);
      StaysColonless(MergeOne(list, tags[0]).0, tags[1..], i);
    }
  }

  /** An entry that is replaced has a colon. */
  lemma {:induction false} ReplacesItsCategory(list: seq<string>, tag: string)
    ensures var (i, list') := (FirstWith(list, Category(tag)), MergeOne(list, tag).0);
            && (i < |list| ==> HasColon(list[i]) && |list'| == |list| && list'[i] == tag)
            && (i == |list| ==> list' == list + [tag])
            && forall j :: 0 <= j < |list| && j != i ==> list'[j] == list[j]
  {
    var i := FirstWith(list, Category(tag));
    if i < |list| {
      OneCategory(list[i], tag);
    }
  }

  /** Some entry lost its colon, or there are more entries. */
  predicate LostAColon(list: seq<string>, list': seq<string>) {
    |list'| > |list| || (|list'| == |list| && exists i :: 0 <= i < |list| && HasColon(list[i]) && !HasColon(list'[i]))
  }

  /** A new tag without a colon always changes the list. */
  lemma {:induction false} ColonlessChanges(list: seq<string>, tags: seq<string>)
    requires SomeColonless(tags)
    ensures MergeAll(list, tags).1 && LostAColon(list, MergeAll(list, tags).0)
    decreases |tags|
  {
    var tag, rest := tags[0], tags[1..];
    var list' := MergeOne(list, tag).0;
    var i := FirstWith(list, Category(tag));
    ReplacesItsCategory(list, tag);
    NeverShorter(list', rest);
    var end := MergeAll(list', rest).0;
    hide Category, FirstWith, HasColon;
    if !HasColon(tag) {
      assert MergeOne(list, tag).1;
      StaysColonless(list', rest, i);
    } else {
      var k :| 0 <= k < |tags| && !HasColon(tags[k]);
      assert rest[k - 1] == tags[k];
      ColonlessChanges(list', rest);
      if |end| == |list| {
        var j :| 0 <= j < |list'| && HasColon(list'[j]) && !HasColon(end[j]);
        assert HasColon(list[j]);
      }
    }
  }

  /** No later new tag has its category. */
  predicate IsLast(tags: seq<string>, k: nat)
    requires k < |tags|
  {
    forall j :: k < j < |tags| ==> Category(tags[j]) != Category(tags[k])
  }

  predicate LastSettled(list: seq<string>, tags: seq<string>) {
    forall k :: 0 <= k < |tags| && IsLast(tags, k) ==> Settled(list, tags[k])
  }

  lemma {:induction false} MergeSettlesLast(list: seq<string>, all: seq<string>, n: nat)
    requires n <= |all| && !SomeColonless(all)
    requires forall k :: 0 <= k < n && IsLast(all, k) ==> Settled(list, all[k])
    ensures LastSettled(MergeAll(list, all[n..]).0, all)
    decreases |all| - n
  {
    if n == |all| {
      assert all[n..] == [];
    } else {
      var tag := all[n];
      var list' := MergeOne(list, tag).0;
      assert all[n..][0] == tag && all[n..][1..] == all[n + 1..];
      hide Settled, MergeOne;
      forall k | 0 <= k < n + 1 && IsLast(all, k) ensures Settled(list', all[k]) {
        OneStaysSettled(list, tag, all[k]);
      }
      MergeSettlesLast(list', all, n + 1);
    }
  }

  predicate Present(list: seq<string>, tag: string) {
    FirstWith(list, Category(tag)) < |list|
  }

  lemma {:induction false} FirstKept(list: seq<string>, tag: string, other: string)
    requires HasColon(tag) && Present(list, other)
    ensures FirstWith(MergeOne(list, tag).0, Category(other)) == FirstWith(list, Category(other))
    ensures Present(MergeOne(list, tag).0, other)
  {
    if Category(tag) != Category(other) {
      OtherCategories(list, tag, other);
    } else {
      CategoryIsPrefix(tag);
      FirstWithIs(MergeOne(list, tag).0, Category(other), FirstWith(list, Category(other)));
    }
  }

  lemma {:induction false} FirstAlwaysKept(list: seq<string>, tags: seq<string>, other: string)
    requires !SomeColonless(tags) && Present(list, other)
    ensures FirstWith(MergeAll(list, tags).0, Category(other)) == FirstWith(list, Category(other))
    decreases |tags|
  {
    if tags != [] {
      assert forall k :: 0 <= k < |tags[1..]| ==> tags[1..][k] == tags[k + 1];
      FirstKept(list, tags[0], other);
      hide Category, FirstWith, MergeOne, Present, HasColon;
      FirstAlwaysKept(MergeOne(list, tags[0]).0, tags[1..], other);
    }
  }

  /** Where new tags all have entries, only their first entries change. */
  lemma {:induction false} OthersKept(list: seq<string>, tags: seq<string>, i: nat)
    requires !SomeColonless(tags) && i < |list|
    requires forall k :: 0 <= k < |tags| ==> Present(list, tags[k]) && FirstWith(list, Category(tags[k])) != i
    ensures |MergeAll(list, tags).0| == |list| && MergeAll(list, tags).0[i] == list[i]
    decreases |tags|
  {
    if tags != [] {
      var tag, rest := tags[0], tags[1..];
      assert forall k :: 0 <= k < |rest| ==> rest[k] == tags[k + 1];
      ReplacesItsCategory(list, tag);
      hide Category, HasColon;
      forall k | 0 <= k < |rest| ensures Present(MergeOne(list, tag).0, rest[k])
          && FirstWith(MergeOne(list, tag).0, Category(rest[k])) != i
      {
        FirstKept(list, tag, rest[k]);
      }
      OthersKept(MergeOne(list, tag).0, rest, i);
    }
  }

  lemma {:induction false} SameLength(list: seq<string>, tags: seq<string>)
    requires !SomeColonless(tags) && forall k :: 0 <= k < |tags| ==> Present(list, tags[k])
    ensures |MergeAll(list, tags).0| == |list|
    decreases |tags|
  {
    if tags != [] {
      var tag, rest := tags[0], tags[1..];
      assert forall k :: 0 <= k < |rest| ==> rest[k] == tags[k + 1];
      ReplacesItsCategory(list, tag);
      hide Category, HasColon;
      forall k | 0 <= k < |rest| ensures Present(MergeOne(list, tag).0, rest[k]) {
        FirstKept(list, tag, rest[k]);
      }
      SameLength(MergeOne(list, tag).0, rest);
    }
  }

  lemma {:induction false} LastOf(tags: seq<string>, k: nat) returns (j: nat)
    requires k < |tags|
    ensures k <= j < |tags| && Category(tags[j]) == Category(tags[k]) && IsLast(tags, j)
    decreases |tags| - k
  {
    hide Category;
    j := k;
    if !IsLast(tags, k) {
      var i :| k < i < |tags| && Category(tags[i]) == Category(tags[k]);
      j := LastOf(tags, i);
    }
  }

  /** A list merged once stays the same when merged again, though entries may have changed and
      changed back. */
  lemma {:induction false} MergedIsFixed(existing: seq<string>, tags: seq<string>)
    requires !SomeColonless(tags)
    ensures var list := MergeAll(existing, tags).0;
            MergeAll(list, tags).0 == list
  {
    var list := MergeAll(existing, tags).0;
    var again := MergeAll(list, tags).0;
    assert tags[0..] == tags;
    MergeSettlesLast(existing, tags, 0);
    MergeSettlesLast(list, tags, 0);
    hide Category, FirstWith, MergeAll, HasColon, IsLast, SomeColonless;
    forall k | 0 <= k < |tags| ensures Present(list, tags[k]) {
      var j := LastOf(tags, k);
    }
    SameLength(list, tags);
    forall i | 0 <= i < |list| ensures again[i] == list[i] {
      if k :| 0 <= k < |tags| && FirstWith(list, Category(tags[k])) == i {
        var j := LastOf(tags, k);
        FirstAlwaysKept(list, tags, tags[k]);
      } else {
        OthersKept(list, tags, i);
      }
    }
    Same(again, list);
  }

  /** Whatever the bundle's tags are, it is sent exactly if they changed: this holds if and only if
      the new tags agree, or one of them has no colon and changes the list every time. */
  lemma {:induction false} FlagIsRightIff(tags: seq<string>)
    ensures (forall existing :: existing != [] ==>
               (UpdateTags(existing, tags).1 <==> UpdateTags(existing, tags).0 != existing))
        <==> Agreeing(tags) || SomeColonless(tags)
  {
    if Agreeing(tags) || SomeColonless(tags) {
      forall existing: seq<string> | existing != []
        ensures UpdateTags(existing, tags).1 <==> UpdateTags(existing, tags).0 != existing
      {
        FlagIsRight(existing, tags);
      }
    } else {
      var existing := MergeAll(tags, tags).0;
      MergeKeepsSome(tags, tags);
      MergedIsFixed(tags, tags);
      UnchangedIffSettled(existing, tags);
      if AllSettled(existing, tags) {
        SettledIsStable(existing, tags);
      }
      assert UpdateTags(existing, tags).1 && UpdateTags(existing, tags).0 == existing;
    }
  }

  lemma {:induction false} FlagIsRight(existing: seq<string>, tags: seq<string>)
    requires existing != [] && (Agreeing(tags) || SomeColonless(tags))
    ensures UpdateTags(existing, tags).1 <==> UpdateTags(existing, tags).0 != existing
  {
    if SomeColonless(tags) {
      ColonlessChanges(existing, tags);
    } else {
      UpdatedIffChanged(existing, tags);
    }
  }
}
