/** StatsD packets: the line grammar, the destination of a metric and what is recorded
    (internal/statsd/metrics.go, internal/statsd/statsd.go), over ASCII text. */
module Statsd {
  import opened Common
  import opened Texts
  import opened Tags

  /** name:value|type[|@rate][|#category:value,...] */
  datatype Line = Line(name: Text, value: Text, kind: Text, rate: Option<Text>, tags: seq<Tag>)

  predicate IsLetter(c: Char) {
    'a' <= c <= 'z'
  }

  predicate IsRate(c: Char) {
    '0' <= c <= '9' || c == '.'
  }

  predicate All(s: Text, p: Char -> bool) {
    forall i :: 0 <= i < |s| ==> p(s[i])
  }

  // ---------------------------------------------------------------- the grammar

  predicate TagOk(t: Tag) {
    && t.category != [] && ':' !in t.category && ',' !in t.category
    && t.value != [] && ':' !in t.value && ',' !in t.value
  }

  /** What the groups of the expression may capture. */
  predicate WellFormed(r: Line) {
    && r.name != [] && ':' !in r.name
    && r.value != [] && '|' !in r.value
    && r.kind != [] && All(r.kind, IsLetter)
    && (r.rate.Some? ==> r.rate.value != [] && All(r.rate.value, IsRate))
    && forall i :: 0 <= i < |r.tags| ==> TagOk(r.tags[i])
  }

  function PrintRate(rate: Option<Text>): Text {
    match rate
    case None => []
    case Some(digits) => ['|', '@'] + digits
  }

  function PrintTags(tags: seq<Tag>): Text {
    if tags == [] then [] else ['|', '#'] + Join(Map(Plain, tags), ',')
  }

  /** The text the captured groups make up. */
  function Print(r: Line): Text {
    r.name + [':'] + (r.value + ['|'] + (r.kind + (PrintRate(r.rate) + PrintTags(r.tags))))
  }

  /** The text of a record, written out. */
  lemma {:induction false} LineIs(r: Line)
    ensures Print(r)
         == r.name + ":" + r.value + "|" + r.kind
            + (if r.rate.Some? then "|@" + r.rate.value else "")
            + (if r.tags != [] then "|#" + Join(Map(Plain, r.tags), ',') else "")
    ensures forall t, u :: Join(Map(Plain, [t, u]), ',') == t.category + ":" + t.value + "," + u.category + ":" + u.value
  {
    hide Map, Join, Plain;
    var (head, tail) := (r.name + [':'] + (r.value + ['|']), PrintRate(r.rate) + PrintTags(r.tags));
    assert Print(r) == head + r.kind + tail;
    forall t, u ensures Join(Map(Plain, [t, u]), ',') == t.category + ":" + t.value + "," + u.category + ":" + u.value {
      TwoTags(t, u);
    }
  }

  lemma {:induction false} TwoTags(t: Tag, u: Tag)
    ensures Join(Map(Plain, [t, u]), ',') == t.category + ":" + t.value + "," + u.category + ":" + u.value
  {
    assert Map(Plain, [t, u]) == [Plain(t), Plain(u)] && Map(Plain, [t, u])[1..] == [Plain(u)];
    assert Join([Plain(u)], ',') == Plain(u);
  }

  /** The regular expression matches s with these groups. */
  predicate Matches(s: Text, r: Line) {
    WellFormed(r) && s == Print(r)
  }

  // ---------------------------------------------------------------- a deterministic reading

  /** Length of the longest beginning of s in p. */
  function Span(s: Text, p: Char -> bool): (n: nat)
    ensures n <= |s| && All(s[..n], p) && (n < |s| ==> !p(s[n]))
  {
    if s == [] || !p(s[0]) then 0
    else
      var n := 1 + Span(s[1..], p);
      assert s[..n] == [s[0]] + s[1..][..n - 1];
      n
  }

  function ParseTag(part: Text): Option<Tag> {
    match SplitFirst(part, ':')
    case None => None
    case Some((c, v)) => if c == [] || v == [] || ':' in v then None else Some(Tag(c, v))
  }

  function ParseTags(parts: seq<Text>): Option<seq<Tag>> {
    if parts == [] then Some([])
    else
      match (ParseTag(parts[0]), ParseTags(parts[1..]))
      case (Some(t), Some(ts)) => Some([t] + ts)
      case _ => None
  }

  /** What may follow the rate: nothing, or the tags. */
  function ParseTail(s: Text): Option<seq<Tag>> {
    if s == [] then Some([])
    else if ['|', '#'] <= s then ParseTags(Split(s[2..], ','))
    else None
  }

  /** What may follow the type: rate and tags. */
  function ParseOptions(s: Text): Option<(Option<Text>, seq<Tag>)> {
    if ['|', '@'] <= s then
      var n := Span(s[2..], IsRate);
      if n == 0 then None
      else
        match ParseTail(s[2 + n..])
        case None => None
        case Some(ts) => Some((Some(s[2..2 + n]), ts))
    else
      match ParseTail(s)
      case None => None
      case Some(ts) => Some((None, ts))
  }

  function Parse(s: Text): Option<Line> {
    match SplitFirst(s, ':')
    case None => None
    case Some((name, afterName)) =>
      match SplitFirst(afterName, '|')
      case None => None
      case Some((value, afterValue)) =>
        var n := Span(afterValue, IsLetter);
        if name == [] || value == [] || n == 0 then None
        else
          match ParseOptions(afterValue[n..])
          case None => None
          case Some((rate, tags)) => Some(Line(name, value, afterValue[..n], rate, tags))
  }

  // ---------------------------------------------------------------- they agree

  lemma {:induction false} SpanOf(a: Text, b: Text, p: Char -> bool)
    requires All(a, p) && (b == [] || !p(b[0]))
    ensures Span(a + b, p) == |a|
  {
    var s := a + b;
    var n := Span(s, p);
    forall k | 0 <= k < n ensures p(s[k]) {
      assert s[..n][k] == s[k];
    }
    forall k | 0 <= k < |a| ensures p(s[k]) {
      assert s[k] == a[k];
    }
    assert b != [] ==> s[|a|] == b[0];
  }

  lemma {:induction false} ParsePrintedTag(t: Tag)
    requires TagOk(t)
    ensures ParseTag(Plain(t)) == Some(t) && ',' !in Plain(t)
    ensures FromList([Plain(t)]) == [t]
  {
    SplitFirstOf(t.category, ':', t.value);
    assert FromList([Plain(t)]) == [t] + FromList([Plain(t)][1..]);
  }

  lemma {:induction false} ParsePrintedParts(tags: seq<Tag>)
    requires forall i :: 0 <= i < |tags| ==> TagOk(tags[i])
    ensures ParseTags(Map(Plain, tags)) == Some(tags)
    ensures FromList(Map(Plain, tags)) == tags
  {
    if tags != [] {
      ParsePrintedTag(tags[0]);
      assert Map(Plain, tags) == [Plain(tags[0])] + Map(Plain, tags[1..]);
      assert [tags[0]] + tags[1..] == tags;
      assert Map(Plain, tags)[0] == Plain(tags[0]) && Map(Plain, tags)[1..] == Map(Plain, tags[1..]);
      FromListSplits([Plain(tags[0])], Map(Plain, tags[1..]));
      ParsePrintedParts(tags[1..]);
    } else {
      assert Map(Plain, tags) == [];
    }
  }

  /** The tags of a line are exactly the category/value pairs of its tag section. */
  lemma {:induction false} TagsSplitExactly(tags: seq<Tag>)
    requires tags != [] && forall i :: 0 <= i < |tags| ==> TagOk(tags[i])
    ensures FromList(Split(Join(Map(Plain, tags), ','), ',')) == tags
    ensures ParseTags(Split(Join(Map(Plain, tags), ','), ',')) == Some(tags)
  {
    var parts := Map(Plain, tags);
    forall i | 0 <= i < |parts| ensures ',' !in parts[i] {
      ParsePrintedTag(tags[i]);
    }
    SplitJoin(parts, ',');
    ParsePrintedParts(tags);
  }

  lemma {:induction false} ParsePrintedTail(tags: seq<Tag>)
    requires forall i :: 0 <= i < |tags| ==> TagOk(tags[i])
    ensures ParseTail(PrintTags(tags)) == Some(tags)
  {
    if tags != [] {
      TagsSplitExactly(tags);
      assert PrintTags(tags)[2..] == Join(Map(Plain, tags), ',');
    }
  }

  lemma {:induction false} TailStart(tags: seq<Tag>)
    ensures var tail := PrintTags(tags);
            tail == [] || (|tail| >= 2 && tail[0] == '|' && tail[1] == '#')
  {
  }

  lemma {:induction false} ParsePrintedRate(digits: Text, tail: Text, tags: seq<Tag>)
    requires digits != [] && All(digits, IsRate)
    requires tail == [] || tail[0] == '|'
    requires ParseTail(tail) == Some(tags)
    ensures ParseOptions(['|', '@'] + digits + tail) == Some((Some(digits), tags))
  {
    hide ParseTail;
    var s := ['|', '@'] + digits + tail;
    assert s[2..] == digits + tail;
    SpanOf(digits, tail, IsRate);
    hide Span;
    assert s[2..2 + |digits|] == digits && s[2 + |digits|..] == tail;
  }

  lemma {:induction false} ParsePrintedOptions(rate: Option<Text>, tags: seq<Tag>)
    requires rate.Some? ==> rate.value != [] && All(rate.value, IsRate)
    requires forall i :: 0 <= i < |tags| ==> TagOk(tags[i])
    ensures ParseOptions(PrintRate(rate) + PrintTags(tags)) == Some((rate, tags))
  {
    ParsePrintedTail(tags);
    TailStart(tags);
    hide PrintTags, ParseTail;
    match rate
    case None =>
      assert [] + PrintTags(tags) == PrintTags(tags);
    case Some(digits) =>
      ParsePrintedRate(digits, PrintTags(tags), tags);
  }

  /** Reading a printed well-formed record gives it back. */
  lemma {:induction false} ParsePrint(r: Line)
    requires WellFormed(r)
    ensures Parse(Print(r)) == Some(r)
  {
    var options := PrintRate(r.rate) + PrintTags(r.tags);
    ParsePrintedOptions(r.rate, r.tags);
    SplitFirstOf(r.name, ':', r.value + ['|'] + (r.kind + options));
    SplitFirstOf(r.value, '|', r.kind + options);
    TailStart(r.tags);
    SpanOf(r.kind, options, IsLetter);
    assert (r.kind + options)[..|r.kind|] == r.kind && (r.kind + options)[|r.kind|..] == options;
    hide ParseOptions, SplitFirst, Span, PrintRate, PrintTags;
    ParsedParts(r.name, r.value, r.kind, options);
  }

  lemma {:induction false} ParsedParts(name: Text, value: Text, kind: Text, options: Text)
    requires name != [] && value != [] && kind != []
    requires SplitFirst(name + [':'] + (value + ['|'] + (kind + options)), ':') == Some((name, value + ['|'] + (kind + options)))
    requires SplitFirst(value + ['|'] + (kind + options), '|') == Some((value, kind + options))
    requires Span(kind + options, IsLetter) == |kind|
    ensures var s := name + [':'] + (value + ['|'] + (kind + options));
            Parse(s) == match ParseOptions(options)
                        case None => None
                        case Some((rate, tags)) => Some(Line(name, value, kind, rate, tags))
  {
    hide ParseOptions, SplitFirst, Span;
    assert (kind + options)[..|kind|] == kind && (kind + options)[|kind|..] == options;
  }

  lemma {:induction false} PartsLack(a: Text, c: Char, b: Text, d: Char)
    requires d !in a + [c] + b
    ensures d !in a && d !in b
  {
    var s := a + [c] + b;
    forall k | 0 <= k < |a| ensures a[k] != d {
      assert s[k] == a[k];
    }
    forall k | 0 <= k < |b| ensures b[k] != d {
      assert s[|a| + 1 + k] == b[k];
    }
  }

  lemma {:induction false} ParsedTagsArePrinted(parts: seq<Text>)
    requires ParseTags(parts).Some? && forall p <- parts :: ',' !in p
    ensures var ts := ParseTags(parts).value;
            Map(Plain, ts) == parts && forall i :: 0 <= i < |ts| ==> TagOk(ts[i])
  {
    if parts != [] {
      SplitFirstGlues(parts[0], ':');
      var (c, v) := SplitFirst(parts[0], ':').value;
      assert parts[0] in parts;
      PartsLack(c, ':', v, ',');
      ParsedTagsArePrinted(parts[1..]);
      var ts := ParseTags(parts).value;
      assert Map(Plain, ts) == [Plain(ts[0])] + Map(Plain, ts[1..]);
    } else {
      assert Map(Plain, []) == [];
    }
  }

  lemma {:induction false} ParsedTailIsPrinted(s: Text)
    requires ParseTail(s).Some?
    ensures var ts := ParseTail(s).value;
            PrintTags(ts) == s && forall i :: 0 <= i < |ts| ==> TagOk(ts[i])
  {
    if s != [] {
      JoinSplit(s[2..], ',');
      ParsedTagsArePrinted(Split(s[2..], ','));
      assert s == ['|', '#'] + s[2..];
    }
  }

  lemma {:induction false} ParsedOptionsArePrinted(s: Text)
    requires ParseOptions(s).Some?
    ensures var (rate, ts) := ParseOptions(s).value;
            && PrintRate(rate) + PrintTags(ts) == s
            && (rate.Some? ==> rate.value != [] && All(rate.value, IsRate))
            && forall i :: 0 <= i < |ts| ==> TagOk(ts[i])
  {
    hide ParseTail, PrintTags, TagOk;
    if ['|', '@'] <= s {
      var n := Span(s[2..], IsRate);
      ParsedTailIsPrinted(s[2 + n..]);
      assert s[2..2 + n] == s[2..][..n];
      assert s == ['|', '@'] + s[2..2 + n] + s[2 + n..];
    } else {
      ParsedTailIsPrinted(s);
      assert [] + s == s;
    }
  }

  /** Printing the captured groups gives back the line. */
  lemma {:induction false} PrintParsed(s: Text)
    ensures Parse(s).Some? ==> Matches(s, Parse(s).value)
  {
    hide ParseOptions, SplitFirst, Span, PrintRate, PrintTags, TagOk;
    if Parse(s).Some? {
      SplitFirstGlues(s, ':');
      var (name, afterName) := SplitFirst(s, ':').value;
      SplitFirstGlues(afterName, '|');
      var (value, afterValue) := SplitFirst(afterName, '|').value;
      var n := Span(afterValue, IsLetter);
      var (kind, options) := (afterValue[..n], afterValue[n..]);
      ParsedOptionsArePrinted(options);
      assert afterValue == kind + options;
    }
  }

  /** The expression is unambiguous, and the deterministic reading is the expression: a line
      matches with at most one set of groups, the one read. */
  lemma {:induction false} ParseIsTheExpression(s: Text, r: Line)
    ensures Matches(s, r) <==> Parse(s) == Some(r)
  {
    if Matches(s, r) {
      ParsePrint(r);
    }
    if Parse(s) == Some(r) {
      PrintParsed(s);
    }
  }

  // ---------------------------------------------------------------- metrics

  datatype Destination = Host | Group | Ignore

  datatype Config = Config(
    hostPrefix: Text,
    groupPrefix: Text,
    hasHost: bool,             // a destination for host metrics exists
    hasGroup: bool,
    baseTags: seq<Text>,
    rateOk: Text -> bool,      // parses as a number other than zero
    valueOk: (Text, Text) -> bool) // parses as the type demands

  datatype Action =
    | Recorded(dest: Destination, name: Text, kind: Text, value: Text, rate: Option<Text>, tags: seq<Tag>)
    | Rejected(line: Text)

  /** \s of the regular expression library. */
  predicate IsBlank(c: Char) {
    c == ' ' || c as int == 9 || c as int == 10 || c as int == 12 || c as int == 13
  }

  /** Every run of blanks becomes one underscore. */
  function CollapseBlanks(s: Text): Text {
    if s == [] then []
    else if !IsBlank(s[0]) then [s[0]] + CollapseBlanks(s[1..])
    else if |s| > 1 && IsBlank(s[1]) then CollapseBlanks(s[1..])
    else ['_'] + CollapseBlanks(s[1..])
  }

  /** Blanks, by their codes: tab, line feed, form feed, carriage return and space. */
  predicate OnlyBlanks(s: Text) {
    forall i :: 0 <= i < |s| ==> s[i] as int in {9, 10, 12, 13, 32}
  }

  predicate NoBlanks(s: Text) {
    forall i :: 0 <= i < |s| ==> s[i] as int !in {9, 10, 12, 13, 32}
  }

  lemma {:induction false} NothingToCollapse(s: Text)
    requires NoBlanks(s)
    ensures CollapseBlanks(s) == s
  {
    if s != [] {
      NothingToCollapse(s[1..]);
    }
  }

  lemma {:induction false} LeadingRun(blanks: Text, rest: Text)
    requires blanks != [] && OnlyBlanks(blanks) && (rest == [] || NoBlanks(rest[..1]))
    ensures CollapseBlanks(blanks + rest) == ['_'] + CollapseBlanks(rest)
  {
    var s := blanks + rest;
    assert s[0] == blanks[0];
    if |blanks| == 1 {
      assert s[1..] == rest;
      assert rest != [] ==> rest[..1][0] == rest[0] == s[1];
    } else {
      assert s[1..] == blanks[1..] + rest && s[1] == blanks[1];
      LeadingRun(blanks[1..], rest);
    }
  }

  /** A name without blanks stays; a run of blanks, between what does not end and what does not start
      with one, becomes one underscore, and the two sides are treated alike. */
  lemma {:induction false} BlanksBecomeUnderscores(left: Text, blanks: Text, rest: Text)
    requires blanks != [] && OnlyBlanks(blanks) && NoBlanks(left) && (rest == [] || NoBlanks(rest[..1]))
    ensures CollapseBlanks(left + blanks + rest) == left + ['_'] + CollapseBlanks(rest)
    ensures CollapseBlanks(left) == left
    decreases |left|
  {
    NothingToCollapse(left);
    var s := left + blanks + rest;
    if left == [] {
      assert s == blanks + rest;
      LeadingRun(blanks, rest);
    } else {
      assert s[0] == left[0] && s[1..] == left[1..] + blanks + rest;
      BlanksBecomeUnderscores(left[1..], blanks, rest);
    }
  }

  /** getMetricDestination */
  function MetricDestination(cfg: Config, name: Text): (Destination, Text) {
    var host, group := cfg.hostPrefix, cfg.groupPrefix;
    if host == [] && group == [] then (Host, name)
    else if host != [] && host <= name then (Host, name[|host|..])
    else if group != [] && group <= name then (Group, name[|group|..])
    else if host != [] && group != [] then (Ignore, name)
    else if group != [] then (Host, name)
    else (Group, name)
  }

  /** The prefixes decide alone: a matching one names the destination and is cut off; without a
      match the destination is the one that has no prefix, host before group, or none. */
  lemma {:induction false} DestinationByPrefix(cfg: Config, name: Text)
    ensures var (dest, rest) := MetricDestination(cfg, name);
            var ofHost := cfg.hostPrefix != [] && cfg.hostPrefix <= name;
            var ofGroup := cfg.groupPrefix != [] && cfg.groupPrefix <= name;
            && (dest == Ignore <==> cfg.hostPrefix != [] && cfg.groupPrefix != [] && !ofHost && !ofGroup)
            && (dest == Host <==> ofHost || (cfg.hostPrefix == [] && !ofGroup))
            && (ofHost ==> name == cfg.hostPrefix + rest)
            && (ofGroup && !ofHost ==> name == cfg.groupPrefix + rest)
            && (!ofHost && !ofGroup ==> rest == name)
  {
  }

  const STATSD_TYPE: Text := ['s', 't', 'a', 't', 's', 'd', '_', 't', 'y', 'p', 'e']
  const COUNT: Text := ['c', 'o', 'u', 'n', 't']
  const GAUGE: Text := ['g', 'a', 'u', 'g', 'e']
  const TIMING: Text := ['t', 'i', 'm', 'i', 'n', 'g']
  const SET_ID: Text := ['s', 'e', 't', '_', 'i', 'd']

  /** The tags added for a type; None for a type that is not one. */
  function KindTags(kind: Text, value: Text): Option<seq<Tag>> {
    if kind == ['c'] then Some([Tag(STATSD_TYPE, COUNT)])
    else if kind == ['g'] then Some([Tag(STATSD_TYPE, GAUGE)])
    else if kind == ['m', 's'] then Some([Tag(STATSD_TYPE, TIMING)])
    else if kind == ['s'] then Some([Tag(SET_ID, value), Tag(STATSD_TYPE, COUNT)])
    else if kind == ['h'] || kind == ['t'] then Some([])
    else None
  }

  /** The types there are: counters, gauges, timings, sets, and histograms and texts, which get no
      tag of their own; no other text is a type. */
  lemma {:induction false} KindTagsAre(kind: Text, value: Text)
    ensures kind == "c" ==> KindTags(kind, value) == Some([Tag("statsd_type", "count")])
    ensures kind == "g" ==> KindTags(kind, value) == Some([Tag("statsd_type", "gauge")])
    ensures kind == "ms" ==> KindTags(kind, value) == Some([Tag("statsd_type", "timing")])
    ensures kind == "s" ==> KindTags(kind, value) == Some([Tag("set_id", value), Tag("statsd_type", "count")])
    ensures kind == "h" || kind == "t" ==> KindTags(kind, value) == Some([])
    ensures KindTags(kind, value).None? <==> kind !in ["c", "g", "ms", "s", "h", "t"]
  {
  }

  /** The characters of a type and of a rate. */
  lemma {:induction false} CharacterClasses(c: Char)
    ensures IsLetter(c) <==> c in "abcdefghijklmnopqrstuvwxyz"
    ensures IsRate(c) <==> c in "0123456789."
  {
    LettersAre(c);
    DigitsAre(c);
  }

  lemma {:induction false} LettersAre(c: char)
    ensures c in "abcdefghijklmnopqrstuvwxyz" <==> 97 <= c as int <= 122
  {
    var letters := "abcdefghijklmnopqrstuvwxyz";
    assert forall i :: 0 <= i < 26 ==> letters[i] as int == 97 + i;
    if 97 <= c as int <= 122 {
      assert letters[c as int - 97] == c;
    }
  }

  lemma {:induction false} DigitsAre(c: char)
    ensures c in "0123456789." <==> 48 <= c as int <= 57 || c == '.'
  {
    var digits := "0123456789.";
    assert forall i :: 0 <= i < 10 ==> digits[i] as int == 48 + i;
    if 48 <= c as int <= 57 {
      assert digits[c as int - 48] == c;
    }
    assert digits[10] == '.';
  }

  /** parseMetric */
  function ParseMetric(cfg: Config, line: Text): seq<Action> {
    if line == [] then []
    else
      match Parse(line)
      case None => [Rejected(line)]
      case Some(r) =>
        var (dest, name) := MetricDestination(cfg, CollapseBlanks(r.name));
        var added := KindTags(r.kind, r.value);
        if r.rate.Some? && !cfg.rateOk(r.rate.value) then [Rejected(line)]
        else if !((dest == Host && cfg.hasHost) || (dest == Group && cfg.hasGroup)) then [Rejected(line)]
        else if added.None? || !cfg.valueOk(r.kind, r.value) then [Rejected(line)]
        else [Recorded(dest, name, r.kind, r.value, r.rate, FromList(cfg.baseTags) + r.tags + added.value)]
  }

  function ParseLines(cfg: Config, lines: seq<Text>): seq<Action> {
    if lines == [] then [] else ParseMetric(cfg, lines[0]) + ParseLines(cfg, lines[1..])
  }

  const NEWLINE: Char := '\n'

  /** processPacket */
  function ProcessPacket(cfg: Config, packet: Text): seq<Action> {
    if packet == [] then [] else ParseLines(cfg, Split(packet, NEWLINE))
  }

  lemma {:induction false} ParseLinesSplits(cfg: Config, a: seq<Text>, b: seq<Text>)
    ensures ParseLines(cfg, a + b) == ParseLines(cfg, a) + ParseLines(cfg, b)
  {
    if a == [] {
      assert a + b == b;
    } else {
      assert (a + b)[1..] == a[1..] + b;
      hide ParseMetric;
      ParseLinesSplits(cfg, a[1..], b);
    }
  }

  /** A packet of two parts is processed as the two parts one after the other. */
  lemma {:induction false} PacketsSplitAtNewlines(cfg: Config, a: Text, b: Text)
    ensures ProcessPacket(cfg, a + [NEWLINE] + b) == ProcessPacket(cfg, a) + ProcessPacket(cfg, b)
  {
    hide ParseMetric, Split;
    SplitAppend(a, NEWLINE, b);
    ParseLinesSplits(cfg, Split(a, NEWLINE), Split(b, NEWLINE));
    EmptyPacket(cfg);
  }

  /** A packet without a newline is one line. */
  lemma {:induction false} OneLinePacket(cfg: Config, line: Text)
    requires NEWLINE !in line
    ensures ProcessPacket(cfg, line) == ParseMetric(cfg, line)
  {
    SplitJoin([line], NEWLINE);
    hide Split;
    if line != [] {
      var lines := [line];
      assert Join(lines, NEWLINE) == line && Split(line, NEWLINE) == lines && lines[1..] == [];
      assert ParseLines(cfg, lines) == ParseMetric(cfg, line) + ParseLines(cfg, []);
    }
  }

  lemma {:induction false} EmptyPacket(cfg: Config)
    ensures ParseLines(cfg, Split([], NEWLINE)) == []
  {
    var lines: seq<Text> := [[]];
    assert Split([], NEWLINE) == lines && lines[1..] == [];
    assert ParseLines(cfg, lines) == ParseMetric(cfg, []) + ParseLines(cfg, []);
  }

  /** A well-formed line that passes the checks is recorded once, with the tags of the server,
      those of the line pair by pair, and those of its type; any other non-empty line is
      rejected once. Nothing else happens. */
  lemma {:induction false} EachLineOnce(cfg: Config, line: Text, r: Line)
    requires line != []
    ensures |ParseMetric(cfg, line)| == 1
    ensures ParseMetric(cfg, line)[0].Recorded? ==> exists m :: Matches(line, m)
    ensures Matches(line, r) ==>
              var a := ParseMetric(cfg, line)[0];
              && (a.Recorded? <==>
                    && (r.rate.Some? ==> cfg.rateOk(r.rate.value))
                    && KindTags(r.kind, r.value).Some? && cfg.valueOk(r.kind, r.value)
                    && var d := MetricDestination(cfg, CollapseBlanks(r.name)).0;
                       (d == Host && cfg.hasHost) || (d == Group && cfg.hasGroup))
              && (a.Recorded? ==>
                    && (a.dest, a.name) == MetricDestination(cfg, CollapseBlanks(r.name))
                    && a.kind == r.kind && a.value == r.value && a.rate == r.rate
                    && a.tags == FromList(cfg.baseTags) + r.tags + KindTags(r.kind, r.value).value)
  {
    ParseIsTheExpression(line, r);
    if Parse(line).Some? {
      PrintParsed(line);
    }
  }

  class Server {
    const cfg: Config
    var log: seq<Action>

    constructor (cfg: Config)
      ensures this.cfg == cfg && log == []
    {
      this.cfg, log := cfg, [];
    }

    /** processPacket */
    method Process(packet: Text)
      modifies this`log
      ensures log == old(log) + ProcessPacket(cfg, packet)
    {
      if |packet| == 0 {
        return;
      }
      hide ParseLines, ParseMetric, Split;
      var metrics := Split(packet, NEWLINE);
      ghost var before := log;
      NoLines(cfg);
      for i := 0 to |metrics|
        invariant log == before + ParseLines(cfg, metrics[..i])
      {
        OneMoreLine(cfg, metrics, i);
        log := log + ParseMetric(cfg, metrics[i]);
      }
      assert metrics[..|metrics|] == metrics;
    }
  }

  lemma {:induction false} NoLines(cfg: Config)
    ensures ParseLines(cfg, []) == []
  {
  }

  lemma {:induction false} OneMoreLine(cfg: Config, lines: seq<Text>, i: nat)
    requires i < |lines|
    ensures ParseLines(cfg, lines[..i + 1]) == ParseLines(cfg, lines[..i]) + ParseMetric(cfg, lines[i])
  {
    hide ParseMetric;
    assert lines[..i + 1] == lines[..i] + [lines[i]];
    ParseLinesSplits(cfg, lines[..i], [lines[i]]);
    assert ParseLines(cfg, [lines[i]]) == ParseMetric(cfg, lines[i]) + ParseLines(cfg, []);
  }
}
