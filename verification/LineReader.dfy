/**
Reading a trace: a reader that knows nothing of how lines are built finds in every whole line the address, the depth,
the function, the file and the line number that were put there, and in every event's the verb, the type, the text and
the place.
*/
module LineReader {
  import opened Common
  import opened Printf
  import opened LineFormat
  import opened EventFormat
  import opened TraceFile
  import opened Hooks

  // ---------- searching ----------

  predicate OccursAt(text: string, pattern: string, i: int) {
    0 <= i <= |text| - |pattern| && text[i..i + |pattern|] == pattern
  }

  predicate Contains(text: string, pattern: string) {
    exists i | 0 <= i <= |text| :: OccursAt(text, pattern, i)
  }

  /** Where the pattern first occurs from `from` on, or -1. */
  function IndexOf(text: string, pattern: string, from: nat): (i: int)
    ensures i == -1 || (from <= i && OccursAt(text, pattern, i))
    ensures forall j | from <= j && (j < i || i == -1) :: !OccursAt(text, pattern, j)
    decreases |text| - from
  {
    if from + |pattern| > |text| then -1
    else if text[from..from + |pattern|] == pattern then from
    else IndexOf(text, pattern, from + 1)
  }

  /** Where the character last occurs, or -1. */
  function LastIndexOf(text: string, c: char): (i: int)
    ensures -1 <= i < |text| && (i >= 0 ==> text[i] == c)
    ensures forall j | i < j < |text| :: text[j] != c
  {
    if text == "" then -1
    else if text[|text| - 1] == c then |text| - 1
    else LastIndexOf(text[..|text| - 1], c)
  }

  lemma FirstHere(text: string, pattern: string, i: nat)
    requires OccursAt(text, pattern, i) && forall j | 0 <= j < i :: !OccursAt(text, pattern, j)
    ensures IndexOf(text, pattern, 0) == i
  {
  }

  lemma LastHere(text: string, c: char, i: nat)
    requires i < |text| && text[i] == c && forall j | i < j < |text| :: text[j] != c
    ensures LastIndexOf(text, c) == i
  {
  }

  // ---------- the tail of a call line ----------

  datatype CallTail = CallTail(name: string, file: string, line: Option<nat>)

  /** A line number, or question marks. */
  function ReadNumber(text: string): Option<nat> {
    if text == "???" then None else Some(Parse(text))
  }

  /** The words stand at `i`: in front of them the function, behind them the site, its number behind its last colon. */
  function ReadTailAt(text: string, i: int): Option<CallTail> {
    if i < 0 || i + 17 > |text| then None
    else
      var site := text[i + 16..|text| - 1];
      var colon := LastIndexOf(site, ':');
      if colon < 0 then None else Some(CallTail(text[..i], site[..colon], ReadNumber(site[colon + 1..])))
  }

  function ReadTail(text: string): Option<CallTail> {
    ReadTailAt(text, IndexOf(text, "  (called from: ", 0))
  }

  lemma NumberReadsBack(line: Option<nat>)
    ensures ReadNumber(LineNumber(line)) == line && ':' !in LineNumber(line)
  {
    if line.Some? {
      ParseDecimal(line.value);
      assert IsDecimalDigit(Decimal(line.value)[0]) && !IsDecimalDigit("???"[0]);
    }
  }

  lemma ConcatStep(piece: string, pieces: seq<string>)
    ensures Concat([piece] + pieces) == piece + Concat(pieces)
  {
    assert ([piece] + pieces)[1..] == pieces;
  }

  /** Six pieces, as three: what is in front of the words, the words, and what is behind them. */
  lemma SixPieces(name: string, words: string, file: string, colon: string, line: string, close: string)
    ensures Concat([name, words, file, colon, line, close]) == name + (words + ((file + (colon + line)) + close))
  {
    ConcatStep(name, [words, file, colon, line, close]);
    ConcatStep(words, [file, colon, line, close]);
    ConcatStep(file, [colon, line, close]);
    ConcatStep(colon, [line, close]);
    ConcatStep(line, [close]);
    ConcatStep(close, []);
    assert [name] + [words, file, colon, line, close] == [name, words, file, colon, line, close];
    assert [words] + [file, colon, line, close] == [words, file, colon, line, close];
    assert [file] + [colon, line, close] == [file, colon, line, close];
    assert [colon] + [line, close] == [colon, line, close];
    assert [line] + [close] == [line, close];
    assert [close] + [] == [close];
    assert file + (colon + (line + close)) == (file + (colon + line)) + close;
  }

  /** The words are found behind the name if and only if they are nowhere earlier, not even partly in themselves. */
  lemma WordsBehindNameIff(name: string, words: string, rest: string)
    requires words != ""
    ensures 0 <= IndexOf(name + (words + rest), words, 0) <= |name|
    ensures IndexOf(name + (words + rest), words, 0) == |name|
            <==> !Contains(name + words[..|words| - 1], words)
  {
    var text, front := name + (words + rest), name + words[..|words| - 1];
    assert text[|name|..|name| + |words|] == words;
    assert front <= text;
    forall j
      ensures OccursAt(text, words, j) && j < |name| <==> OccursAt(front, words, j)
    {
      if 0 <= j && j + |words| <= |front| {
        assert text[j..j + |words|] == front[j..j + |words|];
      }
    }
    if !Contains(front, words) {
      FirstHere(text, words, |name|);
    }
  }

  /** Behind the words, the call site. */
  lemma SiteReadsBack(file: string, line: Option<nat>)
    ensures var site := file + (":" + LineNumber(line));
            && LastIndexOf(site, ':') == |file| && site[..|file|] == file
            && ReadNumber(site[|file| + 1..]) == line
  {
    var site := file + (":" + LineNumber(line));
    NumberReadsBack(line);
    LastHere(site, ':', |file|);
    assert site[|file| + 1..] == LineNumber(line);
  }

  /** What the reader cuts out. */
  lemma CutOut(name: string, words: string, site: string, close: string, text: string)
    requires |words| == 16 && |close| == 1 && text == name + (words + (site + close))
    ensures |text| == |name| + 17 + |site| && text[..|name|] == name && text[|name| + 16..|text| - 1] == site
  {
  }

  lemma ReadsAtName(name: string, words: string, site: string, close: string, text: string)
    requires |words| == 16 && |close| == 1 && text == name + (words + (site + close)) && LastIndexOf(site, ':') >= 0
    ensures var colon := LastIndexOf(site, ':');
            ReadTailAt(text, |name|) == Some(CallTail(name, site[..colon], ReadNumber(site[colon + 1..])))
  {
    CutOut(name, words, site, close, text);
  }

  lemma ReadsShorter(name: string, text: string, i: int)
    requires i < |name| <= |text|
    ensures ReadTailAt(text, i).None? || |ReadTailAt(text, i).value.name| < |name|
  {
  }

  lemma ReadsBehindWordsIff(name: string, words: string, site: string, close: string, text: string)
    requires |words| == 16 && |close| == 1 && text == name + (words + (site + close)) && LastIndexOf(site, ':') >= 0
    ensures var colon := LastIndexOf(site, ':');
            ReadTailAt(text, IndexOf(text, words, 0))
            == Some(CallTail(name, site[..colon], ReadNumber(site[colon + 1..])))
            <==> !Contains(name + words[..15], words)
  {
    WordsBehindNameIff(name, words, site + close);
    ReadsAtName(name, words, site, close, text);
    var i := IndexOf(text, words, 0);
    if i < |name| {
      ReadsShorter(name, text, i);
    }
  }

  /** A call's tail reads back if and only if its name does not speak of a call itself. */
  lemma TailReadsBackIff(view: FrameView)
    ensures ReadTail(TailText(view)) == Some(CallTail(view.functionName, view.callerFile, view.callerLine))
            <==> !Contains(view.functionName + "  (called from: "[..15], "  (called from: ")
  {
    var site := view.callerFile + (":" + LineNumber(view.callerLine));
    SixPieces(view.functionName, "  (called from: ", view.callerFile, ":", LineNumber(view.callerLine), ")");
    SiteReadsBack(view.callerFile, view.callerLine);
    ReadsBehindWordsIff(view.functionName, "  (called from: ", site, ")", TailText(view));
  }

  // ---------- the tail of an event line ----------

  datatype EventRead = EventRead(verb: string, typeName: string, what: Option<string>, siteLabel: string,
                                 file: Option<string>, line: Option<nat>, suffix: string)

  /** The last place up to `from` where the pattern occurs, or -1. */
  function LastOccurrence(text: string, pattern: string, from: int): (i: int)
    ensures i == -1 || (0 <= i <= from && OccursAt(text, pattern, i))
    ensures forall j | i < j <= from :: !OccursAt(text, pattern, j)
    decreases from + 1
  {
    if from < 0 then -1
    else if OccursAt(text, pattern, from) then from
    else LastOccurrence(text, pattern, from - 1)
  }

  function FirstIndexOf(text: string, c: char): (i: int)
    ensures -1 <= i < |text| && (i >= 0 ==> text[i] == c)
    ensures forall j | 0 <= j < |text| && (j < i || i == -1) :: text[j] != c
  {
    if text == "" then -1
    else if text[0] == c then 0
    else
      var i := FirstIndexOf(text[1..], c);
      if i < 0 then -1 else i + 1
  }

  /** The first word, and the text in quotes at the end if there is one. */
  function ReadHead(head: string): (string, string, Option<string>) {
    var blank := FirstIndexOf(head, ' ');
    if blank < 0 then (head, "", None)
    else
      var rest := head[blank + 1..];
      var quote := FirstIndexOf(rest, '"');
      if 1 <= quote < |rest| - 1 then (head[..blank], rest[..quote - 1], Some(rest[quote + 1..|rest| - 1]))
      else (head[..blank], rest, None)
  }

  predicate EndsWith(text: string, suffix: string) {
    |suffix| <= |text| && text[|text| - |suffix|..] == suffix
  }

  function WithoutSuffix(text: string, suffix: string): (string, string) {
    if EndsWith(text, suffix) then (text[..|text| - |suffix|], suffix) else (text, "")
  }

  /** A label, and behind its colon a file and a line number if there is one. */
  function ReadSite(site: string): (string, Option<string>, Option<nat>) {
    var colon, last := FirstIndexOf(site, ':'), LastIndexOf(site, ':');
    if colon < 0 || last < colon + 2 then (site, None, None)
    else (site[..colon], Some(site[colon + 2..last]), ReadNumber(site[last + 1..]))
  }

  /** `via` is the one suffix there is. */
  function ReadEvent(text: string, via: string): Option<EventRead> {
    var i := LastOccurrence(text, "  (", |text|);
    if i < 0 || |text| < i + 4 then None
    else
      var head, place := ReadHead(text[..i]), WithoutSuffix(text[i + 3..|text| - 1], via);
      var site := ReadSite(place.0);
      Some(EventRead(head.0, head.1, head.2, site.0, site.1, site.2, place.1))
  }

  function WhatText(what: Option<string>): string {
    match what case Some(text) => " \"" + text + "\"" case None => ""
  }

  function HeadOf(v: EventView): string {
    v.verb + (" " + (v.typeName + WhatText(v.what)))
  }

  function PlaceOf(v: EventView): string {
    v.siteLabel + SiteText(v) + v.suffix
  }

  lemma EventPieces(v: EventView)
    ensures EventTail(v) == HeadOf(v) + ("  (" + (PlaceOf(v) + ")"))
  {
    var what, open := WhatText(v.what), "  (";
    assert EventTail(v) == v.verb + " " + v.typeName + what + open + PlaceOf(v) + ")" by {
      assert v.verb + " " + v.typeName + what + open + PlaceOf(v)
          == v.verb + " " + v.typeName + what + (open + v.siteLabel + SiteText(v) + v.suffix);
    }
    Regroup(v.verb, v.typeName, what, open, PlaceOf(v));
  }

  lemma Regroup(verb: string, typ: string, what: string, open: string, place: string)
    ensures verb + " " + typ + what + open + place + ")" == verb + (" " + (typ + what)) + (open + (place + ")"))
  {
  }

  lemma HeadReadsBack(verb: string, typ: string, what: Option<string>, quoted: string)
    requires ' ' !in verb && '"' !in typ && quoted == WhatText(what)
    ensures ReadHead(verb + (" " + (typ + quoted))) == (verb, typ, what)
  {
    FirstWord(verb, " ", typ + quoted, verb + (" " + (typ + quoted)));
    if what.None? {
      assert typ + quoted == typ;
    } else {
      assert quoted == " \"" + (what.value + ("\"" + ""));
      QuotedReadsBack(typ, " \"", what.value, "\"", typ + quoted);
    }
  }

  lemma FirstWord(verb: string, blank: string, rest: string, head: string)
    requires ' ' !in verb && |blank| == 1 && blank[0] == ' ' && head == verb + (blank + rest)
    ensures FirstIndexOf(head, ' ') == |verb| && head[..|verb|] == verb && head[|verb| + 1..] == rest
  {
    assert head[|verb|] == blank[0] && forall j | 0 <= j < |verb| :: head[j] == verb[j];
    FirstAt(head, ' ', |verb|);
  }

  lemma FirstAt(text: string, c: char, i: nat)
    requires i < |text| && text[i] == c && forall j | 0 <= j < i :: text[j] != c
    ensures FirstIndexOf(text, c) == i
  {
  }

  /** Five pieces, and what is cut out of them. */
  lemma FivePieces(a: string, b: string, c: string, d: string, e: string, text: string)
    requires text == a + (b + (c + (d + e)))
    ensures |text| == |a| + |b| + |c| + |d| + |e| && text[..|a|] == a
    ensures text[|a| + |b|..|a| + |b| + |c|] == c && text[|a| + |b| + |c| + |d|..] == e
  {
  }

  /** And what stands where. */
  lemma FiveIndices(a: string, b: string, c: string, d: string, e: string, text: string)
    requires text == a + (b + (c + (d + e)))
    ensures forall j | 0 <= j < |a| :: text[j] == a[j]
    ensures forall j | 0 <= j < |b| :: text[|a| + j] == b[j]
    ensures forall j | 0 <= j < |d| :: text[|a| + |b| + |c| + j] == d[j]
    ensures forall j | |text| - |e| <= j < |text| :: text[j] == e[j - (|text| - |e|)]
  {
  }

  lemma QuotedReadsBack(typ: string, open: string, text: string, close: string, rest: string)
    requires |open| == 2 && open[0] == ' ' && open[1] == '"' && |close| == 1
    requires '"' !in typ && rest == typ + (open + (text + (close + "")))
    ensures FirstIndexOf(rest, '"') == |typ| + 1 && |rest| == |typ| + |text| + 3
    ensures rest[..|typ|] == typ && rest[|typ| + 2..|rest| - 1] == text
  {
    FivePieces(typ, open, text, close, "", rest);
    FiveIndices(typ, open, text, close, "", rest);
    assert rest[|typ|] == open[0] && rest[|typ| + 1] == open[1];
    FirstAt(rest, '"', |typ| + 1);
  }

  /** Where the colons of a site are, and what they part. */
  lemma SiteParts(siteLabel: string, sep: string, file: string, colon: string, number: string, site: string)
    requires ':' !in siteLabel && ':' !in number && site == siteLabel + (sep + (file + (colon + number)))
    requires |sep| == 2 && sep[0] == ':' && |colon| == 1 && colon[0] == ':'
    ensures FirstIndexOf(site, ':') == |siteLabel| && LastIndexOf(site, ':') == |siteLabel| + 2 + |file|
    ensures site[..|siteLabel|] == siteLabel && site[|siteLabel| + 2..|siteLabel| + 2 + |file|] == file
    ensures site[|siteLabel| + 3 + |file|..] == number
  {
    FivePieces(siteLabel, sep, file, colon, number, site);
    FiveIndices(siteLabel, sep, file, colon, number, site);
    assert site[|siteLabel| + 0] == sep[0] && site[|siteLabel| + 2 + |file| + 0] == colon[0];
    FirstAt(site, ':', |siteLabel|);
    LastHere(site, ':', |siteLabel| + 2 + |file|);
  }

  lemma SiteReads(siteLabel: string, sep: string, file: string, colon: string, number: string, site: string)
    requires ':' !in siteLabel && ':' !in number && site == siteLabel + (sep + (file + (colon + number)))
    requires |sep| == 2 && sep[0] == ':' && |colon| == 1 && colon[0] == ':'
    ensures ReadSite(site) == (siteLabel, Some(file), ReadNumber(number))
  {
    SiteParts(siteLabel, sep, file, colon, number, site);
  }

  lemma LabelReads(siteLabel: string)
    requires ':' !in siteLabel
    ensures ReadSite(siteLabel) == (siteLabel, None, None)
  {
  }

  /** A place's last character, where it has no suffix, is that of a line number or of its label. */
  lemma SuffixReadsBack(core: string, suffix: string, via: string)
    requires via != "" && (suffix == "" || suffix == via) && (suffix == "" ==> !EndsWith(core, via))
    ensures WithoutSuffix(core + suffix, via) == (core, suffix)
  {
    if suffix == via {
      assert (core + suffix)[|core|..] == suffix && (core + suffix)[..|core|] == core;
    } else {
      assert core + suffix == core;
    }
  }

  /** Nothing in the event's parts looks like what stands between them. */
  predicate Readable(v: EventView, via: string) {
    && ' ' !in v.verb && '"' !in v.typeName && ':' !in v.siteLabel && (v.siteFile.None? ==> v.siteLine.None?)
    && !Contains(PlaceOf(v), "  (") && via != "" && (v.suffix == "" || v.suffix == via)
    && (v.suffix == "" ==> !EndsWith(v.siteLabel + SiteText(v), via))
  }

  lemma CoreReads(v: EventView)
    requires ':' !in v.siteLabel && (v.siteFile.None? ==> v.siteLine.None?)
    ensures ReadSite(v.siteLabel + SiteText(v)) == (v.siteLabel, v.siteFile, v.siteLine)
  {
    match v.siteFile
    case None =>
      assert v.siteLabel + SiteText(v) == v.siteLabel;
      LabelReads(v.siteLabel);
    case Some(file) =>
      assert SiteText(v) == ": " + (file + (":" + LineNumber(v.siteLine)));
      NumberReadsBack(v.siteLine);
      SiteReads(v.siteLabel, ": ", file, ":", LineNumber(v.siteLine), v.siteLabel + SiteText(v));
  }

  lemma LastHereOnly(text: string, pattern: string, i: nat)
    requires OccursAt(text, pattern, i) && forall j | i < j <= |text| :: !OccursAt(text, pattern, j)
    ensures LastOccurrence(text, pattern, |text|) == i
  {
  }

  lemma OpensInPlace(head: string, open: string, place: string, text: string, j: nat)
    requires |open| == 3 && open[0] == ' ' == open[1] && open[2] == '(' && text == head + (open + (place + [')']))
    requires |head| < j && OccursAt(text, open, j)
    ensures Contains(place, open)
  {
    assert text[j..j + 3][0] == ' ' && text[j..j + 3][1] == ' ' && text[j..j + 3][2] == '(';
    assert place[j - |head| - 3..j - |head|] == text[j..j + 3];
    assert OccursAt(place, open, j - |head| - 3);
  }

  lemma PlaceBehindHead(head: string, open: string, place: string, text: string)
    requires |open| == 3 && open[0] == ' ' == open[1] && open[2] == '(' && !Contains(place, open)
    requires text == head + (open + (place + [')']))
    ensures LastOccurrence(text, open, |text|) == |head|
    ensures text[..|head|] == head && |text| >= |head| + 4 && text[|head| + 3..|text| - 1] == place
  {
    assert text[|head|..|head| + 3] == open;
    forall j | |head| < j <= |text|
      ensures !OccursAt(text, open, j)
    {
      if OccursAt(text, open, j) {
        OpensInPlace(head, open, place, text, j);
      }
    }
    LastHereOnly(text, open, |head|);
  }

  /** The reader splits the tail where it was put together. */
  lemma ReadsInParts(head: string, place: string, via: string, text: string)
    requires !Contains(place, "  (") && text == head + ("  (" + (place + [')']))
    ensures var (core, suffix) := WithoutSuffix(place, via);
            var (verb, typ, what), (siteLabel, file, line) := ReadHead(head), ReadSite(core);
            ReadEvent(text, via) == Some(EventRead(verb, typ, what, siteLabel, file, line, suffix))
  {
    PlaceBehindHead(head, "  (", place, text);
  }

  /** An event's tail reads back. */
  lemma EventReadsBack(v: EventView, via: string)
    requires Readable(v, via)
    ensures ReadEvent(EventTail(v), via)
            == Some(EventRead(v.verb, v.typeName, v.what, v.siteLabel, v.siteFile, v.siteLine, v.suffix))
  {
    EventPieces(v);
    ReadsInParts(HeadOf(v), PlaceOf(v), via, EventTail(v));
    HeadReadsBack(v.verb, v.typeName, v.what, WhatText(v.what));
    SuffixReadsBack(v.siteLabel + SiteText(v), v.suffix, via);
    CoreReads(v);
  }

  // ---------- the columns and the tree ----------

  function DigitValue(c: char): nat {
    if '0' <= c <= '9' then (c - '0') as nat else if 'a' <= c <= 'f' then (c - 'a') as nat + 10 else 0
  }

  function ParseHex(text: string): nat {
    if text == "" then 0 else 16 * ParseHex(text[..|text| - 1]) + DigitValue(text[|text| - 1])
  }

  function SixteenTo(width: nat): (n: nat)
    ensures n > 0
  {
    if width == 0 then 1 else 16 * SixteenTo(width - 1)
  }

  lemma {:induction false} HexReadsBack(n: nat, width: nat)
    requires n < SixteenTo(width)
    ensures ParseHex(Hex(n, width)) == n
  {
    if width > 0 {
      HexReadsBack(n / 16, width - 1);
      assert Hex(n, width)[..width - 1] == Hex(n / 16, width - 1);
      DigitReadsBack(n % 16);
    }
  }

  lemma DigitReadsBack(d: nat)
    requires d < 16
    ensures DigitValue(Digit(d)) == d
  {
    assert d == 0 || d == 1 || d == 2 || d == 3 || d == 4 || d == 5 || d == 6 || d == 7 || d == 8 || d == 9 || d == 10
        || d == 11 || d == 12 || d == 13 || d == 14 || d == 15;
  }

  /** Every address is 64 bits, and its column gives it back. */
  lemma AddressReadsBack(address: Address)
    requires address < 0x1_0000_0000_0000_0000
    ensures ParseHex(AddressColumn(address)[9..25]) == address
  {
    assert SixteenTo(8) == 0x1_0000_0000;
    assert SixteenTo(12) == 0x1_0000_0000_0000;
    assert SixteenTo(16) == 0x1_0000_0000_0000_0000;
    HexReadsBack(address, 16);
    assert AddressColumn(address)[9..25] == Hex(address, 16);
  }

  /** How deep in the tree: a bar for every level above, and the glyph. */
  function ReadDepth(text: string): nat {
    if |text| < 3 || text[0] != '|' || text[2] != ' ' then 0
    else if text[1] == '_' then 1
    else if text[1] == ' ' then 1 + ReadDepth(text[3..])
    else 0
  }

  function Bars(n: nat): (s: string)
    ensures |s| == 3 * n
  {
    if n == 0 then "" else "|  " + Bars(n - 1)
  }

  lemma {:induction false} SegmentsAreBars(line: string, count: nat, cap: nat)
    requires |line| < cap && TREE_SEGMENT_WIDTH * count < cap - |line|
    ensures Segments(line, count, cap) == line + Bars(count)
    decreases count
  {
    if count > 0 {
      SegmentsAreBars(line + "|  ", count - 1, cap);
      assert line + "|  " + Bars(count - 1) == line + Bars(count);
    } else {
      assert line + Bars(0) == line;
    }
  }

  lemma {:induction false} DepthReadsBack(n: nat, rest: string)
    ensures ReadDepth(Bars(n) + ("|_ " + rest)) == n + 1
  {
    var text := Bars(n) + ("|_ " + rest);
    if n == 0 {
      assert text == "|_ " + rest;
    } else {
      DepthReadsBack(n - 1, rest);
      assert text == "|  " + (Bars(n - 1) + ("|_ " + rest));
      assert text[3..] == Bars(n - 1) + ("|_ " + rest);
    }
  }

  // ---------- the whole line ----------

  /** Columns, tree and tail fit the buffer with a byte to spare. */
  predicate WholeLine(view: FrameView, depth: nat, afterTimestamp: string, cap: nat) {
    && |view.timestamp| == PRETTY_TIME_LENGTH
    && TIMESTAMP_PREFIX_WIDTH + ExtraWidth(view, afterTimestamp) + 3 * depth + |TailText(view)| < cap
  }

  lemma TreeIsBars(view: FrameView, depth: nat, afterTimestamp: string, cap: nat)
    requires WholeLine(view, depth, afterTimestamp, cap)
    ensures var prefix := Prefix(view.timestamp, view.calleeAddress, afterTimestamp, cap);
            && |prefix| == TIMESTAMP_PREFIX_WIDTH + ExtraWidth(view, afterTimestamp)
            && Tree(view, depth, afterTimestamp, cap)
               == prefix + (if depth == 0 then "" else Bars(depth - 1) + "|_ ")
  {
    PrefixLength(view, afterTimestamp, cap);
    SegmentsAreBars(Prefix(view.timestamp, view.calleeAddress, afterTimestamp, cap),
                    if depth >= 1 then depth - 1 else 0, cap);
  }

  /** Behind its columns a whole line has its tree and its tail, whatever the name may look like behind the glyph. */
  lemma WholeLineReadsBack(view: FrameView, depth: nat, afterTimestamp: string, cap: nat)
    requires WholeLine(view, depth, afterTimestamp, cap)
    ensures var line := Line(view, depth, afterTimestamp, true, cap);
            var at := TIMESTAMP_PREFIX_WIDTH + ExtraWidth(view, afterTimestamp);
            && at + 3 * depth + |TailText(view)| + 1 == |line|
            && line[at + 3 * depth..|line| - 1] == TailText(view) && line[|line| - 1] == '\n'
            && (depth > 0 ==> ReadDepth(line[at..]) == depth)
  {
    var prefix := Prefix(view.timestamp, view.calleeAddress, afterTimestamp, cap);
    var line, tree := Line(view, depth, afterTimestamp, true, cap), Tree(view, depth, afterTimestamp, cap);
    TreeIsBars(view, depth, afterTimestamp, cap);
    assert line == tree + TailText(view) + "\n";
    BehindTree(tree, TailText(view), line);
    if depth > 0 {
      BehindPrefix(prefix, Bars(depth - 1), TailText(view) + "\n", line);
      DepthReadsBack(depth - 1, TailText(view) + "\n");
    }
  }

  lemma BehindTree(tree: string, tail: string, line: string)
    requires line == tree + tail + "\n"
    ensures line[|tree|..|line| - 1] == tail && line[|line| - 1] == '\n'
  {
  }

  lemma BehindPrefix(prefix: string, bars: string, rest: string, line: string)
    requires line == prefix + (bars + "|_ ") + rest
    ensures line[|prefix|..] == bars + ("|_ " + rest)
  {
  }

  lemma WholePrefix(view: FrameView, afterTimestamp: string, cap: nat)
    requires |view.timestamp| == PRETTY_TIME_LENGTH && TIMESTAMP_PREFIX_WIDTH + ExtraWidth(view, afterTimestamp) < cap
    ensures Prefix(view.timestamp, view.calleeAddress, afterTimestamp, cap)
            == "[" + view.timestamp + "] " + afterTimestamp
               + (match view.calleeAddress case None => "" case Some(a) => AddressColumn(a))
  {
    var stamped := "[" + view.timestamp + "] ";
    PutFits("", stamped, cap);
    PutFits(stamped, afterTimestamp, cap);
    if view.calleeAddress.Some? {
      PutFits(stamped + afterTimestamp, AddressColumn(view.calleeAddress.value), cap);
    }
  }

  lemma ColumnsOfPrefix(timestamp: string, splice: string, address: string, rest: string, line: string)
    requires |timestamp| == PRETTY_TIME_LENGTH && line == "[" + timestamp + "] " + splice + address + rest
    ensures line[1..24] == timestamp && line[26..26 + |splice|] == splice
    ensures line[26 + |splice|..26 + |splice| + |address|] == address
  {
  }

  lemma PrefixFirst(view: FrameView, depth: nat, afterTimestamp: string, cap: nat)
    requires WholeLine(view, depth, afterTimestamp, cap)
    ensures Prefix(view.timestamp, view.calleeAddress, afterTimestamp, cap)
            <= Line(view, depth, afterTimestamp, true, cap)
  {
    TreeIsBars(view, depth, afterTimestamp, cap);
  }

  /** The columns of a whole line: its time, what is spliced in, and the address, number for number. */
  lemma ColumnsReadBack(view: FrameView, depth: nat, afterTimestamp: string, cap: nat, line: string)
    requires WholeLine(view, depth, afterTimestamp, cap) && line == Line(view, depth, afterTimestamp, true, cap)
    requires view.calleeAddress.Some? ==> view.calleeAddress.value < 0x1_0000_0000_0000_0000
    ensures var at := 26 + |afterTimestamp|;
            && at + (if view.calleeAddress.Some? then 25 else 0) <= |line|
            && line[1..24] == view.timestamp && line[26..at] == afterTimestamp
            && (view.calleeAddress.Some? ==> ParseHex(line[at + 9..at + 25]) == view.calleeAddress.value)
  {
    PrefixFirst(view, depth, afterTimestamp, cap);
    WholePrefix(view, afterTimestamp, cap);
    if view.calleeAddress.Some? {
      AddressReadsBack(view.calleeAddress.value);
      ColumnsOf(view.timestamp, afterTimestamp, AddressColumn(view.calleeAddress.value), line);
    } else {
      ColumnsOf(view.timestamp, afterTimestamp, "", line);
    }
  }

  lemma ColumnsOf(timestamp: string, splice: string, address: string, line: string)
    requires |timestamp| == PRETTY_TIME_LENGTH && "[" + timestamp + "] " + splice + address <= line
    ensures 26 + |splice| + |address| <= |line| && line[1..24] == timestamp && line[26..26 + |splice|] == splice
    ensures |address| >= 25 ==> line[26 + |splice| + 9..26 + |splice| + 25] == address[9..25]
  {
    var prefix := "[" + timestamp + "] " + splice + address;
    assert line == prefix + line[|prefix|..];
    ColumnsOfPrefix(timestamp, splice, address, line[|prefix|..], line);
    if |address| >= 25 {
      DigitsInside(line, 26 + |splice|, address);
    }
  }

  lemma DigitsInside(line: string, at: nat, address: string)
    requires at + |address| <= |line| && |address| >= 25 && line[at..at + |address|] == address
    ensures line[at + 9..at + 25] == address[9..25]
  {
    forall p | 9 <= p < 25
      ensures line[at + p] == address[p]
    {
      assert line[at..at + |address|][p] == line[at + p];
    }
  }

  // ---------- a line that does not fit ----------

  /** Whatever is too long, the tail is cut at its end only, and where it is cut the line fills the buffer. */
  lemma TailIsCutAtItsEnd(view: FrameView, depth: int, afterTimestamp: string, cap: nat)
    requires cap > 0
    ensures var line, tree := Line(view, depth, afterTimestamp, true, cap), Tree(view, depth, afterTimestamp, cap);
            && line != "" && line[..|line| - 1] <= tree + TailText(view)
            && (line[..|line| - 1] == tree + TailText(view) || |line| == cap)
  {
    var line, tree := Line(view, depth, afterTimestamp, true, cap), Tree(view, depth, afterTimestamp, cap);
    assert line[..|line| - 1] == tree + Clamp(TailText(view), cap - |tree|);
  }

  // ---------- event lines ----------

  /** The bars in front of an event's glyph. */
  function CountBars(text: string): nat {
    if |text| < 3 || text[0] != '|' || text[1] != ' ' || text[2] != ' ' then 0 else 1 + CountBars(text[3..])
  }

  lemma {:induction false} BarsReadBack(n: nat, rest: string)
    requires rest != "" && rest[0] != '|'
    ensures CountBars(Bars(n) + rest) == n
  {
    var text := Bars(n) + rest;
    if n == 0 {
      assert text == rest;
    } else {
      BarsReadBack(n - 1, rest);
      assert text == "|  " + (Bars(n - 1) + rest);
      assert text[3..] == Bars(n - 1) + rest;
    }
  }

  /** How many bars an event at this depth has in front of its glyph. */
  function BarsAt(depth: nat): nat {
    if depth >= 1 then depth - 1 else 0
  }

  predicate WholeEvent(v: EventView, depth: nat, afterTimestamp: string, cap: nat) {
    && |v.timestamp| == PRETTY_TIME_LENGTH
    && TIMESTAMP_PREFIX_WIDTH + EventExtra(v, afterTimestamp) + 3 * BarsAt(depth) + 3 + |EventTail(v)| < cap
  }

  /** The columns of an event line are those of a call with the same time and address. */
  function ColumnsAs(v: EventView): FrameView {
    FrameView(v.timestamp, v.address, "", "", None)
  }

  lemma EventIsBars(v: EventView, depth: nat, afterTimestamp: string, cap: nat)
    requires WholeEvent(v, depth, afterTimestamp, cap)
    ensures var prefix := Prefix(v.timestamp, v.address, afterTimestamp, cap);
            && |prefix| == TIMESTAMP_PREFIX_WIDTH + EventExtra(v, afterTimestamp)
            && EventTree(v, depth, afterTimestamp, cap) == prefix + Bars(BarsAt(depth)) + "!! "
  {
    PrefixLength(ColumnsAs(v), afterTimestamp, cap);
    SegmentsAreBars(Prefix(v.timestamp, v.address, afterTimestamp, cap), BarsAt(depth), cap);
  }

  /** An event line that is not clamped: its bars tell its depth, then its glyph, its tail and its newline. */
  lemma WholeEventReadsBack(v: EventView, depth: nat, afterTimestamp: string, cap: nat)
    requires WholeEvent(v, depth, afterTimestamp, cap)
    ensures var line := EventBytes(v, depth, afterTimestamp, true, cap);
            var at := TIMESTAMP_PREFIX_WIDTH + EventExtra(v, afterTimestamp);
            && at + 3 * BarsAt(depth) + 3 + |EventTail(v)| + 1 == |line|
            && CountBars(line[at..]) == BarsAt(depth)
            && line[at + 3 * BarsAt(depth)..] == "!! " + EventTail(v) + "\n"
  {
    var prefix := Prefix(v.timestamp, v.address, afterTimestamp, cap);
    var line, bars := EventBytes(v, depth, afterTimestamp, true, cap), Bars(BarsAt(depth));
    EventIsBars(v, depth, afterTimestamp, cap);
    assert line == prefix + bars + "!! " + EventTail(v) + "\n";
    BehindBars(prefix, bars, "!! ", EventTail(v), line);
    BarsReadBack(BarsAt(depth), "!! " + EventTail(v) + "\n");
  }

  lemma BehindBars(prefix: string, bars: string, glyph: string, tail: string, line: string)
    requires line == prefix + bars + glyph + tail + "\n"
    ensures line[|prefix|..] == bars + (glyph + tail + "\n") && line[|prefix| + |bars|..] == glyph + tail + "\n"
  {
  }

  lemma EventPrefixFirst(v: EventView, depth: nat, afterTimestamp: string, cap: nat)
    requires WholeEvent(v, depth, afterTimestamp, cap)
    ensures Prefix(v.timestamp, v.address, afterTimestamp, cap) <= EventBytes(v, depth, afterTimestamp, true, cap)
  {
    EventIsBars(v, depth, afterTimestamp, cap);
  }

  lemma EventColumnsReadBack(v: EventView, depth: nat, afterTimestamp: string, cap: nat, line: string)
    requires WholeEvent(v, depth, afterTimestamp, cap) && line == EventBytes(v, depth, afterTimestamp, true, cap)
    requires v.address.Some? ==> v.address.value < 0x1_0000_0000_0000_0000
    ensures var at := 26 + |afterTimestamp|;
            && at + (if v.address.Some? then 25 else 0) <= |line|
            && line[1..24] == v.timestamp && line[26..at] == afterTimestamp
            && (v.address.Some? ==> ParseHex(line[at + 9..at + 25]) == v.address.value)
  {
    EventPrefixFirst(v, depth, afterTimestamp, cap);
    WholePrefix(ColumnsAs(v), afterTimestamp, cap);
    if v.address.Some? {
      AddressReadsBack(v.address.value);
      ColumnsOf(v.timestamp, afterTimestamp, AddressColumn(v.address.value), line);
    } else {
      ColumnsOf(v.timestamp, afterTimestamp, "", line);
    }
  }

  // ---------- the lines the hooks write ----------

  /** Where the tree starts in the lines of a build. */
  function TreeAt(cfg: Config): nat {
    26 + (if cfg.elapsed then 13 else 0) + (if cfg.addr then 27 else 0)
  }

  /** The view as the enter hook fills it. */
  function Addressed(cfg: Config, view: FrameView, callee: Address): FrameView {
    view.(calleeAddress := if cfg.addr then Some(callee) else None)
  }

  /**
  What an enter writes in full reads back: its time, in timing builds the pending field, in address builds the called
  function's address, and behind its tree, which tells its depth, the tail.
  */
  lemma CallLineReadsBack(cfg: Config, view: FrameView, callee: Address, depth: nat, line: string)
    requires line == CallLine(cfg, view, callee, depth) && callee < 0x1_0000_0000_0000_0000
    requires WholeLine(Addressed(cfg, view, callee), depth, cfg.Splice(), 2048)
    ensures |line| == TreeAt(cfg) + 3 * depth + |TailText(view)| + 1 && line[1..24] == view.timestamp
    ensures cfg.elapsed ==> line[26..38] == "[  pending ]"
    ensures cfg.addr ==> ParseHex(line[TreeAt(cfg) - 18..TreeAt(cfg) - 2]) == callee
    ensures depth > 0 ==> ReadDepth(line[TreeAt(cfg)..]) == depth
    ensures line[TreeAt(cfg) + 3 * depth..|line| - 1] == TailText(view) && line[|line| - 1] == '\n'
  {
    var addressed := Addressed(cfg, view, callee);
    WholeLineReadsBack(addressed, depth, cfg.Splice(), 2048);
    ColumnsReadBack(addressed, depth, cfg.Splice(), 2048, line);
    SpliceWidth(cfg);
    TailIgnoresAddress(view, addressed.calleeAddress);
    if cfg.elapsed {
      FirstTwelve(line, cfg.Splice());
    }
  }

  lemma TailIgnoresAddress(view: FrameView, address: Option<Address>)
    ensures TailText(view.(calleeAddress := address)) == TailText(view)
  {
  }

  lemma SpliceWidth(cfg: Config)
    ensures |cfg.Splice()| == if cfg.elapsed then 13 else 0
    ensures cfg.elapsed ==> cfg.Splice()[..12] == "[  pending ]"
  {
  }

  lemma FirstTwelve(line: string, splice: string)
    requires |splice| == 13 && |line| >= 39 && line[26..39] == splice
    ensures line[26..38] == splice[..12]
  {
    assert line[26..39][..12] == line[26..38];
  }

  /** The event as the build shows it. */
  function ShownEvent(cfg: Config, event: EventView): EventView {
    event.(address := if cfg.addr then event.address else None)
  }

  function EventSplice(cfg: Config, event: EventView): string {
    if cfg.elapsed then event.column + " " else ""
  }

  /**
  What an event writes in full reads back: its time, in timing builds its word in the column of the durations, in
  address builds its site, and behind the bars, which tell its depth, its glyph and its tail.
  */
  lemma EventTextReadsBack(cfg: Config, event: EventView, depth: nat, line: string)
    requires line == EventText(cfg, event, depth)
    requires event.address.Some? ==> event.address.value < 0x1_0000_0000_0000_0000
    requires WholeEvent(ShownEvent(cfg, event), depth, EventSplice(cfg, event), 2048)
    ensures var at := 26 + (if cfg.elapsed then |event.column| + 1 else 0);
            var tree := at + (if cfg.addr && event.address.Some? then 27 else 0);
            && tree + 3 * BarsAt(depth) <= |line| && line[1..24] == event.timestamp
            && (cfg.elapsed ==> line[26..at - 1] == event.column)
            && (cfg.addr && event.address.Some? ==> ParseHex(line[at + 9..at + 25]) == event.address.value)
            && CountBars(line[tree..]) == BarsAt(depth)
            && line[tree + 3 * BarsAt(depth)..] == "!! " + EventTail(event) + "\n"
  {
    var shown, splice := ShownEvent(cfg, event), EventSplice(cfg, event);
    WholeEventReadsBack(shown, depth, splice, 2048);
    EventColumnsReadBack(shown, depth, splice, 2048, line);
    EventTailIgnoresAddress(event, shown.address);
    if cfg.elapsed {
      ButTheBlank(line, event.column, splice);
    }
  }

  lemma EventTailIgnoresAddress(v: EventView, address: Option<Address>)
    ensures EventTail(v.(address := address)) == EventTail(v)
  {
    assert SiteText(v.(address := address)) == SiteText(v);
  }

  lemma ButTheBlank(line: string, column: string, splice: string)
    requires splice == column + " " && 26 + |splice| <= |line| && line[26..26 + |splice|] == splice
    ensures line[26..26 + |column|] == column
  {
    assert line[26..26 + |splice|][..|column|] == line[26..26 + |column|];
  }
}
