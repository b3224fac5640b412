/**
The event line of include/eventFormat.h: a line of the tree like a call's, with the "!! " glyph, for a throw, a
catch or the end of the program.
*/
module EventFormat {
  import opened Common
  import opened Printf
  import opened LineFormat

  /** An event to show: `column` is the word its duration column holds, `what` is sanitized already. */
  datatype EventView = EventView(
    timestamp: string,
    address: Option<Address>,
    column: string,
    verb: string,
    typeName: string,
    what: Option<string>,
    siteLabel: string,
    siteFile: Option<string>,
    siteLine: Option<nat>,
    suffix: string)

  /** What happened, and where. */
  function EventTail(v: EventView): string {
    v.verb + " " + v.typeName
    + (match v.what case Some(text) => " \"" + text + "\"" case None => "")
    + "  (" + v.siteLabel + SiteText(v) + v.suffix + ")"
  }

  function SiteText(v: EventView): string {
    match v.siteFile
    case None => ""
    case Some(file) => ": " + file + ":" + match v.siteLine case Some(n) => Decimal(n) case None => "???"
  }

  function EventGlyph(line: string, cap: nat): (r: string)
    requires |line| < cap
    ensures |line| <= |r| < cap && line <= r
  {
    if cap - |line| > TREE_SEGMENT_WIDTH then line + "!! " else line
  }

  /** The line up to and including its glyph. */
  function EventTree(v: EventView, depth: int, afterTimestamp: string, cap: nat): (r: string)
    requires cap > 0
    ensures |r| < cap
  {
    EventGlyph(Segments(Prefix(v.timestamp, v.address, afterTimestamp, cap),
                        if depth >= 1 then depth - 1 else 0, cap), cap)
  }

  function EventBytes(v: EventView, depth: int, afterTimestamp: string, newline: bool, cap: nat): (r: string)
    ensures |r| <= cap
  {
    if cap == 0 then ""
    else
      var tree := EventTree(v, depth, afterTimestamp, cap);
      tree + Clamp(EventTail(v), cap - |tree|) + (if newline then "\n" else "")
  }

  /** The tree, then the glyph, at every depth. */
  method PutEventTree(buf: array<char>, depth: int, pos0: nat, remaining0: nat) returns (pos: nat, remaining: nat)
    requires pos0 + remaining0 == buf.Length && remaining0 > 0
    modifies buf
    ensures pos + remaining == buf.Length && remaining > 0
    ensures buf[..pos]
            == EventGlyph(Segments(old(buf[..pos0]), if depth >= 1 then depth - 1 else 0, buf.Length), buf.Length)
  {
    pos, remaining := PutSegments(buf, depth, pos0, remaining0);
    if remaining > TREE_SEGMENT_WIDTH {
      CopySegment(buf, pos, "!! ");
      pos, remaining := pos + TREE_SEGMENT_WIDTH, remaining - TREE_SEGMENT_WIDTH;
    }
  }

  /** format_event_into for a buffer of buf.Length bytes. */
  method FormatEventInto(buf: array<char>, v: EventView, depth: int, afterTimestamp: string, newline: bool)
    returns (size: nat)
    modifies buf
    ensures size <= buf.Length
    ensures buf[..size] == EventBytes(v, depth, afterTimestamp, newline, buf.Length)
  {
    if buf.Length == 0 {
      return 0;
    }
    var pos, remaining := PutPrefix(buf, v.timestamp, v.address, afterTimestamp);
    pos, remaining := PutEventTree(buf, depth, pos, remaining);
    pos := PutTail(buf, EventTail(v), pos, remaining);
    if newline {
      buf[pos] := '\n';
      pos := pos + 1;
      assert buf[..pos] == buf[..pos - 1] + "\n";
    }
    size := pos;
  }

  // ---------- one event, one line, in its place ----------

  predicate NoNewline(s: string) {
    '\n' !in s
  }

  /** Nothing that is shown of the event breaks the line. */
  predicate Unbroken(v: EventView) {
    && NoNewline(v.timestamp) && NoNewline(v.column) && NoNewline(v.verb) && NoNewline(v.typeName)
    && (v.what.Some? ==> NoNewline(v.what.value)) && NoNewline(v.siteLabel)
    && (v.siteFile.Some? ==> NoNewline(v.siteFile.value)) && NoNewline(v.suffix)
  }

  lemma {:induction false} DecimalUnbroken(n: nat)
    ensures NoNewline(Decimal(n))
  {
    if n >= 10 {
      DecimalUnbroken(n / 10);
    }
  }

  lemma TailUnbroken(v: EventView)
    requires Unbroken(v)
    ensures NoNewline(EventTail(v))
  {
    if v.siteLine.Some? {
      DecimalUnbroken(v.siteLine.value);
    }
    assert NoNewline(SiteText(v));
  }

  lemma {:induction false} SegmentsUnbroken(line: string, count: nat, cap: nat)
    requires |line| < cap && NoNewline(line)
    ensures NoNewline(Segments(line, count, cap))
    decreases count
  {
    if count > 0 && cap - |line| > TREE_SEGMENT_WIDTH {
      SegmentsUnbroken(line + "|  ", count - 1, cap);
    }
  }

  lemma {:induction false} HexUnbroken(n: nat, width: nat)
    ensures NoNewline(Hex(n, width))
  {
    if width > 0 {
      HexUnbroken(n / 16, width - 1);
    }
  }

  lemma PrefixUnbroken(timestamp: string, address: Option<Address>, afterTimestamp: string, cap: nat)
    requires cap > 0 && NoNewline(timestamp) && NoNewline(afterTimestamp)
    ensures NoNewline(Prefix(timestamp, address, afterTimestamp, cap))
  {
    PutUnbroken("", "[" + timestamp + "] ", cap);
    PutUnbroken(Put("", "[" + timestamp + "] ", cap), afterTimestamp, cap);
    if address.Some? {
      HexUnbroken(address.value, POINTER_SIZE * 2);
      PutUnbroken(Put(Put("", "[" + timestamp + "] ", cap), afterTimestamp, cap), AddressColumn(address.value), cap);
    }
  }

  lemma PutUnbroken(line: string, piece: string, cap: nat)
    requires |line| < cap && NoNewline(line) && NoNewline(piece)
    ensures NoNewline(Put(line, piece, cap))
  {
  }

  /**
  One event is one line, however long its parts and however deep its place: if no part breaks the line, its only
  newline is the one at its end, which is never clamped away.
  */
  lemma OneEventOneLine(v: EventView, depth: int, afterTimestamp: string, cap: nat)
    requires cap > 0 && Unbroken(v) && NoNewline(afterTimestamp)
    ensures var bytes := EventBytes(v, depth, afterTimestamp, true, cap);
            bytes != "" && bytes[|bytes| - 1] == '\n' && NoNewline(bytes[..|bytes| - 1])
  {
    var prefix := Prefix(v.timestamp, v.address, afterTimestamp, cap);
    PrefixUnbroken(v.timestamp, v.address, afterTimestamp, cap);
    SegmentsUnbroken(prefix, if depth >= 1 then depth - 1 else 0, cap);
    TailUnbroken(v);
    var tree := EventTree(v, depth, afterTimestamp, cap);
    var shown := tree + Clamp(EventTail(v), cap - |tree|);
    assert EventBytes(v, depth, afterTimestamp, true, cap) == shown + "\n";
    assert NoNewline(shown);
  }

  /** Where nothing is clamped the glyph stands where a call's at that depth would. */
  lemma EventGlyphOffset(v: EventView, depth: nat, afterTimestamp: string, newline: bool, cap: nat)
    requires |v.timestamp| == PRETTY_TIME_LENGTH
    requires GlyphFits(depth, EventExtra(v, afterTimestamp), cap)
    ensures var at := TreeGlyphOffset(depth, EventExtra(v, afterTimestamp));
            var bytes := EventBytes(v, depth, afterTimestamp, newline, cap);
            at + TREE_SEGMENT_WIDTH <= |bytes| && bytes[at..at + TREE_SEGMENT_WIDTH] == "!! "
  {
    BodyLength(v, depth, afterTimestamp, cap);
    BehindBody(v, depth, afterTimestamp, newline, cap, EventBody(v, depth, afterTimestamp, cap));
  }

  /** The columns and the tree in front of the glyph. */
  function EventBody(v: EventView, depth: nat, afterTimestamp: string, cap: nat): string
    requires depth >= 1 && cap > 0
  {
    Segments(Prefix(v.timestamp, v.address, afterTimestamp, cap), depth - 1, cap)
  }

  lemma BodyLength(v: EventView, depth: nat, afterTimestamp: string, cap: nat)
    requires |v.timestamp| == PRETTY_TIME_LENGTH
    requires GlyphFits(depth, EventExtra(v, afterTimestamp), cap)
    ensures |EventBody(v, depth, afterTimestamp, cap)| == TreeGlyphOffset(depth, EventExtra(v, afterTimestamp))
  {
    PrefixLength(FrameView(v.timestamp, v.address, "", "", None), afterTimestamp, cap);
    SegmentsLength(Prefix(v.timestamp, v.address, afterTimestamp, cap), depth - 1, cap);
  }

  lemma BehindBody(v: EventView, depth: nat, afterTimestamp: string, newline: bool, cap: nat, body: string)
    requires depth >= 1 && cap > 0
    requires body == EventBody(v, depth, afterTimestamp, cap)
    requires cap - |body| > TREE_SEGMENT_WIDTH
    ensures var bytes := EventBytes(v, depth, afterTimestamp, newline, cap);
            |body| + TREE_SEGMENT_WIDTH <= |bytes| && bytes[|body|..|body| + TREE_SEGMENT_WIDTH] == "!! "
  {
    var tree := EventTree(v, depth, afterTimestamp, cap);
    assert tree == body + "!! ";
    var bytes := EventBytes(v, depth, afterTimestamp, newline, cap);
    assert bytes[..|tree|] == tree;
    assert bytes[|body|..|body| + TREE_SEGMENT_WIDTH] == tree[|body|..];
  }

  function EventExtra(v: EventView, afterTimestamp: string): nat {
    |afterTimestamp| + (if v.address.Some? then ADDR_COLUMN_WIDTH else 0)
  }
}
