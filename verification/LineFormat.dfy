/**
The call line of include/format.h: text built piece by piece into a fixed buffer, with the
clamping arithmetic of format_into, and the byte offset of the tree glyph that later
patches rely on.
*/
module LineFormat {
  import opened Common
  import opened Printf

  const FORMAT_BUF_SIZE: nat := 2048
  const PRETTY_TIME_LENGTH: nat := 23
  const TIMESTAMP_PREFIX_WIDTH: nat := PRETTY_TIME_LENGTH + 3
  const POINTER_SIZE: nat := 8
  const ADDR_COLUMN_WIDTH: nat := 9 + POINTER_SIZE * 2 + 2
  const TREE_SEGMENT_WIDTH: nat := 3
  const FRAME_END_EXCEPTION: char := '!'
  const FRAME_END_JUMP: char := '~'

  /** The resolved frame the enter hook formats. */
  datatype FrameView = FrameView(
    timestamp: string,
    calleeAddress: Option<Address>,
    functionName: string,
    callerFile: string,
    callerLine: Option<nat>)

  /** Offset of the '|' of the "|_ " glyph in a line written at `depth` >= 1. */
  function TreeGlyphOffset(depth: nat, extraPrefix: nat): nat
    requires depth >= 1
  {
    TIMESTAMP_PREFIX_WIDTH + extraPrefix + TREE_SEGMENT_WIDTH * (depth - 1)
  }

  // ---------- the line as a text ----------

  /** A prefix piece is added only when it fits with a byte to spare. */
  function Put(line: string, piece: string, cap: nat): (r: string)
    requires |line| < cap
    ensures |line| <= |r| < cap && line <= r
  {
    if 0 < |piece| < cap - |line| then line + piece else line
  }

  /** `count` copies of "|  ", as long as more than one segment's room remains. */
  function Segments(line: string, count: nat, cap: nat): (r: string)
    requires |line| < cap
    ensures |line| <= |r| < cap && line <= r
    decreases count
  {
    if count > 0 && cap - |line| > TREE_SEGMENT_WIDTH then Segments(line + "|  ", count - 1, cap) else line
  }

  function Glyph(line: string, depth: int, cap: nat): (r: string)
    requires |line| < cap
    ensures |line| <= |r| < cap && line <= r
  {
    if depth > 0 && cap - |line| > TREE_SEGMENT_WIDTH then line + "|_ " else line
  }

  function Clamp(text: string, room: nat): (r: string)
    requires room > 0
    ensures |r| < room && r <= text
  {
    if |text| < room then text else text[..room - 1]
  }

  function AddressColumn(address: Address): (s: string)
    ensures |s| == ADDR_COLUMN_WIDTH
  {
    "addr: [0x" + Hex(address, POINTER_SIZE * 2) + "] "
  }

  function LineNumber(line: Option<nat>): string {
    match line case Some(n) => Decimal(n) case None => "???"
  }

  /** Which function, and called from where. */
  function TailText(view: FrameView): string {
    Concat([view.functionName, "  (called from: ", view.callerFile, ":", LineNumber(view.callerLine), ")"])
  }

  /** Everything in front of the tree. */
  function Prefix(timestamp: string, address: Option<Address>, afterTimestamp: string, cap: nat): (r: string)
    requires cap > 0
    ensures |r| < cap
  {
    var stamped := Put("", "[" + timestamp + "] ", cap);
    var spliced := Put(stamped, afterTimestamp, cap);
    match address
    case None => spliced
    case Some(a) => Put(spliced, AddressColumn(a), cap)
  }

  /** The line up to and including its glyph. */
  function Tree(view: FrameView, depth: int, afterTimestamp: string, cap: nat): (r: string)
    requires cap > 0
    ensures |r| < cap
  {
    var prefix := Prefix(view.timestamp, view.calleeAddress, afterTimestamp, cap);
    Glyph(Segments(prefix, if depth >= 1 then depth - 1 else 0, cap), depth, cap)
  }

  function Line(view: FrameView, depth: int, afterTimestamp: string, newline: bool, cap: nat): (r: string)
    ensures |r| <= cap
  {
    if cap == 0 then ""
    else
      var tree := Tree(view, depth, afterTimestamp, cap);
      tree + Clamp(TailText(view), cap - |tree|) + (if newline then "\n" else "")
  }

  // ---------- the line as the enter hook builds it ----------

  /** snprintf(buf + pos, remaining, "%s", text): at most remaining - 1 bytes and a NUL; returns |text|. */
  method Snprintf(buf: array<char>, pos: nat, remaining: nat, text: string) returns (n: nat)
    requires pos + remaining <= buf.Length && remaining > 0
    modifies buf
    ensures n == |text|
    ensures buf[..pos] == old(buf[..pos])
    ensures buf[pos..pos + |Clamp(text, remaining)|] == Clamp(text, remaining)
  {
    n := |text|;
    var shown := Clamp(text, remaining);
    for i := 0 to |shown|
      invariant buf[..pos] == old(buf[..pos])
      invariant buf[pos..pos + i] == shown[..i]
    {
      buf[pos + i] := shown[i];
    }
    buf[pos + |shown|] := '\0';
    assert shown[..|shown|] == shown;
  }

  /** memcpy(buf + pos, text, 3) for one tree segment. */
  method CopySegment(buf: array<char>, pos: nat, text: string)
    requires |text| == TREE_SEGMENT_WIDTH && pos + TREE_SEGMENT_WIDTH <= buf.Length
    modifies buf
    ensures buf[..pos] == old(buf[..pos])
    ensures buf[..pos + TREE_SEGMENT_WIDTH] == old(buf[..pos]) + text
  {
    buf[pos], buf[pos + 1], buf[pos + 2] := text[0], text[1], text[2];
  }

  /** One prefix piece: written, and counted only when it fitted. */
  method PutPiece(buf: array<char>, pos: nat, remaining: nat, piece: string) returns (pos': nat, remaining': nat)
    requires pos + remaining == buf.Length && remaining > 0
    modifies buf
    ensures pos' + remaining' == buf.Length && remaining' > 0
    ensures buf[..pos'] == Put(old(buf[..pos]), piece, buf.Length)
  {
    pos', remaining' := pos, remaining;
    var n := Snprintf(buf, pos, remaining, piece);
    if n > 0 && n < remaining {
      pos', remaining' := pos + n, remaining - n;
      assert buf[..pos + n] == buf[..pos] + buf[pos..pos + n];
    }
  }

  lemma {:induction false} SegmentsStep(line: string, done: nat, count: nat, cap: nat)
    requires done < count && |line| < cap
    requires |Segments(line, done, cap)| == |line| + TREE_SEGMENT_WIDTH * done
    ensures Segments(line, done + 1, cap)
         == (if cap - |Segments(line, done, cap)| > TREE_SEGMENT_WIDTH then Segments(line, done, cap) + "|  "
             else Segments(line, done, cap))
    ensures cap - |Segments(line, done, cap)| <= TREE_SEGMENT_WIDTH ==>
              Segments(line, count, cap) == Segments(line, done, cap)
    decreases done
  {
    if done > 0 {
      if cap - |line| > TREE_SEGMENT_WIDTH {
        SegmentsStep(line + "|  ", done - 1, count - 1, cap);
      }
    }
  }

  /** The prefix pieces of format_into. */
  method PutPrefix(buf: array<char>, timestamp: string, address: Option<Address>, afterTimestamp: string)
    returns (pos: nat, remaining: nat)
    requires buf.Length > 0
    modifies buf
    ensures pos + remaining == buf.Length && remaining > 0
    ensures buf[..pos] == Prefix(timestamp, address, afterTimestamp, buf.Length)
  {
    pos, remaining := 0, buf.Length;
    assert buf[..0] == "";
    pos, remaining := PutPiece(buf, pos, remaining, "[" + timestamp + "] ");
    if afterTimestamp != "" {
      pos, remaining := PutPiece(buf, pos, remaining, afterTimestamp);
    }
    if address.Some? {
      pos, remaining := PutPiece(buf, pos, remaining, AddressColumn(address.value));
    }
  }

  /** The tree loop of format_into. */
  method PutSegments(buf: array<char>, depth: int, pos0: nat, remaining0: nat) returns (pos: nat, remaining: nat)
    requires pos0 + remaining0 == buf.Length && remaining0 > 0
    modifies buf
    ensures pos + remaining == buf.Length && remaining > 0
    ensures buf[..pos] == Segments(old(buf[..pos0]), if depth >= 1 then depth - 1 else 0, buf.Length)
  {
    pos, remaining := pos0, remaining0;
    ghost var prefix := buf[..pos0];
    ghost var cap := buf.Length;
    ghost var count: nat := if depth >= 1 then depth - 1 else 0;
    var i := 1;
    while i < depth && remaining > TREE_SEGMENT_WIDTH
      invariant 1 <= i && i - 1 <= count
      invariant pos + remaining == cap && remaining > 0
      invariant pos == pos0 + TREE_SEGMENT_WIDTH * (i - 1)
      invariant buf[..pos] == Segments(prefix, i - 1, cap)
    {
      SegmentsStep(prefix, i - 1, count, cap);
      CopySegment(buf, pos, "|  ");
      pos, remaining := pos + TREE_SEGMENT_WIDTH, remaining - TREE_SEGMENT_WIDTH;
      i := i + 1;
    }
    if i - 1 < count {
      SegmentsStep(prefix, i - 1, count, cap);
    }
  }

  /** The tree, then the glyph. */
  method PutTree(buf: array<char>, depth: int, pos0: nat, remaining0: nat) returns (pos: nat, remaining: nat)
    requires pos0 + remaining0 == buf.Length && remaining0 > 0
    modifies buf
    ensures pos + remaining == buf.Length && remaining > 0
    ensures buf[..pos] == Glyph(Segments(old(buf[..pos0]), if depth >= 1 then depth - 1 else 0, buf.Length),
                                depth, buf.Length)
  {
    pos, remaining := PutSegments(buf, depth, pos0, remaining0);
    if depth > 0 && remaining > TREE_SEGMENT_WIDTH {
      CopySegment(buf, pos, "|_ ");
      pos, remaining := pos + TREE_SEGMENT_WIDTH, remaining - TREE_SEGMENT_WIDTH;
    }
  }

  /** The name and call site, clamped to the room that is left. */
  method PutTail(buf: array<char>, text: string, pos0: nat, remaining: nat) returns (pos: nat)
    requires pos0 + remaining == buf.Length && remaining > 0
    modifies buf
    ensures pos < buf.Length
    ensures buf[..pos] == old(buf[..pos0]) + Clamp(text, remaining)
  {
    pos := pos0;
    var n := Snprintf(buf, pos, remaining, text);
    if n > 0 {
      pos := pos + (if n < remaining then n else remaining - 1);
    }
    assert pos == pos0 + |Clamp(text, remaining)|;
    assert buf[..pos] == buf[..pos0] + buf[pos0..pos];
  }

  /** format_into for a buffer of buf.Length bytes. */
  method FormatInto(buf: array<char>, view: FrameView, depth: int, afterTimestamp: string, newline: bool)
    returns (size: nat)
    modifies buf
    ensures size <= buf.Length
    ensures buf[..size] == Line(view, depth, afterTimestamp, newline, buf.Length)
  {
    if buf.Length == 0 {
      return 0;
    }
    var pos, remaining := PutPrefix(buf, view.timestamp, view.calleeAddress, afterTimestamp);
    pos, remaining := PutTree(buf, depth, pos, remaining);
    pos := PutTail(buf, TailText(view), pos, remaining);
    if newline {
      buf[pos] := '\n';
      pos := pos + 1;
      assert buf[..pos] == buf[..pos - 1] + "\n";
    }
    size := pos;
  }

  // ---------- the glyph bound ----------

  /** What stands between the timestamp and the tree: the width the caller counts as `extra`. */
  function ExtraWidth(view: FrameView, afterTimestamp: string): nat {
    |afterTimestamp| + (if view.calleeAddress.Some? then ADDR_COLUMN_WIDTH else 0)
  }

  /** The bound on the depth under which no tree segment is dropped. */
  predicate GlyphFits(depth: nat, extra: nat, cap: nat) {
    depth >= 1 && TREE_SEGMENT_WIDTH * depth < cap - TIMESTAMP_PREFIX_WIDTH - extra
  }

  /** The line carries "|_ " at the offset its depth predicts. */
  predicate GlyphAtOffset(line: string, depth: nat, extra: nat) {
    depth >= 1 &&
    var at := TreeGlyphOffset(depth, extra);
    at + TREE_SEGMENT_WIDTH <= |line| && line[at..at + TREE_SEGMENT_WIDTH] == "|_ "
  }

  lemma {:induction false} SegmentsLength(line: string, count: nat, cap: nat)
    requires |line| < cap
    ensures TREE_SEGMENT_WIDTH * count < cap - |line| ==>
              |Segments(line, count, cap)| == |line| + TREE_SEGMENT_WIDTH * count
    decreases count
  {
    if count > 0 && cap - |line| > TREE_SEGMENT_WIDTH {
      SegmentsLength(line + "|  ", count - 1, cap);
    }
  }

  lemma PrefixLength(view: FrameView, afterTimestamp: string, cap: nat)
    requires |view.timestamp| == PRETTY_TIME_LENGTH
    requires TIMESTAMP_PREFIX_WIDTH + ExtraWidth(view, afterTimestamp) < cap
    ensures |Prefix(view.timestamp, view.calleeAddress, afterTimestamp, cap)|
            == TIMESTAMP_PREFIX_WIDTH + ExtraWidth(view, afterTimestamp)
    ensures "[" + view.timestamp + "] " + afterTimestamp
            <= Prefix(view.timestamp, view.calleeAddress, afterTimestamp, cap)
  {
    var stamped := "[" + view.timestamp + "] ";
    PutFits("", stamped, cap);
    PutFits(stamped, afterTimestamp, cap);
    if view.calleeAddress.Some? {
      PutFits(stamped + afterTimestamp, AddressColumn(view.calleeAddress.value), cap);
    }
  }

  lemma PutFits(line: string, piece: string, cap: nat)
    requires |line| + |piece| < cap
    ensures Put(line, piece, cap) == line + piece
  {
  }

  /** Within the bound no segment is dropped, and the glyph stands behind them. */
  lemma GlyphWithinBound(view: FrameView, depth: nat, afterTimestamp: string, newline: bool, cap: nat)
    requires |view.timestamp| == PRETTY_TIME_LENGTH
    requires GlyphFits(depth, ExtraWidth(view, afterTimestamp), cap)
    ensures GlyphAtOffset(Line(view, depth, afterTimestamp, newline, cap), depth, ExtraWidth(view, afterTimestamp))
  {
    var line := Line(view, depth, afterTimestamp, newline, cap);
    var at := TreeGlyphOffset(depth, ExtraWidth(view, afterTimestamp));
    PrefixLength(view, afterTimestamp, cap);
    var body := Segments(Prefix(view.timestamp, view.calleeAddress, afterTimestamp, cap), depth - 1, cap);
    SegmentsLength(Prefix(view.timestamp, view.calleeAddress, afterTimestamp, cap), depth - 1, cap);
    assert |body| == at;
    assert body + "|_ " <= line;
    assert line[at..at + TREE_SEGMENT_WIDTH] == (body + "|_ ")[at..];
  }

  /** Only the newline can fill the buffer's last byte. */
  lemma LastByteIsNewline(view: FrameView, depth: int, afterTimestamp: string, newline: bool, cap: nat)
    requires |Line(view, depth, afterTimestamp, newline, cap)| == cap > 0
    ensures newline && Line(view, depth, afterTimestamp, newline, cap)[cap - 1] == '\n'
  {
  }

  /** Beyond the bound the offset is the buffer's last three bytes at best, which end in the newline. */
  lemma NoGlyphBeyondBound(view: FrameView, depth: nat, afterTimestamp: string, newline: bool, cap: nat)
    requires depth >= 1 && !GlyphFits(depth, ExtraWidth(view, afterTimestamp), cap)
    ensures !GlyphAtOffset(Line(view, depth, afterTimestamp, newline, cap), depth, ExtraWidth(view, afterTimestamp))
  {
    var line := Line(view, depth, afterTimestamp, newline, cap);
    var at := TreeGlyphOffset(depth, ExtraWidth(view, afterTimestamp));
    if at + TREE_SEGMENT_WIDTH <= |line| {
      LastByteIsNewline(view, depth, afterTimestamp, newline, cap);
      var shown := line[at..at + TREE_SEGMENT_WIDTH];
      assert shown[2] == line[at + 2] == line[cap - 1];
      assert "|_ "[2] == ' ';
    }
  }

  /**
  For every line whose fixed columns fit the buffer: "|_ " stands at the offset patches
  use if and only if the depth is positive and within the bound.
  */
  lemma GlyphOffsetExact(view: FrameView, depth: nat, afterTimestamp: string, newline: bool, cap: nat)
    requires |view.timestamp| == PRETTY_TIME_LENGTH
    requires TIMESTAMP_PREFIX_WIDTH + ExtraWidth(view, afterTimestamp) < cap
    ensures GlyphAtOffset(Line(view, depth, afterTimestamp, newline, cap), depth, ExtraWidth(view, afterTimestamp))
       <==> GlyphFits(depth, ExtraWidth(view, afterTimestamp), cap)
  {
    if GlyphFits(depth, ExtraWidth(view, afterTimestamp), cap) {
      GlyphWithinBound(view, depth, afterTimestamp, newline, cap);
    } else if depth >= 1 {
      NoGlyphBeyondBound(view, depth, afterTimestamp, newline, cap);
    }
  }

  /** The splice, in particular the duration placeholder, starts right after the timestamp. */
  lemma SpliceAtOffset(view: FrameView, depth: int, afterTimestamp: string, newline: bool, cap: nat)
    requires |view.timestamp| == PRETTY_TIME_LENGTH
    requires TIMESTAMP_PREFIX_WIDTH + ExtraWidth(view, afterTimestamp) < cap
    ensures var line := Line(view, depth, afterTimestamp, newline, cap);
            && TIMESTAMP_PREFIX_WIDTH + |afterTimestamp| <= |line|
            && line[TIMESTAMP_PREFIX_WIDTH..TIMESTAMP_PREFIX_WIDTH + |afterTimestamp|] == afterTimestamp
  {
    PrefixLength(view, afterTimestamp, cap);
    var line := Line(view, depth, afterTimestamp, newline, cap);
    var stamped := "[" + view.timestamp + "] ";
    assert stamped + afterTimestamp
        <= Prefix(view.timestamp, view.calleeAddress, afterTimestamp, cap)
        <= Tree(view, depth, afterTimestamp, cap)
        <= line;
    assert line[|stamped|..|stamped| + |afterTimestamp|] == (stamped + afterTimestamp)[|stamped|..];
  }
}
