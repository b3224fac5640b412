/**
One thread's trace file as src/trace.cpp drives it: lines appended through one descriptor,
a few bytes of lines already written overwritten through another, and a byte cursor that
says where the next line will start.

`original` and `chunks` are history: what the appends alone would have produced, and the
lines whose frames may still be patched. Nothing in the tracer reads them.
*/
module TraceFile {
  import opened FrameReconcile
  import opened LineFormat
  import opened DurationFormat

  /** The build options, and the extent of the thread's own stack. */
  datatype Config = Config(elapsed: bool, exceptions: bool, addr: bool, bounds: StackBounds) {
    /** CSLG_LINE_PATCHING */
    predicate Patching() { elapsed || exceptions }

    /** CSLG_DURATION_SPLICE */
    function Splice(): string { if elapsed then DURATION_PLACEHOLDER + " " else "" }

    /** LINE_PREFIX_EXTRA */
    function PrefixExtra(): nat {
      (if elapsed then DURATION_FIELD_WIDTH + 1 else 0) + (if addr then ADDR_COLUMN_WIDTH else 0)
    }
  }

  /** PLACEHOLDER_OFFSET_IN_LINE */
  const PLACEHOLDER_OFFSET: nat := PRETTY_TIME_LENGTH + 3

  /** A line a frame's patches may still reach: where it starts, what was written, at which depth. */
  datatype Chunk = Chunk(start: nat, text: string, depth: int)

  datatype Output = Output(
    isOpen: bool,
    patchFd: bool,
    file: string,
    cursor: nat,
    cursorValid: bool,
    original: string,
    chunks: seq<Chunk>)

  const CLOSED := Output(false, false, "", 0, true, "", [])

  /** What write_run_separator_header did: it wrote its text, or an allocation failed before anything was written. */
  datatype Header = Written(text: string) | HeaderThrows

  /** What one fwrite of a line did: all of it reached the file, or unknown bytes did. */
  datatype Write = Full | Short(junk: string)

  /** pwrite at an explicit offset, growing the file with zero bytes when it lies beyond the end. */
  function Pwrite(file: string, at: nat, bytes: string): (r: string)
    ensures |r| >= |file|
    ensures at + |bytes| <= |file| ==>
              && |r| == |file|
              && (forall p | 0 <= p < |file| && !(at <= p < at + |bytes|) :: r[p] == file[p])
              && r[at..at + |bytes|] == bytes
  {
    if at + |bytes| <= |file| then file[..at] + bytes + file[at + |bytes|..]
    else if at <= |file| then file[..at] + bytes
    else file + seq(at - |file|, _ => '\0') + bytes
  }

  /** patch_line_bytes */
  function PatchLine(out: Output, lineStart: int, offset: nat, bytes: string): Output {
    if !out.patchFd || lineStart < 0 then out
    else out.(file := Pwrite(out.file, lineStart + offset, bytes))
  }

  /** fwrite of a finished line, with the cursor bookkeeping of the patching builds. */
  function Append(cfg: Config, out: Output, line: string, write: Write): Output {
    var bytes := match write case Full => line case Short(junk) => junk;
    var grown := out.(file := out.file + bytes, original := out.original + bytes);
    if !cfg.Patching() then grown
    else if write.Full? then grown.(cursor := out.cursor + |line|)
    else grown.(cursorValid := false)
  }

  /**
  open_this_thread_file: earlier runs' content and the run header are already in the file when the cursor is
  seeded; without a second descriptor or a seekable file nothing is ever patched. The stream and the second
  descriptor are in place before the header is built, so a header that throws leaves both, and the cursor as it
  was before: at 0, and trusted.
  */
  function Open(cfg: Config, out: Output, existing: string, header: Header, reopens: bool, seeks: bool): Output
    requires !out.isOpen
  {
    var file := if header.Written? then existing + header.text else existing;
    var started := out.(isOpen := true, file := file, original := file);
    if !cfg.Patching() then started
    else if header.HeaderThrows? then started.(patchFd := reopens)
    else if reopens && seeks then started.(patchFd := true, cursor := |file|)
    else if reopens then started.(patchFd := true, cursor := 0, cursorValid := false)
    else started.(patchFd := false, cursorValid := false)
  }

  /**
  What get_thread_fp meets: the trace is not ready or shut down, whatever is open; or it looks at its file, and if
  that is not open there is none to be had, or it is opened now. Building the path, building the header and listing
  the file may each throw.
  */
  datatype Opening =
    | Unavailable
    | NoFile(pathThrows: bool)
    | Lazy(existing: string, header: Header, reopens: bool, seeks: bool, listingThrows: bool)

  /** The file after get_thread_fp. */
  function GetFile(cfg: Config, out: Output, o: Opening): Output {
    if out.isOpen || !o.Lazy? then out else Open(cfg, out, o.existing, o.header, o.reopens, o.seeks)
  }

  /** Whether get_thread_fp throws, and with it everything in front of the barrier it runs behind. */
  predicate FileThrows(out: Output, o: Opening) {
    && !out.isOpen
    && match o
       case Unavailable => false
       case NoFile(pathThrows) => pathThrows
       case Lazy(_, header, _, _, listingThrows) => header.HeaderThrows? || listingThrows
  }

  /** Whether it answers with a file. */
  predicate HasFile(cfg: Config, out: Output, o: Opening) {
    !o.Unavailable? && !FileThrows(out, o) && GetFile(cfg, out, o).isOpen
  }

  // ---------- where patches may land ----------

  predicate InDurationField(cfg: Config, c: Chunk, p: int) {
    cfg.elapsed && c.start + PLACEHOLDER_OFFSET <= p < c.start + PLACEHOLDER_OFFSET + DURATION_FIELD_WIDTH
  }

  predicate IsGlyphByte(cfg: Config, c: Chunk, p: int) {
    cfg.exceptions && c.depth >= 1 && p == c.start + TreeGlyphOffset(c.depth, cfg.PrefixExtra())
  }

  predicate InField(cfg: Config, c: Chunk, p: int) {
    InDurationField(cfg, c, p) || IsGlyphByte(cfg, c, p)
  }

  /** The line as its enter wrote it shows the placeholder and the glyph where patches aim. */
  predicate Laid(cfg: Config, c: Chunk) {
    && c.text != ""
    && (cfg.elapsed ==>
          && PLACEHOLDER_OFFSET + DURATION_FIELD_WIDTH <= |c.text|
          && c.text[PLACEHOLDER_OFFSET..PLACEHOLDER_OFFSET + DURATION_FIELD_WIDTH] == DURATION_PLACEHOLDER)
    && (cfg.exceptions && c.depth >= 1 ==> GlyphAtOffset(c.text, c.depth, cfg.PrefixExtra()))
  }

  /** A frame that recorded `lineStart` and `depth` owns one of the chunks. */
  predicate OwnsChunk(out: Output, lineStart: int, depth: int) {
    exists k | 0 <= k < |out.chunks| :: out.chunks[k].start == lineStart && out.chunks[k].depth == depth
  }

  /** The chunk is a stretch of the original text with its fields where patches aim. */
  predicate ChunkFits(cfg: Config, original: string, c: Chunk) {
    && c.start + |c.text| <= |original|
    && original[c.start..c.start + |c.text|] == c.text
    && Laid(cfg, c)
  }

  /** Chunks are disjoint stretches of the original text, in order. */
  ghost predicate ChunksFit(cfg: Config, original: string, chunks: seq<Chunk>) {
    && (forall k | 0 <= k < |chunks| :: ChunkFits(cfg, original, chunks[k]))
    && (forall j, k | 0 <= j < k < |chunks| :: chunks[j].start + |chunks[j].text| <= chunks[k].start)
  }

  ghost predicate SomeField(cfg: Config, chunks: seq<Chunk>, p: int) {
    exists k :: 0 <= k < |chunks| && InField(cfg, chunks[k], p)
  }

  /** The file shows the original text everywhere outside the fields. */
  ghost predicate DiffersOnlyInFields(cfg: Config, file: string, original: string, chunks: seq<Chunk>) {
    && |file| == |original|
    && forall p | 0 <= p < |file| && file[p] != original[p] :: SomeField(cfg, chunks, p)
  }

  /** While it is trusted and there is a descriptor to patch through, the cursor is the end of the file. */
  predicate CursorAtEnd(cfg: Config, out: Output) {
    out.isOpen && out.cursorValid && cfg.Patching() && out.patchFd ==> out.cursor == |out.file|
  }

  /** The file invariant. */
  ghost predicate FileInv(cfg: Config, out: Output) {
    && CursorAtEnd(cfg, out)
    && (!out.isOpen ==> out == CLOSED)
    && ChunksFit(cfg, out.original, out.chunks)
    && DiffersOnlyInFields(cfg, out.file, out.original, out.chunks)
  }

  /** Every field lies inside its own line, so the fields of different lines never meet. */
  lemma FieldsStayInside(cfg: Config, out: Output, k: nat, p: int)
    requires FileInv(cfg, out) && k < |out.chunks| && InField(cfg, out.chunks[k], p)
    ensures out.chunks[k].start <= p < out.chunks[k].start + |out.chunks[k].text|
    ensures forall j | 0 <= j < |out.chunks| && j != k :: !InField(cfg, out.chunks[j], p)
  {
    assert ChunkFits(cfg, out.original, out.chunks[k]);
    forall j | 0 <= j < |out.chunks| && j != k
      ensures !InField(cfg, out.chunks[j], p)
    {
      assert ChunkFits(cfg, out.original, out.chunks[j]);
    }
  }

  /** `bytes` written at `offset` of chunk `k` stay inside a field of that chunk. */
  predicate PatchInField(cfg: Config, c: Chunk, offset: nat, bytes: string) {
    forall p | c.start + offset <= p < c.start + offset + |bytes| :: InField(cfg, c, p)
  }

  /** A patch aimed at a field of chunk `k` keeps the invariant and touches nothing else. */
  lemma PatchKeepsInv(cfg: Config, out: Output, k: nat, offset: nat, bytes: string)
    requires FileInv(cfg, out) && k < |out.chunks| && bytes != ""
    requires PatchInField(cfg, out.chunks[k], offset, bytes)
    ensures var c := out.chunks[k];
            var out' := PatchLine(out, c.start, offset, bytes);
            && FileInv(cfg, out')
            && out' == out.(file := out'.file)
            && |out'.file| == |out.file|
            && c.start + offset + |bytes| <= |out.file|
            && (forall p | 0 <= p < |out.file| && !(c.start + offset <= p < c.start + offset + |bytes|) ::
                  out'.file[p] == out.file[p])
            && (out.patchFd ==> out'.file[c.start + offset..c.start + offset + |bytes|] == bytes)
  {
    var c := out.chunks[k];
    FieldsStayInside(cfg, out, k, c.start + offset + |bytes| - 1);
    var out' := PatchLine(out, c.start, offset, bytes);
    forall p | 0 <= p < |out'.file| && out'.file[p] != out'.original[p]
      ensures SomeField(cfg, out'.chunks, p)
    {
      if c.start + offset <= p < c.start + offset + |bytes| {
        assert InField(cfg, out'.chunks[k], p);
      } else {
        assert out.file[p] != out.original[p];
      }
    }
  }

  lemma ChunkFitsLonger(cfg: Config, original: string, c: Chunk, more: string)
    requires ChunkFits(cfg, original, c)
    ensures ChunkFits(cfg, original + more, c)
  {
    assert (original + more)[c.start..c.start + |c.text|] == original[c.start..c.start + |c.text|];
  }

  /** Appending keeps the invariant, and everything already in the file. */
  lemma AppendKeepsInv(cfg: Config, out: Output, line: string, write: Write)
    requires FileInv(cfg, out) && out.isOpen
    ensures FileInv(cfg, Append(cfg, out, line, write))
    ensures out.file <= Append(cfg, out, line, write).file
    ensures Append(cfg, out, line, write).cursorValid ==> out.cursorValid
  {
    var out' := Append(cfg, out, line, write);
    var bytes := match write case Full => line case Short(junk) => junk;
    forall k | 0 <= k < |out.chunks|
      ensures ChunkFits(cfg, out'.original, out.chunks[k])
    {
      ChunkFitsLonger(cfg, out.original, out.chunks[k], bytes);
    }
    forall p | 0 <= p < |out'.file| && out'.file[p] != out'.original[p]
      ensures SomeField(cfg, out'.chunks, p)
    {
      assert p < |out.file| && out.file[p] != out.original[p];
    }
  }

  lemma MoreChunks(cfg: Config, file: string, original: string, chunks: seq<Chunk>, c: Chunk)
    requires DiffersOnlyInFields(cfg, file, original, chunks)
    ensures DiffersOnlyInFields(cfg, file, original, chunks + [c])
  {
    forall p | 0 <= p < |file| && file[p] != original[p]
      ensures SomeField(cfg, chunks + [c], p)
    {
      var k :| 0 <= k < |chunks| && InField(cfg, chunks[k], p);
      assert (chunks + [c])[k] == chunks[k];
    }
  }

  /** A fully written, unclamped line becomes a new chunk at the old cursor. */
  lemma ChunkKeepsInv(cfg: Config, out: Output, line: string, depth: int)
    requires FileInv(cfg, out) && out.isOpen && cfg.Patching() && out.cursorValid && out.patchFd
    requires Laid(cfg, Chunk(|out.file|, line, depth))
    ensures var out' := Append(cfg, out, line, Full);
            FileInv(cfg, out'.(chunks := out.chunks + [Chunk(|out.file|, line, depth)]))
  {
    AppendKeepsInv(cfg, out, line, Full);
    var out' := Append(cfg, out, line, Full);
    var c := Chunk(|out.file|, line, depth);
    assert ChunkFits(cfg, out'.original, c) by {
      assert out'.original[c.start..c.start + |line|] == line;
    }
    MoreChunks(cfg, out'.file, out'.original, out.chunks, c);
    forall k | 0 <= k < |out.chunks|
      ensures out.chunks[k].start + |out.chunks[k].text| <= c.start
    {
      assert ChunkFits(cfg, out.original, out.chunks[k]);
    }
  }

  /** The header was written, or nothing can be patched, or the unseeded cursor is right because the file is empty. */
  predicate CursorFits(cfg: Config, existing: string, header: Header, reopens: bool) {
    header.Written? || !cfg.Patching() || !reopens || existing == ""
  }

  /**
  The exact condition for a lazy open to leave a good file: a header that throws over the content of earlier runs
  leaves a cursor that is trusted and wrong, unless there is no descriptor to patch through.
  */
  lemma OpenKeepsInvIff(cfg: Config, out: Output, existing: string, header: Header, reopens: bool, seeks: bool)
    requires FileInv(cfg, out) && !out.isOpen
    ensures FileInv(cfg, Open(cfg, out, existing, header, reopens, seeks))
            <==> CursorFits(cfg, existing, header, reopens)
  {
  }
}
