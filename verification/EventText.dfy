/**
The what() text of an event line (include/eventFormat.h): copied into a small buffer so that it stays on one
line, cut with an ellipsis when it is too long.
*/
module EventText {
  const ELLIPSIS: string := "..."

  predicate Control(c: char) { c < ' ' || c == 0x7f as char }

  function Shown(c: char): char {
    if Control(c) then ' ' else c
  }

  /** How much of a text of length `n` is copied where `limit` characters fit. */
  function Copied(n: nat, limit: nat): (k: nat)
    ensures k <= n && k <= limit
  {
    if n <= limit then n else if limit > |ELLIPSIS| then limit - |ELLIPSIS| else limit
  }

  function Blanked(x: string): (s: string)
    ensures |s| == |x| && forall i | 0 <= i < |x| :: s[i] == Shown(x[i])
  {
    seq(|x|, i requires 0 <= i < |x| => Shown(x[i]))
  }

  function Sanitized(what: string, limit: nat): string {
    Blanked(what[..Copied(|what|, limit)]) + if |what| > limit > |ELLIPSIS| then ELLIPSIS else ""
  }

  /**
  sanitize_what_into(); a null pointer is no text. Nothing behind the terminator is touched, and a buffer
  of no capacity not at all.
  */
  method SanitizeWhatInto(what: string, out: array<char>) returns (size: nat)
    modifies out
    ensures out.Length == 0 ==> size == 0
    ensures out.Length > 0 ==>
              size < out.Length && out[..size] == Sanitized(what, out.Length - 1) && out[size] == 0 as char
    ensures forall i | size < i < out.Length :: out[i] == old(out[i])
  {
    if out.Length == 0 {
      return 0;
    }
    var limit := out.Length - 1;
    var copied := Copied(|what|, limit);
    var i := 0;
    while i < copied
      invariant i <= copied
      invariant forall k | 0 <= k < i :: out[k] == Shown(what[k])
      invariant forall k | i <= k < out.Length :: out[k] == old(out[k])
    {
      out[i] := Shown(what[i]);
      i := i + 1;
    }
    size := copied;
    assert out[..size] == Blanked(what[..copied]);
    if |what| > limit && limit > |ELLIPSIS| {
      out[size], out[size + 1], out[size + 2] := ELLIPSIS[0], ELLIPSIS[1], ELLIPSIS[2];
      size := size + |ELLIPSIS|;
      assert out[..size] == Blanked(what[..copied]) + ELLIPSIS;
    }
    out[size] := 0 as char;
  }

  /** No character of the text breaks or hides the line: no C0 control and no DEL. */
  predicate OneLine(s: string) {
    forall i | 0 <= i < |s| :: s[i] as int >= 32 && s[i] as int != 127
  }

  predicate EndsInEllipsis(s: string) {
    |s| >= |ELLIPSIS| && s[|s| - |ELLIPSIS|..] == ELLIPSIS
  }

  lemma BlankingKeepsEllipsis(s: string)
    ensures EndsInEllipsis(Blanked(s)) <==> EndsInEllipsis(s)
  {
    if |s| >= |ELLIPSIS| {
      var a, b := s[|s| - |ELLIPSIS|..], Blanked(s)[|s| - |ELLIPSIS|..];
      assert forall i | 0 <= i < |ELLIPSIS| :: b[i] == Shown(a[i]) && ELLIPSIS[i] == '.';
      assert a == ELLIPSIS <==> b == ELLIPSIS;
    }
  }

  /**
  Whatever a program's what() says, what is shown is one line that fits; a text that fits and is one line already
  is shown as it is, so that showing a shown text again changes nothing; and it ends in an ellipsis if and only if
  it was cut with room for one, or what is shown of the text ended in one already.
  */
  lemma ShownIsOneLine(what: string, limit: nat)
    ensures OneLine(Sanitized(what, limit)) && |Sanitized(what, limit)| == (if |what| <= limit then |what| else limit)
    ensures |what| <= limit && OneLine(what) ==> Sanitized(what, limit) == what
    ensures Sanitized(Sanitized(what, limit), limit) == Sanitized(what, limit)
    ensures forall i | 0 <= i < |Sanitized(what, limit)| - (if |what| > limit > 3 then 3 else 0) ::
              Sanitized(what, limit)[i] == if what[i] as int >= 32 && what[i] as int != 127 then what[i] else ' '
    ensures EndsInEllipsis(Sanitized(what, limit))
            <==> |what| > limit > |ELLIPSIS| || EndsInEllipsis(what[..Copied(|what|, limit)])
  {
    FitsAsItIs(Sanitized(what, limit), limit);
    if |what| <= limit && OneLine(what) {
      FitsAsItIs(what, limit);
    }
    if !(|what| > limit > |ELLIPSIS|) {
      BlankingKeepsEllipsis(what[..Copied(|what|, limit)]);
      assert Sanitized(what, limit) == Blanked(what[..Copied(|what|, limit)]);
    }
  }

  lemma FitsAsItIs(what: string, limit: nat)
    requires |what| <= limit && OneLine(what)
    ensures Sanitized(what, limit) == what
  {
    assert what[..|what|] == what && Blanked(what) == what;
  }
}
