/**
The fixed-width duration field of include/durationFormat.h: printed from a nanosecond
count, decoded back, and proved to lose less than one part in a thousand.
*/
module DurationFormat {
  import opened Printf

  const DURATION_FIELD_WIDTH: nat := 12
  const DURATION_PLACEHOLDER: string := "[  pending ]"
  const DURATION_SATURATION: string := "[  >999.9s ]"
  const DURATION_UNWOUND: string := "[  unwound ]"

  const MICRO: nat := 1_000
  const MILLI: nat := 1_000_000
  const SECOND: nat := 1_000_000_000
  const SATURATION_LIMIT: nat := 1_000_000_000_000

  /** set_duration_flag: byte 1 of a field carries how the frame ended. */
  function Flagged(field: string, flag: char): (r: string)
    requires |field| == DURATION_FIELD_WIDTH
    ensures |r| == DURATION_FIELD_WIDTH
  {
    field[1 := flag]
  }

  /** snprintf("[%4u.%03u%s]", whole, frac, unit). */
  function Printed(whole: nat, frac: nat, unit: string): string {
    "[" + PadLeft(Decimal(whole), 4, ' ') + "." + PadLeft(Decimal(frac), 3, '0') + unit + "]"
  }

  /** The whole part, the three-digit fraction and the unit chosen for a duration. */
  datatype Parts = Parts(whole: nat, frac: nat, unit: string)

  function Split(ns: nat): (p: Parts)
    requires ns < SATURATION_LIMIT
    ensures p.whole < 1000 && p.frac < 1000 && |p.unit| == 2
  {
    if ns < MICRO then Parts(ns, 0, "ns")
    else if ns < MILLI then Parts(ns / MICRO, ns % MICRO, "us")
    else if ns < SECOND then Parts(ns / MILLI, (ns % MILLI) / MICRO, "ms")
    else Parts(ns / SECOND, (ns % SECOND) / MILLI, "s ")
  }

  /** The field for a duration, in integer arithmetic only. */
  function DurationText(ns: nat): (field: string)
    ensures |field| == DURATION_FIELD_WIDTH
  {
    if ns < SATURATION_LIMIT then
      var p := Split(ns);
      PrintedWidth(p.whole, p.frac, p.unit);
      Printed(p.whole, p.frac, p.unit)
    else DURATION_SATURATION
  }

  /** The defensive width check of the printer can never fire: three-digit parts print 12 bytes. */
  lemma PrintedWidth(whole: nat, frac: nat, unit: string)
    requires whole < 1000 && frac < 1000 && |unit| == 2
    ensures |Printed(whole, frac, unit)| == DURATION_FIELD_WIDTH
    ensures Printed(whole, frac, unit)[1] == ' '
  {
    ParseDecimal(whole);
    ParseDecimal(frac);
    var wide := PadLeft(Decimal(whole), 4, ' ');
    assert |wide| == 4 && wide[0] == ' ';
    assert Printed(whole, frac, unit)[1] == wide[0];
  }

  method FormatDuration12Chars(ns: nat, out: array<char>)
    requires out.Length == DURATION_FIELD_WIDTH + 1
    modifies out
    ensures out[..DURATION_FIELD_WIDTH] == DurationText(ns) && out[DURATION_FIELD_WIDTH] == '\0'
  {
    var whole, frac, unit := 0, 0, "";
    if ns < MICRO {
      whole, frac, unit := ns, 0, "ns";
    } else if ns < MILLI {
      whole, frac, unit := ns / MICRO, ns % MICRO, "us";
    } else if ns < SECOND {
      whole, frac, unit := ns / MILLI, (ns % MILLI) / MICRO, "ms";
    } else if ns < SATURATION_LIMIT {
      whole, frac, unit := ns / SECOND, (ns % SECOND) / MILLI, "s ";
    } else {
      WriteField(out, DURATION_SATURATION);
      return;
    }
    PrintedWidth(whole, frac, unit);
    var text := Printed(whole, frac, unit);
    WriteField(out, text[..DURATION_FIELD_WIDTH]);
    // The defensive branch on any other width is not needed: the text has exactly 12 bytes.
    assert text[..DURATION_FIELD_WIDTH] == text;
  }

  /** memcpy of a field and its NUL. */
  method WriteField(out: array<char>, field: string)
    requires out.Length == DURATION_FIELD_WIDTH + 1 && |field| == DURATION_FIELD_WIDTH
    modifies out
    ensures out[..DURATION_FIELD_WIDTH] == field && out[DURATION_FIELD_WIDTH] == '\0'
  {
    for i := 0 to DURATION_FIELD_WIDTH
      invariant out[..i] == field[..i]
    {
      out[i] := field[i];
    }
    out[DURATION_FIELD_WIDTH] := '\0';
  }

  // ---------- decoding ----------

  /** The value of a whole and a three-digit fraction in a unit; the fraction of "ns" is always zero. */
  function InNanoseconds(whole: nat, frac: nat, unit: string): nat {
    if unit == "ns" then whole
    else (whole * 1000 + frac) * (if unit == "us" then 1 else if unit == "ms" then MICRO else MILLI)
  }

  /** What a reader takes the field to say, in nanoseconds. */
  function Decode(field: string): nat
    requires |field| == DURATION_FIELD_WIDTH
  {
    InNanoseconds(Parse(field[1..5]), Parse(field[6..9]), field[9..11])
  }

  lemma DecodePrinted(whole: nat, frac: nat, unit: string)
    requires whole < 1000 && frac < 1000 && |unit| == 2
    ensures |Printed(whole, frac, unit)| == DURATION_FIELD_WIDTH
    ensures Decode(Printed(whole, frac, unit)) == InNanoseconds(whole, frac, unit)
  {
    PrintedWidth(whole, frac, unit);
    ParseDecimal(whole);
    ParseDecimal(frac);
    ParsePadLeft(whole, 4, ' ');
    ParsePadLeft(frac, 3, '0');
    var field := Printed(whole, frac, unit);
    var left, right := PadLeft(Decimal(whole), 4, ' '), PadLeft(Decimal(frac), 3, '0');
    assert |left| == 4 && |right| == 3;
    assert field[1..5] == left;
    assert field[6..9] == right;
    assert field[9..11] == unit;
  }

  /** What truncation leaves of a duration: all of it below a millisecond, then micro- or milliseconds. */
  function Truncated(ns: nat): nat {
    if ns < MILLI then ns else if ns < SECOND then ns / MICRO * MICRO else ns / MILLI * MILLI
  }

  lemma SplitValue(ns: nat)
    requires ns < SATURATION_LIMIT
    ensures var p := Split(ns); InNanoseconds(p.whole, p.frac, p.unit) == Truncated(ns)
  {
    var p := Split(ns);
    assert p.unit[0] == (if ns < MICRO then 'n' else if ns < MILLI then 'u' else if ns < SECOND then 'm' else 's');
  }

  lemma DecodedValue(ns: nat)
    requires ns < SATURATION_LIMIT
    ensures Decode(DurationText(ns)) == Truncated(ns)
  {
    var p := Split(ns);
    DecodePrinted(p.whole, p.frac, p.unit);
    SplitValue(ns);
  }

  /** Reading a field back never overstates the duration and is off by less than a thousandth. */
  lemma DecodeBound(ns: nat)
    requires ns < SATURATION_LIMIT
    ensures var v := Decode(DurationText(ns)); v <= ns && (v == ns || (ns - v) * 1000 < ns)
  {
    DecodedValue(ns);
  }

  lemma TruncatedMonotone(ns: nat, later: nat)
    requires ns <= later
    ensures Truncated(ns) <= Truncated(later)
  {
  }

  /** Longer durations never read as shorter ones, across every unit boundary. */
  lemma DecodeMonotone(ns: nat, later: nat)
    requires ns <= later < SATURATION_LIMIT
    ensures Decode(DurationText(ns)) <= Decode(DurationText(later))
  {
    DecodedValue(ns);
    DecodedValue(later);
    TruncatedMonotone(ns, later);
  }

  /** Byte 1 of every field is blank, so the flag of an abnormal end changes nothing a reader decodes. */
  lemma FlagByteIsFree(ns: nat, flag: char)
    requires !IsDecimalDigit(flag)
    ensures DurationText(ns)[1] == ' '
    ensures ns < SATURATION_LIMIT ==> Decode(Flagged(DurationText(ns), flag)) == Decode(DurationText(ns))
  {
    if ns < SATURATION_LIMIT {
      var p := Split(ns);
      PrintedWidth(p.whole, p.frac, p.unit);
      FlagKeepsDecode(DurationText(ns), flag);
    }
  }

  lemma FlagKeepsDecode(field: string, flag: char)
    requires |field| == DURATION_FIELD_WIDTH && field[1] == ' ' && !IsDecimalDigit(flag)
    ensures Decode(Flagged(field, flag)) == Decode(field)
  {
    var marked := Flagged(field, flag);
    assert marked[1..5] == [flag] + field[2..5];
    assert field[1..5] == [' '] + field[2..5];
    BlankFirst(flag, field[2..5]);
    BlankFirst(' ', field[2..5]);
    assert marked[6..9] == field[6..9] && marked[9..11] == field[9..11];
  }

  lemma {:induction false} BlankFirst(c: char, rest: string)
    requires !IsDecimalDigit(c)
    ensures Parse([c] + rest) == Parse(rest)
  {
    var s := [c] + rest;
    if rest != [] {
      BlankFirst(c, rest[..|rest| - 1]);
      assert s[..|s| - 1] == [c] + rest[..|rest| - 1];
    } else {
      assert s[..0] == "";
    }
  }

  // ---------- durations too long for the field ----------

  lemma NoMarkInPrinted(whole: nat, frac: nat, unit: string)
    requires '>' !in unit
    ensures '>' !in Printed(whole, frac, unit)
  {
    ParseDecimal(whole);
    ParseDecimal(frac);
    assert '>' !in PadLeft(Decimal(whole), 4, ' ');
    assert '>' !in PadLeft(Decimal(frac), 3, '0');
  }

  /** A thousand seconds and more are told apart from everything shorter, and from nothing longer. */
  lemma SaturatedIff(ns: nat)
    ensures '>' in DurationText(ns) <==> ns >= 1_000_000_000_000
    ensures ns >= 1_000_000_000_000 ==> DurationText(ns) == "[  >999.9s ]"
  {
    if ns < 1_000_000_000_000 {
      var p := Split(ns);
      NoMarkInPrinted(p.whole, p.frac, p.unit);
    } else {
      assert DurationText(ns)[3] == '>';
    }
  }

  // ---------- what a field looks like ----------

  /** Brackets, a point and a three-digit fraction in their places, and the whole part behind blanks. */
  predicate LooksPrinted(field: string) {
    && |field| == 12 && field[0] == '[' && field[5] == '.' && field[11] == ']'
    && (forall i | 6 <= i < 9 :: IsDecimalDigit(field[i])) && IsDecimalDigit(field[4])
    && forall i | 1 <= i < 4 :: field[i] == ' ' || (IsDecimalDigit(field[i]) && IsDecimalDigit(field[i + 1]))
  }

  lemma PrintedLooks(whole: nat, frac: nat, unit: string)
    requires whole < 1000 && frac < 1000 && |unit| == 2
    ensures LooksPrinted(Printed(whole, frac, unit))
  {
    var left, right := PadLeft(Decimal(whole), 4, ' '), PadLeft(Decimal(frac), 3, '0');
    BlanksThenDigits(whole, left);
    ThreeDigits(frac, right);
    PutTogether(left, right, unit, Printed(whole, frac, unit));
  }

  lemma PutTogether(left: string, right: string, unit: string, field: string)
    requires |left| == 4 && |right| == 3 && |unit| == 2 && field == "[" + left + "." + right + unit + "]"
    requires (forall i | 0 <= i < 3 :: IsDecimalDigit(right[i])) && IsDecimalDigit(left[3])
    requires forall i | 0 <= i < 3 :: left[i] == ' ' || (IsDecimalDigit(left[i]) && IsDecimalDigit(left[i + 1]))
    ensures LooksPrinted(field)
  {
    assert forall i | 1 <= i < 5 :: field[i] == left[i - 1];
    assert forall i | 6 <= i < 9 :: field[i] == right[i - 6];
  }

  lemma ThreeDigits(frac: nat, right: string)
    requires frac < 1000 && right == PadLeft(Decimal(frac), 3, '0')
    ensures |right| == 3 && forall i | 0 <= i < 3 :: IsDecimalDigit(right[i])
  {
    ParseDecimal(frac);
    var zeros := 3 - |Decimal(frac)|;
    assert forall i | 0 <= i < zeros :: right[i] == '0';
    assert forall i | zeros <= i < 3 :: right[i] == Decimal(frac)[i - zeros];
  }

  lemma BlanksThenDigits(whole: nat, left: string)
    requires whole < 1000 && left == PadLeft(Decimal(whole), 4, ' ')
    ensures |left| == 4 && IsDecimalDigit(left[3])
    ensures forall i | 0 <= i < 3 :: left[i] == ' ' || (IsDecimalDigit(left[i]) && IsDecimalDigit(left[i + 1]))
  {
    ParseDecimal(whole);
    var blanks := 4 - |Decimal(whole)|;
    assert forall i | 0 <= i < blanks :: left[i] == ' ';
    assert forall i | blanks <= i < 4 :: left[i] == Decimal(whole)[i - blanks];
  }

  /** Below a thousand seconds every field looks like that, and ends in the unit of its size. */
  lemma FieldLooks(ns: nat)
    requires ns < 1_000_000_000_000
    ensures LooksPrinted(DurationText(ns))
    ensures DurationText(ns)[9..11]
            == if ns < 1_000 then "ns" else if ns < 1_000_000 then "us" else if ns < 1_000_000_000 then "ms" else "s "
  {
    var p := Split(ns);
    PrintedLooks(p.whole, p.frac, p.unit);
    PrintedWidth(p.whole, p.frac, p.unit);
    ParseDecimal(p.whole);
    ParseDecimal(p.frac);
    assert Printed(p.whole, p.frac, p.unit)[9..11] == p.unit;
  }
}
