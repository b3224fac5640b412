/** The number conversions of snprintf that the trace lines use, and their inverse. */
module Printf {

  function Digit(d: nat): char
    requires d < 16
  {
    "0123456789abcdef"[d]
  }

  /** "%u": no leading zeros. */
  function Decimal(n: nat): (s: string)
    ensures s != []
  {
    if n < 10 then [Digit(n)] else Decimal(n / 10) + [Digit(n % 10)]
  }

  /** "%0*x" for a value of at most `width` digits. */
  function Hex(n: nat, width: nat): (s: string)
    ensures |s| == width
  {
    if width == 0 then "" else Hex(n / 16, width - 1) + [Digit(n % 16)]
  }

  /** A format string and its arguments, piece by piece. */
  function Concat(pieces: seq<string>): string {
    if pieces == [] then "" else pieces[0] + Concat(pieces[1..])
  }

  function Repeat(c: char, n: nat): (s: string)
    ensures |s| == n && forall i | 0 <= i < n :: s[i] == c
  {
    if n == 0 then "" else Repeat(c, n - 1) + [c]
  }

  /** A minimum field width, filled on the left. */
  function PadLeft(text: string, width: nat, fill: char): (s: string)
    ensures |s| >= width && |s| >= |text|
  {
    if |text| >= width then text else Repeat(fill, width - |text|) + text
  }

  predicate IsDecimalDigit(c: char) {
    '0' <= c <= '9'
  }

  /** The number a text of decimal digits spells; anything but a digit counts as a leading blank. */
  function Parse(text: string): nat {
    if text == [] then 0
    else
      var c := text[|text| - 1];
      Parse(text[..|text| - 1]) * 10 + (if IsDecimalDigit(c) then (c - '0') as nat else 0)
  }

  lemma {:induction false} ParseDecimal(n: nat)
    ensures Parse(Decimal(n)) == n
    ensures forall i | 0 <= i < |Decimal(n)| :: IsDecimalDigit(Decimal(n)[i])
    ensures n < 10 ==> |Decimal(n)| == 1
    ensures 10 <= n < 100 ==> |Decimal(n)| == 2
    ensures 100 <= n < 1000 ==> |Decimal(n)| == 3
  {
    var s := Decimal(n);
    if n >= 10 {
      ParseDecimal(n / 10);
      assert s[..|s| - 1] == Decimal(n / 10);
    } else {
      assert s[..|s| - 1] == "";
    }
  }

  /** Blanks or zeros in front of a number do not change what it parses to. */
  lemma {:induction false} ParsePadded(count: nat, fill: char, text: string)
    requires fill == ' ' || fill == '0'
    ensures Parse(Repeat(fill, count) + text) == Parse(text)
    decreases count, |text|
  {
    var s := Repeat(fill, count) + text;
    if text != [] {
      ParsePadded(count, fill, text[..|text| - 1]);
      assert s[..|s| - 1] == Repeat(fill, count) + text[..|text| - 1];
    } else if count > 0 {
      ParsePadded(count - 1, fill, text);
      assert s == Repeat(fill, count);
      assert s[..|s| - 1] == Repeat(fill, count - 1) + text;
    }
  }

  lemma ParsePadLeft(n: nat, width: nat, fill: char)
    requires fill == ' ' || fill == '0'
    ensures Parse(PadLeft(Decimal(n), width, fill)) == n
  {
    ParseDecimal(n);
    if |Decimal(n)| < width {
      ParsePadded(width - |Decimal(n)|, fill, Decimal(n));
    }
  }
}
