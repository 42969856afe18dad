/** The three pure helpers of the call handler: E.164-style normalisation of
    a raw caller number, the area/prefix/line split of its digits and the
    `AAA-PPP-LETTERS` display string. */
module Handler {
  import opened Wrappers
  import opened Text
  import opened Slicing
  import opened Vanity

  /** The digit blocks of a number: area code, exchange prefix and line. */
  datatype Blocks = Blocks(area: string, prefix: string, line: string)

  /** `_digits_blocks`. */
  function DigitsBlocks(e164: string): (b: Blocks)
    ensures var d := DigitsOnly(e164);
      |d| >= 10 ==>
        && |b.area| == 3 && |b.prefix| == 3 && |b.line| == 4
        && b.area + b.prefix + b.line == d[|d| - 10..]
    ensures var d := DigitsOnly(e164);
      |d| < 10 ==> b.area == "" && b.prefix == "" && b.line == d[|d| - Min(4, |d|)..]
    ensures AllDigits(b.area + b.prefix + b.line)
  {
    var d := DigitsOnly(e164);
    if |d| >= 10 then Blocks(Slice(d, -10, -7), Slice(d, -7, -4), SliceFrom(d, -4))
    else Blocks("", "", SliceFrom(d, -4))
  }

  /** `_format_display`. */
  function FormatDisplay(e164: string, lettersSuffix: string): (r: string)
    ensures var d := DigitsOnly(e164);
      |d| >= 10 ==> r == d[|d| - 10..|d| - 7] + "-" + d[|d| - 7..|d| - 4] + "-" + Upper(lettersSuffix)
    ensures var d := DigitsOnly(e164); 0 < |d| < 10 ==> r == d + "-" + Upper(lettersSuffix)
    ensures DigitsOnly(e164) == [] ==> r == Upper(lettersSuffix)
    ensures IsSuffix(Upper(lettersSuffix), r)
  {
    var p := DigitsBlocks(e164);
    if p.area != "" && p.prefix != "" then p.area + "-" + p.prefix + "-" + Upper(lettersSuffix)
    else
      var d := DigitsOnly(e164);
      if d != "" then d + "-" + Upper(lettersSuffix) else Upper(lettersSuffix)
  }

  /** `_normalize_e164`. `raw` may be None, which reads as the empty string. */
  function NormalizeE164(raw: Option<string>): (r: string)
    ensures var d := DigitsOnly(raw.GetOr(""));
      && (r == "" <==> d == [])
      && (r != "" ==> r[0] == '+' && r[1..] == (if |d| == 10 then "1" + d else d))
  {
    var d := DigitsOnly(raw.GetOr(""));
    if d == [] then ""
    else if |d| == 11 && d[0] == '1' then "+" + d
    else if |d| == 10 then "+1" + d
    else "+" + d
  }

  /** The three branches of the source, one by one: ten digits gain the
      country code 1, every other count is kept as it is. */
  lemma NormalizeCases(raw: Option<string>)
    ensures var d := DigitsOnly(raw.GetOr(""));
      && (|d| == 10 ==> NormalizeE164(raw) == "+1" + d)
      && (|d| == 11 && d[0] == '1' ==> NormalizeE164(raw) == "+" + d)
      && (d != [] && |d| != 10 ==> NormalizeE164(raw) == "+" + d)
  {
  }

  /** A result never carries exactly ten digits, and its digits are the
      input's, behind a `+` and possibly a `1`. */
  lemma NormalizeDigits(raw: Option<string>)
    ensures var r := NormalizeE164(raw);
      r != "" ==> AllDigits(r[1..]) && DigitsOnly(r) == r[1..] && |r[1..]| != 10
  {
    var r := NormalizeE164(raw);
    if r != "" {
      assert r == [r[0]] + r[1..];
      DigitsOnlyConcat([r[0]], r[1..]);
      DigitsOnlyOfDigits(r[1..]);
    }
  }

  /** Normalising a normalised number changes nothing. */
  lemma NormalizeIdempotent(raw: Option<string>)
    ensures NormalizeE164(Some(NormalizeE164(raw))) == NormalizeE164(raw)
  {
    var r := NormalizeE164(raw);
    NormalizeDigits(raw);
    if r != "" {
      var d := r[1..];
      assert DigitsOnly(r) == d;
      assert r == "+" + d;
    }
  }

  lemma NormalizeOfNone()
    ensures NormalizeE164(None) == "" && NormalizeE164(Some("")) == ""
  {
  }

  /** Digits behind `PPP-LLLL` formatting. */
  lemma DigitsOfLocal(exch: string, line: string)
    requires AllDigits(exch) && AllDigits(line)
    ensures DigitsOnly(exch + "-" + line) == exch + line
  {
    DigitsOnlyOfDigits(line);
    SkipNonDigits("-", line);
    KeepDigits(exch, "-" + line);
    assert exch + "-" + line == exch + ("-" + line);
  }

  /** Digits behind `(AAA) PPP-LLLL` formatting. */
  lemma DigitsOfNational(area: string, exch: string, line: string)
    requires AllDigits(area) && AllDigits(exch) && AllDigits(line)
    ensures DigitsOnly("(" + area + ") " + exch + "-" + line) == area + exch + line
  {
    var local := exch + "-" + line;
    DigitsOfLocal(exch, line);
    SkipNonDigits(") ", local);
    KeepDigits(area, ") " + local);
    SkipNonDigits("(", area + (") " + local));
    NationalAssoc(area, exch, line);
  }

  lemma NationalAssoc(area: string, exch: string, line: string)
    ensures "(" + area + ") " + exch + "-" + line == "(" + (area + (") " + (exch + "-" + line)))
  {
  }

  lemma DigitsOfPlus(d: string)
    requires AllDigits(d)
    ensures DigitsOnly("+" + d) == d
  {
    DigitsOnlyOfDigits(d);
    SkipNonDigits("+", d);
  }

  /** The test suite's `(AAA) PPP-LLLL` shape gains the country code 1. */
  lemma NormalizeNationalShape(area: string, exch: string, line: string)
    requires |area| == 3 && |exch| == 3 && |line| == 4
    requires AllDigits(area) && AllDigits(exch) && AllDigits(line)
    ensures NormalizeE164(Some("(" + area + ") " + exch + "-" + line)) == "+1" + area + exch + line
  {
    DigitsOfNational(area, exch, line);
    var d := area + exch + line;
    assert "+1" + d == "+1" + area + exch + line;
  }

  /** The test suite's `1AAAPPPLLLL` shape only gains the `+`. */
  lemma NormalizeTrunkShape(area: string, exch: string, line: string)
    requires |area| == 3 && |exch| == 3 && |line| == 4
    requires AllDigits(area) && AllDigits(exch) && AllDigits(line)
    ensures NormalizeE164(Some("1" + area + exch + line)) == "+1" + area + exch + line
  {
    var n := "1" + (area + exch + line);
    assert AllDigits(n);
    DigitsOnlyOfDigits(n);
    assert n == "1" + area + exch + line;
    assert "+" + n == "+1" + area + exch + line;
  }

  /** The test suite's `+1AAAPPPLLLL` shape is already normalised. */
  lemma NormalizePlusShape(area: string, exch: string, line: string)
    requires |area| == 3 && |exch| == 3 && |line| == 4
    requires AllDigits(area) && AllDigits(exch) && AllDigits(line)
    ensures NormalizeE164(Some("+1" + area + exch + line)) == "+1" + area + exch + line
  {
    var n := "1" + (area + exch + line);
    assert AllDigits(n);
    DigitsOfPlus(n);
    assert "+" + n == "+1" + area + exch + line;
  }

  /** The test suite's local `PPP-LLLL` shape: the code gives `+PPPLLLL`,
      where the test expects `+1PPPLLLL`. */
  lemma NormalizeLocalShape(exch: string, line: string)
    requires |exch| == 3 && |line| == 4
    requires AllDigits(exch) && AllDigits(line)
    ensures NormalizeE164(Some(exch + "-" + line)) == "+" + exch + line
    ensures NormalizeE164(Some(exch + "-" + line)) != "+1" + exch + line
  {
    DigitsOfLocal(exch, line);
    assert "+" + (exch + line) == "+" + exch + line;
    assert ("+" + exch + line)[1] == exch[0] && ("+1" + exch + line)[1] == '1';
  }

  /** Normalisation as the test suite expects it: a seven-digit local number
      gains the country code 1 just as a ten-digit national one does. */
  function NormalizeE164Local(raw: Option<string>): (r: string)
    ensures var d := DigitsOnly(raw.GetOr(""));
      && (r == "" <==> d == [])
      && (r != "" ==> r[0] == '+' && r[1..] == (if |d| == 10 || |d| == 7 then "1" + d else d))
  {
    var d := DigitsOnly(raw.GetOr(""));
    if d == [] then ""
    else if |d| == 11 && d[0] == '1' then "+" + d
    else if |d| == 10 || |d| == 7 then "+1" + d
    else "+" + d
  }

  /** The corrected normalisation gives the local `PPP-LLLL` shape the
      country code 1, as the test expects. */
  lemma NormalizeLocalMeetsTest(exch: string, line: string)
    requires |exch| == 3 && |line| == 4
    requires AllDigits(exch) && AllDigits(line)
    ensures NormalizeE164Local(Some(exch + "-" + line)) == "+1" + exch + line
  {
    DigitsOfLocal(exch, line);
    assert "+1" + (exch + line) == "+1" + exch + line;
  }

  /** The correction differs from the code only on seven digits and is
      still idempotent. */
  lemma NormalizeLocalIdempotent(raw: Option<string>)
    ensures |DigitsOnly(raw.GetOr(""))| != 7 ==> NormalizeE164Local(raw) == NormalizeE164(raw)
    ensures NormalizeE164Local(Some(NormalizeE164Local(raw))) == NormalizeE164Local(raw)
  {
    var r := NormalizeE164Local(raw);
    if r != "" {
      var d := r[1..];
      assert r == [r[0]] + d;
      DigitsOnlyConcat([r[0]], d);
      DigitsOnlyOfDigits(d);
      assert DigitsOnly(r) == d;
      assert r == "+" + d;
    }
  }
}
