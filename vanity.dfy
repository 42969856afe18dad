/** The T9 fallback vanity generator: the keypad table, digit extraction,
    the deterministic first-letter transliteration of trailing digits and
    the public entry point that returns candidates best-first. */
module Vanity {
  import opened Text
  import opened Slicing

  /** The telephone keypad: the letter group of each digit 2-9. */
  const T9: map<char, string> :=
    map['2' := "ABC", '3' := "DEF", '4' := "GHI", '5' := "JKL",
        '6' := "MNO", '7' := "PQRS", '8' := "TUV", '9' := "WXYZ"]

  /** One vanity option. `score` is in thousandths (0.05 is 50). */
  datatype VanityCandidate = VanityCandidate(display: string, rawLetters: string, score: int)

  /** The window sizes tried by the fallback, longest first. */
  const Windows: seq<int> := [7, 5, 4]

  /** Sentinel returned when there are no digits at all (score 0.001). */
  const CallMe := VanityCandidate("", "CALLME", 1)

  /** The digit characters of `s`, in order. */
  function DigitsOnly(s: string): (r: string)
    ensures |r| <= |s|
    ensures AllDigits(r)
  {
    if s == [] then []
    else (if IsDigit(s[0]) then [s[0]] else []) + DigitsOnly(s[1..])
  }

  /** A character survives exactly when it is a digit of the input. */
  lemma {:induction false} DigitsOnlyMembers(s: string, c: char)
    ensures c in DigitsOnly(s) <==> c in s && IsDigit(c)
  {
    if s != [] {
      DigitsOnlyMembers(s[1..], c);
      assert c in s <==> c == s[0] || c in s[1..];
    }
  }

  /** Extracting digits commutes with concatenation, so the digits keep their order. */
  lemma {:induction false} DigitsOnlyConcat(a: string, b: string)
    ensures DigitsOnly(a + b) == DigitsOnly(a) + DigitsOnly(b)
  {
    if a == [] {
      assert a + b == b;
    } else {
      var ab := a + b;
      var head: string := if IsDigit(a[0]) then [a[0]] else [];
      assert ab[0] == a[0] && ab[1..] == a[1..] + b;
      assert DigitsOnly(ab) == head + DigitsOnly(a[1..] + b);
      DigitsOnlyConcat(a[1..], b);
      assert DigitsOnly(a) == head + DigitsOnly(a[1..]);
      assert head + (DigitsOnly(a[1..]) + DigitsOnly(b)) == (head + DigitsOnly(a[1..])) + DigitsOnly(b);
    }
  }

  /** A string of digits is its own digit string. */
  lemma {:induction false} DigitsOnlyOfDigits(s: string)
    requires AllDigits(s)
    ensures DigitsOnly(s) == s
  {
    if s != [] {
      DigitsOnlyOfDigits(s[1..]);
    }
  }

  /** A prefix without digits contributes nothing. */
  lemma SkipNonDigits(p: string, s: string)
    requires DigitsOnly(p) == []
    ensures DigitsOnly(p + s) == DigitsOnly(s)
  {
    DigitsOnlyConcat(p, s);
  }

  /** A prefix of digits is kept whole. */
  lemma KeepDigits(p: string, s: string)
    requires AllDigits(p)
    ensures DigitsOnly(p + s) == p + DigitsOnly(s)
  {
    DigitsOnlyOfDigits(p);
    DigitsOnlyConcat(p, s);
  }

  /** Extracting digits twice is extracting them once. */
  lemma DigitsOnlyIdempotent(s: string)
    ensures DigitsOnly(DigitsOnly(s)) == DigitsOnly(s)
  {
    DigitsOnlyOfDigits(DigitsOnly(s));
  }

  /** The fallback letter of one character: the first letter of its keypad
      group, `O` for 0, `I` for 1 and the character itself otherwise. */
  function FallbackLetter(c: char): (r: char)
    ensures c in T9 ==> r in T9[c]
    ensures IsDigit(c) ==> IsUpper(r)
    ensures !IsDigit(c) ==> r == c
  {
    if c in T9 then T9[c][0]
    else if c == '0' then 'O'
    else if c == '1' then 'I'
    else c
  }

  /** On a digit the fallback letter is an upper-case letter taken from the
      keypad, so the pass-through branch never fires. */
  lemma FallbackLetterOfDigit(c: char)
    requires IsDigit(c)
    ensures IsUpper(FallbackLetter(c)) && FallbackLetter(c) != c
    ensures '2' <= c <= '9' <==> c in T9
    ensures c in T9 ==> FallbackLetter(c) == T9[c][0]
    ensures c == '0' ==> FallbackLetter(c) == 'O'
    ensures c == '1' ==> FallbackLetter(c) == 'I'
  {
  }

  /** The letters of `s`, one fallback letter per character. */
  function Letters(s: string): (r: string)
    ensures |r| == |s|
  {
    seq(|s|, i requires 0 <= i < |s| => FallbackLetter(s[i]))
  }

  /** The keypad digit carrying an upper-case letter (the reverse of T9).
      The generator itself only maps digits to letters; this reverse lookup
      exists to state facts about the table. */
  function Dial(letter: char): char
    requires IsUpper(letter)
  {
    if letter <= 'C' then '2'
    else if letter <= 'F' then '3'
    else if letter <= 'I' then '4'
    else if letter <= 'L' then '5'
    else if letter <= 'O' then '6'
    else if letter <= 'S' then '7'
    else if letter <= 'V' then '8'
    else '9'
  }

  /** T9 covers all 26 letters: every letter is in the keypad group of the
      digit it dials. */
  lemma DialInGroup(letter: char)
    requires IsUpper(letter)
    ensures Dial(letter) in T9 && letter in T9[Dial(letter)]
  {
  }

  /** Dialling the fallback letters of digits 2-9 gives back the digits;
      0 and 1 do not round-trip (O dials 6, I dials 4). */
  lemma DialLetters(d: string)
    requires forall i :: 0 <= i < |d| ==> '2' <= d[i] <= '9'
    ensures forall i :: 0 <= i < |d| ==> IsUpper(Letters(d)[i]) && Dial(Letters(d)[i]) == d[i]
  {
  }

  lemma ZeroAndOneDoNotRoundTrip()
    ensures Dial(FallbackLetter('0')) == '6' && Dial(FallbackLetter('1')) == '4'
  {
  }

  /** `_fallback_letters`: the fallback letters of `digits[-n:]`. */
  method FallbackLetters(digits: string, n: int) returns (r: string)
    ensures r == Letters(SliceFrom(digits, -n))
    ensures n >= 1 ==> |r| == Min(n, |digits|) && r == Letters(digits[|digits| - Min(n, |digits|)..])
    ensures AllDigits(digits) ==> AllUpper(r)
  {
    var last := SliceFrom(digits, -n);
    var out: string := [];
    for k := 0 to |last|
      invariant |out| == k
      invariant forall j :: 0 <= j < k ==> out[j] == FallbackLetter(last[j])
    {
      out := out + [FallbackLetter(last[k])];
    }
    r := out;
    if AllDigits(digits) {
      forall j | 0 <= j < |r| ensures IsUpper(r[j]) {
        FallbackLetterOfDigit(last[j]);
      }
    }
  }

  /** The candidates picked by the first `k` windows. */
  function WindowPicks(d: string, k: nat): seq<VanityCandidate>
    requires k <= |Windows|
  {
    if k == 0 then [] else WindowPicks(d, k - 1) + WindowPick(d, k - 1)
  }

  /** What `_fallback_candidates` returns, given the digits of its argument. */
  function FallbackOfDigits(d: string): seq<VanityCandidate> {
    var picks := WindowPicks(d, |Windows|);
    var picks' :=
      if picks == [] && d != []
      then [VanityCandidate("", Letters(SliceFrom(d, -Min(|d|, 4))), 10)]
      else picks;
    if picks' != [] then picks' else [CallMe]
  }

  /** What `_fallback_candidates` returns. */
  function Fallback(e164: string): seq<VanityCandidate> {
    FallbackOfDigits(DigitsOnly(e164))
  }

  /** `_fallback_candidates`: windows 7, 5 and 4 over the trailing digits. */
  method FallbackCandidates(e164: string) returns (picks: seq<VanityCandidate>)
    ensures picks == Fallback(e164)
  {
    var d := DigitsOnly(e164);
    picks := [];
    for i := 0 to |Windows|
      invariant picks == WindowPicks(d, i)
    {
      var n := Windows[i];
      if |d| >= n {
        var letters := FallbackLetters(d, n);
        picks := picks + [VanityCandidate("", letters, 50 - 10 * i)];
      }
    }
    if picks == [] && d != [] {
      var letters := FallbackLetters(d, Min(|d|, 4));
      picks := picks + [VanityCandidate("", letters, 10)];
    }
    if picks == [] {
      picks := [CallMe];
    }
  }

  /** The fallback letters of the last `k` digits of `d`. */
  function TailLetters(d: string, k: nat): string
    requires k <= |d|
  {
    Letters(d[|d| - k..])
  }

  /** The fallback list by digit count, written out case by case: three
      candidates of 7, 5 and 4 letters from 7 digits on, two from 5 or 6
      digits, one of 4 letters from exactly 4, one of all the letters from
      1 to 3, and the sentinel from none. */
  function ExpectedFallback(d: string): seq<VanityCandidate> {
    if |d| >= 7 then
      [VanityCandidate("", TailLetters(d, 7), 50),
       VanityCandidate("", TailLetters(d, 5), 40),
       VanityCandidate("", TailLetters(d, 4), 30)]
    else if |d| >= 5 then
      [VanityCandidate("", TailLetters(d, 5), 40), VanityCandidate("", TailLetters(d, 4), 30)]
    else if |d| == 4 then [VanityCandidate("", TailLetters(d, 4), 30)]
    else if |d| >= 1 then [VanityCandidate("", TailLetters(d, |d|), 10)]
    else [CallMe]
  }

  /** How many candidates the fallback emits, how long and how scored. */
  lemma FallbackShape(e164: string)
    ensures Fallback(e164) == ExpectedFallback(DigitsOnly(e164))
  {
    ShapeOfDigits(DigitsOnly(e164));
  }

  lemma ShapeOfDigits(d: string)
    ensures FallbackOfDigits(d) == ExpectedFallback(d)
  {
    WindowPicksAll(d);
    if |d| >= 4 {
      TailSlice(d, 4);
      assert WindowPick(d, 2) == [VanityCandidate("", TailLetters(d, 4), 30)];
    } else {
      assert WindowPick(d, 2) == [];
      if d != [] { TailSlice(d, |d|); }
    }
    if |d| >= 5 {
      TailSlice(d, 5);
      assert WindowPick(d, 1) == [VanityCandidate("", TailLetters(d, 5), 40)];
    } else {
      assert WindowPick(d, 1) == [];
    }
    if |d| >= 7 {
      TailSlice(d, 7);
      assert WindowPick(d, 0) == [VanityCandidate("", TailLetters(d, 7), 50)];
    } else {
      assert WindowPick(d, 0) == [];
    }
  }

  /** The candidate window `i` contributes, if the digits are long enough. */
  function WindowPick(d: string, i: nat): seq<VanityCandidate>
    requires i < |Windows|
  {
    if |d| >= Windows[i]
    then [VanityCandidate("", Letters(SliceFrom(d, -Windows[i])), 50 - 10 * i)]
    else []
  }

  /** The three windows unrolled. */
  lemma WindowPicksAll(d: string)
    ensures WindowPicks(d, 3) == WindowPick(d, 0) + WindowPick(d, 1) + WindowPick(d, 2)
  {
    assert WindowPicks(d, 1) == WindowPick(d, 0);
    assert WindowPicks(d, 2) == WindowPick(d, 0) + WindowPick(d, 1);
  }

  /** The fallback never returns an empty list, and it returns the sentinel
      exactly when there are no digits. */
  lemma FallbackNonEmpty(e164: string)
    ensures |Fallback(e164)| >= 1
    ensures Fallback(e164) == [CallMe] <==> DigitsOnly(e164) == []
  {
    FallbackShape(e164);
  }

  /** Scores strictly decrease along the list, stay below 0.06, every
      display is empty and the letters are pairwise distinct. */
  lemma FallbackRanked(e164: string)
    ensures var r := Fallback(e164);
      && (forall i, j :: 0 <= i < j < |r| ==> r[i].score > r[j].score)
      && (forall i, j :: 0 <= i < j < |r| ==> r[i].rawLetters != r[j].rawLetters)
      && (forall i :: 0 <= i < |r| ==> 0 < r[i].score < 60 && r[i].display == "")
  {
    FallbackShape(e164);
  }

  /** Shorter candidates spell a suffix of longer ones: all come from the
      trailing digits. */
  lemma FallbackSuffixes(e164: string)
    ensures var r := Fallback(e164);
      forall i, j :: 0 <= i < j < |r| ==> IsSuffix(r[j].rawLetters, r[i].rawLetters)
  {
    var d := DigitsOnly(e164);
    FallbackShape(e164);
    if |d| >= 5 {
      forall k, m | 4 <= k <= m <= |d| && m <= 7
        ensures IsSuffix(TailLetters(d, k), TailLetters(d, m))
      {
        LettersSuffix(d, k, m);
      }
    }
  }

  lemma LettersSuffix(d: string, k: nat, m: nat)
    requires k <= m <= |d|
    ensures IsSuffix(TailLetters(d, k), TailLetters(d, m))
  {
  }

  /** The fallback is a pure function of the digits: formatting characters
      in the input do not change it. */
  lemma FallbackOnDigits(e164: string)
    ensures Fallback(DigitsOnly(e164)) == Fallback(e164)
  {
    DigitsOnlyIdempotent(e164);
  }

  /** `vanity_candidates`: no candidates for digit-free input, otherwise the
      fallback list. Dictionary matching is a placeholder in the source, so
      no word is ever found and `maxLetters` is unused. */
  function VanityCandidates(e164: string, maxLetters: int := 7): (r: seq<VanityCandidate>)
    ensures r == [] <==> DigitsOnly(e164) == []
    ensures forall i, j :: 0 <= i < j < |r| ==> r[i].score >= r[j].score
    ensures forall i, j :: 0 <= i < j < |r| ==> r[i].rawLetters != r[j].rawLetters
    ensures r != [] ==> r == Fallback(e164) && r != [CallMe]
  {
    var digits := DigitsOnly(e164);
    if digits == [] then []
    else
      var found: seq<VanityCandidate> := [];
      FallbackNonEmpty(e164);
      FallbackRanked(e164);
      if found != [] then found else Fallback(e164)
  }

  /** Four digits give the single window-4 candidate IADG. The number is a
      parameter fixed by `requires` because unfolding the string functions
      on a literal in the statement itself costs the solver far more. */
  lemma Example1234(d: string)
    requires d == "1234"
    ensures Fallback(d) == [VanityCandidate("", "IADG", 30)]
  {
    assert DigitsOnly(d) == d by { DigitsOnlyOfDigits(d); }
    ShapeOfDigits(d);
    assert TailLetters(d, 4) == "IADG" by {
      assert d[0..] == d;
      LettersExample(d, "IADG");
    }
  }

  /** The fallback triplet for a ten-digit number (a parameter fixed by
      `requires`, for the same reason as in `Example1234`). */
  lemma Example3035553669(d: string)
    requires d == "3035553669"
    ensures Fallback(d) ==
      [VanityCandidate("", "JJJDMMW", 50), VanityCandidate("", "JDMMW", 40), VanityCandidate("", "DMMW", 30)]
  {
    assert DigitsOnly(d) == d by { DigitsOnlyOfDigits(d); }
    ShapeOfDigits(d);
    TailsExample(d);
  }

  /** The fallback letters of the three tails of the ten-digit example. */
  lemma TailsExample(d: string)
    requires d == "3035553669"
    ensures TailLetters(d, 7) == "JJJDMMW" && TailLetters(d, 5) == "JDMMW" && TailLetters(d, 4) == "DMMW"
  {
    assert d[3..] == "5553669";
    LettersExample("5553669", "JJJDMMW");
    assert d[5..] == "53669";
    LettersExample("53669", "JDMMW");
    assert d[6..] == "3669";
    LettersExample("3669", "DMMW");
  }

  lemma LettersExample(s: string, t: string)
    requires |s| == |t| && forall i :: 0 <= i < |s| ==> FallbackLetter(s[i]) == t[i]
    ensures Letters(s) == t
  {
  }

  /** With no digits the fallback called directly returns only the sentinel. */
  lemma ExampleEmpty()
    ensures Fallback("") == [CallMe]
    ensures VanityCandidates("") == []
  {
    FallbackShape("");
  }
}
