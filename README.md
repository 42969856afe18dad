# Vanity numbers: a Dafny model of the deterministic core

The service turns a caller's phone number into "vanity" letter suffixes
(`303-555-FLOWERS`) and reads three of them back to the caller. This project
models and proves the four pieces of it that are deterministic logic. None of
them touches the cloud services around them.

- **Vanity** (`lambda/vanity/vanity.py`): the T9 keypad table and digit
  extraction. It also covers the first-letter fallback over the last 7, 5
  and 4 digits, with its short-number and `CALLME` cases, and the public
  `vanity_candidates` entry point. `_fallback_letters` and
  `_fallback_candidates` append to lists in loops, so they are methods with
  loop invariants. Each is proved equal to a specification function, and
  the lemmas about the fallback are stated over those functions.
- **Handler** (`lambda/vanity/handler.py`): `_normalize_e164`,
  `_digits_blocks` and `_format_display`. All three are pure functions.
- **ConnectModel** (`lambda/vanity/model.py`): `response_for_connect`. It
  has a padding loop (a method), and it assembles the SSML prompt as a pure
  concatenation.
- **Lexicon** (`lambda/tools/build_lexicon.py`): the build pipeline.
  - It filters words with `re.match` and `^[A-Z]{4,7}$` after upper-casing
    them. `$` also matches before a final newline, so the filter as written
    (`Lexicon.IsOkAsWritten`) keeps a 4–7 letter word followed by a newline.
    The pipeline is modelled with that filter. Every build lemma takes the
    filter as a parameter, so it also holds of the intended full match
    (`Lexicon.IsOk`).
  - It keeps the best score per word in an insertion-ordered dict.
  - It sorts by (score descending, length descending, alphabetical).
  - It caps the list at 100000 rows.
  - The filter and dedupe loops are methods proved against specification
    functions. The whole build is a method that equals
    `Build(raw, IsOkAsWritten)`.

Support modules:
- **Wrappers**: `Option`. Python's `None` arguments use it.
- **Text**: ASCII character classes and `str.upper`.
- **Slicing**: Python slicing. Negative bounds count from the end, and
  bounds are clamped. For n = 0, `s[-n:]` is the whole sequence.

Representation choices:
- The keypad table `T9` (lambda/vanity/vanity.py:19-23) is a constant map
  from '2'–'9' to the same letter groups. `Vanity.DialInGroup` states that
  it covers all 26 letters.
- The record `VanityCandidate` (lambda/vanity/vanity.py:25-29) is a
  datatype with the same three fields: `display`, `rawLetters` and an
  integer `score`.
- `Vanity.Dial`, the reverse lookup from a letter to its key, stands for no
  code in the generator, which only maps digits to letters. It is there to
  state facts about the table (`DialInGroup`, `DialLetters`,
  `ZeroAndOneDoNotRoundTrip`).
- Scores are integers in thousandths: the fallback scores 0.05, 0.04,
  0.03, 0.01 and 0.001 are 50, 40, 30, 10 and 1. Lexicon scores are
  already rounded to three places by the pipeline.
- The word list and its frequencies are an input: a sequence of
  (word, score) pairs in list order.

Where the code and its own comments disagree, the model follows the code:
- The comment at lambda/vanity/vanity.py:51 says "three options", and the one
  at lambda/vanity/vanity.py:80 says at least 3 are always guaranteed. The
  code emits three only from 7 digits on. It emits two for 5–6 digits, one
  for 4, one "short" candidate for 1–3 digits, and the `CALLME` sentinel for
  none.
- The docstring at lambda/vanity/vanity.py:66 says the function never returns
  zero candidates. With no digits it returns `[]` (lambda/vanity/vanity.py:69-70).
- Word matching is only a placeholder (lambda/vanity/vanity.py:72-78):
  `found` is always empty. So `vanity_candidates` is `[]` or the fallback
  list.

## Model

| member | source | states |
|---|---|---|
| Text.Upper | lambda/vanity/handler.py:35-37 | upper-casing keeps the length and turns every lower-case letter into its capital (code point 32 lower). It keeps every other character |
| Text.UpperIdempotent | lambda/vanity/handler.py:35-37 | upper-casing twice equals upper-casing once |
| Text.UpperConcat | lambda/vanity/handler.py:35-37 | upper-casing distributes over concatenation |
| Slicing.Bound | lambda/vanity/vanity.py:35 | a slice bound lands within the sequence: at min(i, len) when non-negative, at max(0, len + i) when negative |
| Slicing.TailSlice | lambda/vanity/vanity.py:35 | for n ≥ 1, `s[-n:]` is the last min(n, len) elements |
| Slicing.TailSliceZero | lambda/vanity/vanity.py:35 | `s[-0:]` is all of `s`, not an empty tail |
| Slicing.PrefixSlice | lambda/vanity/model.py:18 | `s[:k]` is a prefix of `s` of length min(k, len), or max(0, len + k) for negative k |
| Vanity.DigitsOnly | lambda/vanity/vanity.py:31-32 | the result is no longer than the input and made of digits only |
| Vanity.DigitsOnlyMembers | lambda/vanity/vanity.py:31-32 | a character is in the result exactly when it is a digit of the input |
| Vanity.DigitsOnlyConcat | lambda/vanity/vanity.py:31-32 | digit extraction distributes over concatenation, so the digits keep their input order |
| Vanity.DigitsOnlyOfDigits | lambda/vanity/vanity.py:31-32 | a string of digits is returned unchanged |
| Vanity.DigitsOnlyIdempotent | lambda/vanity/vanity.py:31-32 | extracting digits twice equals extracting them once |
| Vanity.Letters | lambda/vanity/vanity.py:36-46 | the per-character mapping joined into a string: one fallback letter per character, same length |
| Vanity.FallbackLetter | lambda/vanity/vanity.py:38-45 | on a keypad digit the letter is one of that digit's letters; on any digit it is upper-case; any other character passes through unchanged |
| Vanity.FallbackLetterOfDigit | lambda/vanity/vanity.py:38-45 | on a digit, the letter is upper-case and differs from the digit, so pass-through never happens. It is the first letter of the keypad group for 2–9, `O` for 0 and `I` for 1 |
| Vanity.DialInGroup | lambda/vanity/vanity.py:19-23 | the table covers all 26 letters: every letter A–Z is in the keypad group of the digit `Dial` gives it |
| Vanity.DialLetters | lambda/vanity/vanity.py:38-39 | for digits 2–9, dialling the fallback letters gives back the digits |
| Vanity.ZeroAndOneDoNotRoundTrip | lambda/vanity/vanity.py:40-43 | 0 → O dials 6 and 1 → I dials 4, so these two digits do not round-trip |
| Vanity.FallbackLetters | lambda/vanity/vanity.py:34-46 | the loop yields the fallback letters of `digits[-n:]`. For n ≥ 1 that is min(n, len) letters from the last digits, and on digits they are all upper-case |
| Vanity.Fallback | lambda/vanity/vanity.py:48-60 | the value `_fallback_candidates` returns: a candidate per window 7, 5, 4 that fits, else one short candidate, else the `CALLME` sentinel; its properties are `FallbackShape`, `FallbackNonEmpty`, `FallbackRanked`, `FallbackSuffixes` and `FallbackOnDigits` |
| Vanity.FallbackCandidates | lambda/vanity/vanity.py:48-60 | the window loop plus the two fallbacks compute exactly the specification `Fallback` |
| Vanity.FallbackShape | lambda/vanity/vanity.py:51-60 | the output by digit count. ≥7 digits give 7/5/4 letters scored 50/40/30. 5–6 give 5/4 scored 40/30. 4 gives 4 letters scored 30. 1–3 give all the digits' letters scored 10. None give `CALLME` scored 1 |
| Vanity.FallbackNonEmpty | lambda/vanity/vanity.py:57-60 | never empty; it is exactly `[CALLME]` if and only if the input has no digits |
| Vanity.FallbackRanked | lambda/vanity/vanity.py:51-59 | scores strictly decrease along the list. Every score is between 0 and 0.06, displays are empty and letters are pairwise distinct |
| Vanity.FallbackSuffixes | lambda/vanity/vanity.py:51-53 | each later (shorter) candidate's letters are a suffix of every earlier one's |
| Vanity.FallbackOnDigits | lambda/vanity/vanity.py:49 | the fallback depends only on the input's digits |
| Vanity.VanityCandidates | lambda/vanity/vanity.py:63-81 | `[]` if and only if there are no digits. Otherwise it is the fallback list, never the sentinel, with non-increasing scores and distinct letters |
| Vanity.Example1234 | lambda/vanity/vanity.py:51-59 | "1234" gives the single candidate IADG scored 0.03 |
| Vanity.Example3035553669 | lambda/vanity/vanity.py:51-55 | "3035553669" gives JJJDMMW, JDMMW and DMMW, scored 0.05, 0.04 and 0.03 |
| Vanity.ExampleEmpty | lambda/vanity/vanity.py:60-70 | with no digits, the fallback is `[CALLME]` and the entry point returns `[]` |
| Handler.DigitsBlocks | lambda/vanity/handler.py:26-30 | ≥10 digits give blocks of 3, 3 and 4 digits that together are the last ten digits. Fewer give empty area and prefix and the last min(4, n) digits as line |
| Handler.FormatDisplay | lambda/vanity/handler.py:32-37 | `AAA-PPP-LETTERS` from the last ten digits when there are ≥10, `DIGITS-LETTERS` when there are 1–9, `LETTERS` alone when there are none. The upper-cased letters always end the result |
| Handler.NormalizeE164 | lambda/vanity/handler.py:39-44 | `""` if and only if the input has no digits. Otherwise `+`, then `1` only when there are exactly ten digits, then the input's digits |
| Handler.NormalizeCases | lambda/vanity/handler.py:42-44 | 10 digits give `+1`+d, 11 digits starting with 1 give `+`+d, and every other non-zero count gives `+`+d |
| Handler.NormalizeDigits | lambda/vanity/handler.py:40-44 | after the `+`, a result is all digits and never exactly ten of them |
| Handler.NormalizeIdempotent | lambda/vanity/handler.py:39-44 | normalising a normalised number returns it unchanged |
| Handler.NormalizeOfNone | lambda/vanity/handler.py:40-41 | `None` and `""` give `""` |
| Handler.NormalizeNationalShape | lambda/vanity/tests/test_vanity.py:10 | `(AAA) PPP-LLLL` gives `+1AAAPPPLLLL`, as the test expects |
| Handler.NormalizeTrunkShape | lambda/vanity/tests/test_vanity.py:11 | `1AAAPPPLLLL` gives `+1AAAPPPLLLL`, as the test expects |
| Handler.NormalizePlusShape | lambda/vanity/tests/test_vanity.py:12 | `+1AAAPPPLLLL` gives itself, as the test expects |
| Handler.NormalizeLocalShape | lambda/vanity/tests/test_vanity.py:13-14 | the code gives `+PPPLLLL` for `PPP-LLLL`, which is not the expected `+1PPPLLLL` |
| Handler.NormalizeE164Local | lambda/vanity/tests/test_vanity.py:13-14 | the corrected normalisation: as the code, but 7 digits also gain the country code 1 |
| Handler.NormalizeLocalMeetsTest | lambda/vanity/tests/test_vanity.py:13-14 | the corrected normalisation gives `PPP-LLLL` the expected `+1PPPLLLL` |
| Handler.NormalizeLocalIdempotent | lambda/vanity/handler.py:39-44 | the correction agrees with the code on every input without exactly 7 digits, so on the other three test shapes too, and it is idempotent |
| ConnectModel.Displays | lambda/vanity/model.py:18 | one display per candidate, in order |
| ConnectModel.Top | lambda/vanity/model.py:18 | the kept displays are a prefix of all displays, with `None` read as no candidates. Their length is min(limit, n), or max(0, n + limit) for a negative limit |
| ConnectModel.PadToThree | lambda/vanity/model.py:20-21 | after the loop, the length is max(3, len), the prefix is unchanged and every added entry is `CALL-ME` |
| ConnectModel.SayAs | lambda/vanity/model.py:23-24 | the element is the `say-as interpret-as="characters"` opening tag, then the text unchanged, then `</say-as>` |
| ConnectModel.PromptSsml | lambda/vanity/model.py:25-34 | the prompt text, as the concatenation of its fixed parts and the three elements; its properties are `PromptSsmlFramed` and `PromptSsmlSpells` |
| ConnectModel.PromptSsmlFramed | lambda/vanity/model.py:25-34 | the prompt starts with `<speak>` and ends with `</speak>` |
| ConnectModel.PromptSsmlSpells | lambda/vanity/model.py:23-34 | the prompt holds option1, option2 and option3, in that order, each inside a `say-as interpret-as="characters"` element. The text before, between and after them is exactly `<speak>Here are your vanity options: `, then `, <break time="250ms"/>`, then `, <break time="250ms"/>and `, then `.</speak>` |
| ConnectModel.Response | lambda/vanity/model.py:17-40 | the dict `response_for_connect` returns: the first three padded top displays as options, and the prompt built from them; its properties are `ResponseAllCallMe` and `ResponseOptions` |
| ConnectModel.ResponseForConnect | lambda/vanity/model.py:17-40 | the method, padding loop included, returns exactly the specification `Response` |
| ConnectModel.ResponseAllCallMe | lambda/vanity/model.py:18-21 | with `None` candidates, an empty list or limit 0, all three options are `CALL-ME` |
| ConnectModel.ResponseOptions | lambda/vanity/model.py:18-38 | the options are the first three of the first `limit` displays, in order, padded with `CALL-ME` |
| Lexicon.IsOkAsWritten | lambda/tools/build_lexicon.py:18-25 | `is_ok` as written: the word starts with 4 to 7 letters A–Z, and after them comes the end or one final newline (what `re.match` with `$` accepts); characterised by `IsOkAsWrittenCharacterised` |
| Lexicon.IsOk | lambda/tools/build_lexicon.py:18-25 | the intended filter: the whole word is 4 to 7 letters A–Z |
| Lexicon.IsOkAsWrittenAcceptsNewline | lambda/tools/build_lexicon.py:18-21 | the pattern as written accepts "ABCD\n", which the intended filter rejects |
| Lexicon.IsOkAsWrittenCharacterised | lambda/tools/build_lexicon.py:18-25 | the pattern as written accepts exactly the intended words and the intended words followed by one newline |
| Lexicon.Kept | lambda/tools/build_lexicon.py:30-35 | for a given filter, every kept entry passes it and is the upper-cased word and score of some input entry; no more entries than input |
| Lexicon.KeptComplete | lambda/tools/build_lexicon.py:31-35 | every input entry whose upper-cased word passes the filter is kept |
| Lexicon.FilterWords | lambda/tools/build_lexicon.py:30-35 | the filter loop, with `is_ok` as written, computes `Kept(raw, IsOkAsWritten)` |
| Lexicon.BestOfIsMax | lambda/tools/build_lexicon.py:37-41 | `best` has one key per kept word. Its value is at least every score the word has in `kept`, and word and value together occur in `kept` |
| Lexicon.BestOf | lambda/tools/build_lexicon.py:37-41 | the dict after the loop: a later score replaces the stored one only when strictly greater; its properties are `BestOfIsMax` |
| Lexicon.FirstSeen | lambda/tools/build_lexicon.py:37-41 | the dict's insertion order: a word is appended the first time it is stored and keeps its place when its score is replaced; its properties are `FirstSeenIsKeys` |
| Lexicon.FirstSeenIsKeys | lambda/tools/build_lexicon.py:37-41 | the dict's insertion order lists exactly its keys, each once |
| Lexicon.Deduplicate | lambda/tools/build_lexicon.py:37-41 | the dedupe loop yields best score per word and first-insertion order. The keys are the kept words, and each value is the maximum and occurs in `kept` |
| Lexicon.Items | lambda/tools/build_lexicon.py:44 | `best.items()` for a given key order: one row per key, in that order, with the key's value |
| Lexicon.DedupedRows | lambda/tools/build_lexicon.py:44 | `best.items()`: the keys in insertion order, each with its best score |
| Lexicon.DedupedRowsFacts | lambda/tools/build_lexicon.py:37-44 | the items have distinct words and cover every kept word. Each item is a kept entry with the best score |
| Lexicon.LexLess | lambda/tools/build_lexicon.py:44 | Python's `<` on strings, the third component of the key: lexicographic by code point, a proper prefix first; its properties are the four `LexLess` lemmas |
| Lexicon.LexLessIrreflexive | lambda/tools/build_lexicon.py:44 | no string sorts before itself |
| Lexicon.LexLessTransitive | lambda/tools/build_lexicon.py:44 | string order is transitive |
| Lexicon.LexLessTotal | lambda/tools/build_lexicon.py:44 | of two different strings, one sorts first |
| Lexicon.LexLessAsymmetric | lambda/tools/build_lexicon.py:44 | two strings never each sort before the other |
| Lexicon.Before | lambda/tools/build_lexicon.py:44 | the key `(-score, -len(word), word)`: higher score first, then the longer word, then the word that is less; its properties are `BeforeStrictTotal` and `NotBeforeTransitive` |
| Lexicon.BeforeStrictTotal | lambda/tools/build_lexicon.py:44 | the key (score desc, length desc, word) is a strict total order on rows |
| Lexicon.NotBeforeTransitive | lambda/tools/build_lexicon.py:44 | "does not sort after" is transitive |
| Lexicon.SortRows | lambda/tools/build_lexicon.py:44 | `sorted` with the key, as an insertion sort; its properties are `SortRowsCorrect` and `SortRowsUnique` |
| Lexicon.InsertPerm | lambda/tools/build_lexicon.py:44 | inserting adds exactly the one row: the result's multiset is the input's plus that row |
| Lexicon.InsertMembers | lambda/tools/build_lexicon.py:44 | every row of the result is the inserted row or a row of the input |
| Lexicon.InsertSorted | lambda/tools/build_lexicon.py:44 | inserting into a sorted list keeps it sorted |
| Lexicon.SortRowsCorrect | lambda/tools/build_lexicon.py:44 | sorting yields a sorted permutation of its input |
| Lexicon.InsertUnique | lambda/tools/build_lexicon.py:44 | inserting a row whose word is new into a list with distinct words keeps the words distinct |
| Lexicon.SortRowsUnique | lambda/tools/build_lexicon.py:44 | sorting keeps words distinct |
| Lexicon.Cap | lambda/tools/build_lexicon.py:47 | `rows[:100000]`: a prefix of the rows, all of them when there are at most 100000 and exactly 100000 otherwise |
| Lexicon.Build | lambda/tools/build_lexicon.py:30-47 | the rows the build writes, for a given filter: filter, dedupe, sort, cap; its properties are the `Build` lemmas below |
| Lexicon.BuildFromDeduped | lambda/tools/build_lexicon.py:43-47 | every written row is one of the deduplicated items |
| Lexicon.BuildOrdered | lambda/tools/build_lexicon.py:37-47 | at most 100000 rows, sorted by the key, each word once |
| Lexicon.BuildRowFaithful | lambda/tools/build_lexicon.py:30-47 | a written row is a kept entry that passes the filter and carries its word's best score |
| Lexicon.BuildFaithful | lambda/tools/build_lexicon.py:30-47 | every row is a kept entry that passes the filter, and it carries the highest score its word has among the kept entries |
| Lexicon.CapDropsLast | lambda/tools/build_lexicon.py:46-47 | a row the cap cuts off means the cap was reached, and that row sorts no earlier than any row kept |
| Lexicon.BuildComplete | lambda/tools/build_lexicon.py:43-47 | a kept word is missing from the output only when there are 100000 rows, and its best row then sorts no earlier than any of them |
| Lexicon.BuildLexicon | lambda/tools/build_lexicon.py:29-47 | filter (with `is_ok` as written), dedupe, sort and cap compute exactly the specification `Build(raw, IsOkAsWritten)` |
| Lexicon.KeptAgrees | lambda/tools/build_lexicon.py:18-35 | when no upper-cased word ends in a newline, the filter as written and the intended filter keep the same entries |
| Lexicon.BuildAgrees | lambda/tools/build_lexicon.py:18-47 | when no upper-cased word ends in a newline, the build as written writes exactly the rows the build with the intended filter writes |
| Lexicon.BuildAsWrittenWords | lambda/tools/build_lexicon.py:18-47 | every word the build as written writes is an intended word, or an intended word followed by one newline |
| Lexicon.BuildKeepsNewline | lambda/tools/build_lexicon.py:18-47 | for the word list ["abcd\n"], the build as written writes "ABCD\n" and the intended build writes nothing |

## Left out

- Unicode: `str.isdigit`, `re`'s `\D`, `str.upper` and `[A-Z]` are modelled on ASCII only. Non-ASCII digits and case mappings that change length (`ß` → `SS`) are not captured.
- Floating point: scores are integers in thousandths. The float noise of `0.05 - i*0.01` is not modelled; only the ordering it gives matters.
- `handler()` (lambda/vanity/handler.py:76-157) is not part of this model. It is the Lambda entry point: logging, tracing, metrics, the DynamoDB write and exception handling.
- `_put_record` and `_dec` are not modelled. They are DynamoDB persistence and the float-to-`Decimal` conversion.
- `load_words` and `WORDS` are not modelled. They are a file read, and the candidate path never uses them.
- Dictionary matching and scoring are not modelled, because the code does not implement them; `found` stays empty. `max_letters` is unused by the code, and `Vanity.VanityCandidates` ignores it.
- In the lexicon build:
  - `top_n_list` and `zipf_frequency` (wordfreq) are foreign calls, so the model takes their results as input.
  - gzip/JSON writing and `print` are output, so they are left out.
  - `sorted` is a library call, so it is modelled as a pure insertion sort (`Lexicon.SortRows`). The sort key is a strict total order on rows with distinct words, so stability does not matter.
- `observability.py`, `lambda/api/api_handler.py` and `web/app.js` are not part of this model (telemetry, an HTTP wrapper, and DOM code).
- The test imports `normalize_e164`, but the code defines only `_normalize_e164`; the model names it `Handler.NormalizeE164`.
- `model.py` declares its own `VanityCandidate` with the fields in another order. Only `display` is read there, so one datatype serves both.

## Findings

| source | as written | input that shows it | evidently intended | confidence | as-written member | corrected member |
|---|---|---|---|---|---|---|
| lambda/tools/build_lexicon.py:18-21 | `re.match` with `^[A-Z]{4,7}$`; `$` also matches before a final newline | the word "abcd\n" upper-cases to "ABCD\n" and is kept | only 4–7 letters A–Z (a full match) | medium, not executed; wordfreq tokens rarely end in a newline | Lexicon.BuildKeepsNewline, with Lexicon.IsOkAsWrittenAcceptsNewline | Lexicon.IsOk, with Lexicon.BuildAgrees and Lexicon.IsOkAsWrittenCharacterised |
| lambda/vanity/handler.py:42-44 | only a 10-digit number gains the country code 1 | "555-1212" gives "+5551212" | "+15551212", as lambda/vanity/tests/test_vanity.py:14 expects | low, not executed; the test may be the wrong side, and it imports a name the code does not define | Handler.NormalizeLocalShape | Handler.NormalizeE164Local, with Handler.NormalizeLocalMeetsTest |
