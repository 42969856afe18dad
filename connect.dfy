/** The contact-centre response: the first `limit` displays, padded to
    three with `CALL-ME`, and an SSML prompt that spells each of them. */
module ConnectModel {
  import opened Wrappers
  import opened Slicing
  import opened Vanity

  /** The padding display. */
  const CallMeDisplay := "CALL-ME"

  /** The dictionary returned to the contact flow. */
  datatype ConnectResponse = ConnectResponse(option1: string, option2: string, option3: string, promptSsml: string)

  /** `[c.display for c in cands]` */
  function Displays(cands: seq<VanityCandidate>): (r: seq<string>)
    ensures |r| == |cands| && forall i :: 0 <= i < |r| ==> r[i] == cands[i].display
  {
    seq(|cands|, i requires 0 <= i < |cands| => cands[i].display)
  }

  /** `[c.display for c in (cands or [])][:limit]`: None and the empty list
      alike give no displays. The result is a prefix of all displays, of
      length min(limit, n) for a non-negative limit and n + limit (at least
      0) for a negative one, as Python's slice gives. */
  function Top(cands: Option<seq<VanityCandidate>>, limit: int): (top: seq<string>)
    ensures var all := Displays(cands.GetOr([]));
      && |top| == (if limit >= 0 then Min(limit, |all|) else Max(0, |all| + limit))
      && top == all[..|top|]
  {
    PrefixSlice(Displays(cands.GetOr([])), limit);
    Slice(Displays(cands.GetOr([])), 0, limit)
  }

  /** The padding loop: append `CALL-ME` until there are three entries. */
  method PadToThree(top: seq<string>) returns (padded: seq<string>)
    ensures |padded| == Max(3, |top|)
    ensures padded[..|top|] == top
    ensures forall k :: |top| <= k < |padded| ==> padded[k] == CallMeDisplay
  {
    padded := top;
    while |padded| < 3
      invariant |top| <= |padded| <= Max(3, |top|)
      invariant padded[..|top|] == top
      invariant forall k :: |top| <= k < |padded| ==> padded[k] == CallMeDisplay
      decreases 3 - |padded|
    {
      padded := padded + [CallMeDisplay];
    }
  }

  /** The `k`-th option after padding. */
  function OptionAt(top: seq<string>, k: nat): string {
    if k < |top| then top[k] else CallMeDisplay
  }

  const SayAsOpen := "<say-as interpret-as=\"characters\">"
  const SayAsClose := "</say-as>"

  /** `ssml_chars`: spell `s` character by character. */
  function SayAs(s: string): (r: string)
    ensures |r| == |SayAsOpen| + |s| + |SayAsClose|
    ensures r[..|SayAsOpen|] == SayAsOpen && r[|SayAsOpen|..|SayAsOpen| + |s|] == s && r[|SayAsOpen| + |s|..] == SayAsClose
  {
    SayAsOpen + s + SayAsClose
  }

  const SsmlOpen := "<speak>"
  const SsmlIntro := "Here are your vanity options: "
  const SsmlPause := ", <break time=\"250ms\"/>"
  const SsmlAnd := "and "
  const SsmlClose := ".</speak>"

  /** `s` occurs in `t` at offset `k`. */
  predicate OccursAt(s: string, t: string, k: nat) {
    k + |s| <= |t| && t[k..k + |s|] == s
  }

  /** The spoken prompt. */
  function PromptSsml(o1: string, o2: string, o3: string): string {
    SsmlOpen + SsmlIntro + SayAs(o1) + SsmlPause + SayAs(o2) + SsmlPause + SsmlAnd + SayAs(o3) + SsmlClose
  }

  /** The prompt opens with `<speak>` and closes with `</speak>`. */
  lemma PromptSsmlFramed(o1: string, o2: string, o3: string)
    ensures var r := PromptSsml(o1, o2, o3);
      |r| >= 16 && OccursAt("<speak>", r, 0) && OccursAt("</speak>", r, |r| - 8)
  {
  }

  /** The prompt spells option1, option2 and option3, in that order, each
      inside a `say-as` element, with only fixed text between them. */
  lemma PromptSsmlSpells(o1: string, o2: string, o3: string)
    ensures var r := PromptSsml(o1, o2, o3);
      var k1 := |SsmlOpen| + |SsmlIntro|;
      var k2 := k1 + |SayAs(o1)| + |SsmlPause|;
      var k3 := k2 + |SayAs(o2)| + |SsmlPause| + |SsmlAnd|;
      && OccursAt(SayAs(o1), r, k1)
      && OccursAt(SayAs(o2), r, k2)
      && OccursAt(SayAs(o3), r, k3)
      && k3 + |SayAs(o3)| + |SsmlClose| == |r|
      && r[..k1] == SsmlOpen + SsmlIntro
      && r[k1 + |SayAs(o1)|..k2] == SsmlPause
      && r[k2 + |SayAs(o2)|..k3] == SsmlPause + SsmlAnd
      && r[k3 + |SayAs(o3)|..] == SsmlClose
  {
    var p1 := SsmlOpen + SsmlIntro;
    var p2 := p1 + SayAs(o1);
    var p3 := p2 + SsmlPause;
    var p4 := p3 + SayAs(o2);
    var p5 := p4 + SsmlPause;
    var p6 := p5 + SsmlAnd;
    var p7 := p6 + SayAs(o3);
    var r := p7 + SsmlClose;
    assert r[..|r|] == r;
    PrefixStep(p7, SsmlClose, r);
    PrefixStep(p6, SayAs(o3), r);
    assert p6 == p4 + (SsmlPause + SsmlAnd);
    PrefixStep(p4, SsmlPause + SsmlAnd, r);
    PrefixStep(p3, SayAs(o2), r);
    PrefixStep(p2, SsmlPause, r);
    PrefixStep(p1, SayAs(o1), r);
  }

  /** The pieces of a prefix `x + y` of `t`. */
  lemma PrefixStep(x: string, y: string, t: string)
    requires |x| + |y| <= |t| && t[..|x| + |y|] == x + y
    ensures t[..|x|] == x && t[|x|..|x| + |y|] == y
  {
    assert t[..|x|] == (x + y)[..|x|];
    assert t[|x|..|x| + |y|] == (x + y)[|x|..];
  }

  /** What `response_for_connect` returns. */
  function Response(cands: Option<seq<VanityCandidate>>, limit: int): ConnectResponse {
    var top := Top(cands, limit);
    var o1, o2, o3 := OptionAt(top, 0), OptionAt(top, 1), OptionAt(top, 2);
    ConnectResponse(o1, o2, o3, PromptSsml(o1, o2, o3))
  }

  /** `response_for_connect`. */
  method ResponseForConnect(cands: Option<seq<VanityCandidate>>, limit: int := 3) returns (r: ConnectResponse)
    ensures r == Response(cands, limit)
  {
    var top := Top(cands, limit);
    var padded := PadToThree(top);
    r := ConnectResponse(padded[0], padded[1], padded[2], PromptSsml(padded[0], padded[1], padded[2]));
  }

  /** With no candidates, or a limit that keeps none, every option is `CALL-ME`. */
  lemma ResponseAllCallMe(cands: Option<seq<VanityCandidate>>, limit: int)
    requires cands == None || cands == Some([]) || limit == 0
    ensures var r := Response(cands, limit);
      r.option1 == CallMeDisplay && r.option2 == CallMeDisplay && r.option3 == CallMeDisplay
  {
  }

  /** The options are the first three of the first `limit` displays, in
      order, padded with `CALL-ME`. */
  lemma ResponseOptions(cands: seq<VanityCandidate>, limit: int)
    ensures var r, m := Response(Some(cands), limit), if limit >= 0 then Min(limit, |cands|) else Max(0, |cands| + limit);
      && r.option1 == (if 0 < m then cands[0].display else CallMeDisplay)
      && r.option2 == (if 1 < m then cands[1].display else CallMeDisplay)
      && r.option3 == (if 2 < m then cands[2].display else CallMeDisplay)
  {
  }
}
