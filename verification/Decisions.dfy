/** Review tiers: machine decisions written into the dependent tiers of the utterances they are about. */
module Decisions {

  type OtherTier(==, !new)
  type OtherLine(==, !new)

  datatype Tier = UserDefined(tag: string, content: string) | Plain(tier: OtherTier)

  /** An utterance has dependent tiers and maybe a time bullet; other lines have neither. */
  datatype Line = Utterance(tiers: seq<Tier>, bullet: bool) | Other(line: OtherLine)

  /** `content` is the module, strategy and reason, rendered. */
  datatype Decision = Decision(lineIdx: nat, content: string, needsReview: bool)

  datatype ReviewLevel = None | LowConfidence | All

  const XALIGN := "xalign"
  const XREV := "xrev"
  const REVIEW_MARK := "[?]"
  const NO_DECISIONS := "no_decisions"

  predicate IsDecisionTier(t: Tier) {
    t.UserDefined? && (t.tag == XALIGN || t.tag == XREV)
  }

  function Strip(tiers: seq<Tier>): seq<Tier> {
    if |tiers| == 0 then []
    else Strip(tiers[..|tiers| - 1]) + if IsDecisionTier(tiers[|tiers| - 1]) then [] else [tiers[|tiers| - 1]]
  }

  /** The decisions about one line, in the order they were made. */
  function About(decisions: seq<Decision>, lineIdx: nat): seq<Decision> {
    if |decisions| == 0 then []
    else
      var last := decisions[|decisions| - 1];
      About(decisions[..|decisions| - 1], lineIdx) + if last.lineIdx == lineIdx then [last] else []
  }

  function Join(decisions: seq<Decision>): string {
    if |decisions| == 0 then ""
    else
      var last := decisions[|decisions| - 1];
      Join(decisions[..|decisions| - 1]) + (if |decisions| > 1 then "; " else "") + last.content
  }

  function NewTiers(about: seq<Decision>, bullet: bool, level: ReviewLevel): seq<Tier> {
    if |about| > 0 then
      [UserDefined(XALIGN, Join(about))] +
        if exists i :: 0 <= i < |about| && about[i].needsReview then [UserDefined(XREV, REVIEW_MARK)] else []
    else if level == All && bullet then [UserDefined(XALIGN, NO_DECISIONS)]
    else []
  }

  function InjectLine(line: Line, about: seq<Decision>, level: ReviewLevel): Line {
    if line.Other? then line else line.(tiers := Strip(line.tiers) + NewTiers(about, line.bullet, level))
  }

  /** What injection makes of a file. */
  function Injected(lines: seq<Line>, decisions: seq<Decision>, level: ReviewLevel): seq<Line> {
    if level == None || |decisions| == 0 then lines
    else seq(|lines|, i requires 0 <= i < |lines| => InjectLine(lines[i], About(decisions, i), level))
  }

  function StripLine(line: Line): Line {
    if line.Other? then line else line.(tiers := Strip(line.tiers))
  }

  method StripDecisionTiers(lines: array<Line>)
    modifies lines
    ensures forall i :: 0 <= i < lines.Length ==> lines[i] == StripLine(old(lines[i]))
  {
    for i := 0 to lines.Length
      invariant forall j :: 0 <= j < lines.Length ==>
                lines[j] == if j < i then StripLine(old(lines[j])) else old(lines[j])
    {
      if lines[i].Utterance? {
        lines[i] := lines[i].(tiers := Strip(lines[i].tiers));
      }
    }
  }

  method IndexByLine(decisions: seq<Decision>) returns (byLine: map<nat, seq<Decision>>)
    ensures forall l: nat :: About(decisions, l) == if l in byLine then byLine[l] else []
    ensures forall l :: l in byLine ==> |byLine[l]| > 0
  {
    byLine := map[];
    for k := 0 to |decisions|
      invariant forall l: nat :: About(decisions[..k], l) == if l in byLine then byLine[l] else []
      invariant forall l :: l in byLine ==> |byLine[l]| > 0
    {
      var d := decisions[k];
      assert decisions[..k + 1][..k] == decisions[..k];
      byLine := byLine[d.lineIdx := (if d.lineIdx in byLine then byLine[d.lineIdx] else []) + [d]];
    }
    assert decisions[..|decisions|] == decisions;
  }

  method InjectDecisionTiers(lines: array<Line>, decisions: seq<Decision>, level: ReviewLevel)
    modifies lines
    ensures lines[..] == Injected(old(lines[..]), decisions, level)
  {
    if level == None || |decisions| == 0 {
      return;
    }
    StripDecisionTiers(lines);
    var byLine := IndexByLine(decisions);
    ghost var original := old(lines[..]);
    for i := 0 to lines.Length
      invariant forall j :: 0 <= j < i ==> IsInjected(lines[j], original[j], decisions, j, level)
      invariant forall j :: i <= j < lines.Length ==> lines[j] == StripLine(original[j])
    {
      InjectOne(lines, i, if i in byLine then byLine[i] else [], level, original[i]);
      assert IsInjected(lines[i], original[i], decisions, i, level);
    }
  }

  ghost predicate IsInjected(line: Line, original: Line, decisions: seq<Decision>, i: nat, level: ReviewLevel) {
    line == InjectLine(original, About(decisions, i), level)
  }

  /** One line, already stripped, with the decisions about it. */
  method InjectOne(lines: array<Line>, i: nat, about: seq<Decision>, level: ReviewLevel, ghost original: Line)
    requires i < lines.Length && lines[i] == StripLine(original)
    modifies lines
    ensures lines[i] == InjectLine(original, about, level)
    ensures forall j :: 0 <= j < lines.Length && j != i ==> lines[j] == old(lines[j])
  {
    if lines[i].Other? {
      return;
    }
    var utt := lines[i];
    var tiers := utt.tiers;
    if |about| > 0 {
      tiers := tiers + [UserDefined(XALIGN, Join(about))];
      if exists k :: 0 <= k < |about| && about[k].needsReview {
        tiers := tiers + [UserDefined(XREV, REVIEW_MARK)];
      }
    } else if level == All {
      if utt.bullet {
        tiers := tiers + [UserDefined(XALIGN, NO_DECISIONS)];
      }
    }
    lines[i] := utt.(tiers := tiers);
  }

  // ----- Properties

  function Tagged(tiers: seq<Tier>, tag: string): nat {
    if |tiers| == 0 then 0
    else
      var last := tiers[|tiers| - 1];
      Tagged(tiers[..|tiers| - 1], tag) + if last.UserDefined? && last.tag == tag then 1 else 0
  }

  lemma {:induction false} StripConcat(a: seq<Tier>, b: seq<Tier>)
    ensures Strip(a + b) == Strip(a) + Strip(b)
    decreases |b|
  {
    if |b| == 0 {
      assert a + b == a;
    } else {
      StripConcat(a, b[..|b| - 1]);
      assert (a + b)[..|a + b| - 1] == a + b[..|b| - 1];
    }
  }

  lemma SnocTier(tiers: seq<Tier>, t: Tier)
    ensures Strip(tiers + [t]) == Strip(tiers) + if IsDecisionTier(t) then [] else [t]
    ensures forall tag ::
              Tagged(tiers + [t], tag) == Tagged(tiers, tag) + if t.UserDefined? && t.tag == tag then 1 else 0
  {
    assert (tiers + [t])[..|tiers|] == tiers;
  }

  lemma {:induction false} StripTwice(tiers: seq<Tier>)
    ensures Strip(Strip(tiers)) == Strip(tiers)
    ensures Tagged(Strip(tiers), XALIGN) == 0 && Tagged(Strip(tiers), XREV) == 0
    decreases |tiers|
  {
    if |tiers| > 0 {
      var n := |tiers| - 1;
      StripTwice(tiers[..n]);
      SnocTier(Strip(tiers[..n]), tiers[n]);
      assert Strip(tiers[..n]) + [] == Strip(tiers[..n]);
    }
  }

  lemma {:induction false} TaggedConcat(a: seq<Tier>, b: seq<Tier>, tag: string)
    ensures Tagged(a + b, tag) == Tagged(a, tag) + Tagged(b, tag)
    decreases |b|
  {
    if |b| == 0 {
      assert a + b == a;
    } else {
      TaggedConcat(a, b[..|b| - 1], tag);
      assert (a + b)[..|a + b| - 1] == a + b[..|b| - 1];
    }
  }

  lemma TagsDiffer()
    ensures XALIGN != XREV
  {
    assert |XALIGN| != |XREV|;
  }

  lemma OneDecisionTier(t: Tier)
    requires IsDecisionTier(t)
    ensures Strip([t]) == [] && forall tag :: Tagged([t], tag) == if t.tag == tag then 1 else 0
  {
    SnocTier([], t);
    assert [] + [t] == [t];
  }

  lemma TwoDecisionTiers(s: Tier, t: Tier)
    requires IsDecisionTier(s) && IsDecisionTier(t) && s.tag != t.tag
    ensures Strip([s, t]) == [] && forall tag :: Tagged([s, t], tag) <= 1
  {
    OneDecisionTier(s);
    SnocTier([s], t);
    assert [s] + [t] == [s, t];
  }

  lemma NewTiersAreDecisions(about: seq<Decision>, bullet: bool, level: ReviewLevel)
    ensures Strip(NewTiers(about, bullet, level)) == []
    ensures forall tag :: Tagged(NewTiers(about, bullet, level), tag) <= 1
  {
    var added := NewTiers(about, bullet, level);
    if |added| == 1 {
      OneDecisionTier(added[0]);
      assert added == [added[0]];
    } else if |added| > 1 {
      TagsDiffer();
      TwoDecisionTiers(added[0], added[1]);
      assert added == [added[0], added[1]];
    }
  }

  /** Injecting again replaces the tiers by equal ones; all other tiers stay, in order; and an utterance
      has at most one tier of each kind. */
  lemma ReinjectionIsIdempotent(lines: seq<Line>, decisions: seq<Decision>, level: ReviewLevel)
    ensures Injected(Injected(lines, decisions, level), decisions, level) == Injected(lines, decisions, level)
    ensures level != None && |decisions| > 0 ==>
              forall i :: 0 <= i < |lines| && lines[i].Utterance? ==>
                var out := Injected(lines, decisions, level)[i];
                && out.Utterance? && out.bullet == lines[i].bullet && Strip(out.tiers) == Strip(lines[i].tiers)
                && Tagged(out.tiers, XALIGN) <= 1 && Tagged(out.tiers, XREV) <= 1
  {
    if level != None && |decisions| > 0 {
      forall i | 0 <= i < |lines| && lines[i].Utterance?
        ensures var out := Injected(lines, decisions, level)[i];
                && Strip(out.tiers) == Strip(lines[i].tiers)
                && Tagged(out.tiers, XALIGN) <= 1 && Tagged(out.tiers, XREV) <= 1
      {
        var kept, added := Strip(lines[i].tiers), NewTiers(About(decisions, i), lines[i].bullet, level);
        StripTwice(lines[i].tiers);
        NewTiersAreDecisions(About(decisions, i), lines[i].bullet, level);
        StripConcat(kept, added);
        TaggedConcat(kept, added, XALIGN);
        TaggedConcat(kept, added, XREV);
      }
    }
  }

  lemma {:induction false} AboutConcat(a: seq<Decision>, b: seq<Decision>, lineIdx: nat)
    ensures About(a + b, lineIdx) == About(a, lineIdx) + About(b, lineIdx)
    decreases |b|
  {
    if |b| == 0 {
      assert a + b == a;
    } else {
      var n, all := |b| - 1, a + b;
      assert all[..|all| - 1] == a + b[..n] && all[|all| - 1] == b[n];
      AboutConcat(a, b[..n], lineIdx);
      var last := if b[n].lineIdx == lineIdx then [b[n]] else [];
      assert About(all, lineIdx) == About(a + b[..n], lineIdx) + last;
    }
  }

  /** The decisions about a line are those with its index, one after the other as they were made. */
  lemma AboutInTurn(a: seq<Decision>, b: seq<Decision>, d: Decision, lineIdx: nat)
    ensures About(a + b, lineIdx) == About(a, lineIdx) + About(b, lineIdx)
    ensures About([d], lineIdx) == if d.lineIdx == lineIdx then [d] else []
  {
    AboutConcat(a, b, lineIdx);
    assert [d][..0] == [];
  }

  /** The contents one after the other, with a semicolon and a space between them. */
  lemma {:induction false} JoinSeparates(a: seq<Decision>, b: seq<Decision>)
    requires |a| > 0 && |b| > 0
    ensures Join(a + b) == Join(a) + "; " + Join(b)
    ensures |a| == 1 ==> Join(a) == a[0].content
    decreases |b|
  {
    if |a| == 1 { assert a[..0] == []; }
    var n, all := |b| - 1, a + b;
    assert all[..|all| - 1] == a + b[..n] && all[|all| - 1] == b[n];
    if n == 0 {
      assert a + b[..0] == a && Join(b) == b[0].content;
    } else {
      JoinSeparates(a, b[..n]);
      JoinAssociates(Join(a) + "; ", Join(b[..n]), "; ", b[n].content);
    }
  }

  lemma JoinAssociates(a: string, b: string, c: string, d: string)
    ensures a + b + c + d == a + (b + c + d)
  {
  }

  /** Exactly the two kinds of tier go. */
  lemma StripsTwoTags(a: seq<Tier>, b: seq<Tier>, t: Tier)
    ensures Strip([t]) == if t.UserDefined? && (t.tag == "xalign" || t.tag == "xrev") then [] else [t]
    ensures Strip(a + b) == Strip(a) + Strip(b)
  {
    assert [t][..0] == [];
    StripConcat(a, b);
  }

  /** What is written on line `i`. At level `None`, or without any decision, nothing changes. Otherwise an
      utterance loses its decision tiers and gets, when there are decisions about it, one tier of their contents
      and a review mark when one of them needs review; when there are none, a note of that, but only at level
      `All` and with a time bullet. */
  lemma LineInjected(lines: seq<Line>, decisions: seq<Decision>, level: ReviewLevel, i: nat)
    requires i < |lines|
    ensures var injected, line, about := Injected(lines, decisions, level), lines[i], About(decisions, i);
            && |injected| == |lines|
            && (level == None || decisions == [] || line.Other? ==> injected[i] == line)
            && (level != None && decisions != [] && line.Utterance? ==>
                  injected[i].Utterance? && injected[i].bullet == line.bullet &&
                  IsWritten(Strip(line.tiers), about, line.bullet && level == All, injected[i].tiers))
  {
  }

  ghost predicate IsWritten(kept: seq<Tier>, about: seq<Decision>, noted: bool, tiers: seq<Tier>) {
    if about != [] then
      var text := UserDefined("xalign", Join(about));
      if exists d :: d in about && d.needsReview then tiers == kept + [text, UserDefined("xrev", "[?]")]
      else tiers == kept + [text]
    else if noted then tiers == kept + [UserDefined("xalign", "no_decisions")]
    else tiers == kept
  }

  ghost predicate Contains(text: string, part: string) {
    exists before, after :: text == before + part + after
  }

  lemma ContainsMore(text: string, part: string, before: string, after: string)
    requires Contains(text, part)
    ensures Contains(before + text + after, part)
  {
    var b, a :| text == b + part + a;
    assert before + text + after == (before + b) + part + (a + after);
  }

  /** A merged tier holds the content of each of its decisions. */
  lemma {:induction false} JoinHoldsAll(about: seq<Decision>, k: nat)
    requires k < |about|
    ensures Contains(Join(about), about[k].content)
    decreases |about|
  {
    var n := |about| - 1;
    var sep := if |about| > 1 then "; " else "";
    if k < n {
      JoinHoldsAll(about[..n], k);
      ContainsMore(Join(about[..n]), about[k].content, "", sep + about[n].content);
      assert Join(about) == "" + Join(about[..n]) + (sep + about[n].content);
    } else {
      assert Join(about) == (Join(about[..n]) + sep) + about[n].content + "";
    }
  }

  lemma {:induction false} AboutIsExact(decisions: seq<Decision>, lineIdx: nat, d: Decision)
    ensures d in About(decisions, lineIdx) <==> d in decisions && d.lineIdx == lineIdx
    decreases |decisions|
  {
    if |decisions| > 0 {
      AboutIsExact(decisions[..|decisions| - 1], lineIdx, d);
      assert decisions == decisions[..|decisions| - 1] + [decisions[|decisions| - 1]];
    }
  }

  /** No decision is lost: the utterance it is about gets a tier that holds its content, and a review mark
      exactly when some decision about it needs review. */
  lemma EveryDecisionIsWritten(lines: seq<Line>, decisions: seq<Decision>, level: ReviewLevel, d: Decision)
    returns (tier: Tier)
    requires level != None && d in decisions && d.lineIdx < |lines| && lines[d.lineIdx].Utterance?
    ensures var out := Injected(lines, decisions, level)[d.lineIdx];
            && out.Utterance? && tier in out.tiers && tier.UserDefined? && tier.tag == XALIGN &&
               Contains(tier.content, d.content)
            && (UserDefined(XREV, REVIEW_MARK) in out.tiers <==>
                exists e :: e in decisions && e.lineIdx == d.lineIdx && e.needsReview)
  {
    var about, line := About(decisions, d.lineIdx), lines[d.lineIdx];
    AboutIsExact(decisions, d.lineIdx, d);
    var k :| 0 <= k < |about| && about[k] == d;
    JoinHoldsAll(about, k);
    tier := UserDefined(XALIGN, Join(about));
    assert NewTiers(about, line.bullet, level)[0] == tier;
    NoMarkKept(line.tiers);
    ReviewMarked(Strip(line.tiers), about, line.bullet, level);
    forall e
      ensures e in about <==> e in decisions && e.lineIdx == d.lineIdx
    {
      AboutIsExact(decisions, d.lineIdx, e);
    }
  }

  lemma ReviewMarked(kept: seq<Tier>, about: seq<Decision>, bullet: bool, level: ReviewLevel)
    requires |about| > 0 && UserDefined(XREV, REVIEW_MARK) !in kept
    ensures UserDefined(XREV, REVIEW_MARK) in kept + NewTiers(about, bullet, level) <==>
            exists e :: e in about && e.needsReview
  {
    TagsDiffer();
    var mark, added := UserDefined(XREV, REVIEW_MARK), NewTiers(about, bullet, level);
    assert mark in kept + added <==> mark in added;
    if exists i :: 0 <= i < |about| && about[i].needsReview {
      assert added[1] == mark;
    }
  }

  lemma {:induction false} NoMarkKept(tiers: seq<Tier>)
    ensures UserDefined(XREV, REVIEW_MARK) !in Strip(tiers)
    decreases |tiers|
  {
    if |tiers| > 0 { NoMarkKept(tiers[..|tiers| - 1]); }
  }
}
