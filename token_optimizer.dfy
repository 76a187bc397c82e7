/**
 * `TokenOptimizer.optimize_prompt`: white space is collapsed to single
 * spaces, then three stock phrases are deleted one after another, each with
 * `str.replace` over the text the previous deletion left.
 */
module TokenOptimizer {
  import opened Text

  /** A phrase and its replacement; `str.replace` with an empty pattern is not used here. */
  type Rule = r: (string, string) | r.0 != [] witness ("x", "")

  /**
   * The replacement table, in the dict's insertion order:
   * "请帮助我" (please help me), "你能" (can you), "我需要" (I need), each deleted.
   */
  const Replacements: seq<Rule> := [(PleaseHelpMe, ""), (CanYou, ""), (INeed, "")]

  const PleaseHelpMe: string := "\U{8bf7}\U{5e2e}\U{52a9}\U{6211}"
  const CanYou: string := "\U{4f60}\U{80fd}"
  const INeed: string := "\U{6211}\U{9700}\U{8981}"

  /** The rules applied one after another, the first rule first. */
  function ApplyAll(s: string, rules: seq<Rule>): string
    decreases |rules|
  {
    if rules == [] then s
    else
      var last := rules[|rules| - 1];
      Replace(ApplyAll(s, rules[..|rules| - 1]), last.0, last.1)
  }

  /** What `optimize_prompt` returns for `prompt`. */
  function Optimized(prompt: string): string {
    ApplyAll(Collapse(prompt), Replacements)
  }

  /**
   * The loop of `optimize_prompt`. The result is the whitespace-collapsed
   * prompt with the three phrases deleted in table order; it is never longer
   * than the prompt and keeps the collapsed text's characters in order.
   */
  method OptimizePrompt(prompt: string) returns (optimized: string)
    ensures optimized == Optimized(prompt)
    ensures |optimized| <= |prompt|
    ensures Subsequence(optimized, Collapse(prompt))
  {
    optimized := Join(" ", Split(prompt));
    var replacements := Replacements;
    for i := 0 to |replacements|
      invariant optimized == ApplyAll(Collapse(prompt), replacements[..i])
    {
      var (phrase, replacement) := replacements[i];
      optimized := Replace(optimized, phrase, replacement);
      assert replacements[..i + 1][..i] == replacements[..i];
    }
    assert replacements[..|replacements|] == replacements;
    OptimizedShorter(prompt);
    OptimizedDeletes(prompt);
  }

  /** Rules that replace a phrase by nothing longer never lengthen the text. */
  lemma {:induction false} ApplyAllShorter(s: string, rules: seq<Rule>)
    requires forall k :: 0 <= k < |rules| ==> |rules[k].1| <= |rules[k].0|
    ensures |ApplyAll(s, rules)| <= |s|
    decreases |rules|
  {
    if rules != [] {
      var last := rules[|rules| - 1];
      ApplyAllShorter(s, rules[..|rules| - 1]);
      ReplaceShorter(ApplyAll(s, rules[..|rules| - 1]), last.0, last.1);
    }
  }

  /** Rules that only delete leave a subsequence of the text. */
  lemma {:induction false} ApplyAllDeletes(s: string, rules: seq<Rule>)
    requires forall k :: 0 <= k < |rules| ==> rules[k].1 == []
    ensures Subsequence(ApplyAll(s, rules), s)
    decreases |rules|
  {
    if rules == [] {
      SubsequenceReflexive(s);
    } else {
      var last := rules[|rules| - 1];
      var before := ApplyAll(s, rules[..|rules| - 1]);
      ApplyAllDeletes(s, rules[..|rules| - 1]);
      DeleteIsSubsequence(before, last.0);
      SubsequenceTransitive(Replace(before, last.0, ""), before, s);
    }
  }

  /** Rules whose phrases do not occur in the text leave it unchanged. */
  lemma {:induction false} ApplyAllAbsent(s: string, rules: seq<Rule>)
    requires forall k :: 0 <= k < |rules| ==> !Contains(s, rules[k].0)
    ensures ApplyAll(s, rules) == s
    decreases |rules|
  {
    if rules != [] {
      var last := rules[|rules| - 1];
      ApplyAllAbsent(s, rules[..|rules| - 1]);
      ReplaceAbsent(s, last.0, last.1);
    }
  }

  /** The optimised prompt is never longer than the prompt. */
  lemma OptimizedShorter(prompt: string)
    ensures |Optimized(prompt)| <= |Collapse(prompt)| <= |prompt|
  {
    CollapseShorter(prompt);
    ApplyAllShorter(Collapse(prompt), Replacements);
  }

  /** The phrase deletions only remove characters from the collapsed prompt. */
  lemma OptimizedDeletes(prompt: string)
    ensures Subsequence(Optimized(prompt), Collapse(prompt))
  {
    ApplyAllDeletes(Collapse(prompt), Replacements);
  }

  /**
   * A prompt holding none of the phrases comes back white-space collapsed
   * and otherwise unchanged: no white space at either end, single spaces
   * between words, and optimising again changes nothing.
   */
  lemma OptimizedWithoutPhrases(prompt: string)
    requires forall k :: 0 <= k < |Replacements| ==> !Contains(Collapse(prompt), Replacements[k].0)
    ensures Optimized(prompt) == Collapse(prompt)
    ensures SingleSpaced(Optimized(prompt))
    ensures Optimized(Optimized(prompt)) == Optimized(prompt)
  {
    ApplyAllAbsent(Collapse(prompt), Replacements);
    CollapseSingleSpaced(prompt);
    CollapseIdempotent(prompt);
    ApplyAllAbsent(Collapse(Collapse(prompt)), Replacements);
  }

  /** The three deletions, written out in table order. */
  lemma OptimizedSteps(prompt: string)
    ensures Optimized(prompt) == Replace(Replace(Replace(Collapse(prompt), PleaseHelpMe, ""), CanYou, ""), INeed, "")
  {
    var r, c := Replacements, Collapse(prompt);
    assert r[..1][..0] == [] && r[..1][0] == r[0];
    assert ApplyAll(c, r[..1]) == Replace(c, PleaseHelpMe, "");
    assert r[..2][..1] == r[..1] && r[..2][1] == r[1];
    assert ApplyAll(c, r[..2]) == Replace(ApplyAll(c, r[..1]), CanYou, "");
    assert r[..2] == r[..|r| - 1];
  }

  /**
   * Deleting a phrase can leave two spaces side by side: "a 你能 b" becomes
   * "a  b", so the result is not always single spaced.
   */
  lemma DeletionLeavesDoubleSpace()
    ensures Optimized("a " + CanYou + " b") == "a  b"
    ensures !SingleSpaced(Optimized("a " + CanYou + " b"))
  {
    var s := "a " + CanYou + " b";
    SpacedWordsCollapsed();
    OptimizedSteps(s);
    Absent(s, PleaseHelpMe);
    ReplaceAbsent(s, PleaseHelpMe, "");
    SpacedPhraseDeleted();
    Absent("a  b", INeed);
    ReplaceAbsent("a  b", INeed, "");
    assert "a  b"[1] == ' ' && "a  b"[2] == ' ';
  }

  lemma SpacedWordsCollapsed()
    ensures Collapse("a " + CanYou + " b") == "a " + CanYou + " b"
  {
    var words := ["a", CanYou, "b"];
    assert words[1..][1..] == ["b"] && words[1..] == [CanYou, "b"];
    assert Join(" ", words[1..]) == CanYou + " " + Join(" ", ["b"]);
    assert "a " + CanYou + " b" == Join(" ", words);
    SplitJoin(words);
  }

  lemma SpacedPhraseDeleted()
    ensures Replace("a " + CanYou + " b", CanYou, "") == "a  b"
  {
    var s := "a " + CanYou + " b";
    assert s == ['a'] + ([' '] + (CanYou + (" " + "b")));
    ReplaceSkip('a', [' '] + (CanYou + (" " + "b")), CanYou, "");
    ReplaceSkip(' ', CanYou + (" " + "b"), CanYou, "");
    ReplaceAtStart(CanYou, " " + "b", "");
    ReplaceSkip(' ', "b", CanYou, "");
  }

  /**
   * The deletions run once each, in table order, so a deletion can form a
   * phrase already handled: "请帮你能助我" loses "你能" and becomes
   * "请帮助我", which stays. Optimising is therefore not idempotent.
   */
  lemma DeletionFormsEarlierPhrase()
    ensures Optimized(PleaseHelpMe[..2] + CanYou + PleaseHelpMe[2..]) == PleaseHelpMe
    ensures Optimized(PleaseHelpMe) == ""
  {
    var s := PleaseHelpMe[..2] + CanYou + PleaseHelpMe[2..];
    WordCollapsed(s);
    OptimizedSteps(s);
    SplitPhraseSurvives();
    SplitPhraseJoins();
    Absent(PleaseHelpMe, INeed);
    ReplaceAbsent(PleaseHelpMe, INeed, "");
    PhraseVanishes();
  }

  lemma PhraseVanishes()
    ensures Optimized(PleaseHelpMe) == ""
  {
    var t := PleaseHelpMe;
    WordCollapsed(t);
    OptimizedSteps(t);
    ReplaceAtStart(t, "", "");
    assert t + "" == t;
  }

  lemma WordCollapsed(w: string)
    requires IsWord(w)
    ensures Collapse(w) == w
  {
    assert w == Join(" ", [w]);
    SplitJoin([w]);
  }

  lemma SplitPhraseSurvives()
    ensures Replace(PleaseHelpMe[..2] + CanYou + PleaseHelpMe[2..], PleaseHelpMe, "")
         == PleaseHelpMe[..2] + CanYou + PleaseHelpMe[2..]
  {
    var s := PleaseHelpMe[..2] + CanYou + PleaseHelpMe[2..];
    assert s == [s[0]] + s[1..];
    assert s[..4] != PleaseHelpMe by { assert s[2] != PleaseHelpMe[2]; }
    ReplaceSkip(s[0], s[1..], PleaseHelpMe, "");
    Absent(s[1..], PleaseHelpMe);
    ReplaceAbsent(s[1..], PleaseHelpMe, "");
  }

  lemma SplitPhraseJoins()
    ensures Replace(PleaseHelpMe[..2] + CanYou + PleaseHelpMe[2..], CanYou, "") == PleaseHelpMe
  {
    var front, back := PleaseHelpMe[..2], PleaseHelpMe[2..];
    assert front + CanYou + back == [front[0]] + ([front[1]] + (CanYou + back));
    ReplaceSkip(front[0], [front[1]] + (CanYou + back), CanYou, "");
    ReplaceSkip(front[1], CanYou + back, CanYou, "");
    ReplaceAtStart(CanYou, back, "");
    Absent(back, CanYou);
    ReplaceAbsent(back, CanYou, "");
    assert [front[0]] + ([front[1]] + back) == PleaseHelpMe;
  }
}
