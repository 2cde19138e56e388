/**
 * The filter of `grammar_checker.py` over LanguageTool's matches.
 *
 * LanguageTool itself is not modelled: `Check` receives the list of matches it returned for the
 * text. A match whose correction is trivial (a capitalisation-only change, or a title-case change
 * flagged by the sentence-start rule) is dropped; every other match becomes one record holding the
 * text, the flagged span, the first replacement and an explanation chosen from the match message.
 * Python's `str.istitle` is a parameter `isTitle`.
 */
module GrammarChecker {
  import opened Text

  /** The fields of a LanguageTool match that the checker reads. */
  datatype Match = Match(offset: int, errorLength: int, replacements: seq<string>, ruleId: string, message: string)

  /** One reported grammar issue. */
  datatype GrammarError = GrammarError(originalSentence: string, errorWord: string, suggestion: string, explanation: string)

  /** `text[offset:offset+errorLength]`, with Python's slice clamping. */
  function ErrorSpan(text: string, m: Match): string {
    PySlice(text, m.offset, m.offset + m.errorLength)
  }

  /**
   * `is_trivial_correction`. The first test reads `replacements[0]` before any emptiness check, so
   * the source fails on a match without replacements: that is this function's precondition.
   */
  predicate IsTrivialCorrection(text: string, m: Match, isTitle: string -> bool)
    requires m.replacements != []
  {
    var original := ErrorSpan(text, m);
    || (isTitle(original) != isTitle(m.replacements[0]) && m.ruleId == "UPPERCASE_SENTENCE_START")
    || (forall r :: r in m.replacements ==> Lower(r) == Lower(original))
  }

  /**
   * What `is_trivial_correction` decides: the sentence-start rule flags a change of title case, or
   * every replacement has the span's length and agrees with it letter by letter up to case.
   */
  lemma TrivialCorrectionIff(text: string, m: Match, isTitle: string -> bool)
    requires m.replacements != []
    ensures IsTrivialCorrection(text, m, isTitle) <==>
      || (m.ruleId == "UPPERCASE_SENTENCE_START" && isTitle(ErrorSpan(text, m)) != isTitle(m.replacements[0]))
      || (forall r :: r in m.replacements ==>
            |r| == |ErrorSpan(text, m)| && forall i :: 0 <= i < |r| ==> ToLower(r[i]) == ToLower(ErrorSpan(text, m)[i]))
  {
    SameIgnoringCaseAll(m.replacements, ErrorSpan(text, m));
  }

  /** Two strings are equal ignoring case exactly when they agree character by character after lowering. */
  lemma SameIgnoringCase(a: string, b: string)
    ensures Lower(a) == Lower(b) <==> |a| == |b| && forall i :: 0 <= i < |a| ==> ToLower(a[i]) == ToLower(b[i])
  {
    if |a| == |b| && forall i :: 0 <= i < |a| ==> ToLower(a[i]) == ToLower(b[i]) {
      assert forall i :: 0 <= i < |a| ==> Lower(a)[i] == Lower(b)[i];
    }
  }

  /** `SameIgnoringCase` for every replacement of a match at once. */
  lemma SameIgnoringCaseAll(replacements: seq<string>, original: string)
    ensures forall r :: r in replacements ==>
      (Lower(r) == Lower(original) <==> |r| == |original| && forall i :: 0 <= i < |r| ==> ToLower(r[i]) == ToLower(original[i]))
  {
    forall r | r in replacements
      ensures Lower(r) == Lower(original) <==> |r| == |original| && forall i :: 0 <= i < |r| ==> ToLower(r[i]) == ToLower(original[i])
    {
      SameIgnoringCase(r, original);
    }
  }

  /** A match whose every replacement differs from the flagged span only in letter case is trivial. */
  lemma CaseOnlyChangesAreTrivial(text: string, m: Match, isTitle: string -> bool)
    requires m.replacements != []
    requires forall r :: r in m.replacements ==>
      |r| == |ErrorSpan(text, m)| && forall i :: 0 <= i < |r| ==> ToLower(r[i]) == ToLower(ErrorSpan(text, m)[i])
    ensures IsTrivialCorrection(text, m, isTitle)
  {
    forall r | r in m.replacements ensures Lower(r) == Lower(ErrorSpan(text, m)) {
      SameIgnoringCase(r, ErrorSpan(text, m));
    }
  }

  /** The sentence-start rule's matches are trivial when the span's title-case status and the first replacement's differ. */
  lemma SentenceStartTitleChangeIsTrivial(text: string, m: Match, isTitle: string -> bool)
    requires m.replacements != [] && m.ruleId == "UPPERCASE_SENTENCE_START"
    requires isTitle(ErrorSpan(text, m)) != isTitle(m.replacements[0])
    ensures IsTrivialCorrection(text, m, isTitle)
  {
  }

  /**
   * A match is kept by the case test only when some replacement differs from the span beyond
   * letter case; outside the sentence-start rule that is the whole test.
   */
  lemma NonTrivialOutsideSentenceStart(text: string, m: Match, isTitle: string -> bool, r: string)
    requires m.replacements != [] && m.ruleId != "UPPERCASE_SENTENCE_START"
    requires r in m.replacements && |r| != |ErrorSpan(text, m)|
    ensures !IsTrivialCorrection(text, m, isTitle)
  {
    SameIgnoringCase(r, ErrorSpan(text, m));
  }

  /** Capitalising the first word of `hello there` is trivial, whatever the title-case test says. */
  lemma CapitalisationIsTrivial(isTitle: string -> bool)
    ensures IsTrivialCorrection("hello there", Match(0, 5, ["Hello"], "UPPERCASE_SENTENCE_START", "capitalise"), isTitle)
  {
    var m := Match(0, 5, ["Hello"], "UPPERCASE_SENTENCE_START", "capitalise");
    assert ErrorSpan("hello there", m) == "hello";
    assert Lower("Hello") == "hello";
    assert Lower("hello") == "hello";
  }

  const VerbNote := "This seems like a verb form issue. Try using the correct verb form for spoken English."

  const ArticleNote := "This seems like a missing or incorrect article. Try using the correct article."

  const SpellingNote := "This might be a spelling issue. Try pronouncing the word more clearly."

  const GenericNote := "Try using the suggested word to make the sentence grammatically correct."

  /**
   * `construct_explanation`: the first of `verb`, `article`, `spelling` that occurs in the lowered
   * message picks the note; otherwise the generic one. The text and suggestion are not consulted.
   */
  function ConstructExplanation(m: Match): (explanation: string)
    ensures explanation in {VerbNote, ArticleNote, SpellingNote, GenericNote}
  {
    var desc := Lower(m.message);
    if Contains(desc, "verb") then VerbNote
    else if Contains(desc, "article") then ArticleNote
    else if Contains(desc, "spelling") then SpellingNote
    else GenericNote
  }

  /** Only the message matters, and only up to letter case. */
  lemma ExplanationIgnoresCase(m1: Match, m2: Match)
    requires Lower(m1.message) == Lower(m2.message)
    ensures ConstructExplanation(m1) == ConstructExplanation(m2)
  {
  }

  /**
   * The precedence chain in full: `verb` wins, then `article`, then `spelling`, and a message
   * mentioning none of them gets the generic note.
   */
  lemma ExplanationChoice(m: Match)
    ensures var desc := Lower(m.message);
      && (Contains(desc, "verb") ==> ConstructExplanation(m) == VerbNote)
      && (!Contains(desc, "verb") && Contains(desc, "article") ==> ConstructExplanation(m) == ArticleNote)
      && (!Contains(desc, "verb") && !Contains(desc, "article") && Contains(desc, "spelling")
          ==> ConstructExplanation(m) == SpellingNote)
      && (!Contains(desc, "verb") && !Contains(desc, "article") && !Contains(desc, "spelling")
          ==> ConstructExplanation(m) == GenericNote)
  {
  }

  /** A message mentioning both a verb and an article is explained as a verb issue: `verb` is tested first. */
  lemma VerbBeforeArticle(m: Match)
    requires Contains(Lower(m.message), "verb") && Contains(Lower(m.message), "article")
    ensures ConstructExplanation(m) == VerbNote
  {
  }

  /** For example, the message `Verb or Article?`. */
  lemma VerbOrArticleMessage()
    ensures ConstructExplanation(Match(0, 0, [], "", "Verb or Article?")) == VerbNote
  {
    var desc := Lower("Verb or Article?");
    assert desc == "verb or article?";
    assert OccursAt(desc, "verb", 0);
  }

  /** The record built for a kept match. */
  function Record(text: string, m: Match): GrammarError
    requires m.replacements != []
  {
    GrammarError(text, ErrorSpan(text, m), m.replacements[0], ConstructExplanation(m))
  }

  /** The records `check` collects from a list of matches, in match order. */
  function Checked(text: string, matches: seq<Match>, isTitle: string -> bool): seq<GrammarError>
    requires forall i :: 0 <= i < |matches| ==> matches[i].replacements != []
  {
    if matches == [] then []
    else
      var m := matches[|matches| - 1];
      Checked(text, matches[..|matches| - 1], isTitle)
        + (if IsTrivialCorrection(text, m, isTitle) then [] else [Record(text, m)])
  }

  /** `check`: drop the trivial matches and record the others. */
  method Check(text: string, matches: seq<Match>, isTitle: string -> bool) returns (errors: seq<GrammarError>)
    requires forall i :: 0 <= i < |matches| ==> matches[i].replacements != []
    ensures errors == Checked(text, matches, isTitle)
  {
    errors := [];
    for n := 0 to |matches|
      invariant errors == Checked(text, matches[..n], isTitle)
    {
      var m := matches[n];
      assert matches[..n + 1][..n] == matches[..n];
      if IsTrivialCorrection(text, m, isTitle) {
        continue;
      }
      if m.replacements != [] {
        var suggestion := m.replacements[0];
        var explanation := ConstructExplanation(m);
        errors := errors + [GrammarError(text, PySlice(text, m.offset, m.offset + m.errorLength), suggestion, explanation)];
      }
    }
    assert matches[..|matches|] == matches;
  }

  /** Checking streams match by match: the records of a concatenation are those of each part, in order. */
  lemma {:induction false} CheckedAppend(text: string, a: seq<Match>, b: seq<Match>, isTitle: string -> bool)
    requires forall i :: 0 <= i < |a| ==> a[i].replacements != []
    requires forall i :: 0 <= i < |b| ==> b[i].replacements != []
    ensures forall i :: 0 <= i < |a + b| ==> (a + b)[i].replacements != []
    ensures Checked(text, a + b, isTitle) == Checked(text, a, isTitle) + Checked(text, b, isTitle)
    decreases |b|
  {
    if b == [] {
      assert a + b == a;
    } else {
      var b' := b[..|b| - 1];
      assert (a + b)[..|a + b| - 1] == a + b';
      CheckedAppend(text, a, b', isTitle);
    }
  }

  /** At most one record per match. */
  lemma {:induction false} CheckedAtMostOnePerMatch(text: string, matches: seq<Match>, isTitle: string -> bool)
    requires forall i :: 0 <= i < |matches| ==> matches[i].replacements != []
    ensures |Checked(text, matches, isTitle)| <= |matches|
  {
    if matches != [] {
      CheckedAtMostOnePerMatch(text, matches[..|matches| - 1], isTitle);
    }
  }

  /** `e` is the record of `m` on `text`: the whole text, the flagged span, the first replacement. */
  ghost predicate RecordOf(e: GrammarError, text: string, m: Match, isTitle: string -> bool)
    requires m.replacements != []
  {
    && !IsTrivialCorrection(text, m, isTitle)
    && e.originalSentence == text
    && e.errorWord == ErrorSpan(text, m)
    && e.suggestion == m.replacements[0]
    && e.explanation == ConstructExplanation(m)
  }

  /** Every record comes from a non-trivial match of the list. */
  lemma {:induction false} CheckedSound(text: string, matches: seq<Match>, isTitle: string -> bool)
    requires forall i :: 0 <= i < |matches| ==> matches[i].replacements != []
    ensures forall e :: e in Checked(text, matches, isTitle) ==>
      exists i :: 0 <= i < |matches| && RecordOf(e, text, matches[i], isTitle)
  {
    if matches != [] {
      var init, m := matches[..|matches| - 1], matches[|matches| - 1];
      CheckedSound(text, init, isTitle);
      forall e | e in Checked(text, matches, isTitle)
        ensures exists i :: 0 <= i < |matches| && RecordOf(e, text, matches[i], isTitle)
      {
        if e in Checked(text, init, isTitle) {
          var i :| 0 <= i < |init| && RecordOf(e, text, init[i], isTitle);
          assert matches[i] == init[i];
        } else {
          assert RecordOf(e, text, matches[|matches| - 1], isTitle);
        }
      }
    }
  }

  /** Every non-trivial match is recorded: a match is dropped only when it is trivial. */
  lemma CheckedComplete(text: string, matches: seq<Match>, i: nat, isTitle: string -> bool)
    requires forall j :: 0 <= j < |matches| ==> matches[j].replacements != []
    requires i < |matches| && !IsTrivialCorrection(text, matches[i], isTitle)
    ensures Record(text, matches[i]) in Checked(text, matches, isTitle)
  {
    var m := matches[i];
    var before, after := matches[..i], matches[i + 1..];
    SplitAround(matches, i);
    assert forall j :: 0 <= j < |after| ==> after[j] == matches[i + 1 + j];
    CheckedAppend(text, before + [m], after, isTitle);
    CheckedAppend(text, before, [m], isTitle);
    assert [m][..0] == [];
    assert Checked(text, [m], isTitle) == [Record(text, m)];
  }

  /** When every match is trivial, nothing is reported. */
  lemma {:induction false} AllTrivialReportsNothing(text: string, matches: seq<Match>, isTitle: string -> bool)
    requires forall i :: 0 <= i < |matches| ==> matches[i].replacements != []
    requires forall i :: 0 <= i < |matches| ==> IsTrivialCorrection(text, matches[i], isTitle)
    ensures Checked(text, matches, isTitle) == []
  {
    if matches != [] {
      AllTrivialReportsNothing(text, matches[..|matches| - 1], isTitle);
    }
  }
}
