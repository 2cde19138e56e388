/**
 * The utterance classifier of `pattern_recognizer.py`.
 *
 * The filler-word count comes from a spaCy matcher over `um`, `uh` and `like`; the matcher is a
 * parameter `fillerMatches` returning the list of matches for a text. The category is decided on the
 * lowered, stripped text by substring tests, the greeting test first.
 */
module PatternRecognizer {
  import opened Text

  datatype Category = Greeting | Question | Statement

  /** The string stored under `category`. */
  function CategoryName(c: Category): string {
    match c
    case Greeting => "greeting"
    case Question => "question"
    case Statement => "statement"
  }

  /** The if/elif chain on `tl = text.lower().strip()`. */
  function Categorize(text: string): Category {
    var tl := Strip(Lower(text));
    if Contains(tl, "hello") || Contains(tl, "hi") then Greeting
    else if EndsWith(tl, "?") then Question
    else Statement
  }

  /** One spaCy match: the pattern id and the token span. */
  datatype FillerMatch = FillerMatch(matchId: int, start: int, end: int)

  /** The dictionary `analyze_utterance` returns: exactly the keys `filler_count` and `category`. */
  datatype PatternResult = PatternResult(fillerCount: nat, category: string)

  /** `analyze_utterance`. */
  function AnalyzeUtterance(text: string, fillerMatches: string -> seq<FillerMatch>): (r: PatternResult)
    ensures r.fillerCount == |fillerMatches(text)|
    ensures r.category in {"greeting", "question", "statement"}
  {
    PatternResult(|fillerMatches(text)|, CategoryName(Categorize(text)))
  }

  /**
   * A text is a greeting exactly when `hello` or `hi` occurs anywhere in its lowered form, inside
   * a longer word or not: the stripping does not matter.
   */
  lemma GreetingIffSubstring(text: string)
    ensures Categorize(text) == Greeting <==> Contains(Lower(text), "hello") || Contains(Lower(text), "hi")
  {
    StripKeepsWordOccurrences(Lower(text), "hello");
    StripKeepsWordOccurrences(Lower(text), "hi");
  }

  /** Otherwise a text is a question exactly when its stripped form ends in `?`: trailing whitespace is ignored. */
  lemma QuestionIff(text: string)
    ensures Categorize(text) == Question <==>
      !(Contains(Lower(text), "hello") || Contains(Lower(text), "hi")) && EndsWith(Strip(Lower(text)), "?")
  {
    GreetingIffSubstring(text);
  }

  /** `this` contains `hi`, so it is classed a greeting. */
  lemma ThisIsAGreeting()
    ensures Categorize("this") == Greeting
  {
    assert Lower("this") == "this";
    assert OccursAt("this", "hi", 1);
    GreetingIffSubstring("this");
  }

  /** The greeting test runs first: `is this it?` ends in `?` yet is a greeting. */
  lemma GreetingBeforeQuestion()
    ensures EndsWith("is this it?", "?")
    ensures Categorize("is this it?") == Greeting
  {
    var s := "is this it?";
    assert Lower(s) == s;
    assert OccursAt(s, "hi", 4);
    GreetingIffSubstring(s);
  }
}
