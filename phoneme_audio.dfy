/**
 * The phoneme-to-example-word table of `phoneme_audio.py` and its lookup, which picks the word
 * spoken aloud when a learner asks to hear a phoneme. The dict literal defines `AH0` twice, both
 * times as `about`, so Python's last-definition-wins rule does not change any entry.
 */
module PhonemeAudio {
  import opened Wrappers

  /**
   * The table's entry for `p`, compared against the keys from the last entry of the literal
   * (line 42) back to the first (line 7), so that the first key that matches is the latest
   * definition of `p`.
   */
  function LatestExample(p: string): (e: Option<string>)
    ensures e.Some? ==> e.value != []
  {
    if p == "ZH" then Some("measure") else
    if p == "CH" then Some("chat") else
    if p == "TH" then Some("think") else
    if p == "SH" then Some("she") else
    if p == "NG" then Some("sing") else
    if p == "HH" then Some("hat") else
    if p == "DH" then Some("this") else
    if p == "ER2" then Some("better") else
    if p == "ER1" then Some("bird") else
    if p == "ER0" then Some("butter") else
    if p == "Z" then Some("zip") else
    if p == "Y" then Some("yes") else
    if p == "W" then Some("win") else
    if p == "V" then Some("van") else
    if p == "R" then Some("rat") else
    if p == "P" then Some("pat") else
    if p == "K" then Some("cat") else
    if p == "G" then Some("goat") else
    if p == "F" then Some("fun") else
    if p == "D" then Some("dog") else
    if p == "B" then Some("bat") else
    if p == "AW1" then Some("now") else
    if p == "OW1" then Some("go") else
    if p == "AY1" then Some("my") else
    if p == "EY1" then Some("eight") else
    if p == "EH2" then Some("elephant") else
    if p == "UH1" then Some("book") else
    if p == "UW1" then Some("blue") else
    if p == "AO1" then Some("thought") else
    if p == "AE1" then Some("cat") else
    if p == "AA1" then Some("father") else
    if p == "AH0" then Some("about") else  // line 11, also defined at line 7
    if p == "EH1" then Some("red") else
    if p == "IH2" then Some("kitten") else
    if p == "IH0" then Some("roses") else
    if p == "AH0" then Some("about") else  // line 7, also defined at line 11
    None
  }

  /** The same literal read top-down, as if the first definition of a repeated key won. */
  function FirstExample(p: string): Option<string>
  {
    if p == "AH0" then Some("about") else  // line 7, also defined at line 11
    if p == "IH0" then Some("roses") else
    if p == "IH2" then Some("kitten") else
    if p == "EH1" then Some("red") else
    if p == "AH0" then Some("about") else  // line 11, also defined at line 7
    if p == "AA1" then Some("father") else
    if p == "AE1" then Some("cat") else
    if p == "AO1" then Some("thought") else
    if p == "UW1" then Some("blue") else
    if p == "UH1" then Some("book") else
    if p == "EH2" then Some("elephant") else
    if p == "EY1" then Some("eight") else
    if p == "AY1" then Some("my") else
    if p == "OW1" then Some("go") else
    if p == "AW1" then Some("now") else
    if p == "B" then Some("bat") else
    if p == "D" then Some("dog") else
    if p == "F" then Some("fun") else
    if p == "G" then Some("goat") else
    if p == "K" then Some("cat") else
    if p == "P" then Some("pat") else
    if p == "R" then Some("rat") else
    if p == "V" then Some("van") else
    if p == "W" then Some("win") else
    if p == "Y" then Some("yes") else
    if p == "Z" then Some("zip") else
    if p == "ER0" then Some("butter") else
    if p == "ER1" then Some("bird") else
    if p == "ER2" then Some("better") else
    if p == "DH" then Some("this") else
    if p == "HH" then Some("hat") else
    if p == "NG" then Some("sing") else
    if p == "SH" then Some("she") else
    if p == "TH" then Some("think") else
    if p == "CH" then Some("chat") else
    if p == "ZH" then Some("measure") else
    None
  }

  /** `get_example_word`: `phoneme_examples.get(phoneme, phoneme)`, so the lookup never fails. */
  function GetExampleWord(phoneme: string): (word: string)
    ensures LatestExample(phoneme).Some? ==> word == LatestExample(phoneme).value
    ensures LatestExample(phoneme).None? ==> word == phoneme
  {
    LatestExample(phoneme).GetOr(phoneme)
  }

  /** A non-empty phoneme always yields a non-empty word to speak, because no table value is empty. */
  lemma ExampleWordNonEmpty(phoneme: string)
    requires phoneme != []
    ensures GetExampleWord(phoneme) != []
  {
  }

  /** `DH` is illustrated by `this`. */
  lemma ExampleForDH()
    ensures GetExampleWord("DH") == "this"
  {
  }

  /** `AH1` is not tabulated and comes back unchanged. */
  lemma UntabulatedAH1PassesThrough()
    ensures GetExampleWord("AH1") == "AH1"
  {
  }

  /** Both definitions of `AH0` say `about`, so the reading order does not matter. */
  lemma RepeatedAH0Agrees()
    ensures GetExampleWord("AH0") == "about"
    ensures FirstExample("AH0") == Some("about")
  {
  }

  /** Different phonemes can share an example word: `AE1` and `K` are both illustrated by `cat`. */
  lemma ExamplesNotInjective()
    ensures GetExampleWord("AE1") == GetExampleWord("K") == "cat"
  {
  }
}
