/**
 * The pronunciation comparator of `pronunciation_analyzer.py`.
 *
 * For each whitespace token of an utterance, the cleaned word's phonemes as a grapheme-to-phoneme
 * model produces them (standing for what the learner said) are compared with the first
 * pronunciation the CMU Pronouncing Dictionary lists for it. A word whose two ARPAbet sequences
 * differ yields one record: both sequences, their IPA forms and a note on the first point of
 * divergence. The g2p model and the dictionary are parameters of the model: `g2p` maps a word to
 * its token list, `phonesForWord` to its list of space-separated pronunciation variants.
 */
module PronunciationAnalyzer {
  import opened Wrappers
  import opened Text
  import PhonemeMap

  /** One mispronounced word, as `analyze` reports it. */
  datatype PronunciationError = PronunciationError(
    word: string,
    userPhonemes: seq<string>,
    correctPhonemes: seq<string>,
    userIpa: seq<string>,
    correctIpa: seq<string>,
    differenceNote: string)

  // ---------------------------------------------------------------------------------------------
  // Word cleaning and the two phoneme sources
  // ---------------------------------------------------------------------------------------------

  /** `"".join([c for c in w.lower() if c.isalpha()])`. */
  function CleanWord(w: string): (clean: string)
    ensures |clean| <= |w|
    ensures forall i :: 0 <= i < |clean| ==> IsLower(clean[i])
  {
    if w == [] then []
    else (if IsLetter(w[0]) then [ToLower(w[0])] else []) + CleanWord(w[1..])
  }

  /** A cleaned word is empty exactly when the token has no letter at all. */
  lemma {:induction false} CleanWordEmptyIffNoLetter(w: string)
    ensures CleanWord(w) == [] <==> forall i :: 0 <= i < |w| ==> !IsLetter(w[i])
  {
    if w != [] {
      CleanWordEmptyIffNoLetter(w[1..]);
      assert forall i :: 1 <= i < |w| ==> w[i] == w[1..][i - 1];
    }
  }

  /** Cleaning is idempotent: a reported word is already in clean form. */
  lemma {:induction false} CleanWordIdempotent(w: string)
    ensures CleanWord(CleanWord(w)) == CleanWord(w)
  {
    if w != [] {
      var head := if IsLetter(w[0]) then [ToLower(w[0])] else [];
      CleanWordIdempotent(w[1..]);
      CleanWordOfLowerLetters(head, CleanWord(w[1..]));
    }
  }

  /** Cleaning works letter by letter: the cleaned word of a concatenation is that of each part, in order. */
  lemma {:induction false} CleanWordAppend(a: string, b: string)
    ensures CleanWord(a + b) == CleanWord(a) + CleanWord(b)
  {
    if a == [] {
      assert a + b == b;
    } else {
      assert (a + b)[1..] == a[1..] + b;
      CleanWordAppend(a[1..], b);
    }
  }

  /** A single character survives, lowered, exactly when it is a letter. */
  lemma CleanWordOne(c: char)
    ensures CleanWord([c]) == if IsLetter(c) then [ToLower(c)] else []
  {
    assert [c][1..] == [];
  }

  lemma CleanWordOfLowerLetters(head: string, rest: string)
    requires |head| <= 1 && forall i :: 0 <= i < |head| ==> IsLower(head[i])
    requires CleanWord(rest) == rest
    ensures CleanWord(head + rest) == head + rest
  {
    if head != [] {
      assert (head + rest)[1..] == rest;
    } else {
      assert head + rest == rest;
    }
  }

  /** The tokens of a g2p output for which `p.strip()` is non-empty, in order. */
  function NonBlank(tokens: seq<string>): (kept: seq<string>)
    ensures |kept| <= |tokens|
    ensures forall i :: 0 <= i < |kept| ==> !IsBlank(kept[i]) && kept[i] in tokens
    ensures forall p :: p in tokens && !IsBlank(p) ==> p in kept
  {
    if tokens == [] then []
    else
      StripEmptyIffBlank(tokens[0]);
      (if Strip(tokens[0]) != [] then [tokens[0]] else []) + NonBlank(tokens[1..])
  }

  /** Filtering streams token by token: the kept tokens of a concatenation are those of each part, in order. */
  lemma {:induction false} NonBlankAppend(a: seq<string>, b: seq<string>)
    ensures NonBlank(a + b) == NonBlank(a) + NonBlank(b)
  {
    if a == [] {
      assert a + b == b;
    } else {
      assert (a + b)[1..] == a[1..] + b;
      NonBlankAppend(a[1..], b);
    }
  }

  /** A single token is kept exactly when it is not all whitespace. */
  lemma NonBlankOne(p: string)
    ensures NonBlank([p]) == if IsBlank(p) then [] else [p]
  {
    StripEmptyIffBlank(p);
    assert [p][1..] == [];
  }

  /** `get_phonemes`: the g2p output with the blank word-boundary tokens removed. */
  function GetPhonemes(g2p: string -> seq<string>, word: string): (phonemes: seq<string>)
    ensures forall i :: 0 <= i < |phonemes| ==> !IsBlank(phonemes[i])
  {
    NonBlank(g2p(word))
  }

  /** `phoneme_match`: exact list equality, lengths included. */
  function PhonemeMatch(user: seq<string>, reference: seq<string>): (same: bool)
    ensures same <==> |user| == |reference| && forall i :: 0 <= i < |user| ==> user[i] == reference[i]
  {
    user == reference
  }

  // ---------------------------------------------------------------------------------------------
  // Locating and classifying the divergence
  // ---------------------------------------------------------------------------------------------

  function Min(a: int, b: int): int { if a < b then a else b }

  /**
   * The first index below both lengths at which the sequences differ, or -1 when none does
   * (one sequence is then a prefix of the other).
   */
  function FirstMismatch(user: seq<string>, reference: seq<string>): (k: int)
    ensures -1 <= k < Min(|user|, |reference|)
    ensures k >= 0 ==> user[k] != reference[k]
    ensures forall j :: 0 <= j < Min(|user|, |reference|) && (k < 0 || j < k) ==> user[j] == reference[j]
  {
    if user == [] || reference == [] then -1
    else if user[0] != reference[0] then 0
    else
      var k := FirstMismatch(user[1..], reference[1..]);
      if k < 0 then -1 else k + 1
  }

  /** How a learner's sequence diverges from the reference, judged at the first difference only. */
  datatype Divergence =
    | Substitution(index: nat, said: string, expected: string)
    | Omission
    | Insertion
    | Identical

  /** The case analysis of `phoneme_difference_explanation`. */
  function Classify(user: seq<string>, reference: seq<string>): (d: Divergence)
  {
    var k := FirstMismatch(user, reference);
    if k >= 0 then Substitution(k, user[k], reference[k])
    else if |user| < |reference| then Omission
    else if |user| > |reference| then Insertion
    else Identical
  }

  /** Only equal sequences are classed identical: the comparison is reflexive and nothing else passes. */
  lemma IdenticalIffEqual(user: seq<string>, reference: seq<string>)
    ensures Classify(user, reference) == Identical <==> user == reference
  {
    if Classify(user, reference) == Identical {
      assert |user| == |reference|;
      assert forall j :: 0 <= j < |user| ==> user[j] == reference[j];
    }
  }

  /** A learner who stops early (a strict prefix of the reference) has omitted sounds. */
  lemma OmissionIffStrictPrefix(user: seq<string>, reference: seq<string>)
    ensures Classify(user, reference) == Omission <==> |user| < |reference| && user == reference[..|user|]
  {
    if |user| < |reference| && user == reference[..|user|] {
      assert forall j :: 0 <= j < |user| ==> user[j] == reference[j];
    }
  }

  /** A learner who carries on past the reference (which is a strict prefix) has inserted sounds. */
  lemma InsertionIffStrictExtension(user: seq<string>, reference: seq<string>)
    ensures Classify(user, reference) == Insertion <==> |reference| < |user| && reference == user[..|reference|]
  {
    if |reference| < |user| && reference == user[..|reference|] {
      assert forall j :: 0 <= j < |reference| ==> user[j] == reference[j];
    }
  }

  /** The reported position is the first one at which the sequences differ, whatever follows it. */
  lemma SubstitutionAtFirstDifference(user: seq<string>, reference: seq<string>, i: nat)
    requires i < |user| && i < |reference| && user[i] != reference[i]
    requires forall j :: 0 <= j < i ==> user[j] == reference[j]
    ensures Classify(user, reference) == Substitution(i, user[i], reference[i])
  {
  }

  function SubstitutionNote(said: string, expected: string): string {
    "You pronounced the phoneme '" + said + "' but it should be '" + expected
      + "'. Try adjusting your vowel or consonant sound for that phoneme."
  }

  const OmissionNote := "You omitted a phoneme. The correct pronunciation has additional sounds at the end."

  const InsertionNote := "You added extra sounds. Try removing extra phonemes."

  const GenericNote := "Try pronouncing the word more clearly."

  /** The sentence `phoneme_difference_explanation` returns for each kind of divergence. */
  function Explanation(d: Divergence): string {
    match d
    case Substitution(_, said, expected) => SubstitutionNote(said, expected)
    case Omission => OmissionNote
    case Insertion => InsertionNote
    case Identical => GenericNote
  }

  /**
   * `phoneme_difference_explanation`: scan the common prefix for the first differing phoneme and
   * return as soon as one is found; otherwise judge by the lengths.
   */
  method PhonemeDifferenceExplanation(user: seq<string>, reference: seq<string>) returns (note: string)
    ensures note == Explanation(Classify(user, reference))
    ensures FirstMismatch(user, reference) >= 0 ==>
      var k := FirstMismatch(user, reference); note == SubstitutionNote(user[k], reference[k])
  {
    var minLen := Min(|user|, |reference|);
    for i := 0 to minLen
      invariant forall j :: 0 <= j < i ==> user[j] == reference[j]
    {
      if user[i] != reference[i] {
        return SubstitutionNote(user[i], reference[i]);
      }
    }
    if |user| < |reference| {
      return OmissionNote;
    }
    if |user| > |reference| {
      return InsertionNote;
    }
    return GenericNote;
  }

  // ---------------------------------------------------------------------------------------------
  // Analysing an utterance
  // ---------------------------------------------------------------------------------------------

  /** The record for a word whose sequences differ. */
  function MakeError(word: string, user: seq<string>, reference: seq<string>): PronunciationError {
    PronunciationError(
      word, user, reference,
      PhonemeMap.ConvertArpabetToIpa(user), PhonemeMap.ConvertArpabetToIpa(reference),
      Explanation(Classify(user, reference)))
  }

  /** What one pass of `analyze`'s loop adds for a whitespace token: nothing, or one record. */
  function TokenError(token: string, g2p: string -> seq<string>, phonesForWord: string -> seq<string>)
    : Option<PronunciationError>
  {
    var word := CleanWord(token);
    if word == [] then None
    else
      var user := GetPhonemes(g2p, word);
      var variants := phonesForWord(word);
      if variants == [] then None
      else
        var reference := Split(variants[0]);
        if PhonemeMatch(user, reference) then None
        else Some(MakeError(word, user, reference))
  }

  /** The records `analyze` collects for a list of tokens, in token order. */
  function Errors(tokens: seq<string>, g2p: string -> seq<string>, phonesForWord: string -> seq<string>)
    : seq<PronunciationError>
  {
    if tokens == [] then []
    else Errors(tokens[..|tokens| - 1], g2p, phonesForWord) + TokenError(tokens[|tokens| - 1], g2p, phonesForWord).ToSeq()
  }

  /** `analyze`: split the text on whitespace and report every known, mispronounced word. */
  method Analyze(text: string, g2p: string -> seq<string>, phonesForWord: string -> seq<string>)
    returns (errors: seq<PronunciationError>)
    ensures errors == Errors(Split(text), g2p, phonesForWord)
  {
    var words := Split(text);
    errors := [];
    for n := 0 to |words|
      invariant errors == Errors(words[..n], g2p, phonesForWord)
    {
      var w := words[n];
      assert words[..n + 1][..n] == words[..n];
      ghost var step := TokenError(w, g2p, phonesForWord);
      var cleanW := CleanWord(w);
      if cleanW == [] {
        assert step == None;
        continue;
      }
      var userPhonemes := GetPhonemes(g2p, cleanW);
      var refPhonemesList := phonesForWord(cleanW);
      if refPhonemesList == [] {
        assert step == None;
        continue;
      }
      var refPhonemes := Split(refPhonemesList[0]);
      if !PhonemeMatch(userPhonemes, refPhonemes) {
        assert step == Some(MakeError(cleanW, userPhonemes, refPhonemes));
        var differenceNote := PhonemeDifferenceExplanation(userPhonemes, refPhonemes);
        errors := errors + [PronunciationError(
          cleanW, userPhonemes, refPhonemes,
          PhonemeMap.ConvertArpabetToIpa(userPhonemes), PhonemeMap.ConvertArpabetToIpa(refPhonemes),
          differenceNote)];
      }
    }
    assert words[..|words|] == words;
  }

  // ---------------------------------------------------------------------------------------------
  // What the records of an utterance satisfy
  // ---------------------------------------------------------------------------------------------

  /** Everything a reported record promises about itself. */
  ghost predicate WellFormed(e: PronunciationError) {
    && e.word != []
    && (forall i :: 0 <= i < |e.word| ==> IsLower(e.word[i]))
    && e.userPhonemes != e.correctPhonemes
    && (forall i :: 0 <= i < |e.userPhonemes| ==> !IsBlank(e.userPhonemes[i]))
    && (forall i :: 0 <= i < |e.correctPhonemes| ==> IsWord(e.correctPhonemes[i]))
    && e.userIpa == PhonemeMap.ConvertArpabetToIpa(e.userPhonemes)
    && e.correctIpa == PhonemeMap.ConvertArpabetToIpa(e.correctPhonemes)
    && |e.userIpa| == |e.userPhonemes| && |e.correctIpa| == |e.correctPhonemes|
    && Classify(e.userPhonemes, e.correctPhonemes) != Identical
    && e.differenceNote == Explanation(Classify(e.userPhonemes, e.correctPhonemes))
  }

  /** `e` is the record for `token`: its word, and the two sequences taken from the g2p model and the first dictionary variant. */
  ghost predicate ReportedFor(e: PronunciationError, token: string, g2p: string -> seq<string>, phonesForWord: string -> seq<string>) {
    && e.word == CleanWord(token)
    && phonesForWord(e.word) != []
    && e.correctPhonemes == Split(phonesForWord(e.word)[0])
    && e.userPhonemes == GetPhonemes(g2p, e.word)
  }

  /** A token is reported when its cleaned word is non-empty, in the dictionary and pronounced differently. */
  ghost predicate Mispronounced(token: string, g2p: string -> seq<string>, phonesForWord: string -> seq<string>) {
    var word := CleanWord(token);
    && word != []
    && phonesForWord(word) != []
    && GetPhonemes(g2p, word) != Split(phonesForWord(word)[0])
  }

  lemma TokenErrorSpec(token: string, g2p: string -> seq<string>, phonesForWord: string -> seq<string>)
    ensures TokenError(token, g2p, phonesForWord).Some? <==> Mispronounced(token, g2p, phonesForWord)
    ensures TokenError(token, g2p, phonesForWord).Some? ==>
      var e := TokenError(token, g2p, phonesForWord).value;
      WellFormed(e) && ReportedFor(e, token, g2p, phonesForWord)
  {
    var word := CleanWord(token);
    if Mispronounced(token, g2p, phonesForWord) {
      var user, reference := GetPhonemes(g2p, word), Split(phonesForWord(word)[0]);
      SplitGivesWords(phonesForWord(word)[0]);
      IdenticalIffEqual(user, reference);
    }
  }

  /** Analysis streams token by token: the records of a concatenation are the records of each part, in order. */
  lemma {:induction false} ErrorsAppend(a: seq<string>, b: seq<string>, g2p: string -> seq<string>, phonesForWord: string -> seq<string>)
    ensures Errors(a + b, g2p, phonesForWord) == Errors(a, g2p, phonesForWord) + Errors(b, g2p, phonesForWord)
    decreases |b|
  {
    if b == [] {
      assert a + b == a;
    } else {
      var b' := b[..|b| - 1];
      assert (a + b)[..|a + b| - 1] == a + b';
      ErrorsAppend(a, b', g2p, phonesForWord);
    }
  }

  /** At most one record per token. */
  lemma {:induction false} ErrorsAtMostOnePerToken(tokens: seq<string>, g2p: string -> seq<string>, phonesForWord: string -> seq<string>)
    ensures |Errors(tokens, g2p, phonesForWord)| <= |tokens|
  {
    if tokens != [] {
      ErrorsAtMostOnePerToken(tokens[..|tokens| - 1], g2p, phonesForWord);
    }
  }

  /** Every record is well formed and belongs to a token of the utterance. */
  lemma {:induction false} ErrorsSound(tokens: seq<string>, g2p: string -> seq<string>, phonesForWord: string -> seq<string>)
    ensures forall e :: e in Errors(tokens, g2p, phonesForWord) ==>
      WellFormed(e) && exists t :: t in tokens && ReportedFor(e, t, g2p, phonesForWord)
  {
    if tokens != [] {
      var init, last := tokens[..|tokens| - 1], tokens[|tokens| - 1];
      ErrorsSound(init, g2p, phonesForWord);
      TokenErrorSpec(last, g2p, phonesForWord);
      assert tokens == init + [last];
      forall e | e in Errors(tokens, g2p, phonesForWord)
        ensures WellFormed(e) && exists t :: t in tokens && ReportedFor(e, t, g2p, phonesForWord)
      {
        if e in Errors(init, g2p, phonesForWord) {
          var t :| t in init && ReportedFor(e, t, g2p, phonesForWord);
          assert t in tokens;
        } else {
          assert ReportedFor(e, last, g2p, phonesForWord);
        }
      }
    }
  }

  lemma MispronouncedIsReported(t: string, g2p: string -> seq<string>, phonesForWord: string -> seq<string>)
    requires Mispronounced(t, g2p, phonesForWord)
    ensures TokenError(t, g2p, phonesForWord).Some?
    ensures ReportedFor(TokenError(t, g2p, phonesForWord).value, t, g2p, phonesForWord)
  {
  }

  /** A single token contributes exactly its own optional record. */
  lemma ErrorsOfOne(t: string, g2p: string -> seq<string>, phonesForWord: string -> seq<string>)
    ensures Errors([t], g2p, phonesForWord) == TokenError(t, g2p, phonesForWord).ToSeq()
  {
    assert [t][..0] == [];
  }

  /** The record of the token at position `i`, if it has one, is among the utterance's records. */
  lemma {:induction false} TokenErrorInErrors(tokens: seq<string>, i: nat, g2p: string -> seq<string>, phonesForWord: string -> seq<string>)
    requires i < |tokens| && TokenError(tokens[i], g2p, phonesForWord).Some?
    ensures TokenError(tokens[i], g2p, phonesForWord).value in Errors(tokens, g2p, phonesForWord)
  {
    var init := tokens[..|tokens| - 1];
    var last := TokenError(tokens[|tokens| - 1], g2p, phonesForWord).ToSeq();
    assert Errors(tokens, g2p, phonesForWord) == Errors(init, g2p, phonesForWord) + last;
    if i < |tokens| - 1 {
      assert init[i] == tokens[i];
      TokenErrorInErrors(init, i, g2p, phonesForWord);
    } else {
      assert last == [TokenError(tokens[i], g2p, phonesForWord).value];
    }
  }

  /** Every mispronounced token of the utterance is reported. */
  lemma ErrorsComplete(tokens: seq<string>, i: nat, g2p: string -> seq<string>, phonesForWord: string -> seq<string>)
    requires i < |tokens| && Mispronounced(tokens[i], g2p, phonesForWord)
    ensures exists e :: e in Errors(tokens, g2p, phonesForWord) && ReportedFor(e, tokens[i], g2p, phonesForWord)
  {
    MispronouncedIsReported(tokens[i], g2p, phonesForWord);
    TokenErrorInErrors(tokens, i, g2p, phonesForWord);
  }

  /**
   * When the g2p model agrees with the first dictionary variant of every word, nothing is reported:
   * identical sequences never produce a record (and unknown words never do either).
   */
  lemma {:induction false} AgreementReportsNothing(tokens: seq<string>, g2p: string -> seq<string>, phonesForWord: string -> seq<string>)
    requires forall t :: t in tokens ==> !Mispronounced(t, g2p, phonesForWord)
    ensures Errors(tokens, g2p, phonesForWord) == []
  {
    if tokens != [] {
      var last := tokens[|tokens| - 1];
      TokenErrorSpec(last, g2p, phonesForWord);
      AgreementReportsNothing(tokens[..|tokens| - 1], g2p, phonesForWord);
    }
  }

  // ---------------------------------------------------------------------------------------------
  // Correction suggestions
  // ---------------------------------------------------------------------------------------------

  /** The one-line suggestion `get_correction_suggestions` builds for a record. */
  function SuggestionLine(e: PronunciationError): string {
    var shown := "[" + Join(" ", e.correctPhonemes) + "]";
    SuggestionOpening(e) + shown + " and pay attention to the differing phoneme."
  }

  function SuggestionOpening(e: PronunciationError): string {
    var said := "[" + Join(" ", e.userPhonemes) + "]";
    "For '" + e.word + "', you said " + said + ", try "
  }

  /** `get_correction_suggestions`: one line per record, in the same order. */
  method GetCorrectionSuggestions(errors: seq<PronunciationError>) returns (suggestions: seq<string>)
    ensures |suggestions| == |errors|
    ensures forall i :: 0 <= i < |errors| ==> suggestions[i] == SuggestionLine(errors[i])
  {
    suggestions := [];
    for i := 0 to |errors|
      invariant |suggestions| == i
      invariant forall j :: 0 <= j < i ==> suggestions[j] == SuggestionLine(errors[j])
    {
      suggestions := suggestions + [SuggestionLine(errors[i])];
    }
  }

  /** A suggestion opens with the quoted word. */
  lemma SuggestionNamesWord(e: PronunciationError)
    ensures StartsWith(SuggestionLine(e), "For '" + e.word + "'")
  {
    var head := "For '" + e.word + "'";
    var opening := SuggestionOpening(e);
    assert opening[..|head|] == head;
    var shown := "[" + Join(" ", e.correctPhonemes) + "]";
    var tail := shown + " and pay attention to the differing phoneme.";
    assert SuggestionLine(e) == opening + tail;
  }

  /** A suggestion shows what the learner said, bracketed and space-joined. */
  lemma SuggestionShowsUserPhonemes(e: PronunciationError)
    ensures Contains(SuggestionLine(e), "[" + Join(" ", e.userPhonemes) + "]")
  {
    var pre := "For '" + e.word + "', you said ";
    var said := "[" + Join(" ", e.userPhonemes) + "]";
    var shown := "[" + Join(" ", e.correctPhonemes) + "]";
    var after := ", try " + shown + " and pay attention to the differing phoneme.";
    assert SuggestionLine(e) == pre + said + after;
    assert (pre + said + after)[|pre|..|pre| + |said|] == said;
    assert OccursAt(SuggestionLine(e), said, |pre|);
  }

  /** A suggestion shows the reference, bracketed and space-joined. */
  lemma SuggestionShowsReference(e: PronunciationError)
    ensures Contains(SuggestionLine(e), "[" + Join(" ", e.correctPhonemes) + "]")
  {
    var before := SuggestionOpening(e);
    var shown := "[" + Join(" ", e.correctPhonemes) + "]";
    var after := " and pay attention to the differing phoneme.";
    assert (before + shown + after)[|before|..|before| + |shown|] == shown;
    assert OccursAt(SuggestionLine(e), shown, |before|);
  }

  /**
   * When the reference phonemes are words, as the dictionary's split gives them, the reference is
   * read back from the suggestion's bracketed text by splitting on whitespace.
   */
  lemma SuggestionReferenceReadsBack(e: PronunciationError)
    requires forall i :: 0 <= i < |e.correctPhonemes| ==> IsWord(e.correctPhonemes[i])
    ensures Split(Join(" ", e.correctPhonemes)) == e.correctPhonemes
  {
    SplitJoin(e.correctPhonemes);
  }

  // ---------------------------------------------------------------------------------------------
  // Worked examples
  // ---------------------------------------------------------------------------------------------

  /** `cat` said as in the dictionary: no divergence. */
  lemma CatMatches()
    ensures Classify(["K", "AE1", "T"], ["K", "AE1", "T"]) == Identical
  {
    IdenticalIffEqual(["K", "AE1", "T"], ["K", "AE1", "T"]);
  }

  /** `this` said with `D` for `DH`: a substitution at index 0, and the note names both phonemes. */
  lemma ThisWithD()
    ensures Classify(["D", "IH0", "S"], ["DH", "IH0", "S"]) == Substitution(0, "D", "DH")
    ensures Explanation(Classify(["D", "IH0", "S"], ["DH", "IH0", "S"])) == SubstitutionNote("D", "DH")
  {
    SubstitutionAtFirstDifference(["D", "IH0", "S"], ["DH", "IH0", "S"], 0);
  }

  /** Dropping the final phoneme is an omission. */
  lemma DroppedFinalPhoneme()
    ensures Classify(["K", "AE1"], ["K", "AE1", "T"]) == Omission
    ensures Explanation(Classify(["K", "AE1"], ["K", "AE1", "T"])) == OmissionNote
  {
    OmissionIffStrictPrefix(["K", "AE1"], ["K", "AE1", "T"]);
    assert ["K", "AE1", "T"][..2] == ["K", "AE1"];
  }

  /**
   * Only the first difference is located, with no alignment: dropping the vowel of `cat` shifts the
   * `T` into its place, and the drop is reported as a substitution of `T` for `AE1`, not an omission.
   */
  lemma DroppedMiddlePhoneme()
    ensures Classify(["K", "T"], ["K", "AE1", "T"]) == Substitution(1, "T", "AE1")
    ensures Classify(["K", "T"], ["K", "AE1", "T"]) != Omission
  {
    SubstitutionAtFirstDifference(["K", "T"], ["K", "AE1", "T"], 1);
  }
}
