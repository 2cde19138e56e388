/**
 * The dialogue state and session summary of `conversation_manager.py`.
 *
 * `ConversationManager` keeps the history of `(speaker, text)` turns. A non-goodbye input appends
 * the user's turn, builds a prompt from the last six turns and appends the system's reply. The
 * BlenderBot tokenizer, generator and decoder together are a parameter `model` from prompt to reply.
 *
 * `GenerateSummary` turns the stored conversation records into HTML parts joined by newlines: a
 * header, then per record its utterance, pattern sentence, grammar issues and pronunciation blocks
 * (the expected phoneme at the first mismatch highlighted), then the "no issues" sentences when no
 * record had any, then a closing line. Records arrive already decoded from their JSON columns; an
 * empty column reads as an empty list or dictionary.
 */
module Conversation {
  import opened Wrappers
  import opened Text
  import PronunciationAnalyzer
  import GrammarChecker

  /** One entry of the history: who spoke, and what. */
  datatype Turn = Turn(speaker: string, text: string)

  // ---------------------------------------------------------------------------------------------
  // The prompt
  // ---------------------------------------------------------------------------------------------

  /** `history[-6:]`: the last six turns, or all of them when there are fewer. */
  function Window(history: seq<Turn>): (recent: seq<Turn>)
    ensures |recent| == if |history| < 6 then |history| else 6
    ensures recent == history[|history| - |recent|..]
  {
    if |history| <= 6 then history else history[|history| - 6..]
  }

  /** `f"{speaker}: {text}\n"`. */
  function RenderTurn(t: Turn): string {
    t.speaker + ": " + t.text + "\n"
  }

  /** The dialogue text accumulated over a list of turns. */
  function RenderTurns(turns: seq<Turn>): string {
    if turns == [] then "" else RenderTurns(turns[..|turns| - 1]) + RenderTurn(turns[|turns| - 1])
  }

  /** The text handed to the model: the window's turns, then the cue `System:`. */
  function Prompt(history: seq<Turn>): string {
    RenderTurns(Window(history)) + "System:"
  }

  /** Rendering distributes over concatenation of turn lists. */
  lemma {:induction false} RenderTurnsAppend(a: seq<Turn>, b: seq<Turn>)
    ensures RenderTurns(a + b) == RenderTurns(a) + RenderTurns(b)
    decreases |b|
  {
    if b == [] {
      assert a + b == a;
    } else {
      var b', t := b[..|b| - 1], b[|b| - 1];
      assert (a + b)[..|a + b| - 1] == a + b';
      assert (a + b)[|a + b| - 1] == t;
      calc {
        RenderTurns(a + b);
        RenderTurns(a + b') + RenderTurn(t);
        { RenderTurnsAppend(a, b'); }
        (RenderTurns(a) + RenderTurns(b')) + RenderTurn(t);
        { AppendAssoc(RenderTurns(a), RenderTurns(b'), RenderTurn(t)); }
        RenderTurns(a) + (RenderTurns(b') + RenderTurn(t));
      }
    }
  }

  /** Only the last six turns reach the model: older history never changes the prompt. */
  lemma PromptIgnoresOlderTurns(older: seq<Turn>, recent: seq<Turn>)
    requires |recent| >= 6
    ensures Prompt(older + recent) == Prompt(recent)
  {
    var h := older + recent;
    assert h[|h| - 6..] == recent[|recent| - 6..];
  }

  /** While the history is short, each new turn extends the previous prompt's dialogue by its own line. */
  lemma PromptGrows(history: seq<Turn>, t: Turn)
    requires |history| < 6
    ensures Prompt(history + [t]) == RenderTurns(history) + RenderTurn(t) + "System:"
  {
    assert (history + [t])[..|history|] == history;
  }

  /** Every prompt ends with the cue for the system's line. */
  lemma PromptEndsWithCue(history: seq<Turn>)
    ensures EndsWith(Prompt(history), "System:")
  {
    var p := Prompt(history);
    assert p[|p| - 7..] == "System:";
  }

  /** A first greeting becomes a two-line prompt. */
  lemma FirstPrompt()
    ensures Prompt([Turn("User", "hi")]) == "User: hi\nSystem:"
  {
    assert [Turn("User", "hi")][..0] == [];
  }

  /** A history of user turns each answered by a system turn. */
  ghost predicate Alternating(history: seq<Turn>) {
    && |history| % 2 == 0
    && forall i :: 0 <= i < |history| ==> history[i].speaker == (if i % 2 == 0 then "User" else "System")
  }

  /** Appending a user turn and the system's answer keeps the history alternating. */
  lemma AlternatingExchange(history: seq<Turn>, userText: string, reply: string)
    requires Alternating(history)
    ensures Alternating(history + [Turn("User", userText), Turn("System", reply)])
  {
    var h := history + [Turn("User", userText), Turn("System", reply)];
    forall i | 0 <= i < |h| ensures h[i].speaker == (if i % 2 == 0 then "User" else "System") {
      if i >= |history| {
        assert i == |history| || i == |history| + 1;
      }
    }
  }

  class ConversationManager {
    var history: seq<Turn>

    constructor()
      ensures history == []
    {
      history := [];
    }

    /**
     * `handle_input`: a goodbye changes nothing and returns no reply (the caller produces the
     * summary); any other intent records the user's turn and the system's reply to it.
     */
    method HandleInput(intent: string, userText: string, model: string -> string) returns (response: Option<string>)
      modifies this
      ensures intent == "goodbye" ==> response == None && history == old(history)
      ensures intent != "goodbye" ==>
        && response == Some(model(Prompt(old(history) + [Turn("User", userText)])))
        && history == old(history) + [Turn("User", userText), Turn("System", response.value)]
      ensures Alternating(old(history)) ==> Alternating(history)
    {
      if intent == "goodbye" {
        return None;
      }
      history := history + [Turn("User", userText)];
      var reply := GenerateResponse(model);
      response := Some(reply);
      assert history == old(history) + [Turn("User", userText), Turn("System", reply)];
      if Alternating(old(history)) {
        AlternatingExchange(old(history), userText, reply);
      }
    }

    /** `generate_response`: build the prompt from the window, ask the model, record its reply. */
    method GenerateResponse(model: string -> string) returns (response: string)
      modifies this
      ensures response == model(Prompt(old(history)))
      ensures history == old(history) + [Turn("System", response)]
    {
      var dialogue := "";
      var recent := Window(history);
      for i := 0 to |recent|
        invariant dialogue == RenderTurns(recent[..i])
      {
        var turn := recent[i];
        assert recent[..i + 1][..i] == recent[..i];
        dialogue := dialogue + RenderTurn(turn);
      }
      assert recent[..|recent|] == recent;
      dialogue := dialogue + "System:";
      response := model(dialogue);
      history := history + [Turn("System", response)];
    }
  }

  // ---------------------------------------------------------------------------------------------
  // Stored records
  // ---------------------------------------------------------------------------------------------

  /** The decoded `pattern_analysis` dictionary: each key may be missing. */
  datatype PatternDict = PatternDict(fillerCount: Option<int>, category: Option<string>) {
    /** The empty dictionary, which Python treats as false. */
    predicate IsEmpty() { fillerCount.None? && category.None? }
  }

  /** A stored exchange with its decoded analyses. */
  datatype ConversationRecord = ConversationRecord(
    userText: string,
    systemResponse: string,
    grammarErrors: seq<GrammarChecker.GrammarError>,
    pronunciationErrors: seq<PronunciationAnalyzer.PronunciationError>,
    patternAnalysis: PatternDict)

  // ---------------------------------------------------------------------------------------------
  // Summary parts
  // ---------------------------------------------------------------------------------------------

  const SummaryHeader := "<h2>Detailed Summary of Your Session:</h2>"

  const NoGrammarNote := "<p>No significant grammar issues detected.</p>"

  const NoPronunciationNote := "<p>No significant pronunciation issues detected.</p>"

  const Closing := "<p>Thank you for practicing! Goodbye.</p>"

  function UtteranceHeader(userText: string): string {
    "<h4>Your utterance: '" + (userText + "'</h4>")
  }

  /**
   * The pattern sentence, with a missing count read as 0 and a missing category as `statement`.
   * The count is mentioned exactly when it is positive.
   */
  function PatternSentence(pa: PatternDict): string {
    var fillerCount := pa.fillerCount.GetOr(0);
    var category := pa.category.GetOr("statement");
    if fillerCount > 0 then
      "<p>This was categorized as a " + (category + " and contained " + Decimal(fillerCount) + " filler words.</p>")
    else
      "<p>This was categorized as a " + (category + " with no filler words detected.</p>")
  }

  /** The count is mentioned, with the "contained N filler words" wording, exactly when it is positive. */
  lemma FillerWordingIff(pa: PatternDict)
    ensures pa.fillerCount.GetOr(0) > 0 <==> EndsWith(PatternSentence(pa), " filler words.</p>")
  {
    var s := PatternSentence(pa);
    var fillerCount, category := pa.fillerCount.GetOr(0), pa.category.GetOr("statement");
    if fillerCount > 0 {
      var head := "<p>This was categorized as a " + category + " and contained " + Decimal(fillerCount);
      assert s == head + " filler words.</p>";
    } else {
      var head := "<p>This was categorized as a " + category;
      var tail := " with no filler words detected.</p>";
      assert s == "<p>This was categorized as a " + (category + tail);
      AppendAssoc("<p>This was categorized as a ", category, tail);
      assert s[|s| - 18] == tail[|tail| - 18] == 'o';
    }
  }

  /** The default of `pa.get` for the count: no count means no filler words. */
  lemma DefaultFillerCount(pa: PatternDict)
    requires pa.fillerCount.None?
    ensures EndsWith(PatternSentence(pa), " with no filler words detected.</p>")
  {
    var s := PatternSentence(pa);
    var category := pa.category.GetOr("statement");
    var tail := " with no filler words detected.</p>";
    assert s == "<p>This was categorized as a " + (category + tail);
    AppendAssoc("<p>This was categorized as a ", category, tail);
    assert s[|s| - |tail|..] == tail;
  }

  /** The default of `pa.get` for the category: no category means `statement`. */
  lemma DefaultCategory(pa: PatternDict)
    requires pa.category.None?
    ensures StartsWith(PatternSentence(pa), "<p>This was categorized as a statement")
  {
    var fillerCount := pa.fillerCount.GetOr(0);
    var opening := "<p>This was categorized as a ";
    var tail := if fillerCount > 0 then " and contained " + Decimal(fillerCount) + " filler words.</p>"
      else " with no filler words detected.</p>";
    assert PatternSentence(pa) == opening + ("statement" + tail);
    AppendAssoc(opening, "statement", tail);
    PrefixOfAppend(opening + "statement", tail);
    assert opening + "statement" == "<p>This was categorized as a statement";
  }

  function GrammarLine(e: GrammarChecker.GrammarError): string {
    "<p><strong>Grammar Issue:</strong> In '"
      + (e.originalSentence + "', '" + e.errorWord + "' should be '" + e.suggestion + "'. " + e.explanation + "</p>")
  }

  /** One expected ARPAbet phoneme: highlighted with a button to hear it, or plain. */
  function ArpabetPiece(ph: string, highlighted: bool): string {
    if highlighted then
      "<span style=\"color:red;\">" + ph + "</span> <button class=\"btn btn-sm btn-info\" onclick=\"playPhoneme('"
        + ph + "')\">Hear</button> "
    else ph + " "
  }

  /** One expected IPA symbol: highlighted, or plain. */
  function IpaPiece(ph: string, highlighted: bool): string {
    if highlighted then "<span style=\"color:red;\">" + ph + "</span> " else ph + " "
  }

  /** The pieces of the expected sequence, the one at `mismatchIndex` highlighted. */
  function ArpabetPieces(phonemes: seq<string>, mismatchIndex: int): (pieces: seq<string>)
    ensures |pieces| == |phonemes|
  {
    seq(|phonemes|, i requires 0 <= i < |phonemes| => ArpabetPiece(phonemes[i], i == mismatchIndex))
  }

  function IpaPieces(symbols: seq<string>, mismatchIndex: int): (pieces: seq<string>)
    ensures |pieces| == |symbols|
  {
    seq(|symbols|, i requires 0 <= i < |symbols| => IpaPiece(symbols[i], i == mismatchIndex))
  }

  /** The card for one pronunciation record. */
  function PronunciationBlock(e: PronunciationAnalyzer.PronunciationError): string {
    "<div class='card card-body bg-light mb-3'>" + CardBody(e) + "</div>"
  }

  /** What the card shows: both sequences in both alphabets, the expected ones highlighted, then the note. */
  function CardBody(e: PronunciationAnalyzer.PronunciationError): string {
    var k := PronunciationAnalyzer.FirstMismatch(e.userPhonemes, e.correctPhonemes);
    "<strong>Pronunciation Issue:</strong> The word '" + e.word + "' was mispronounced.<br>"
      + "You said (ARPAbet): [" + Join(" ", e.userPhonemes) + "]<br>"
      + "You said (IPA): [" + Join(" ", e.userIpa) + "]<br>"
      + "Try (ARPAbet): [" + Concat(ArpabetPieces(e.correctPhonemes, k)) + "]<br>"
      + "Try (IPA): [" + Concat(IpaPieces(e.correctIpa, k)) + "]<br>"
      + e.differenceNote
  }

  function GrammarLines(errors: seq<GrammarChecker.GrammarError>): seq<string> {
    if errors == [] then [] else GrammarLines(errors[..|errors| - 1]) + [GrammarLine(errors[|errors| - 1])]
  }

  function PronunciationBlocks(errors: seq<PronunciationAnalyzer.PronunciationError>): seq<string> {
    if errors == [] then [] else PronunciationBlocks(errors[..|errors| - 1]) + [PronunciationBlock(errors[|errors| - 1])]
  }

  /** Whether a record has anything to show: Python's `ge or pe or pa`. */
  predicate HasAnalysis(c: ConversationRecord) {
    c.grammarErrors != [] || c.pronunciationErrors != [] || !c.patternAnalysis.IsEmpty()
  }

  /** The parts one record contributes, in the order the loop appends them. */
  function RecordParts(c: ConversationRecord): seq<string> {
    (if HasAnalysis(c) then [UtteranceHeader(c.userText)] else [])
      + (if !c.patternAnalysis.IsEmpty() then [PatternSentence(c.patternAnalysis)] else [])
      + GrammarLines(c.grammarErrors)
      + PronunciationBlocks(c.pronunciationErrors)
  }

  function RecordsParts(convos: seq<ConversationRecord>): seq<string> {
    if convos == [] then [] else RecordsParts(convos[..|convos| - 1]) + RecordParts(convos[|convos| - 1])
  }

  /** The flag `grammar_any` after the loop has seen `convos`. */
  predicate AnyGrammar(convos: seq<ConversationRecord>) {
    convos != [] && (AnyGrammar(convos[..|convos| - 1]) || convos[|convos| - 1].grammarErrors != [])
  }

  /** The flag `pron_any` after the loop has seen `convos`. */
  predicate AnyPronunciation(convos: seq<ConversationRecord>) {
    convos != [] && (AnyPronunciation(convos[..|convos| - 1]) || convos[|convos| - 1].pronunciationErrors != [])
  }

  /** All parts of the summary, before they are joined with newlines. */
  function SummaryParts(convos: seq<ConversationRecord>): seq<string> {
    [SummaryHeader] + RecordsParts(convos)
      + (if !AnyGrammar(convos) then [NoGrammarNote] else [])
      + (if !AnyPronunciation(convos) then [NoPronunciationNote] else [])
      + [Closing]
  }

  // ---------------------------------------------------------------------------------------------
  // Building the summary
  // ---------------------------------------------------------------------------------------------

  /** The loop with `break` that finds the first differing position of the common prefix, or -1. */
  method MismatchIndex(user: seq<string>, reference: seq<string>) returns (mismatchIndex: int)
    ensures mismatchIndex == PronunciationAnalyzer.FirstMismatch(user, reference)
  {
    mismatchIndex := -1;
    for i := 0 to PronunciationAnalyzer.Min(|user|, |reference|)
      invariant mismatchIndex == -1
      invariant forall j :: 0 <= j < i ==> user[j] == reference[j]
    {
      if user[i] != reference[i] {
        mismatchIndex := i;
        break;
      }
    }
  }

  /** `correctPhHTML`: the expected phonemes, each followed by a space, the mismatch highlighted. */
  method HighlightPhonemes(phonemes: seq<string>, mismatchIndex: int) returns (html: string)
    ensures html == Concat(ArpabetPieces(phonemes, mismatchIndex))
  {
    var pieces := ArpabetPieces(phonemes, mismatchIndex);
    html := "";
    for i := 0 to |phonemes|
      invariant html == Concat(pieces[..i])
    {
      var ph := phonemes[i];
      assert pieces[..i + 1][..i] == pieces[..i];
      if i == mismatchIndex {
        html := html + ("<span style=\"color:red;\">" + ph + "</span> <button class=\"btn btn-sm btn-info\" onclick=\"playPhoneme('"
          + ph + "')\">Hear</button> ");
      } else {
        html := html + (ph + " ");
      }
    }
    assert pieces[..|phonemes|] == pieces;
  }

  /** `correctIpaHTML`: the expected IPA symbols, each followed by a space, the mismatch highlighted. */
  method HighlightIpa(symbols: seq<string>, mismatchIndex: int) returns (html: string)
    ensures html == Concat(IpaPieces(symbols, mismatchIndex))
  {
    var pieces := IpaPieces(symbols, mismatchIndex);
    html := "";
    for i := 0 to |symbols|
      invariant html == Concat(pieces[..i])
    {
      var ph := symbols[i];
      assert pieces[..i + 1][..i] == pieces[..i];
      if i == mismatchIndex {
        html := html + ("<span style=\"color:red;\">" + ph + "</span> ");
      } else {
        html := html + (ph + " ");
      }
    }
    assert pieces[..|symbols|] == pieces;
  }

  /** The body of the loop over pronunciation records: one card. */
  method PronunciationCard(e: PronunciationAnalyzer.PronunciationError) returns (html: string)
    ensures html == PronunciationBlock(e)
  {
    var userPh := Join(" ", e.userPhonemes);
    var userIpa := Join(" ", e.userIpa);
    var mismatchIndex := MismatchIndex(e.userPhonemes, e.correctPhonemes);
    var correctPhHtml := HighlightPhonemes(e.correctPhonemes, mismatchIndex);
    var correctIpaHtml := HighlightIpa(e.correctIpa, mismatchIndex);
    var body := "<strong>Pronunciation Issue:</strong> The word '" + e.word + "' was mispronounced.<br>"
      + "You said (ARPAbet): [" + userPh + "]<br>"
      + "You said (IPA): [" + userIpa + "]<br>"
      + "Try (ARPAbet): [" + correctPhHtml + "]<br>"
      + "Try (IPA): [" + correctIpaHtml + "]<br>"
      + e.differenceNote;
    html := "<div class='card card-body bg-light mb-3'>" + body + "</div>";
  }

  /** The loop over a record's grammar errors: one line each, and the flag raised when there is one. */
  method AppendGrammarLines(parts: seq<string>, ge: seq<GrammarChecker.GrammarError>, grammarAny: bool)
    returns (parts': seq<string>, grammarAny': bool)
    ensures parts' == parts + GrammarLines(ge)
    ensures grammarAny' == (grammarAny || ge != [])
  {
    parts', grammarAny' := parts, grammarAny;
    for j := 0 to |ge|
      invariant parts' == parts + GrammarLines(ge[..j])
      invariant grammarAny' == (grammarAny || j > 0)
    {
      grammarAny' := true;
      assert ge[..j + 1][..j] == ge[..j];
      AppendAssoc(parts, GrammarLines(ge[..j]), [GrammarLine(ge[j])]);
      parts' := parts' + [GrammarLine(ge[j])];
    }
    assert ge[..|ge|] == ge;
  }

  /** The loop over a record's pronunciation errors: one card each, and the flag raised when there is one. */
  method AppendPronunciationCards(parts: seq<string>, pe: seq<PronunciationAnalyzer.PronunciationError>, pronAny: bool)
    returns (parts': seq<string>, pronAny': bool)
    ensures parts' == parts + PronunciationBlocks(pe)
    ensures pronAny' == (pronAny || pe != [])
  {
    parts', pronAny' := parts, pronAny;
    for j := 0 to |pe|
      invariant parts' == parts + PronunciationBlocks(pe[..j])
      invariant pronAny' == (pronAny || j > 0)
    {
      pronAny' := true;
      assert pe[..j + 1][..j] == pe[..j];
      var card := PronunciationCard(pe[j]);
      AppendAssoc(parts, PronunciationBlocks(pe[..j]), [card]);
      parts' := parts' + [card];
    }
    assert pe[..|pe|] == pe;
  }

  /** One pass of the loop over records: its parts, and the two flags updated by its inner loops. */
  method SummarizeRecord(c: ConversationRecord, grammarAny: bool, pronAny: bool)
    returns (parts: seq<string>, grammarAny': bool, pronAny': bool)
    ensures parts == RecordParts(c)
    ensures grammarAny' == (grammarAny || c.grammarErrors != [])
    ensures pronAny' == (pronAny || c.pronunciationErrors != [])
  {
    var ge, pe, pa := c.grammarErrors, c.pronunciationErrors, c.patternAnalysis;
    var header := [];
    if ge != [] || pe != [] || !pa.IsEmpty() {
      header := [UtteranceHeader(c.userText)];
    }
    var pattern := [];
    if !pa.IsEmpty() {
      var fillerCount := pa.fillerCount.GetOr(0);
      var category := pa.category.GetOr("statement");
      if fillerCount > 0 {
        pattern := ["<p>This was categorized as a " + (category + " and contained " + Decimal(fillerCount) + " filler words.</p>")];
      } else {
        pattern := ["<p>This was categorized as a " + (category + " with no filler words detected.</p>")];
      }
    }
    parts, grammarAny' := AppendGrammarLines(header + pattern, ge, grammarAny);
    parts, pronAny' := AppendPronunciationCards(parts, pe, pronAny);
  }

  /** What one more record does to the accumulated parts and flags. */
  lemma RecordsStep(convos: seq<ConversationRecord>, n: nat)
    requires n < |convos|
    ensures RecordsParts(convos[..n + 1]) == RecordsParts(convos[..n]) + RecordParts(convos[n])
    ensures AnyGrammar(convos[..n + 1]) == (AnyGrammar(convos[..n]) || convos[n].grammarErrors != [])
    ensures AnyPronunciation(convos[..n + 1]) == (AnyPronunciation(convos[..n]) || convos[n].pronunciationErrors != [])
  {
    assert convos[..n + 1][..n] == convos[..n];
  }

  /** `generate_summary`: the session's HTML summary. */
  method GenerateSummary(convos: seq<ConversationRecord>) returns (summary: string)
    ensures summary == Join("\n", SummaryParts(convos))
  {
    var summaryParts := [SummaryHeader];
    var grammarAny := false;
    var pronAny := false;
    for n := 0 to |convos|
      invariant summaryParts == [SummaryHeader] + RecordsParts(convos[..n])
      invariant grammarAny == AnyGrammar(convos[..n])
      invariant pronAny == AnyPronunciation(convos[..n])
    {
      RecordsStep(convos, n);
      AppendAssoc([SummaryHeader], RecordsParts(convos[..n]), RecordParts(convos[n]));
      var parts;
      parts, grammarAny, pronAny := SummarizeRecord(convos[n], grammarAny, pronAny);
      summaryParts := summaryParts + parts;
    }
    assert convos[..|convos|] == convos;
    var noGrammar := if !grammarAny then [NoGrammarNote] else [];
    var noPron := if !pronAny then [NoPronunciationNote] else [];
    summaryParts := summaryParts + noGrammar + noPron + [Closing];
    summary := Join("\n", summaryParts);
  }

  // ---------------------------------------------------------------------------------------------
  // What the summary shows
  // ---------------------------------------------------------------------------------------------

  /** The summary opens with the fixed header and ends with the closing thank-you. */
  lemma SummaryFrame(convos: seq<ConversationRecord>)
    ensures SummaryParts(convos)[0] == SummaryHeader
    ensures SummaryParts(convos)[|SummaryParts(convos)| - 1] == Closing
    ensures StartsWith(Join("\n", SummaryParts(convos)), SummaryHeader)
    ensures EndsWith(Join("\n", SummaryParts(convos)), Closing)
  {
    JoinFrame("\n", SummaryParts(convos));
  }

  /** A session without records gets the header, both "no issues" sentences and the closing line. */
  lemma EmptySession()
    ensures SummaryParts([]) == [SummaryHeader, NoGrammarNote, NoPronunciationNote, Closing]
  {
  }

  /** The records' parts of a concatenation of sessions are those of each, in order. */
  lemma {:induction false} RecordsPartsAppend(a: seq<ConversationRecord>, b: seq<ConversationRecord>)
    ensures RecordsParts(a + b) == RecordsParts(a) + RecordsParts(b)
    decreases |b|
  {
    if b == [] {
      assert a + b == a;
    } else {
      var b', c := b[..|b| - 1], b[|b| - 1];
      assert (a + b)[..|a + b| - 1] == a + b';
      RecordsPartsAppend(a, b');
      AppendAssoc(RecordsParts(a), RecordsParts(b'), RecordParts(c));
    }
  }

  /** `grammar_any` is raised exactly when some record has a grammar error. */
  lemma {:induction false} AnyGrammarIff(convos: seq<ConversationRecord>)
    ensures AnyGrammar(convos) <==> exists i :: 0 <= i < |convos| && convos[i].grammarErrors != []
  {
    if convos != [] {
      var init := convos[..|convos| - 1];
      AnyGrammarIff(init);
      if exists i :: 0 <= i < |convos| && convos[i].grammarErrors != [] {
        var i :| 0 <= i < |convos| && convos[i].grammarErrors != [];
        if i < |init| {
          assert init[i] == convos[i];
        }
      }
    }
  }

  /** `pron_any` is raised exactly when some record has a pronunciation error. */
  lemma {:induction false} AnyPronunciationIff(convos: seq<ConversationRecord>)
    ensures AnyPronunciation(convos) <==> exists i :: 0 <= i < |convos| && convos[i].pronunciationErrors != []
  {
    if convos != [] {
      var init := convos[..|convos| - 1];
      AnyPronunciationIff(init);
      if exists i :: 0 <= i < |convos| && convos[i].pronunciationErrors != [] {
        var i :| 0 <= i < |convos| && convos[i].pronunciationErrors != [];
        if i < |init| {
          assert init[i] == convos[i];
        }
      }
    }
  }

  /** The fourth character of a part, which tells the kinds of part apart. */
  function Marker(part: string): char {
    if |part| > 3 then part[3] else ' '
  }

  /** The markers of a record's parts: `>` utterance header, `T` pattern sentence, `<` grammar line, `v` card. */
  predicate RecordMarker(part: string) {
    Marker(part) in {'>', 'T', '<', 'v'}
  }

  lemma UtteranceHeaderMarker(userText: string)
    ensures Marker(UtteranceHeader(userText)) == '>'
  {
  }

  lemma PatternSentenceMarker(pa: PatternDict)
    ensures Marker(PatternSentence(pa)) == 'T'
  {
  }

  lemma GrammarLineMarker(e: GrammarChecker.GrammarError)
    ensures Marker(GrammarLine(e)) == '<'
  {
  }

  lemma PronunciationBlockMarker(e: PronunciationAnalyzer.PronunciationError)
    ensures Marker(PronunciationBlock(e)) == 'v'
  {
    var open := "<div class='card card-body bg-light mb-3'>";
    assert (open + CardBody(e))[3] == 'v';
  }

  lemma NotesMarker()
    ensures Marker(NoGrammarNote) == 'N' && Marker(NoPronunciationNote) == 'N'
  {
    assert |NoGrammarNote| > 3 && NoGrammarNote[3] == 'N';
    assert |NoPronunciationNote| > 3 && NoPronunciationNote[3] == 'N';
  }

  lemma {:induction false} GrammarLinesMarker(errors: seq<GrammarChecker.GrammarError>)
    ensures forall p :: p in GrammarLines(errors) ==> Marker(p) == '<'
  {
    if errors != [] {
      GrammarLinesMarker(errors[..|errors| - 1]);
      GrammarLineMarker(errors[|errors| - 1]);
    }
  }

  lemma {:induction false} PronunciationBlocksMarker(errors: seq<PronunciationAnalyzer.PronunciationError>)
    ensures forall p :: p in PronunciationBlocks(errors) ==> Marker(p) == 'v'
  {
    if errors != [] {
      PronunciationBlocksMarker(errors[..|errors| - 1]);
      PronunciationBlockMarker(errors[|errors| - 1]);
    }
  }

  /** Every part a record contributes has a record marker. */
  lemma RecordPartsMarkers(c: ConversationRecord)
    ensures forall p :: p in RecordParts(c) ==> RecordMarker(p)
  {
    var header := if HasAnalysis(c) then [UtteranceHeader(c.userText)] else [];
    var pattern := if !c.patternAnalysis.IsEmpty() then [PatternSentence(c.patternAnalysis)] else [];
    var grammar, cards := GrammarLines(c.grammarErrors), PronunciationBlocks(c.pronunciationErrors);
    assert RecordParts(c) == header + pattern + grammar + cards;
    UtteranceHeaderMarker(c.userText);
    PatternSentenceMarker(c.patternAnalysis);
    GrammarLinesMarker(c.grammarErrors);
    PronunciationBlocksMarker(c.pronunciationErrors);
    PartsOfFour(header, pattern, grammar, cards);
  }

  /** Of a record's parts, only its utterance header has the marker `>`. */
  lemma OnlyHeaderMarkedAngle(c: ConversationRecord)
    ensures forall p :: p in RecordParts(c) && Marker(p) == '>' ==> p == UtteranceHeader(c.userText) && HasAnalysis(c)
  {
    var header := if HasAnalysis(c) then [UtteranceHeader(c.userText)] else [];
    var pattern := if !c.patternAnalysis.IsEmpty() then [PatternSentence(c.patternAnalysis)] else [];
    var grammar, cards := GrammarLines(c.grammarErrors), PronunciationBlocks(c.pronunciationErrors);
    assert RecordParts(c) == header + pattern + grammar + cards;
    PatternSentenceMarker(c.patternAnalysis);
    GrammarLinesMarker(c.grammarErrors);
    PronunciationBlocksMarker(c.pronunciationErrors);
    PartsOfFour(header, pattern, grammar, cards);
  }

  lemma PartsOfFour(header: seq<string>, pattern: seq<string>, grammar: seq<string>, cards: seq<string>)
    ensures forall p :: p in header + pattern + grammar + cards ==> p in header || p in pattern || p in grammar || p in cards
  {
  }

  lemma {:induction false} RecordsPartsMarkers(convos: seq<ConversationRecord>)
    ensures forall p :: p in RecordsParts(convos) ==> RecordMarker(p)
  {
    if convos != [] {
      RecordsPartsMarkers(convos[..|convos| - 1]);
      RecordPartsMarkers(convos[|convos| - 1]);
    }
  }

  /** A record's utterance is shown exactly when it has grammar errors, pronunciation errors or a pattern analysis. */
  lemma UtteranceHeaderIff(c: ConversationRecord)
    ensures UtteranceHeader(c.userText) in RecordParts(c) <==> HasAnalysis(c)
  {
    OnlyHeaderMarkedAngle(c);
    UtteranceHeaderMarker(c.userText);
  }

  /** The fixed sentences are pairwise distinct. */
  lemma FixedPartsDistinct()
    ensures SummaryHeader != NoGrammarNote && SummaryHeader != NoPronunciationNote
    ensures NoGrammarNote != NoPronunciationNote && NoGrammarNote != Closing && NoPronunciationNote != Closing
  {
    assert |SummaryHeader| == 42 && |NoGrammarNote| == 46 && |NoPronunciationNote| == 52 && |Closing| == 41;
  }

  /** A fixed note is in the summary exactly when it was appended after the records. */
  lemma NoteInSummary(convos: seq<ConversationRecord>, note: string, added: bool)
    requires Marker(note) == 'N' && note != SummaryHeader && note != Closing
    requires added <==> note in (if !AnyGrammar(convos) then [NoGrammarNote] else []) + (if !AnyPronunciation(convos) then [NoPronunciationNote] else [])
    ensures note in SummaryParts(convos) <==> added
  {
    var rp := RecordsParts(convos);
    var ng := if !AnyGrammar(convos) then [NoGrammarNote] else [];
    var np := if !AnyPronunciation(convos) then [NoPronunciationNote] else [];
    assert SummaryParts(convos) == [SummaryHeader] + rp + ng + np + [Closing];
    RecordsPartsMarkers(convos);
    assert note !in rp;
  }

  /** "No significant grammar issues detected." is in the summary exactly when no record has a grammar error. */
  lemma NoGrammarNoteIff(convos: seq<ConversationRecord>)
    ensures NoGrammarNote in SummaryParts(convos) <==> forall i :: 0 <= i < |convos| ==> convos[i].grammarErrors == []
  {
    AnyGrammarIff(convos);
    NotesMarker();
    FixedPartsDistinct();
    NoteInSummary(convos, NoGrammarNote, !AnyGrammar(convos));
  }

  /** "No significant pronunciation issues detected." is in the summary exactly when no record has a pronunciation error. */
  lemma NoPronunciationNoteIff(convos: seq<ConversationRecord>)
    ensures NoPronunciationNote in SummaryParts(convos) <==> forall i :: 0 <= i < |convos| ==> convos[i].pronunciationErrors == []
  {
    AnyPronunciationIff(convos);
    NotesMarker();
    FixedPartsDistinct();
    NoteInSummary(convos, NoPronunciationNote, !AnyPronunciation(convos));
  }

  /**
   * At a substitution, exactly the position of the first difference is highlighted: the expected
   * phoneme there, with its button, and the IPA symbol there.
   */
  lemma HighlightAtSubstitution(user: seq<string>, reference: seq<string>, symbols: seq<string>)
    requires PronunciationAnalyzer.Classify(user, reference).Substitution?
    ensures var d := PronunciationAnalyzer.Classify(user, reference);
      var k := PronunciationAnalyzer.FirstMismatch(user, reference);
      && ArpabetPieces(reference, k)[d.index] == ArpabetPiece(d.expected, true)
      && (d.index < |symbols| ==> IpaPieces(symbols, k)[d.index] == IpaPiece(symbols[d.index], true))
      && (forall i :: 0 <= i < |reference| && i != d.index ==> ArpabetPieces(reference, k)[i] == reference[i] + " ")
      && (forall i :: 0 <= i < |symbols| && i != d.index ==> IpaPieces(symbols, k)[i] == symbols[i] + " ")
  {
    var k := PronunciationAnalyzer.FirstMismatch(user, reference);
    assert PronunciationAnalyzer.Classify(user, reference) == PronunciationAnalyzer.Substitution(k, user[k], reference[k]);
  }

  /**
   * Without a substitution (an omission or an insertion) nothing is highlighted: both lines are the
   * plain space-joined sequences followed by a space.
   */
  lemma NoHighlightWithoutSubstitution(user: seq<string>, reference: seq<string>, symbols: seq<string>)
    requires !PronunciationAnalyzer.Classify(user, reference).Substitution?
    ensures var k := PronunciationAnalyzer.FirstMismatch(user, reference);
      && (reference != [] ==> Concat(ArpabetPieces(reference, k)) == Join(" ", reference) + " ")
      && (symbols != [] ==> Concat(IpaPieces(symbols, k)) == Join(" ", symbols) + " ")
  {
    var k := PronunciationAnalyzer.FirstMismatch(user, reference);
    assert k == -1;
    if reference != [] {
      ConcatSpaced(reference, ArpabetPieces(reference, k));
    }
    if symbols != [] {
      ConcatSpaced(symbols, IpaPieces(symbols, k));
    }
  }
}
