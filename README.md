# Pronunciation feedback pipeline, modelled in Dafny

This project models the backend of a spoken-English practice assistant. The assistant listens to a
learner and produces feedback on what they said:

- the pronunciation of each word, compared phoneme by phoneme with a pronouncing dictionary;
- grammar issues reported by LanguageTool;
- a short pattern analysis: the filler-word count and whether the utterance is a greeting, a
  question or a statement;
- a reply in the ongoing dialogue;
- at the end of the session, an HTML summary of every utterance.

Each Python module of that core is one Dafny module:

| module | file | models |
|---|---|---|
| `PronunciationAnalyzer` | `pronunciation_analyzer.dfy` | `backend/modules/pronunciation_analyzer.py` |
| `PhonemeMap` | `phoneme_map.dfy` | `backend/modules/phoneme_map.py` |
| `PhonemeAudio` | `phoneme_audio.dfy` | `backend/modules/phoneme_audio.py` |
| `Conversation` | `conversation_manager.dfy` | `backend/modules/conversation_manager.py` |
| `GrammarChecker` | `grammar_checker.dfy` | `backend/modules/grammar_checker.py` |
| `PatternRecognizer` | `pattern_recognizer.dfy` | `backend/modules/pattern_recognizer.py` |
| `ResponseGenerator` | `response_generator.dfy` | `backend/modules/response_generator.py` |
| `Text` | `text.dfy` | the Python string operations these modules use |
| `Wrappers` | `wrappers.dfy` | `Option` |

## How it is modelled

**Text.** Python strings are `seq<char>`. The `Text` module defines what the core uses:
`str.lower`, `str.isalpha`, `str.strip`, `str.split()` with no argument, `sep.join`, `in` on
strings, `endswith`, clamped slicing and decimal formatting.

**Outside collaborators are function-typed parameters.** These are:

- the grapheme-to-phoneme model `G2p`;
- `pronouncing.phones_for_word`;
- the BlenderBot tokenizer and model, taken together as one function from prompt to reply;
- the spaCy filler matcher;
- `str.istitle`.

LanguageTool's result is passed in as a list of `Match` values.

**Pure logic is written as functions, and code that works step by step as methods.**

- The loops are methods with loop invariants: `analyze`, `phoneme_difference_explanation`,
  `get_correction_suggestions`, `check`, `generate_summary` and its inner loops.
- Each method is proved equal to a specification function.
- The properties the source promises are lemmas about those functions: soundness and
  completeness of the reported records, the if-and-only-if conditions on the summary notes,
  the highlighted position, and so on.
- `ConversationManager` is a class whose `history` field the methods update, as the source does.

**Dictionary literals.** The two phoneme tables are Python dict literals in which some keys occur
twice. Python keeps the last definition of a repeated key. Each table is therefore written as a
chain of comparisons that runs from the literal's last entry back to its first, so the first key
that matches is the definition Python keeps:

- `PhonemeMap.LatestIpa` first selects the keys of `p`'s length, then runs that chain within the
  group. A key can only equal a `p` of its own length, so the grouping changes no result.
- `PhonemeAudio.LatestExample` is one chain over the whole literal, without grouping.

A second chain in source order (`FirstIpa`, `FirstExample`) shows which keys depend on the
last-definition rule. In `phoneme_map.py` only `AH0` does, and it converts to `ʌ`, not `ə`.

**Modelling choices:**

- Highlighting builds the same HTML strings as `generate_summary`: the mismatched phoneme in a
  red span followed by a "Hear" button, and its IPA symbol in a red span.
- `ConversationManager` owns `history` and its methods append to it in place.
- A duplicated key resolves to its last definition, as in Python, so `AH0` converts to `ʌ`.

## Model

| member | source | states |
|---|---|---|
| Text.StripEmptyIffBlank | backend/modules/pronunciation_analyzer.py:37 | `p.strip()` is empty exactly when `p` is all whitespace, which is the test that keeps a phoneme |
| Text.StripKeepsWordOccurrences | backend/modules/pattern_recognizer.py:22-23 | stripping whitespace neither creates nor removes an occurrence of a word without spaces, such as `hello` or `hi` |
| Text.SplitJoin | backend/modules/pronunciation_analyzer.py:21 | splitting a space-joined list of space-free words gives the list back |
| Text.PySlice | backend/modules/grammar_checker.py:22 | Python slicing never fails; within bounds it is the plain slice, a stop past the end is clamped to the end, and a start past the end gives the empty string |
| PhonemeMap.ToIpa | backend/modules/phoneme_map.py:105 | `arpabet_to_ipa.get(p, p)`: the entry Python keeps for `p`, or `p` itself when it is not a key |
| PhonemeMap.ConvertArpabetToIpa | backend/modules/phoneme_map.py:104-105 | the output has the input's length, and each element is the conversion of the element at the same position |
| PhonemeMap.ConvertAppend | backend/modules/phoneme_map.py:105 | conversion distributes over concatenation |
| PhonemeMap.ReducedVowelTakesLaterDefinition | backend/modules/phoneme_map.py:9-60 | `AH0` converts to `ʌ`, the later of its two definitions, while a first-wins reading would give `ə` |
| PhonemeMap.RepeatedStopsAgree | backend/modules/phoneme_map.py:26-96 | `B D G P T K`, each defined twice, get the same symbol under either reading |
| PhonemeMap.OtherRepeatedKeysAgree | backend/modules/phoneme_map.py:14-100 | so do `EH2`, `S` and `SH` |
| PhonemeMap.UnlistedIH1PassesThrough | backend/modules/phoneme_map.py:5-105 | an untabulated stressed vowel, `IH1`, passes through unchanged |
| PhonemeMap.UnlistedEY0PassesThrough | backend/modules/phoneme_map.py:5-105 | so does `EY0` |
| PhonemeMap.IpaOfDH | backend/modules/phoneme_map.py:40 | `DH` is `ð` |
| PhonemeMap.IpaOfIH0 | backend/modules/phoneme_map.py:6 | `IH0` is `ɪ` |
| PhonemeMap.IpaOfS | backend/modules/phoneme_map.py:99 | `S` is `s` |
| PhonemeMap.ConvertThis | backend/modules/phoneme_map.py:104-105 | `DH IH0 S` converts to `ð ɪ s` |
| PhonemeAudio.LatestExample | backend/modules/phoneme_audio.py:6-45 | every example word in the table is non-empty |
| PhonemeAudio.GetExampleWord | backend/modules/phoneme_audio.py:47-48 | `phoneme_examples.get(p, p)`: the tabulated word, or the phoneme itself |
| PhonemeAudio.ExampleWordNonEmpty | backend/modules/phoneme_audio.py:6-48 | a non-empty phoneme always yields a non-empty word |
| PhonemeAudio.ExampleForDH | backend/modules/phoneme_audio.py:36 | `DH` gives `this` |
| PhonemeAudio.UntabulatedAH1PassesThrough | backend/modules/phoneme_audio.py:48 | `AH1` is not tabulated and is returned unchanged |
| PhonemeAudio.RepeatedAH0Agrees | backend/modules/phoneme_audio.py:7-11 | both definitions of `AH0` give `about`, so the reading order does not matter |
| PhonemeAudio.ExamplesNotInjective | backend/modules/phoneme_audio.py:13-26 | `AE1` and `K` both give `cat` |
| PronunciationAnalyzer.CleanWord | backend/modules/pronunciation_analyzer.py:13 | the cleaned word is no longer than the token and is all lower-case letters |
| PronunciationAnalyzer.CleanWordEmptyIffNoLetter | backend/modules/pronunciation_analyzer.py:13-15 | a token is skipped as empty exactly when it has no letter |
| PronunciationAnalyzer.CleanWordIdempotent | backend/modules/pronunciation_analyzer.py:13 | cleaning a cleaned word changes nothing |
| PronunciationAnalyzer.CleanWordAppend | backend/modules/pronunciation_analyzer.py:13 | cleaning works character by character and keeps order: the cleaned word of a concatenation is the cleaned parts, in order |
| PronunciationAnalyzer.CleanWordOne | backend/modules/pronunciation_analyzer.py:13 | a single character survives, lowered, exactly when it is a letter |
| PronunciationAnalyzer.NonBlank | backend/modules/pronunciation_analyzer.py:37 | the kept tokens are the same set as the input tokens that are not all whitespace, and there are no more of them than input tokens |
| PronunciationAnalyzer.NonBlankAppend | backend/modules/pronunciation_analyzer.py:37 | the filter keeps order and multiplicity: the kept tokens of a concatenation are those of each part, in order |
| PronunciationAnalyzer.NonBlankOne | backend/modules/pronunciation_analyzer.py:37 | a single token is kept exactly when it is not all whitespace; with `NonBlankAppend` this fixes the result as the order-preserving filter |
| PronunciationAnalyzer.GetPhonemes | backend/modules/pronunciation_analyzer.py:36-38 | no phoneme returned is empty or all whitespace |
| PronunciationAnalyzer.PhonemeMatch | backend/modules/pronunciation_analyzer.py:40-41 | a match exactly when the lengths are equal and every position agrees |
| PronunciationAnalyzer.FirstMismatch | backend/modules/pronunciation_analyzer.py:45-47 | -1 or an index in the common prefix; the sequences differ there and agree at every earlier position, and they agree on the whole common prefix when it is -1 |
| PronunciationAnalyzer.IdenticalIffEqual | backend/modules/pronunciation_analyzer.py:45-54 | the case that falls through to the generic note is reached exactly when the sequences are equal |
| PronunciationAnalyzer.OmissionIffStrictPrefix | backend/modules/pronunciation_analyzer.py:49-50 | omission exactly when the user's sequence is a strict prefix of the reference |
| PronunciationAnalyzer.InsertionIffStrictExtension | backend/modules/pronunciation_analyzer.py:51-52 | insertion exactly when the reference is a strict prefix of the user's sequence |
| PronunciationAnalyzer.SubstitutionAtFirstDifference | backend/modules/pronunciation_analyzer.py:46-48 | the first differing position within both sequences is reported as a substitution, with both phonemes |
| PronunciationAnalyzer.PhonemeDifferenceExplanation | backend/modules/pronunciation_analyzer.py:43-54 | the loop's note is the note of the classified divergence; at a mismatch it names the user's and the expected phoneme there |
| PronunciationAnalyzer.Analyze | backend/modules/pronunciation_analyzer.py:9-34 | the loop returns the records of the specification `Errors` for the whitespace tokens of the text |
| PronunciationAnalyzer.TokenErrorSpec | backend/modules/pronunciation_analyzer.py:13-33 | a token yields a record exactly when its cleaned word is non-empty, in the dictionary and pronounced differently; the record is well formed |
| PronunciationAnalyzer.ErrorsAppend | backend/modules/pronunciation_analyzer.py:12-34 | records come token by token in token order: those of a concatenation are those of each part |
| PronunciationAnalyzer.ErrorsAtMostOnePerToken | backend/modules/pronunciation_analyzer.py:12-34 | at most one record per token |
| PronunciationAnalyzer.ErrorsSound | backend/modules/pronunciation_analyzer.py:12-33 | every record is well formed and belongs to a token of the text: non-empty lower-case word, the first dictionary variant as reference, IPA of both sequences with their lengths, unequal sequences, the matching note |
| PronunciationAnalyzer.MispronouncedIsReported | backend/modules/pronunciation_analyzer.py:13-33 | a mispronounced token gets a record belonging to it |
| PronunciationAnalyzer.TokenErrorInErrors | backend/modules/pronunciation_analyzer.py:18-33 | the record a token yields, when it yields one, is among the records of the whole text |
| PronunciationAnalyzer.ErrorsComplete | backend/modules/pronunciation_analyzer.py:12-33 | every mispronounced token of the text has its record among the results |
| PronunciationAnalyzer.AgreementReportsNothing | backend/modules/pronunciation_analyzer.py:23 | when no token is mispronounced, nothing is reported |
| PronunciationAnalyzer.GetCorrectionSuggestions | backend/modules/pronunciation_analyzer.py:56-62 | one suggestion per record, in record order |
| PronunciationAnalyzer.SuggestionNamesWord | backend/modules/pronunciation_analyzer.py:60 | a suggestion opens with the quoted word |
| PronunciationAnalyzer.SuggestionShowsUserPhonemes | backend/modules/pronunciation_analyzer.py:60 | a suggestion contains what the learner said, bracketed and space-joined |
| PronunciationAnalyzer.SuggestionShowsReference | backend/modules/pronunciation_analyzer.py:60 | every suggestion contains the bracketed, space-joined reference |
| PronunciationAnalyzer.SuggestionReferenceReadsBack | backend/modules/pronunciation_analyzer.py:21-60 | when the reference phonemes are words, as splitting the dictionary entry gives them, splitting the shown text gives the reference back |
| PronunciationAnalyzer.CatMatches | backend/modules/pronunciation_analyzer.py:40-41 | `K AE1 T` against itself: no divergence |
| PronunciationAnalyzer.ThisWithD | backend/modules/pronunciation_analyzer.py:46-48 | `D IH0 S` for `DH IH0 S` is a substitution at index 0 whose note names `D` and `DH` |
| PronunciationAnalyzer.DroppedFinalPhoneme | backend/modules/pronunciation_analyzer.py:49-50 | `K AE1` for `K AE1 T` is an omission |
| PronunciationAnalyzer.DroppedMiddlePhoneme | backend/modules/pronunciation_analyzer.py:45-50 | `K T` for `K AE1 T` is reported as a substitution at index 1, not an omission: there is no alignment |
| GrammarChecker.TrivialCorrectionIff | backend/modules/grammar_checker.py:28-36 | what `IsTrivialCorrection` decides: the match is trivial exactly when the sentence-start rule flags a change of title case between the span and the first replacement (`isTitle` is a parameter), or every replacement has the span's length and agrees with it letter by letter ignoring case |
| GrammarChecker.CaseOnlyChangesAreTrivial | backend/modules/grammar_checker.py:33-35 | a match whose every replacement equals the span ignoring case is trivial |
| GrammarChecker.SentenceStartTitleChangeIsTrivial | backend/modules/grammar_checker.py:31-32 | a sentence-start match whose span and first replacement differ in title case is trivial |
| GrammarChecker.NonTrivialOutsideSentenceStart | backend/modules/grammar_checker.py:28-36 | outside the sentence-start rule, a replacement of another length makes the match non-trivial |
| GrammarChecker.CapitalisationIsTrivial | backend/modules/grammar_checker.py:28-35 | capitalising `hello` at the start of `hello there` is trivial |
| GrammarChecker.ConstructExplanation | backend/modules/grammar_checker.py:38-52 | the explanation is one of the four fixed notes |
| GrammarChecker.ExplanationChoice | backend/modules/grammar_checker.py:44-52 | the whole precedence chain: `verb` gives the verb note; otherwise `article` the article note; otherwise `spelling` the spelling note; otherwise the generic note |
| GrammarChecker.ExplanationIgnoresCase | backend/modules/grammar_checker.py:44 | the note depends only on the message, up to letter case |
| GrammarChecker.VerbBeforeArticle | backend/modules/grammar_checker.py:44-48 | every message whose lowered form contains both `verb` and `article` gets the verb note |
| GrammarChecker.VerbOrArticleMessage | backend/modules/grammar_checker.py:44-46 | the message `Verb or Article?` gets the verb note |
| GrammarChecker.Check | backend/modules/grammar_checker.py:7-26 | the loop returns the records of the specification `Checked` |
| GrammarChecker.CheckedAppend | backend/modules/grammar_checker.py:10-26 | records come match by match in match order |
| GrammarChecker.CheckedAtMostOnePerMatch | backend/modules/grammar_checker.py:10-26 | at most one record per match |
| GrammarChecker.CheckedSound | backend/modules/grammar_checker.py:16-24 | every record comes from a non-trivial match: the whole text, the span `text[offset:offset+errorLength]`, the first replacement, the note for its message |
| GrammarChecker.CheckedComplete | backend/modules/grammar_checker.py:10-25 | every non-trivial match has its record among the results |
| GrammarChecker.AllTrivialReportsNothing | backend/modules/grammar_checker.py:12-13 | when every match is trivial, nothing is reported |
| PatternRecognizer.AnalyzeUtterance | backend/modules/pattern_recognizer.py:13-33 | the count is the number of filler matches and the category is `greeting`, `question` or `statement` |
| PatternRecognizer.GreetingIffSubstring | backend/modules/pattern_recognizer.py:22-24 | a greeting exactly when the lowered text contains `hello` or `hi` anywhere |
| PatternRecognizer.QuestionIff | backend/modules/pattern_recognizer.py:22-26 | a question exactly when it is not a greeting and the stripped, lowered text ends in `?` |
| PatternRecognizer.ThisIsAGreeting | backend/modules/pattern_recognizer.py:23-24 | `this` is a greeting, because it contains `hi` |
| PatternRecognizer.GreetingBeforeQuestion | backend/modules/pattern_recognizer.py:23-26 | `is this it?` ends in `?` but is a greeting: the greeting test comes first |
| ResponseGenerator.Generate | backend/modules/response_generator.py:2-12 | the reply is one of the three fixed replies or empty, and empty exactly for `goodbye`; `greeting` gets the greeting reply and `ask_health` the health reply |
| ResponseGenerator.ReplyDependsOnlyOnIntent | backend/modules/response_generator.py:2-12 | entities and user text do not affect the reply |
| ResponseGenerator.UnknownIntentGetsGeneralReply | backend/modules/response_generator.py:10-12 | any other intent gets the general reply |
| Conversation.Window | backend/modules/conversation_manager.py:24 | the last six turns, or all of them when there are fewer |
| Conversation.RenderTurnsAppend | backend/modules/conversation_manager.py:24-25 | rendering distributes over concatenation of turns |
| Conversation.PromptIgnoresOlderTurns | backend/modules/conversation_manager.py:23-26 | turns before the last six do not affect the prompt |
| Conversation.PromptGrows | backend/modules/conversation_manager.py:23-26 | while the history is shorter than six, a new turn adds its line just before the cue |
| Conversation.PromptEndsWithCue | backend/modules/conversation_manager.py:26 | the prompt ends with `System:` |
| Conversation.FirstPrompt | backend/modules/conversation_manager.py:23-26 | after one user turn `hi`, the prompt is `User: hi`, a newline, then `System:` |
| Conversation.AlternatingExchange | backend/modules/conversation_manager.py:17-35 | a user turn followed by a system turn keeps the history alternating, starting with the user |
| Conversation.ConversationManager.constructor | backend/modules/conversation_manager.py:9 | the history starts empty |
| Conversation.ConversationManager.HandleInput | backend/modules/conversation_manager.py:11-19 | `goodbye` returns nothing and leaves the history alone; any other intent appends the user turn, then the system turn with the reply generated from the prompt including that user turn, and returns the reply; alternation is kept |
| Conversation.ConversationManager.GenerateResponse | backend/modules/conversation_manager.py:21-36 | the reply is the model's answer to the prompt of the current history, and the history gains exactly the system turn |
| Conversation.FillerWordingIff | backend/modules/conversation_manager.py:56-61 | the sentence uses the "filler words." wording exactly when the count, defaulting to 0, is positive |
| Conversation.DefaultFillerCount | backend/modules/conversation_manager.py:56-61 | with no count, the sentence reports no filler words |
| Conversation.DefaultCategory | backend/modules/conversation_manager.py:57-61 | with no category, the utterance is described as a statement |
| Conversation.ArpabetPieces | backend/modules/conversation_manager.py:93-97 | one piece per reference phoneme |
| Conversation.IpaPieces | backend/modules/conversation_manager.py:101-105 | one piece per reference IPA symbol |
| Conversation.MismatchIndex | backend/modules/conversation_manager.py:85-89 | the loop with `break` returns the first difference in the common prefix, or -1 |
| Conversation.HighlightPhonemes | backend/modules/conversation_manager.py:92-97 | the accumulated string is the concatenation of the per-phoneme pieces |
| Conversation.HighlightIpa | backend/modules/conversation_manager.py:100-105 | the same for the IPA line |
| Conversation.PronunciationCard | backend/modules/conversation_manager.py:77-116 | the card built from a record is the specified block |
| Conversation.AppendGrammarLines | backend/modules/conversation_manager.py:64-72 | one line per grammar error is appended, and the flag becomes set when there is any |
| Conversation.AppendPronunciationCards | backend/modules/conversation_manager.py:75-116 | one card per pronunciation error is appended, and the flag becomes set when there is any |
| Conversation.SummarizeRecord | backend/modules/conversation_manager.py:46-116 | the parts one record contributes, and the two updated flags |
| Conversation.GenerateSummary | backend/modules/conversation_manager.py:38-128 | the summary is the newline-join of the specified parts |
| Conversation.SummaryFrame | backend/modules/conversation_manager.py:40-128 | the first part is the header and the last is the closing line, so the summary starts and ends with them |
| Conversation.EmptySession | backend/modules/conversation_manager.py:40-125 | an empty session gives the header, both no-issue notes and the closing line |
| Conversation.RecordsPartsAppend | backend/modules/conversation_manager.py:45-116 | records contribute their parts in record order |
| Conversation.AnyGrammarIff | backend/modules/conversation_manager.py:42-65 | the grammar flag ends up set exactly when some record has a grammar error |
| Conversation.AnyPronunciationIff | backend/modules/conversation_manager.py:43-76 | the same for pronunciation errors |
| Conversation.UtteranceHeaderIff | backend/modules/conversation_manager.py:50-52 | a record's utterance header is emitted exactly when its grammar errors, pronunciation errors or pattern analysis are non-empty |
| Conversation.NoGrammarNoteIff | backend/modules/conversation_manager.py:119-120 | the "no significant grammar issues" note is one of the summary's parts (lines) exactly when no record has a grammar error |
| Conversation.NoPronunciationNoteIff | backend/modules/conversation_manager.py:121-122 | the "no significant pronunciation issues" note is one of the summary's parts (lines) exactly when no record has a pronunciation error |
| Conversation.HighlightAtSubstitution | backend/modules/conversation_manager.py:85-105 | at a substitution, the expected phoneme at the mismatch index is highlighted with its button, and the IPA symbol at that index is highlighted too; every other phoneme and IPA symbol is plain |
| Conversation.NoHighlightWithoutSubstitution | backend/modules/conversation_manager.py:85-105 | for an omission or an insertion nothing is highlighted: both lines are the plain space-joined sequences |

## Left out

- Speech recognition, text-to-speech, HTTP routes, the Flask app, the frontend, the NLU intent
  classifier, the entity extractor and the topic list are not part of this model. They are I/O or
  thin wrappers over code that is not shown.
- Persistence is left out: the SQLAlchemy models and the JSON encoding of the analysis fields. The
  summary takes the decoded records directly, with `[]` and `{}` standing for empty fields.
- Text.Lower: only ASCII letters are lower-cased, and only ASCII letters count as alphabetic.
  Python's `str.lower` and `str.isalpha` are Unicode-aware; no Unicode case tables are modelled.
- PronunciationAnalyzer.Analyze: `G2p` and `pronouncing.phones_for_word` are parameters. The
  model assumes they are deterministic functions of the word.
- Conversation.ConversationManager.GenerateResponse: the tokenizer, its truncation to 100 tokens,
  `generate` with at most 128 tokens and the decoding are one `model` parameter. The model does
  not state that the reply is short.
- PatternRecognizer.AnalyzeUtterance: the spaCy filler matcher is a parameter; only the number of
  its matches is used.
- The pattern dictionary: only the two keys that `generate_summary` reads are modelled. An empty
  pattern dictionary is one with neither key.
- GrammarChecker.Check: a match with no replacements is excluded by a precondition. The source
  reads `replacements[0]` in `is_trivial_correction` before its own emptiness guard, so such a
  match raises `IndexError`. Under that precondition the guard is always true.
- GrammarChecker.IsTrivialCorrection: `str.istitle` is a parameter.
- Conversation.NoGrammarNoteIff: stated about the list of summary parts, not the joined string.
  Nothing is escaped, so a user's text in an utterance header can contain the note's words even
  when errors exist. Conversation.NoPronunciationNoteIff is stated the same way.
- No HTML escaping is modelled, because the source performs none: user text, phonemes and
  explanations are inserted verbatim.
