# Visitor registration bot — a Dafny model

This project models the conversation core of a voice registration bot for a
community event (`server.py`). The bot walks a visitor through five fields in
a fixed order: name, company, email, phone and country. It reads each value
out of free or speech-transcribed text and asks the visitor to confirm it.
When everything is confirmed it submits the record to a sink, an Excel file
in the original. The model covers these parts:

- the intent classifiers: affirmative and negative phrase lists, off-topic
  keywords and the greeting's mood words;
- the field extractors and validators: name, company, email, phone and
  country, phone validation, and formatting a phone with a country calling
  code;
- the state machine behind `process_conversation`, with its greeting, five
  collecting handlers and final confirmation;
- the field-order logic of the manual-entry route.

Modules:

- `Strings` (`strings.dfy`) holds the ASCII stand-ins for the Python string
  operations the bot uses: `lower`, `strip`, `in`, `str.replace`, `title`,
  and `re.sub` of an alternation with IGNORECASE.
- `Classifiers` (`classifiers.dfy`) holds the phrase lists and the intent
  tests.
- `Extractors` (`extractors.dfy`) holds the extractors. The email and phone
  extractors loop over a replacement table, so they are methods. Each is
  proved equal to a function (`EmailOf`, `PhoneOf`) that the rest of the
  model uses.
- `SpokenExamples` (`spoken.dfy`) works two transcripts through the email
  and phone extractors: a spelled-out address and a phone number read out
  as number words.
- `Dialogue` (`dialogue.dfy`) describes one turn as a function from the
  state name, the input, the record and the confirmation flag to a `Turn`.
  All the state-machine properties are proved here.
- `Bot` (`bot.dfy`) holds the imperative form of the source. The class
  `VisitorData` is the caller's `user_data` dictionary, which the handlers
  update in place. The class `VoiceBotManager` has one method per handler,
  and a ghost log `saved` stands in for the Excel sink. Every method is
  proved against the matching `Dialogue` function. A reply holds the
  bot's message as a `Dialogue.Message` value; `Dialogue.Text` renders it
  as the exact string the source sends in `bot_response`.

The five collecting handlers of the source are one copy of the same code
with different strings. They are modelled once, with the field as a
parameter (`Dialogue.CollectField`, `Bot.VoiceBotManager.HandleCollection`).
Each field's strings are kept exactly as the source writes them.

The code behaves as follows in these cases:

- State names are `collect_<field>`, not `collecting_<field>`.
- The filler phrases of the name, company and country extractors are removed
  wherever they occur, not only at the start. For example, the "i am" inside
  "Kai Amos" is removed too.
- The summaries read out before submitting (server.py:346 and 693) list
  name, company, email and phone, but not the country.
- The phone extractor keeps every '+' it finds, not only a leading one.
  `validate_phone` then rejects a '+' anywhere but first
  (`Extractors.ExtractedPhoneValidity`).
- The dispatch table has no entry for `finished`. A turn in that state
  therefore runs the greeting handler.
- In every confirmation the affirmative test runs before the negative one.
  So "not good" confirms (`Dialogue.NotGoodConfirms`). At the greeting,
  negative mood words are tested first, so "not good" there is an unhappy
  mood.
- The reply to a "no" in a confirmation sets `awaiting_confirmation` to
  false. If the visitor says "no" again, that turn goes to the extractor.
  The name extractor then stores "No" as the name
  (`Dialogue.RepeatedNoReachesExtractor`, `Dialogue.RepeatedNoStoresNoAsName`).
- While a field waits for confirmation, its value is non-empty and well
  formed for its field (`Dialogue.WellFormedValue`, kept by
  `Dialogue.Consistent`). At `final_confirmation` the
  model guarantees only that every field is filled. Values typed in through
  manual entry are stored without the extractor's checks. And once the
  country's calling code is put in front of the phone, nothing checks the
  phone again. The model bounds it only at 18 digits after the '+', while
  `validate_phone` allows 15 (`Extractors.FormatValidPhone`).

## Model

| member | source | states |
|---|---|---|
| Strings.Lower | server.py:430 | `lower()` keeps the length and lower-cases each ASCII letter |
| Strings.Strip | server.py:430 | `strip()` never lengthens the text, and its result is empty or starts and ends with non-whitespace |
| Strings.StripIdempotent | server.py:430 | stripping twice is stripping once |
| Strings.ContainsOccurrence | server.py:434 | the substring test `w in s` finds an index where `w` occurs |
| Strings.ContainsAt | server.py:434 | an occurrence at any index makes `w in s` true |
| Strings.ReplaceAll | server.py:520 | `str.replace` leaves a string without the pattern unchanged |
| Strings.ReplaceEach | server.py:519-520 | the loop that applies each pair of a replacement table in insertion order computes exactly `ApplyReplacements` of the whole table (the number-word loop at lines 562-563 is the same loop) |
| Strings.FirstPrefix | server.py:478 | the alternation picks the first listed phrase that matches at a position, ignoring case |
| Strings.RemovePhrases | server.py:478 | deleting the matches of an alternation never lengthens the text |
| Strings.RemovePhrasesKeepsChars | server.py:478 | deleting phrases only removes characters; every character of the result comes from the input |
| Strings.RemovePhrasesWithoutMatch | server.py:478 | a text in which no phrase of the alternation occurs, ignoring case, is returned unchanged |
| Strings.ReplaceAllReplacesMatch | server.py:520 | `str.replace` turns an occurrence at the front into the replacement and goes on after it |
| Strings.ReplaceAllKeepsWord | server.py:520 | a text without the pattern's first character is kept as it is |
| Strings.ReplaceAllSplitsAtSpace | server.py:520 | a pattern without a space never spans one: `s.replace` of `a + " " + b` is the replaced `a`, a space and the replaced `b` |
| Strings.ApplyReplacementsSplitsAtSpace | server.py:519-520 | a replacement table whose keys hold no space rewrites the text on each side of a space on its own |
| Strings.ApplyReplacementsConcat | server.py:519-520 | applying a table in two parts, in order, is applying the whole table |
| Strings.TitleCase | server.py:484 | `title()` keeps the length and which characters are letters or whitespace; it changes only the case of letters |
| Strings.TitleCaseKeepsClasses | server.py:484 | `title()` keeps a text of letters and whitespace made of letters and whitespace, and keeps whitespace off both ends of a stripped text |
| Strings.TitleCaseShape | server.py:484 | a title-cased string has every run of letters starting upper-case and continuing lower-case; `title()` is idempotent and keeps the lower-cased text |
| Classifiers.MatchesPhraseList | server.py:429-441 | an exact match on the list, or else a listed phrase occurring in the lowered, stripped text; true exactly when some phrase occurs, so the exact-match branch adds nothing |
| Classifiers.IsPositiveResponse | server.py:429-434 | true exactly when the lowered, stripped text contains an affirmative phrase |
| Classifiers.IsNegativeResponse | server.py:436-441 | true exactly when the lowered, stripped text contains a negative phrase |
| Classifiers.OffTopicIgnoresCase | server.py:443-448 | the off-topic test does not depend on case: lowering the text first gives the same answer |
| Classifiers.OffTopicInContext | server.py:443-448 | text around an off-topic question does not hide it: the test stays true whatever comes before or after |
| Classifiers.GreetingMood | server.py:82-87 | unhappy exactly when a negative mood word occurs; happy exactly when none does and a positive one occurs |
| Classifiers.NotGoodIsPositive | server.py:44-55 | text containing "not good" is both affirmative and negative |
| Classifiers.NotGoodIsUnhappyMood | server.py:83-87 | at the greeting, "not good" is an unhappy mood although it contains "good" |
| Classifiers.NoIsOnlyNegative | server.py:429-441 | a plain "no" is negative and not affirmative |
| Classifiers.KnowIsNegative | server.py:436-441 | "I don't know" counts as negative, because it contains "no" |
| Extractors.ExtractName | server.py:466-484 | a name is returned exactly when the lowered text holds no skip phrase and the stripped text, with the filler phrases removed and stripped again, has 2-50 characters of letters and whitespace; the name is that text title-cased, so it has title shape and no whitespace at either end |
| Extractors.ExtractCompany | server.py:486-496 | a company is returned exactly when the stripped text has at least 2 characters and, with the filler phrases removed and stripped again, 2-100; the company is that text title-cased |
| Extractors.ExtractCountry | server.py:588-598 | a country is returned exactly when the stripped text has at least 2 characters and the lowered text, with the filler phrases removed and stripped again, has 2-50; the country is that text title-cased |
| Extractors.NameRoundTrip | server.py:466-484 | a name of 2-50 letters and spaces, with no space at either end and no skip or filler phrase, is extracted as its title-cased self |
| Extractors.NoIsAName | server.py:466-484 | the name extractor accepts a plain "no" as the name "No" |
| Extractors.CompanyRoundTrip | server.py:486-496 | a company of 2-100 characters, with no space at either end and no filler phrase, is extracted as its title-cased self |
| Extractors.CountryRoundTrip | server.py:588-598 | a country of 2-50 characters, with no space at either end and no filler phrase, is extracted as its lowered, title-cased self |
| Extractors.CompanyGuardRedundant | server.py:205 | the handler's extra check `len(company.strip()) > 1` holds for every extracted company |
| Extractors.ValidatePhone | server.py:579-586 | true exactly for 8-15 ASCII digits, or for '+' followed by 8-15 ASCII digits |
| Extractors.CountryCodesArePrefixed | server.py:60-71 | every calling code in the table is '+' followed by digits |
| Extractors.FormatPhoneWithCountry | server.py:600-614 | the phone is unchanged when it or the country is empty, when it starts with '+', or when the lowered country is not in the table; otherwise it is the table's code followed by the phone |
| Extractors.FormatPhoneIdempotent | server.py:600-614 | formatting twice is formatting once |
| Extractors.FormatPhoneKeepsNumber | server.py:600-614 | the result ends with the original phone and is non-empty when the phone is |
| Extractors.FormatValidPhone | server.py:343-344 | a valid local phone formatted for a known country is '+' and 8-18 digits; the formatted phone can go past the 15 digits `validate_phone` allows |
| Extractors.FormatPhoneExamples | server.py:600-614 | "9876543210" with "India" becomes "+919876543210"; with "Atlantis" it stays unchanged |
| Extractors.CollapseAround | server.py:523-524 | collapsing whitespace around '@' or '.' never lengthens the text |
| Extractors.CollapseOnlyDropsSpaces | server.py:523-524 | collapsing whitespace around a character removes only whitespace |
| Extractors.RemoveSpaces | server.py:525 | the result has no whitespace |
| Extractors.EmailMatchAt | server.py:533-534 | a match of the loose email pattern found at a position has the email shape |
| Extractors.FirstEmailMatch | server.py:534-536 | the first loose match, if there is one, has the email shape |
| Extractors.EmailFromSpoken | server.py:522-538 | an email produced after the replacements has the email shape and no upper-case letter |
| Extractors.EmailCandidateIsSpokenWithoutSpaces | server.py:523-525 | the strict candidate is exactly the replaced text with all whitespace removed |
| Extractors.EmailOf | server.py:498-538 | None for input shorter than 5 after stripping; any email returned has the shape `[alnum][local]*@[alnum][domain]*.[letters]{2,}` and is lower-case |
| Extractors.ExtractEmail | server.py:498-538 | the loop over the replacement table yields exactly `EmailOf(text)` |
| Extractors.EmailRoundTrip | server.py:498-538 | an address that already has the email shape is extracted as its lower-cased self |
| Extractors.KeepDialChars | server.py:567 | the filter keeps only digits and '+' |
| Extractors.DigitGapsIrrelevant | server.py:566-567 | joining digit groups separated by whitespace does not change the filtered phone |
| Extractors.PhoneFromDigits | server.py:566-577 | an accepted phone is the filtered text itself; it holds only digits and '+', with 8-15 characters after a leading '+' or 8-15 in all |
| Extractors.PhoneOf | server.py:540-577 | None for input shorter than 3 after stripping; any phone returned holds only digits and '+', with the length bounds above |
| Extractors.ExtractPhone | server.py:540-577 | the number-word loop yields exactly `PhoneOf(text)` |
| Extractors.PhoneRoundTrip | server.py:540-586 | a phone `validate_phone` accepts is extracted as itself |
| Extractors.NumberWordBecomesDigit | server.py:547-563 | each key of the number-word table, rewritten by the whole table in insertion order, becomes exactly its digit: no earlier key occurs inside it and no later key touches the digit |
| SpokenExamples.EmailSpokenExample | server.py:498-538 | "John DOT Smith AT gmail DOT com" is extracted as "john.smith@gmail.com" |
| SpokenExamples.PhoneSpokenExample | server.py:540-577 | "double nine eight seven six five four three two one" (the ten words joined by single spaces) is extracted as "9987654321" |
| Extractors.DialShapedValidity | server.py:566-586 | a string of digits and '+' within the extractor's length bounds passes `validate_phone` exactly when no '+' follows its first character |
| Extractors.ExtractedPhoneValidity | server.py:540-586 | an extracted phone passes `validate_phone` exactly when no '+' follows its first character |
| Dialogue.Record.With | server.py:127 | storing into field f sets f and changes no other field |
| Dialogue.NextField | server.py:685-689 | only the country has no next field |
| Dialogue.FieldNamed | server.py:686 | a dictionary key maps to the field with that name; keys outside the field order map to nothing |
| Dialogue.NextFieldFollowsOrder | server.py:685-689 | the next field is the following entry of the field order |
| Dialogue.AcceptedValueWellFormed | server.py:147-150 | a value a handler accepts is non-empty and well formed for its field: name bounds, company bounds, email shape, a valid phone, country bounds (the other collecting handlers likewise, at lines 203-206, 259-262, 315-318, 375-378) |
| Dialogue.HandlerForStates | server.py:33-41 | each state name reaches its own handler; `finished` reaches the greeting (through the lookup at lines 73-75) |
| Dialogue.HandlerForUnknownName | server.py:73-75 | a name that is not a state falls back to the greeting |
| Dialogue.OffTopicKeepsGreeting | server.py:450-464 | at the greeting, input with an off-topic keyword stays in greeting, keeps the record, clears the flag, submits nothing and answers with the redirect the random choice picks (the handler is reached from lines 79-80) |
| Dialogue.RedirectIsOffTopicReply | server.py:451-457 | whatever the random choice picks, the reply is one of the three redirect texts |
| Dialogue.GreetKeepsRecord | server.py:77-113 | the greeting keeps the record, submits nothing, clears the flag and stays in `greeting` or moves to `collect_name` (off-topic replies at lines 450-464) |
| Dialogue.AdvanceCollects | server.py:73-75 | in `collect_<f>` a turn is that field's handler |
| Dialogue.ConfirmYes | server.py:117-125 | while awaiting confirmation, an affirmative answer moves to the next field, or to `final_confirmation` after the country; the record is unchanged except that confirming the country formats the phone (the other collecting handlers likewise, at lines 173-181, 229-237, 285-293, 341-353) |
| Dialogue.ConfirmNo | server.py:126-137 | otherwise a negative answer clears exactly field f, stays in `collect_<f>` and offers manual entry for f (the other collecting handlers likewise, at lines 182-193, 238-249, 294-305, 354-365) |
| Dialogue.ConfirmNeither | server.py:138-146 | otherwise nothing changes and the question stays open (the other collecting handlers likewise, at lines 194-202, 250-258, 306-314, 366-374) |
| Dialogue.ExtractionTurn | server.py:147-169 | with no confirmation pending, a turn changes only field f, storing the value the field's extractor returns (non-empty and well formed), and then awaits confirmation; if nothing is accepted the record is kept and manual entry is offered (the other collecting handlers likewise, at lines 203-225, 259-281, 315-337, 375-397) |
| Dialogue.StoredPhoneIsValid | server.py:315-318 | whenever the phone handler goes on to await confirmation, the phone it stored is `extract_phone` of the input and passes `validate_phone` |
| Dialogue.FinalConfirmationTurn | server.py:399-427 | yes submits the record and moves to `finished`; otherwise no resets to the empty record in `collect_name`; otherwise nothing changes |
| Dialogue.CollectSubmitsNothing | server.py:115-397 | a collecting handler never calls the sink |
| Dialogue.FinalConfirmSubmits | server.py:400-401 | the final confirmation hands the record to the sink on a yes and on nothing else |
| Dialogue.SubmitsOnlyOnFinalYes | server.py:399-402 | the sink is called exactly when the final confirmation gets a yes, and then with the record as it stands |
| Dialogue.RepeatedNoIsIdempotent | server.py:126-137 | a client that resends the confirmation flag and answers no twice gets the same turn twice: the second no clears the same field and gives the same reply |
| Dialogue.RepeatedNoReachesExtractor | server.py:126-147 | the reply to a no clears the flag, so a second no, sent with the flag as returned, goes to the field's extractor |
| Dialogue.RepeatedNoStoresExtracted | server.py:126-150 | after a no clears the field, the same no sent to the extractor stores whatever the extractor accepts from it, and that value awaits confirmation |
| Dialogue.RepeatedNoStoresNoAsName | server.py:126-150 | at the name, "no" twice with the flag passed on stores "No" as the name and asks to confirm it |
| Dialogue.CountryConfirmationFormatsOnce | server.py:341-353 | repeating the country confirmation does not add the calling code again |
| Dialogue.NotGoodConfirms | server.py:117-126 | in a confirmation, "not good" moves on |
| Dialogue.ConfirmedKeepsConsistency | server.py:341-353 | confirming a field keeps the session consistent: earlier fields stay filled, and the record is complete at the final confirmation |
| Dialogue.StoreKeepsConsistency | server.py:127-128 | storing into the field being collected keeps the session consistent; a value stored to await confirmation must be filled and well formed for its field |
| Dialogue.CollectKeepsConsistency | server.py:115-397 | every collecting turn keeps the session consistent, so a value awaiting confirmation is non-empty and well formed for its field (`Dialogue.WellFormedValue`) |
| Dialogue.FinalConfirmKeepsConsistency | server.py:399-427 | from a complete record the final confirmation stays complete, finishes, or starts over at `collect_name` |
| Dialogue.AdvancePreservesConsistency | server.py:73-427 | every turn keeps the session consistent: the fields before the one being collected are filled, the value awaiting confirmation is filled and well formed for its field, and the record is complete whenever it can be submitted |
| Dialogue.ManualEntryStores | server.py:681-700 | a non-blank value for a field sets only that field, to the stripped value, and moves to the next field or to `final_confirmation`, with no confirmation step |
| Dialogue.ManualEntryBlank | server.py:702-709 | a blank value changes nothing and asks again for the same field |
| Dialogue.ManualEntryUnknownField | server.py:686 | a non-blank value for a key outside the field order is an error (caught at lines 714-716) |
| Dialogue.NextFieldKeepsConsistency | server.py:685-689 | once the field in hand is filled, moving to the next field in the order, or to `final_confirmation` after the country, keeps the session consistent |
| Dialogue.ManualEntryPreservesConsistency | server.py:681-700 | manual entry of the field being collected keeps the session consistent |
| Bot.VisitorData.Set | server.py:127 | storing into field f changes that field of the dictionary and nothing else |
| Bot.VoiceBotManager.ProcessConversation | server.py:73-75 | the reply is the turn `Dialogue.Advance` describes, with the message, state name, current field, flag and manual-entry keys of server.py:120-125; the caller's dictionary is updated in place and returned, except on a restart from the final confirmation, which returns a fresh empty dictionary; the sink log grows by the record exactly when the turn submits it |
| Bot.VoiceBotManager.HandleGreeting | server.py:77-113 | the greeting's reply is `Dialogue.Greet`, and the record is not touched (off-topic replies at lines 450-464) |
| Bot.VoiceBotManager.HandleCollection | server.py:115-397 | the collecting handler's reply and the new dictionary are those of `Dialogue.CollectField` |
| Bot.VoiceBotManager.HandleAnswer | server.py:117-146 | a confirmation turn's reply and in-place update are `Dialogue.Answer` (every collecting handler likewise; the country's, which also formats the phone, at lines 341-374) |
| Bot.VoiceBotManager.MoveOn | server.py:342-353 | after a yes, the phone is rewritten in place with its calling code when the field is the country |
| Bot.VoiceBotManager.HandleValue | server.py:147-169 | an extraction turn's reply and in-place update are `Dialogue.Extraction` (every collecting handler likewise, the country's at lines 375-397) |
| Bot.VoiceBotManager.ExtractValue | server.py:148-149 | running the field's extractor and the handler's test gives exactly `Dialogue.Accept` (the other collecting handlers likewise, at lines 204-205, 260-261, 316-317, 376-377) |
| Bot.VoiceBotManager.HandleFinalConfirmation | server.py:399-427 | a yes appends the record to the sink log once; a no answers with a fresh empty dictionary; the reply is `Dialogue.FinalConfirm` |
| Bot.VoiceBotManager.SaveVisitorData | server.py:616-637 | the sink log grows by exactly the record handed in |
| Bot.HandleManualInput | server.py:681-712 | the reply and the in-place update are `Dialogue.ManualEntry`: a store moves along the field order, a blank value asks again, an unknown field fails and leaves the dictionary as it was |

## Left out

- The Flask routes, JSON decoding and CORS (server.py:641-671 and 673-716, except the field-order logic) are transport. The route-level exception fallbacks are not modelled, except the unknown-field failure of manual entry.
- The AWS Polly and Bedrock clients and the `/chat` route (server.py:19-27, 718-745) are calls to a foreign service.
- Bot.VoiceBotManager.SaveVisitorData: the Excel file I/O and the logging are left out, and the call is a ghost log of records. The `timestamp` and `event` keys it adds to the caller's dictionary are not modelled, because the record has exactly the five fields and the timestamp comes from the clock. The exception it swallows has no effect on the reply, so it is not modelled either.
- Bot.VoiceBotManager.HandleGreeting: `random.choice` among the three off-topic replies is the parameter `pick` (the reply is entry `pick % 3`).
- Records always hold the five keys as strings. The `KeyError` a handler raises on a dictionary missing a key (e.g. server.py:118) is therefore not modelled, and neither is a value that is not a string.
- Bot.HandleManualInput: for a key outside the field order, the source stores the value before `field_order.index` fails. The model leaves the dictionary unchanged there, because the failure reply does not return it.
- Strings.Strip: the contract states only that the result is no longer than the input and has no whitespace at either end. It does not state which slice of the input is kept; the body computes that slice.
- Strings.Lower, Strings.TitleCase, Strings.Strip and the `\d`, `\s`, `\w` classes cover ASCII only. Python's Unicode case mapping, Unicode whitespace and Unicode digits (`str.isdigit`) are not modelled.
- Logging throughout is left out.
- The `current_field` argument of the handlers is accepted by `ProcessConversation` but never read, as in the source.
