/** The conversation state machine of the visitor bot (server.py:31-427) and
    the field-order logic of manual entry (server.py:681-712), as functions
    of one turn's inputs. The core keeps nothing between turns: the caller
    sends the state name, the visitor record and the confirmation flag, and
    gets them back updated. The methods of module Bot, which update the
    caller's record in place as the source does, are proved against these
    functions. */
module Dialogue {
  import opened Strings
  import opened Classifiers
  import opened Extractors

  // =====================================================================
  // Fields, states, records
  // =====================================================================

  /** The five fields of a visitor record, in collection order. */
  datatype Field = Name | Company | Email | Phone | Country

  /** The conversation states; `Finished` has no handler of its own. */
  datatype State = Greeting | Collect(field: Field) | FinalConfirmation | Finished

  /** A visitor record: the `user_data` dictionary with its five keys. */
  datatype Record = Record(name: string, company: string, email: string, phone: string, country: string)
  {
    function Get(f: Field): string {
      match f
      case Name => name
      case Company => company
      case Email => email
      case Phone => phone
      case Country => country
    }

    /** `user_data[f] = v` */
    function With(f: Field, v: string): (r: Record)
      ensures r.Get(f) == v
      ensures forall g :: g != f ==> r.Get(g) == Get(g)
    {
      match f
      case Name => this.(name := v)
      case Company => this.(company := v)
      case Email => this.(email := v)
      case Phone => this.(phone := v)
      case Country => this.(country := v)
    }
  }

  /** `empty_user_data` (server.py:57) */
  const EmptyRecord: Record := Record("", "", "", "", "")

  /** The dictionary key of a field. */
  function FieldName(f: Field): string {
    match f
    case Name => "name"
    case Company => "company"
    case Email => "email"
    case Phone => "phone"
    case Country => "country"
  }

  /** The state names of the wire protocol (server.py:33-41). */
  function StateName(s: State): string {
    match s
    case Greeting => "greeting"
    case Collect(f) => "collect_" + FieldName(f)
    case FinalConfirmation => "final_confirmation"
    case Finished => "finished"
  }

  /** `field_order` (server.py:685) */
  const FieldOrder: seq<Field> := [Name, Company, Email, Phone, Country]

  /** The field after `f` in `FieldOrder`; None after the country. */
  function NextField(f: Field): (g: Option<Field>)
    ensures g.None? <==> f == Country
  {
    match f
    case Name => Some(Company)
    case Company => Some(Email)
    case Email => Some(Phone)
    case Phone => Some(Country)
    case Country => None
  }

  /** `field_order.index(field)`, or None where Python raises ValueError. */
  function FieldNamed(name: string): (f: Option<Field>)
    ensures f.Some? ==> FieldName(f.value) == name
    ensures forall g :: FieldName(g) == name ==> f == Some(g)
  {
    if name == "name" then Some(Name)
    else if name == "company" then Some(Company)
    else if name == "email" then Some(Email)
    else if name == "phone" then Some(Phone)
    else if name == "country" then Some(Country)
    else None
  }

  /** The position of a field in `FieldOrder` agrees with `NextField`. */
  lemma NextFieldFollowsOrder(k: nat)
    requires k < |FieldOrder|
    ensures NextField(FieldOrder[k]) == if k + 1 < |FieldOrder| then Some(FieldOrder[k + 1]) else None
  {
  }

  // =====================================================================
  // The outcome of one turn
  // =====================================================================

  /** The reply of `process_conversation`: `bot_response`, `new_state`,
      `updated_data`, `current_field` (None for ''), `awaiting_confirmation`,
      `show_manual_input` with `manual_field` (None when the keys are
      absent), and the record handed to the sink during the turn, if any. */
  datatype Turn = Turn(
    response: Message,
    newState: State,
    record: Record,
    currentField: Option<Field>,
    awaiting: bool,
    manualField: Option<Field>,
    submitted: Option<Record>)

  /** `if x:` on an extractor's result: not None and not empty. */
  predicate Truthy(o: Option<string>) {
    o.Some? && o.value != []
  }

  // =====================================================================
  // Replies
  // =====================================================================

  /** The bot's replies. `Text` renders each one as the source words it;
      the turn functions speak in these values, so that reasoning about a
      turn need not spell out its wording. */
  datatype Message =
    | OffTopicRedirect(pick: nat)
    | SorryToHear | LetsStart | HowAreYou
    | AskCompany(name: string) | AskEmail | AskPhone | AskCountry
    | ConfirmDetails(details: Record)
    | Retry(retryField: Field) | YesNo(yesNoField: Field)
    | Heard(heardField: Field, value: string) | Unclear(unclearField: Field)
    | Submitted | StartOver | SubmitOrRestart
    | ManualNext(nextField: Field) | ManualConfirm(entered: Record) | ManualInvalid(fieldName: string)

  const OffTopicReplies: seq<string> := [
    "That's interesting! But let's focus on getting your details for the AWS Community Day event. How are you today?",
    "I appreciate your question! However, I'm here to help collect your information for our event. How are you feeling today?",
    "Great question! Let's get back to our registration process. How are you doing?"
  ]

  /** The summary read out before submitting (server.py:346). It lists name,
      company, email and phone; the country is not in it. */
  function Summary(r: Record): string {
    "Perfect! Let me confirm your details: Name: " + r.name + ", Company: " + r.company
      + ", Email: " + r.email + ", Phone: " + r.phone + ". Should I submit this information?"
  }

  /** The reply to a negative answer (server.py:128, 184, 240, 296, 356). */
  function RetryPrompt(f: Field): string {
    match f
    case Name => "No problem! Please tell me your correct name, or if you prefer, you can type it manually."
    case Company => "Let me get that right. Which company do you work for? You can speak it or type it manually."
    case Email => "Let me get your email right. Please speak it clearly like 'john at gmail dot com', or type it manually."
    case Phone => "No problem! Please provide your correct phone number."
    case Country => "Which country are you from?"
  }

  /** The reply when the answer is neither yes nor no. */
  function YesNoPrompt(f: Field): string {
    match f
    case Name => "I didn't understand. Is your name correct? Please say yes or no."
    case Company => "Is your company name correct? Please say yes or no."
    case Email => "Is your email address correct? Please say yes or no."
    case Phone => "Is your phone number correct? Please say yes or no."
    case Country => "Is your country correct? Please say yes or no."
  }

  /** The read-back of a value just stored. */
  function HeardPrompt(f: Field, v: string): string {
    match f
    case Name => "I heard your name as " + v + ". Is that correct?"
    case Company => "I heard your company as " + v + ". Is that correct?"
    case Email => "I heard your email as " + v + ". Is that correct?"
    case Phone => "I heard your phone number as " + v + ". Is that correct?"
    case Country => "I heard " + v + ". Is that correct?"
  }

  /** The reply when nothing could be extracted. */
  function UnclearPrompt(f: Field): string {
    match f
    case Name => "I couldn't catch your name clearly. Could you please speak your name slowly, or type it manually?"
    case Company => "Could you please tell me your company name clearly, or type it manually?"
    case Email => "I couldn't catch your email clearly. Please speak it like 'john at gmail dot com', or type it manually."
    case Phone => "Please speak your phone number digit by digit, like 'nine eight seven six five four three two one'."
    case Country => "Could you please tell me your country name clearly?"
  }

  /** The summary after a manual country (server.py:693); no country either. */
  function ManualSummary(r: Record): string {
    "Perfect! Let me confirm: Name: " + r.name + ", Company: " + r.company
      + ", Email: " + r.email + ", Phone: " + r.phone + ". Should I submit this?"
  }

  /** The `bot_response` text of each reply, word for word. */
  function Text(m: Message): string {
    match m
    case OffTopicRedirect(pick) => OffTopicReplies[pick % 3]
    case SorryToHear =>
      "I'm sorry to hear that. I hope our event can brighten your day! Let's get you registered. What's your name?"
    case LetsStart => "Wonderful! Let's get started. What's your name?"
    case HowAreYou => "Hello! How are you doing today?"
    case AskCompany(name) => "Excellent! Which company do you work for, " + name + "?"
    case AskEmail => "Perfect! Now, what's your email address?"
    case AskPhone => "Excellent! Now, what's your phone number?"
    case AskCountry => "Great! Which country are you from? This helps me format your number correctly."
    case ConfirmDetails(r) => Summary(r)
    case Retry(f) => RetryPrompt(f)
    case YesNo(f) => YesNoPrompt(f)
    case Heard(f, v) => HeardPrompt(f, v)
    case Unclear(f) => UnclearPrompt(f)
    case Submitted =>
      "Fantastic! Your information has been successfully submitted. Thank you for visiting Operisoft at the Community Day event. We'll be in touch soon!"
    case StartOver => "No problem! Let's start fresh. What's your name?"
    case SubmitOrRestart => "Should I submit your information? Please say yes to submit or no to start over."
    case ManualNext(g) => "Thank you! Now, what's your " + FieldName(g) + "?"
    case ManualConfirm(r) => ManualSummary(r)
    case ManualInvalid(field) => "Please enter a valid " + field + "."
  }

  // =====================================================================
  // greeting (server.py:77-113, 450-464)
  // =====================================================================

  /** `handle_greeting`; `pick` stands for the `random.choice` among the
      three redirect replies. */
  function Greet(input: string, rec: Record, pick: nat): Turn {
    if IsOffTopicQuestion(input) then
      Turn(OffTopicRedirect(pick), Greeting, rec, None, false, None, None)
    else
      match GreetingMood(input)
      case Unhappy =>
        Turn(SorryToHear, Collect(Name), rec, Some(Name), false, None, None)
      case Happy =>
        Turn(LetsStart, Collect(Name), rec, Some(Name), false, None, None)
      case Neutral =>
        Turn(HowAreYou, Greeting, rec, None, false, None, None)
  }

  // =====================================================================
  // collect_<field> (server.py:115-397)
  // =====================================================================

  /** What each handler stores from free text: the field's extractor, with
      the handler's own acceptance test (server.py:149, 205, 261, 317, 377). */
  function Accept(f: Field, input: string): Option<string> {
    match f
    case Name =>
      var n := ExtractName(input);
      if Truthy(n) then n else None
    case Company =>
      var c := ExtractCompany(input);
      if Truthy(c) && |Strip(c.value)| > 1 then c else None
    case Email =>
      var e := EmailOf(input);
      if Truthy(e) then e else None
    case Phone =>
      var p := PhoneOf(input);
      if Truthy(p) && ValidatePhone(p.value) then p else None
    case Country =>
      var c := ExtractCountry(input);
      if Truthy(c) then c else None
  }

  /** The shape each handler guarantees for a value it stores. */
  predicate WellFormedValue(f: Field, v: string) {
    match f
    case Name => 2 <= |v| <= 50 && IsNameText(v) && TitleShaped(v)
    case Company => 2 <= |v| <= 100 && TitleShaped(v)
    case Email => IsEmail(v) && NoUpper(v)
    case Phone => ValidatePhone(v)
    case Country => 2 <= |v| <= 50 && TitleShaped(v)
  }

  /** A stored value is non-empty and has its field's shape. */
  lemma AcceptedValueWellFormed(f: Field, input: string)
    requires Accept(f, input).Some?
    ensures Accept(f, input).value != []
    ensures WellFormedValue(f, Accept(f, input).value)
  {
  }

  /** The affirmative branch of each handler: move to the next field; after
      the country, reformat the phone with the calling code and move to the
      final confirmation. */
  function Confirmed(f: Field, rec: Record): Turn {
    match f
    case Name =>
      Turn(AskCompany(rec.name), Collect(Company), rec, Some(Company), false, None, None)
    case Company =>
      Turn(AskEmail, Collect(Email), rec, Some(Email), false, None, None)
    case Email =>
      Turn(AskPhone, Collect(Phone), rec, Some(Phone), false, None, None)
    case Phone =>
      Turn(AskCountry, Collect(Country), rec, Some(Country), false, None, None)
    case Country =>
      var r := rec.(phone := FormatPhoneWithCountry(rec.phone, rec.country));
      Turn(ConfirmDetails(r), FinalConfirmation, r, None, false, None, None)
  }

  /** `handle_<field>_collection`: confirm (yes before no) while a value
      awaits confirmation, extract one otherwise. */
  function CollectField(f: Field, input: string, rec: Record, awaiting: bool): Turn {
    if awaiting then Answer(f, input, rec) else Extraction(f, input, rec)
  }

  /** The reply to a value awaiting confirmation: yes, then no, then
      neither. */
  function Answer(f: Field, input: string, rec: Record): Turn {
    if IsPositiveResponse(input) then Confirmed(f, rec)
    else if IsNegativeResponse(input) then
      Turn(Retry(f), Collect(f), rec.With(f, ""), Some(f), false, Some(f), None)
    else
      Turn(YesNo(f), Collect(f), rec, Some(f), true, None, None)
  }

  /** Free text while nothing awaits confirmation: store what the field's
      extractor accepts and ask for confirmation, or offer manual entry. */
  function Extraction(f: Field, input: string, rec: Record): Turn {
    match Accept(f, input)
    case Some(v) => Turn(Heard(f, v), Collect(f), rec.With(f, v), Some(f), true, None, None)
    case None => Turn(Unclear(f), Collect(f), rec, Some(f), false, Some(f), None)
  }

  // =====================================================================
  // final_confirmation (server.py:399-427)
  // =====================================================================

  /** `handle_final_confirmation`: submit on yes (the record goes to the
      sink), start over with an empty record on no, ask again otherwise. */
  function FinalConfirm(input: string, rec: Record): Turn {
    if IsPositiveResponse(input) then
      Turn(Submitted, Finished, rec, None, false, None, Some(rec))
    else if IsNegativeResponse(input) then
      Turn(StartOver, Collect(Name), EmptyRecord, Some(Name), false, None, None)
    else
      Turn(SubmitOrRestart, FinalConfirmation, rec, None, false, None, None)
  }

  // =====================================================================
  // process_conversation (server.py:73-75)
  // =====================================================================

  datatype Handler = GreetingHandler | CollectionHandler(field: Field) | FinalConfirmationHandler

  /** `conversation_states.get(state, self.handle_greeting)`: the table has
      no entry for "finished", so that state falls back to the greeting too. */
  function HandlerFor(stateName: string): Handler {
    if stateName == "collect_name" then CollectionHandler(Name)
    else if stateName == "collect_company" then CollectionHandler(Company)
    else if stateName == "collect_email" then CollectionHandler(Email)
    else if stateName == "collect_phone" then CollectionHandler(Phone)
    else if stateName == "collect_country" then CollectionHandler(Country)
    else if stateName == "final_confirmation" then FinalConfirmationHandler
    else GreetingHandler
  }

  /** Each state name reaches its own handler; "finished" and every name
      that is not a state reach the greeting. */
  lemma HandlerForStates(s: State)
    ensures HandlerFor(StateName(s)) ==
      match s
      case Greeting => GreetingHandler
      case Collect(f) => CollectionHandler(f)
      case FinalConfirmation => FinalConfirmationHandler
      case Finished => GreetingHandler
  {
    match s
    case Collect(Name) => assert StateName(s) == "collect_name";
    case Collect(Company) => assert StateName(s) == "collect_company";
    case Collect(Email) => assert StateName(s) == "collect_email";
    case Collect(Phone) => assert StateName(s) == "collect_phone";
    case Collect(Country) => assert StateName(s) == "collect_country";
    case _ =>
  }

  lemma HandlerForUnknownName(stateName: string)
    requires forall s: State :: StateName(s) != stateName
    ensures HandlerFor(stateName) == GreetingHandler
  {
    assert StateName(Collect(Name)) == "collect_name";
    assert StateName(Collect(Company)) == "collect_company";
    assert StateName(Collect(Email)) == "collect_email";
    assert StateName(Collect(Phone)) == "collect_phone";
    assert StateName(Collect(Country)) == "collect_country";
    assert StateName(FinalConfirmation) == "final_confirmation";
  }

  /** One turn: dispatch on the state name (`current_field` is passed to the
      handlers but none of them reads it, so it is not a parameter here). */
  function Advance(stateName: string, input: string, rec: Record, awaiting: bool, pick: nat): Turn {
    match HandlerFor(stateName)
    case GreetingHandler => Greet(input, rec, pick)
    case CollectionHandler(f) => CollectField(f, input, rec, awaiting)
    case FinalConfirmationHandler => FinalConfirm(input, rec)
  }

  // =====================================================================
  // Properties of a turn
  // =====================================================================

  /** An off-topic digression at the greeting keeps the greeting, the record
      and a cleared confirmation flag, and answers with the redirect `pick`
      chooses. */
  lemma OffTopicKeepsGreeting(stateName: string, input: string, rec: Record, awaiting: bool, pick: nat, k: nat)
    requires HandlerFor(stateName) == GreetingHandler
    requires k < |OffTopicKeywords| && Contains(Lower(input), OffTopicKeywords[k])
    ensures var t := Advance(stateName, input, rec, awaiting, pick);
      t.newState == Greeting && t.record == rec && !t.awaiting && t.submitted == None
      && t.response == OffTopicRedirect(pick)
  {
    assert IsOffTopicQuestion(input);
  }

  /** Whatever `random.choice` picks is one of the three redirects. */
  lemma RedirectIsOffTopicReply(pick: nat)
    ensures Text(OffTopicRedirect(pick)) in OffTopicReplies
  {
  }

  /** The state a positive confirmation of `f` leads to. */
  function AfterConfirming(f: Field): State {
    match NextField(f)
    case Some(g) => Collect(g)
    case None => FinalConfirmation
  }

  /** In a collecting state, a turn is the collecting handler's turn. */
  lemma AdvanceCollects(f: Field, input: string, rec: Record, awaiting: bool, pick: nat)
    ensures Advance(StateName(Collect(f)), input, rec, awaiting, pick) == CollectField(f, input, rec, awaiting)
  {
    HandlerForStates(Collect(f));
  }

  /** A yes in `collect_<f>` (tested before no) moves on and keeps the
      record, except that confirming the country formats the phone. */
  lemma ConfirmYes(f: Field, input: string, rec: Record, pick: nat)
    requires IsPositiveResponse(input)
    ensures var t := Advance(StateName(Collect(f)), input, rec, true, pick);
      && t.newState == AfterConfirming(f) && !t.awaiting && t.manualField == None && t.submitted == None
      && t.record == (if f == Country then rec.(phone := FormatPhoneWithCountry(rec.phone, rec.country)) else rec)
  {
    AdvanceCollects(f, input, rec, true, pick);
  }

  /** Otherwise a no clears exactly field f, stays, and offers manual entry
      of f. */
  lemma ConfirmNo(f: Field, input: string, rec: Record, pick: nat)
    requires !IsPositiveResponse(input) && IsNegativeResponse(input)
    ensures var t := Advance(StateName(Collect(f)), input, rec, true, pick);
      && t.newState == Collect(f) && !t.awaiting && t.manualField == Some(f) && t.submitted == None
      && t.record.Get(f) == [] && (forall g :: g != f ==> t.record.Get(g) == rec.Get(g))
  {
    AdvanceCollects(f, input, rec, true, pick);
  }

  /** Otherwise nothing changes and the question stays open. */
  lemma ConfirmNeither(f: Field, input: string, rec: Record, pick: nat)
    requires !IsPositiveResponse(input) && !IsNegativeResponse(input)
    ensures var t := Advance(StateName(Collect(f)), input, rec, true, pick);
      t.newState == Collect(f) && t.awaiting && t.record == rec && t.manualField == None && t.submitted == None
  {
    AdvanceCollects(f, input, rec, true, pick);
  }

  /** An extraction turn in `collect_<f>` changes field f only, to the
      value the field's extractor returns (non-empty and well formed), and
      then awaits confirmation; when nothing is accepted the record is kept
      and manual entry is offered. */
  lemma ExtractionTurn(f: Field, input: string, rec: Record, pick: nat)
    ensures var t := Advance(StateName(Collect(f)), input, rec, false, pick);
      && t.newState == Collect(f) && t.submitted == None
      && (forall g :: g != f ==> t.record.Get(g) == rec.Get(g))
      && (t.awaiting <==> Accept(f, input).Some?)
      && (t.awaiting ==> Some(t.record.Get(f)) == Accept(f, input))
      && (t.awaiting ==> t.record.Get(f) != [] && WellFormedValue(f, t.record.Get(f)) && t.manualField == None)
      && (!t.awaiting ==> t.record == rec && t.manualField == Some(f))
  {
    AdvanceCollects(f, input, rec, false, pick);
    if Accept(f, input).Some? {
      AcceptedValueWellFormed(f, input);
    }
  }

  /** Whenever a phone turn stores a value and asks to confirm it, the value
      is the extracted phone and passes `validate_phone`. */
  lemma StoredPhoneIsValid(input: string, rec: Record, pick: nat)
    ensures var t := Advance("collect_phone", input, rec, false, pick);
      t.awaiting ==> PhoneOf(input) == Some(t.record.phone) && ValidatePhone(t.record.phone)
  {
    assert StateName(Collect(Phone)) == "collect_phone";
    AdvanceCollects(Phone, input, rec, false, pick);
    var t := Extraction(Phone, input, rec);
    if t.awaiting {
      assert Accept(Phone, input) == Some(t.record.phone);
    }
  }

  /** The final confirmation: yes hands the record to the sink and finishes;
      otherwise no restarts from the name with an empty record; otherwise
      nothing changes. Only this yes submits. */
  lemma FinalConfirmationTurn(input: string, rec: Record, awaiting: bool, pick: nat)
    ensures var t := Advance("final_confirmation", input, rec, awaiting, pick);
      && (IsPositiveResponse(input) ==> t.newState == Finished && t.record == rec && t.submitted == Some(rec))
      && (!IsPositiveResponse(input) && IsNegativeResponse(input) ==>
            t.newState == Collect(Name) && t.record == EmptyRecord && t.submitted == None)
      && (!IsPositiveResponse(input) && !IsNegativeResponse(input) ==>
            t.newState == FinalConfirmation && t.record == rec && t.submitted == None)
  {
    HandlerForStates(FinalConfirmation);
  }

  /** The sink is called in exactly one situation: a yes at the final
      confirmation, and then with the record as it stands. */
  lemma SubmitsOnlyOnFinalYes(stateName: string, input: string, rec: Record, awaiting: bool, pick: nat)
    ensures var t := Advance(stateName, input, rec, awaiting, pick);
      t.submitted.Some? <==> HandlerFor(stateName) == FinalConfirmationHandler && IsPositiveResponse(input)
    ensures var t := Advance(stateName, input, rec, awaiting, pick);
      t.submitted.Some? ==> t.submitted == Some(rec)
  {
    match HandlerFor(stateName)
    case GreetingHandler =>
      GreetKeepsRecord(input, rec, pick);
    case CollectionHandler(f) =>
      CollectSubmitsNothing(f, input, rec, awaiting);
    case FinalConfirmationHandler =>
      FinalConfirmSubmits(input, rec);
  }

  /** The greeting keeps the record, submits nothing, awaits nothing and
      stays at the greeting or moves to the name. */
  lemma GreetKeepsRecord(input: string, rec: Record, pick: nat)
    ensures var t := Greet(input, rec, pick);
      && t.record == rec && t.submitted == None && !t.awaiting
      && (t.newState == Greeting || t.newState == Collect(Name))
  {
  }

  /** A collecting handler never calls the sink. */
  lemma CollectSubmitsNothing(f: Field, input: string, rec: Record, awaiting: bool)
    ensures CollectField(f, input, rec, awaiting).submitted == None
  {
    if awaiting {
      assert Answer(f, input, rec).submitted == None;
    } else {
      assert Extraction(f, input, rec).submitted == None;
    }
  }

  /** The final confirmation submits the record exactly on a yes. */
  lemma FinalConfirmSubmits(input: string, rec: Record)
    ensures FinalConfirm(input, rec).submitted == if IsPositiveResponse(input) then Some(rec) else None
  {
  }

  /** A client that sends the confirmation flag again with a repeated no
      gets the same turn as for the first no. */
  lemma RepeatedNoIsIdempotent(f: Field, input: string, rec: Record, pick: nat)
    requires !IsPositiveResponse(input) && IsNegativeResponse(input)
    ensures var t1 := Advance(StateName(Collect(f)), input, rec, true, pick);
      var t2 := Advance(StateName(t1.newState), input, t1.record, true, pick);
      t2 == t1
  {
    AdvanceCollects(f, input, rec, true, pick);
    var t1 := Advance(StateName(Collect(f)), input, rec, true, pick);
    AdvanceCollects(f, input, t1.record, true, pick);
    assert t1.record.With(f, "") == t1.record;
  }

  /** A client that passes on the flag of the reply it got (false after a
      no) sends a repeated no to the field's extractor instead. */
  lemma RepeatedNoReachesExtractor(f: Field, input: string, rec: Record, pick: nat)
    requires !IsPositiveResponse(input) && IsNegativeResponse(input)
    ensures var t1 := Advance(StateName(Collect(f)), input, rec, true, pick);
      var t2 := Advance(StateName(t1.newState), input, t1.record, t1.awaiting, pick);
      !t1.awaiting && t2 == Extraction(f, input, t1.record)
  {
    AdvanceCollects(f, input, rec, true, pick);
    var t1 := Advance(StateName(Collect(f)), input, rec, true, pick);
    AdvanceCollects(f, input, t1.record, false, pick);
  }

  /** Two records that agree on every field are the same record. */
  lemma SameFields(r: Record, s: Record)
    requires forall g :: r.Get(g) == s.Get(g)
    ensures r == s
  {
    assert r.Get(Name) == s.Get(Name) && r.Get(Company) == s.Get(Company);
    assert r.Get(Email) == s.Get(Email) && r.Get(Phone) == s.Get(Phone);
    assert r.Get(Country) == s.Get(Country);
  }

  /** A no to a pending confirmation, then the same no sent to the
      extractor: the field ends up holding whatever the extractor accepts
      from the no, and that value awaits confirmation. */
  lemma RepeatedNoStoresExtracted(f: Field, input: string, rec: Record, v: string)
    requires !IsPositiveResponse(input) && IsNegativeResponse(input) && Accept(f, input) == Some(v)
    ensures var t1 := Answer(f, input, rec);
      var t2 := Extraction(f, input, t1.record);
      !t1.awaiting && t2.record == rec.With(f, v) && t2.awaiting && t2.newState == Collect(f)
  {
    SameFields(rec.With(f, "").With(f, v), rec.With(f, v));
  }

  /** At the name, a visitor who says "no" twice, with the flag passed on,
      has "No" stored as the name and is asked to confirm it. */
  lemma RepeatedNoStoresNoAsName(rec: Record, pick: nat)
    ensures var t1 := Advance(StateName(Collect(Name)), "no", rec, true, pick);
      var t2 := Advance(StateName(t1.newState), "no", t1.record, t1.awaiting, pick);
      t2.record == rec.With(Name, "No") && t2.awaiting && t2.newState == Collect(Name)
  {
    NoIsOnlyNegative();
    NoIsAName();
    assert Accept(Name, "no") == Some("No");
    RepeatedNoReachesExtractor(Name, "no", rec, pick);
    AdvanceCollects(Name, "no", rec, true, pick);
    RepeatedNoStoresExtracted(Name, "no", rec, "No");
  }

  /** Replaying the country confirmation with the record it returned leaves
      the phone as it is: the calling code is added once. */
  lemma CountryConfirmationFormatsOnce(input: string, rec: Record, pick: nat)
    requires IsPositiveResponse(input)
    ensures var t1 := Advance(StateName(Collect(Country)), input, rec, true, pick);
      var t2 := Advance(StateName(Collect(Country)), input, t1.record, true, pick);
      t2.record == t1.record && t2.newState == FinalConfirmation
  {
    ConfirmYes(Country, input, rec, pick);
    var t1 := Advance(StateName(Collect(Country)), input, rec, true, pick);
    ConfirmYes(Country, input, t1.record, pick);
    FormatPhoneIdempotent(rec.phone, rec.country);
  }

  /** In a confirmation, "not good" confirms: the affirmative test runs
      first and "good" is affirmative. */
  lemma NotGoodConfirms(f: Field, input: string, rec: Record, pick: nat)
    requires Contains(Lower(Strip(input)), "not good")
    ensures Advance(StateName(Collect(f)), input, rec, true, pick).newState == AfterConfirming(f)
  {
    NotGoodIsPositive(input);
    ConfirmYes(f, input, rec, pick);
  }

  // =====================================================================
  // The record is complete by the time it can be submitted
  // =====================================================================

  /** Field `g` comes before field `f` in `FieldOrder`. */
  function Rank(f: Field): nat {
    match f
    case Name => 0
    case Company => 1
    case Email => 2
    case Phone => 3
    case Country => 4
  }

  predicate Complete(rec: Record) {
    forall g: Field :: rec.Get(g) != []
  }

  /** What a session that follows the bot's replies keeps true: every field
      before the one being collected is filled, the one awaiting
      confirmation is filled and well formed for its field, and the record
      is complete from the final confirmation on. */
  predicate Consistent(s: State, rec: Record, awaiting: bool) {
    match s
    case Greeting => true
    case Collect(f) =>
      && (forall g: Field :: Rank(g) < Rank(f) ==> rec.Get(g) != [])
      && (awaiting ==> rec.Get(f) != [] && WellFormedValue(f, rec.Get(f)))
    case FinalConfirmation => Complete(rec)
    case Finished => Complete(rec)
  }

  /** Confirming the field in hand keeps the session consistent. */
  lemma ConfirmedKeepsConsistency(f: Field, rec: Record)
    requires Consistent(Collect(f), rec, false) && rec.Get(f) != []
    ensures var t := Confirmed(f, rec); Consistent(t.newState, t.record, t.awaiting)
  {
    if f == Country {
      var t := Confirmed(f, rec);
      FormatPhoneKeepsNumber(rec.phone, rec.country);
      assert forall g: Field :: g != Phone ==> t.record.Get(g) == rec.Get(g);
    }
  }

  /** Storing a non-empty, well-formed value for the field in hand, or
      clearing it while no confirmation is awaited, keeps the session
      consistent. */
  lemma StoreKeepsConsistency(f: Field, v: string, rec: Record, awaiting: bool)
    requires Consistent(Collect(f), rec, false)
    requires awaiting ==> v != [] && WellFormedValue(f, v)
    ensures Consistent(Collect(f), rec.With(f, v), awaiting)
  {
  }

  /** A collecting turn keeps the session consistent. */
  lemma CollectKeepsConsistency(f: Field, input: string, rec: Record, awaiting: bool)
    requires Consistent(Collect(f), rec, awaiting)
    ensures var t := CollectField(f, input, rec, awaiting);
      Consistent(t.newState, t.record, t.awaiting)
  {
    if awaiting {
      if IsPositiveResponse(input) {
        ConfirmedKeepsConsistency(f, rec);
      } else if IsNegativeResponse(input) {
        StoreKeepsConsistency(f, "", rec, false);
      }
    } else {
      var a := Accept(f, input);
      if a.Some? {
        AcceptedValueWellFormed(f, input);
        StoreKeepsConsistency(f, a.value, rec, true);
      }
    }
  }

  /** The final confirmation keeps a complete record or starts over at the
      name with the empty record. */
  lemma FinalConfirmKeepsConsistency(input: string, rec: Record)
    requires Complete(rec)
    ensures var t := FinalConfirm(input, rec); Consistent(t.newState, t.record, t.awaiting)
  {
  }

  /** Every turn keeps the session consistent. */
  lemma AdvancePreservesConsistency(s: State, input: string, rec: Record, awaiting: bool, pick: nat)
    requires Consistent(s, rec, awaiting)
    ensures var t := Advance(StateName(s), input, rec, awaiting, pick);
      Consistent(t.newState, t.record, t.awaiting)
  {
    HandlerForStates(s);
    match s
    case Collect(f) =>
      CollectKeepsConsistency(f, input, rec, awaiting);
    case Greeting =>
      GreetKeepsRecord(input, rec, pick);
    case Finished =>
      GreetKeepsRecord(input, rec, pick);
    case FinalConfirmation =>
      FinalConfirmKeepsConsistency(input, rec);
  }

  // =====================================================================
  // Manual entry (server.py:681-712)
  // =====================================================================

  /** The reply of `/manual_input`: a value stored and the next field asked
      for; a reprompt for a blank value (the state name is built from the
      requested field, whatever it is); or the server error raised when a
      non-blank value names no field of `field_order`. */
  datatype ManualOutcome =
    | Stored(response: Message, newState: State, record: Record, currentField: Option<Field>)
    | Reprompt(response: Message, newStateName: string, record: Record, requestedField: string)
    | Rejected

  /** The field-order logic of `handle_manual_input`. */
  function ManualEntry(field: string, value: string, rec: Record): ManualOutcome {
    if field != [] && Strip(value) != [] then
      match FieldNamed(field)
      case None => Rejected
      case Some(f) =>
        var r := rec.With(f, Strip(value));
        match NextField(f)
        case Some(g) => Stored(ManualNext(g), Collect(g), r, Some(g))
        case None => Stored(ManualConfirm(r), FinalConfirmation, r, None)
    else
      Reprompt(ManualInvalid(field), "collect_" + field, rec, field)
  }

  /** A non-blank value for field f replaces only f, by the stripped value,
      and moves to the next field (the final confirmation after the
      country) without asking for confirmation. */
  lemma ManualEntryStores(f: Field, value: string, rec: Record)
    requires Strip(value) != []
    ensures var o := ManualEntry(FieldName(f), value, rec);
      && o.Stored?
      && o.record.Get(f) == Strip(value)
      && (forall g :: g != f ==> o.record.Get(g) == rec.Get(g))
      && o.newState == AfterConfirming(f)
  {
  }

  /** A blank value changes nothing and asks for the same field again. */
  lemma ManualEntryBlank(f: Field, value: string, rec: Record)
    requires Strip(value) == []
    ensures ManualEntry(FieldName(f), value, rec)
      == Reprompt(ManualInvalid(FieldName(f)), StateName(Collect(f)), rec, FieldName(f))
  {
  }

  /** A non-blank value for a name outside the field order is an error. */
  lemma ManualEntryUnknownField(field: string, value: string, rec: Record)
    requires field != [] && Strip(value) != []
    requires forall g: Field :: FieldName(g) != field
    ensures ManualEntry(field, value, rec) == Rejected
  {
  }

  /** Manual entry of the field being collected keeps the session
      consistent. */
  lemma ManualEntryPreservesConsistency(f: Field, value: string, rec: Record, awaiting: bool)
    requires Consistent(Collect(f), rec, awaiting)
    ensures var o := ManualEntry(FieldName(f), value, rec);
      o.Stored? ==> Consistent(o.newState, o.record, false)
  {
    if Strip(value) != [] {
      ManualEntryStores(f, value, rec);
      var o := ManualEntry(FieldName(f), value, rec);
      assert Consistent(Collect(f), o.record, false) && o.record.Get(f) != [];
      NextFieldKeepsConsistency(f, o.record);
    }
  }

  /** Once the field in hand is filled, moving past it keeps the session
      consistent. */
  lemma NextFieldKeepsConsistency(f: Field, rec: Record)
    requires Consistent(Collect(f), rec, false) && rec.Get(f) != []
    ensures Consistent(AfterConfirming(f), rec, false)
  {
  }
}
