/** The `VoiceBotManager` object (server.py:31-427, 616-637) and the
    manual-entry route (server.py:681-712) in the imperative form of the
    source: the handlers update the caller's `user_data` in place and hand it
    back in their reply, and the final confirmation passes it to the Excel
    sink. Each method is proved against the turn functions of module
    Dialogue, so the properties proved there hold of these methods too. */
module Bot {
  import opened Strings
  import opened Classifiers
  import opened Extractors
  import opened Dialogue

  /** The caller's `user_data` dictionary with its five keys. */
  class VisitorData {
    var name: string
    var company: string
    var email: string
    var phone: string
    var country: string

    /** The record the dictionary holds now. */
    function Value(): Record
      reads this
    {
      Record(name, company, email, phone, country)
    }

    constructor (r: Record)
      ensures Value() == r
    {
      name, company, email, phone, country := r.name, r.company, r.email, r.phone, r.country;
    }

    /** `user_data[f] = v` */
    method Set(f: Field, v: string)
      modifies this
      ensures Value() == old(Value()).With(f, v)
    {
      match f
      case Name => name := v;
      case Company => company := v;
      case Email => email := v;
      case Phone => phone := v;
      case Country => country := v;
    }
  }

  /** The reply dictionary on the wire: `bot_response` (the text
      `Text(response)`), `new_state`, `updated_data`, `current_field` ('' for
      none), `awaiting_confirmation`, and `show_manual_input` with
      `manual_field` ('' when the keys are absent). */
  datatype Reply = Reply(
    response: Message,
    newState: string,
    updatedData: VisitorData,
    currentField: string,
    awaiting: bool,
    showManualInput: bool,
    manualField: string)

  /** The wire text of an optional field. */
  function FieldText(o: Option<Field>): string {
    match o
    case None => ""
    case Some(f) => FieldName(f)
  }

  /** `reply` is the wire form of turn `t`, its data holding `t.record`. */
  predicate Encodes(reply: Reply, t: Turn)
    reads reply.updatedData
  {
    && reply.response == t.response
    && reply.newState == StateName(t.newState)
    && reply.updatedData.Value() == t.record
    && reply.currentField == FieldText(t.currentField)
    && reply.awaiting == t.awaiting
    && reply.showManualInput == t.manualField.Some?
    && reply.manualField == FieldText(t.manualField)
  }

  /** Builds the reply for turn `t` around the caller's dictionary. */
  function ReplyFor(t: Turn, data: VisitorData): (reply: Reply)
    reads data
    requires data.Value() == t.record
    ensures Encodes(reply, t) && reply.updatedData == data
  {
    Reply(t.response, StateName(t.newState), data, FieldText(t.currentField), t.awaiting,
      t.manualField.Some?, FieldText(t.manualField))
  }

  class VoiceBotManager {
    /** Every record handed to `save_visitor_data`, in call order: the
        Excel file, the clock and the logger are not part of this model. */
    ghost var saved: seq<Record>

    constructor ()
      ensures saved == []
    {
      saved := [];
    }

    /** `process_conversation`: the reply is the turn `Advance` describes;
        the caller's dictionary is updated in place and returned, except
        when the final confirmation starts over, which returns a fresh empty
        dictionary and leaves the caller's alone; the sink receives the
        record exactly when the turn submits it. `current_field` is not
        read by any handler. */
    method ProcessConversation(input: string, state: string, userData: VisitorData,
                               currentField: string, awaiting: bool, pick: nat)
      returns (reply: Reply)
      modifies this, userData
      ensures var t := Advance(state, input, old(userData.Value()), awaiting, pick);
        && Encodes(reply, t)
        && saved == old(saved) + (if t.submitted.Some? then [t.submitted.value] else [])
      ensures if HandlerFor(state) == FinalConfirmationHandler && !IsPositiveResponse(input) && IsNegativeResponse(input)
        then fresh(reply.updatedData) && userData.Value() == old(userData.Value())
        else reply.updatedData == userData
    {
      ghost var before := userData.Value();
      ghost var t := Advance(state, input, before, awaiting, pick);
      match HandlerFor(state)
      case GreetingHandler =>
        reply := HandleGreeting(input, userData, pick);
        GreetKeepsRecord(input, before, pick);
        assert t == Greet(input, before, pick);
      case CollectionHandler(f) =>
        reply := HandleCollection(f, input, userData, awaiting);
        CollectSubmitsNothing(f, input, before, awaiting);
        assert t == CollectField(f, input, before, awaiting);
      case FinalConfirmationHandler =>
        reply := HandleFinalConfirmation(input, userData);
        FinalConfirmSubmits(input, before);
        assert t == FinalConfirm(input, before);
    }

    /** `handle_greeting` with `handle_off_topic`; the record is not
        touched. */
    method HandleGreeting(input: string, userData: VisitorData, pick: nat) returns (reply: Reply)
      ensures Encodes(reply, Greet(input, userData.Value(), pick)) && reply.updatedData == userData
    {
      var response: Message;
      var next: State;
      if IsOffTopicQuestion(input) {
        response, next := OffTopicRedirect(pick), Greeting;
      } else {
        var mood := GreetingMood(input);
        match mood
        case Unhappy =>
          response, next := SorryToHear, Collect(Name);
        case Happy =>
          response, next := LetsStart, Collect(Name);
        case Neutral =>
          response, next := HowAreYou, Greeting;
      }
      var field := if next == Greeting then None else Some(Name);
      reply := ReplyFor(Turn(response, next, userData.Value(), field, false, None, None), userData);
    }

    /** `handle_<f>_collection`: while a value awaits confirmation, a yes
        moves on (formatting the phone after the country), a no clears
        field f; otherwise the field's extractor runs and an accepted value
        is stored. Only the caller's dictionary changes. */
    method HandleCollection(f: Field, input: string, userData: VisitorData, awaiting: bool)
      returns (reply: Reply)
      modifies userData
      ensures Encodes(reply, CollectField(f, input, old(userData.Value()), awaiting))
      ensures reply.updatedData == userData
    {
      if awaiting {
        reply := HandleAnswer(f, input, userData);
      } else {
        reply := HandleValue(f, input, userData);
      }
    }

    /** The confirmation half of a collecting handler: yes before no. */
    method HandleAnswer(f: Field, input: string, userData: VisitorData) returns (reply: Reply)
      modifies userData
      ensures Encodes(reply, Answer(f, input, old(userData.Value())))
      ensures reply.updatedData == userData
    {
      var before := userData.Value();
      if IsPositiveResponse(input) {
        reply := MoveOn(f, userData);
      } else if IsNegativeResponse(input) {
        userData.Set(f, "");
        reply := ReplyFor(Turn(Retry(f), Collect(f), userData.Value(), Some(f), false, Some(f), None), userData);
      } else {
        reply := ReplyFor(Turn(YesNo(f), Collect(f), before, Some(f), true, None, None), userData);
      }
    }

    /** A yes to the value of field f: move on; after the country, write
        the phone back with its calling code. */
    method MoveOn(f: Field, userData: VisitorData) returns (reply: Reply)
      modifies userData
      ensures Encodes(reply, Confirmed(f, old(userData.Value())))
      ensures reply.updatedData == userData
    {
      var before := userData.Value();
      if f == Country {
        var formatted := FormatPhoneWithCountry(userData.phone, userData.country);
        userData.phone := formatted;
      }
      reply := ReplyFor(Confirmed(f, before), userData);
    }

    /** The extraction half of a collecting handler: store an accepted
        value and ask for confirmation, or offer manual entry. */
    method HandleValue(f: Field, input: string, userData: VisitorData) returns (reply: Reply)
      modifies userData
      ensures Encodes(reply, Extraction(f, input, old(userData.Value())))
      ensures reply.updatedData == userData
    {
      var v := ExtractValue(f, input);
      if v.Some? {
        userData.Set(f, v.value);
        reply := ReplyFor(Turn(Heard(f, v.value), Collect(f), userData.Value(), Some(f), true, None, None), userData);
      } else {
        reply := ReplyFor(Turn(Unclear(f), Collect(f), userData.Value(), Some(f), false, Some(f), None), userData);
      }
    }

    /** The extraction step of each collecting handler: the field's
        extractor (the looping email and phone extractors run here) and the
        handler's own acceptance test. */
    method ExtractValue(f: Field, input: string) returns (v: Option<string>)
      ensures v == Accept(f, input)
    {
      match f
      case Name =>
        var n := ExtractName(input);
        v := if Truthy(n) then n else None;
      case Company =>
        var c := ExtractCompany(input);
        v := if Truthy(c) && |Strip(c.value)| > 1 then c else None;
      case Email =>
        var e := ExtractEmail(input);
        v := if Truthy(e) then e else None;
      case Phone =>
        var p := ExtractPhone(input);
        v := if Truthy(p) && ValidatePhone(p.value) then p else None;
      case Country =>
        var c := ExtractCountry(input);
        v := if Truthy(c) then c else None;
    }

    /** `handle_final_confirmation`: a yes saves the record and finishes; a
        no answers with a fresh copy of the empty record; otherwise nothing
        happens. */
    method HandleFinalConfirmation(input: string, userData: VisitorData) returns (reply: Reply)
      modifies this
      ensures Encodes(reply, FinalConfirm(input, userData.Value()))
      ensures saved == old(saved) + (if IsPositiveResponse(input) then [userData.Value()] else [])
      ensures if !IsPositiveResponse(input) && IsNegativeResponse(input)
        then fresh(reply.updatedData) else reply.updatedData == userData
    {
      var t := FinalConfirm(input, userData.Value());
      if IsPositiveResponse(input) {
        SaveVisitorData(userData);
        reply := ReplyFor(t, userData);
      } else if IsNegativeResponse(input) {
        var empty := new VisitorData(EmptyRecord);
        reply := ReplyFor(t, empty);
      } else {
        reply := ReplyFor(t, userData);
      }
    }

    /** `save_visitor_data` as a sink: the record is appended to the log
        (the timestamp and event keys and the Excel file are left out). */
    method SaveVisitorData(userData: VisitorData)
      modifies this
      ensures saved == old(saved) + [userData.Value()]
    {
      saved := saved + [userData.Value()];
    }
  }

  /** The reply of the manual-entry route, or the error reply of its
      exception handler. */
  datatype ManualReply = ManualAnswer(reply: Reply) | ManualFailure

  /** `handle_manual_input` (server.py:681-712): store the stripped value
      in the caller's dictionary and move along the field order, or ask
      again for a blank value; a field name outside the field order fails. */
  method HandleManualInput(field: string, value: string, userData: VisitorData) returns (r: ManualReply)
    modifies userData
    ensures match ManualEntry(field, value, old(userData.Value()))
      case Stored(response, next, rec, current) =>
        && r.ManualAnswer? && r.reply.updatedData == userData
        && Encodes(r.reply, Turn(response, next, rec, current, false, None, None))
      case Reprompt(response, nextName, rec, requested) =>
        && r == ManualAnswer(Reply(response, nextName, userData, requested, false, false, ""))
        && userData.Value() == rec
      case Rejected =>
        r == ManualFailure && userData.Value() == old(userData.Value())
  {
    var trimmed := Strip(value);
    if field != [] && trimmed != [] {
      var f := FieldNamed(field);
      if f.None? {
        return ManualFailure;
      }
      userData.Set(f.value, trimmed);
      var next := NextField(f.value);
      if next.Some? {
        var g := next.value;
        r := ManualAnswer(ReplyFor(Turn(ManualNext(g), Collect(g),
          userData.Value(), Some(g), false, None, None), userData));
      } else {
        r := ManualAnswer(ReplyFor(Turn(ManualConfirm(userData.Value()), FinalConfirmation,
          userData.Value(), None, false, None, None), userData));
      }
    } else {
      r := ManualAnswer(Reply(ManualInvalid(field), "collect_" + field, userData, field,
        false, false, ""));
    }
  }
}
