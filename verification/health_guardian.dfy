/**
 * The Health Guardian agent: it keeps each sender's messages in an in-memory
 * conversation context, forwards every text to the Medical Brain as an
 * "ANALYZE: ... CONTEXT: ..." request, and has an offline keyword responder.
 */
module HealthGuardian {
  import opened Text
  import opened Chat

  // ---------------------------------------------------------------- fixed texts

  const WelcomeText: string :=
    "👋 Hello! I'm your Health Guardian AI.\n\nI can help you with:\n• Symptom analysis\n• Health advice\n• Medication information\n• General wellness tips\n\nWhat health concerns can I help you with today?"

  const ProcessingText: string :=
    "🔍 I'm analyzing your symptoms with my medical knowledge base. One moment please..."

  const GoodbyeText: string :=
    "Thank you for using Health Guardian! Stay healthy and don't hesitate to reach out anytime. 🌟"

  // Each template is written as a short prefix followed by the rest, so that
  // the templates can be told apart by their prefixes alone.

  const PainAdvice: string :=
    "I " + "understand you're experiencing pain. Here are some general tips:\n\n• Rest in a quiet, dark room\n• Stay hydrated\n• Consider over-the-counter pain relief\n• If severe or persistent, consult a doctor\n\n⚠️ This is general advice. Please consult a healthcare professional for personalized medical guidance."

  const FeverAdvice: string :=
    "For f" + "ever management:\n\n• Monitor your temperature regularly\n• Stay hydrated with water and clear fluids\n• Rest adequately\n• Use fever-reducing medication if needed\n• Seek medical attention if fever exceeds 103°F (39.4°C)\n\n⚠️ Always consult a healthcare provider for medical concerns."

  const ColdAdvice: string :=
    "For c" + "old and flu symptoms:\n\n• Get plenty of rest\n• Drink warm fluids (tea, soup)\n• Use humidifier for congestion\n• Gargle with salt water for sore throat\n• Consider vitamin C and zinc supplements\n\n⚠️ If symptoms worsen or persist beyond 7-10 days, see a doctor."

  const GeneralText: string :=
    "I'" + "m here to help with your health concerns. Could you provide more details?\n\nFor example:\n• What symptoms are you experiencing?\n• When did they start?\n• How severe are they?\n\n💡 The more information you provide, the better I can assist you!"

  // ---------------------------------------------------------------- offline responder

  const PainWords: seq<string> := ["headache", "pain", "hurt", "ache"]
  const FeverWords: seq<string> := ["fever", "temperature", "hot"]
  const ColdWords: seq<string> := ["cold", "cough", "flu"]

  /** Python's `any(word in lower for word in words)`. */
  predicate AnyIn(lower: string, words: seq<string>) {
    exists i :: 0 <= i < |words| && Contains(lower, words[i])
  }

  /** A word occurs in `a + b` exactly when it occurs in `a` or in `b`. */
  lemma AnyInConcat(lower: string, a: seq<string>, b: seq<string>)
    ensures AnyIn(lower, a + b) <==> AnyIn(lower, a) || AnyIn(lower, b)
  {
    if AnyIn(lower, a + b) {
      var i :| 0 <= i < |a + b| && Contains(lower, (a + b)[i]);
      if i < |a| {
        assert (a + b)[i] == a[i];
      } else {
        assert (a + b)[i] == b[i - |a|];
      }
    }
    if AnyIn(lower, a) {
      var i :| 0 <= i < |a| && Contains(lower, a[i]);
      assert (a + b)[i] == a[i];
    }
    if AnyIn(lower, b) {
      var i :| 0 <= i < |b| && Contains(lower, b[i]);
      assert (a + b)[|a| + i] == b[i];
    }
  }

  /** The four answers of the offline responder. */
  datatype Category = Pain | Fever | ColdFlu | General

  /** The words that select each answer; the general answer has none. */
  function Words(c: Category): seq<string> {
    match c
    case Pain => PainWords
    case Fever => FeverWords
    case ColdFlu => ColdWords
    case General => []
  }

  /**
   * The keyword test of `generate_simple_response`, checked in this order: pain,
   * fever, cold/flu. A class other than the general one is chosen only when one
   * of its own words occurs, and the general one exactly when no listed word does.
   */
  function Classify(userMessage: string): (r: Category)
    ensures r == Pain <==> AnyIn(Lower(userMessage), PainWords)
    ensures r != General ==> AnyIn(Lower(userMessage), Words(r))
    ensures r == General <==> !AnyIn(Lower(userMessage), PainWords + FeverWords + ColdWords)
  {
    var lower := Lower(userMessage);
    AnyInConcat(lower, PainWords + FeverWords, ColdWords);
    AnyInConcat(lower, PainWords, FeverWords);
    if AnyIn(lower, PainWords) then Pain
    else if AnyIn(lower, FeverWords) then Fever
    else if AnyIn(lower, ColdWords) then ColdFlu
    else General
  }

  function Template(c: Category): string {
    match c
    case Pain => PainAdvice
    case Fever => FeverAdvice
    case ColdFlu => ColdAdvice
    case General => GeneralText
  }

  /**
   * `generate_simple_response`: one of the four texts, and the general one
   * exactly when the message has none of the listed words.
   */
  function SimpleResponse(userMessage: string): (r: string)
    ensures r == PainAdvice || r == FeverAdvice || r == ColdAdvice || r == GeneralText
    ensures r == GeneralText <==> !AnyIn(Lower(userMessage), PainWords + FeverWords + ColdWords)
  {
    TemplatesDistinct(Classify(userMessage), General);
    Template(Classify(userMessage))
  }

  /** The four templates are different texts, so the answer tells which class was chosen. */
  lemma TemplatesDistinct(c: Category, d: Category)
    ensures Template(c) == Template(d) <==> c == d
  {
    assert PainAdvice[0] != FeverAdvice[0] && PainAdvice[0] != ColdAdvice[0];
    assert GeneralText[0] != FeverAdvice[0] && GeneralText[0] != ColdAdvice[0];
    assert PainAdvice[1] != GeneralText[1];
    assert FeverAdvice[4] != ColdAdvice[4];
  }

  /**
   * The precedence of the responder: pain words win over everything, fever words
   * over cold words, and the general text is given only when no word occurs.
   */
  lemma ResponsePrecedence(userMessage: string)
    ensures SimpleResponse(userMessage) == PainAdvice <==> AnyIn(Lower(userMessage), PainWords)
    ensures SimpleResponse(userMessage) == FeverAdvice
            <==> !AnyIn(Lower(userMessage), PainWords) && AnyIn(Lower(userMessage), FeverWords)
    ensures SimpleResponse(userMessage) == ColdAdvice
            <==> !AnyIn(Lower(userMessage), PainWords) && !AnyIn(Lower(userMessage), FeverWords)
                 && AnyIn(Lower(userMessage), ColdWords)
    ensures SimpleResponse(userMessage) == GeneralText
            <==> !AnyIn(Lower(userMessage), PainWords) && !AnyIn(Lower(userMessage), FeverWords)
                 && !AnyIn(Lower(userMessage), ColdWords)
  {
    var c := Classify(userMessage);
    TemplatesDistinct(c, Pain);
    TemplatesDistinct(c, Fever);
    TemplatesDistinct(c, ColdFlu);
    TemplatesDistinct(c, General);
  }

  /** The responder only sees the lower-cased message. */
  lemma ResponseIgnoresCase(userMessage: string)
    ensures SimpleResponse(Lower(userMessage)) == SimpleResponse(userMessage)
  {
    LowerIdempotent(userMessage);
  }

  /** Plain substring matching: in "Flu shot" the word "hot" is found, so the fever text wins over the flu text. */
  lemma FluShotGetsFeverAdvice()
    ensures SimpleResponse("Flu shot") == FeverAdvice
  {
    FluShotIsFever();
  }

  lemma FluShotIsFever()
    ensures Classify("Flu shot") == Fever
  {
    var lower := Lower("Flu shot");
    assert lower == "flu shot";
    NoPainWordIn(lower);
    assert OccursAt(lower, "hot", 5);
    ContainsAt(lower, FeverWords[2], 5);
  }

  lemma NoPainWordIn(s: string)
    requires s == "flu shot"
    ensures !AnyIn(s, PainWords)
  {
    forall i | 0 <= i < |PainWords| ensures !Contains(s, PainWords[i]) {
      if i == 0 {
        NotContainsMissingChar(s, "headache", 'd');
      } else if i == 1 {
        NotContainsMissingChar(s, "pain", 'p');
      } else if i == 2 {
        NotContainsMissingChar(s, "hurt", 'r');
      } else {
        NotContainsMissingChar(s, "ache", 'c');
      }
    }
  }

  // ---------------------------------------------------------------- forwarding

  /** The request sent to the Medical Brain: the marker, the message, then the rendered history. */
  function ForwardRequest(userMessage: string, context: string): (r: string)
    ensures |r| == |userMessage| + |context| + 19
  {
    "ANALYZE: " + userMessage + "\nCONTEXT: " + context
  }

  // ---------------------------------------------------------------- conversation context

  /** `conversation_context.get(sender, [])`. */
  function Lookup(h: map<string, seq<string>>, sender: string): seq<string> {
    if sender in h then h[sender] else []
  }

  /** A text from `sender`: its list is created if missing, then the text is appended. */
  function Recorded(h: map<string, seq<string>>, sender: string, text: string): map<string, seq<string>> {
    h[sender := Lookup(h, sender) + [text]]
  }

  /** The end of `sender`'s session: its list is dropped if there is one. */
  function Ended(h: map<string, seq<string>>, sender: string): map<string, seq<string>> {
    if sender in h then h - {sender} else h
  }

  /** The effect of one content item on the conversation context. */
  function Step(h: map<string, seq<string>>, sender: string, item: Content): map<string, seq<string>> {
    match item
    case StartSession => h
    case Text(t) => Recorded(h, sender, t)
    case EndSession => Ended(h, sender)
  }

  /** The conversation context after handling `items` from `sender` in order. */
  function HistoryAfter(h: map<string, seq<string>>, sender: string, items: seq<Content>): map<string, seq<string>> {
    if items == [] then h
    else Step(HistoryAfter(h, sender, items[..|items| - 1]), sender, items[|items| - 1])
  }

  /** A message leaving the Health Guardian. */
  datatype Outbound = ToSender(text: string) | ToBrain(request: string)

  /** What one content item sends, given the context before it. */
  function Output(h: map<string, seq<string>>, sender: string, item: Content, render: seq<string> -> string): seq<Outbound> {
    match item
    case StartSession => [ToSender(WelcomeText)]
    case Text(t) =>
      [ToBrain(ForwardRequest(t, render(Lookup(Recorded(h, sender, t), sender)))), ToSender(ProcessingText)]
    case EndSession => [ToSender(GoodbyeText)]
  }

  /** Everything sent while handling `items` from `sender` in order. */
  function Outbox(h: map<string, seq<string>>, sender: string, items: seq<Content>, render: seq<string> -> string): seq<Outbound> {
    if items == [] then []
    else
      var init := items[..|items| - 1];
      Outbox(h, sender, init, render) + Output(HistoryAfter(h, sender, init), sender, items[|items| - 1], render)
  }

  /** The texts among `items`, in order. */
  function Texts(items: seq<Content>): seq<string> {
    if items == [] then []
    else Texts(items[..|items| - 1]) + (if items[|items| - 1].Text? then [items[|items| - 1].text] else [])
  }

  /** The per-sender message history of the Health Guardian (`conversation_context`). */
  class ConversationContext {
    var history: map<string, seq<string>>

    constructor ()
      ensures history == map[]
    {
      history := map[];
    }

    /** Stores a text message: afterwards the sender's list is the old one (or []) plus the text. */
    method RecordText(sender: string, text: string)
      modifies this
      ensures history == Recorded(old(history), sender, text)
      ensures history[sender] == Lookup(old(history), sender) + [text]
    {
      if sender !in history {
        history := history[sender := []];
      }
      history := history[sender := history[sender] + [text]];
    }

    /** Forgets the sender at the end of its session; nothing happens when it has no entry. */
    method EndSession(sender: string)
      modifies this
      ensures history == Ended(old(history), sender)
      ensures sender !in history
    {
      if sender in history {
        history := history - {sender};
      }
    }

    /**
     * `handle_user_message` with the Medical Brain configured: walks the content
     * items in order, greeting on a session start, recording and forwarding each
     * text, and forgetting the sender on a session end. `render` stands for the
     * Python rendering of the sender's list that is inlined in the request.
     */
    method HandleUserMessage(sender: string, items: seq<Content>, render: seq<string> -> string)
      returns (outbox: seq<Outbound>)
      modifies this
      ensures history == HistoryAfter(old(history), sender, items)
      ensures outbox == Outbox(old(history), sender, items, render)
    {
      outbox := [];
      for i := 0 to |items|
        invariant history == HistoryAfter(old(history), sender, items[..i])
        invariant outbox == Outbox(old(history), sender, items[..i], render)
      {
        assert items[..i + 1][..i] == items[..i];
        match items[i]
        case StartSession =>
          outbox := outbox + [ToSender(WelcomeText)];
        case Text(t) =>
          RecordText(sender, t);
          var request := ForwardRequest(t, render(history[sender]));
          outbox := outbox + [ToBrain(request), ToSender(ProcessingText)];
        case EndSession =>
          EndSession(sender);
          outbox := outbox + [ToSender(GoodbyeText)];
      }
      assert items[..|items|] == items;
    }
  }

  // ---------------------------------------------------------------- properties of the context

  /** A text extends its sender's list by exactly that text and leaves every other sender's entry alone. */
  lemma RecordedEffect(h: map<string, seq<string>>, sender: string, text: string)
    ensures sender in Recorded(h, sender, text)
    ensures Lookup(Recorded(h, sender, text), sender) == Lookup(h, sender) + [text]
    ensures forall other :: other != sender ==>
      (other in Recorded(h, sender, text) <==> other in h)
      && Lookup(Recorded(h, sender, text), other) == Lookup(h, other)
  {
  }

  /** A session end removes its sender, is a no-op for a sender without history, and leaves the others alone. */
  lemma EndedEffect(h: map<string, seq<string>>, sender: string)
    ensures sender !in Ended(h, sender) && Lookup(Ended(h, sender), sender) == []
    ensures sender !in h ==> Ended(h, sender) == h
    ensures forall other :: other != sender ==>
      (other in Ended(h, sender) <==> other in h)
      && Lookup(Ended(h, sender), other) == Lookup(h, other)
  {
  }

  /** Handling `a` then `b` is handling `a + b`. */
  lemma {:induction false} HistoryAfterConcat(h: map<string, seq<string>>, sender: string, a: seq<Content>, b: seq<Content>)
    ensures HistoryAfter(h, sender, a + b) == HistoryAfter(HistoryAfter(h, sender, a), sender, b)
  {
    if b == [] {
      assert a + b == a;
    } else {
      HistoryAfterConcat(h, sender, a, b[..|b| - 1]);
      assert (a + b)[..|a + b| - 1] == a + b[..|b| - 1];
    }
  }

  /** A sender's messages never touch another sender's entry. */
  lemma {:induction false} OtherSendersUnchanged(h: map<string, seq<string>>, sender: string, items: seq<Content>, other: string)
    requires other != sender
    ensures other in HistoryAfter(h, sender, items) <==> other in h
    ensures Lookup(HistoryAfter(h, sender, items), other) == Lookup(h, other)
  {
    if items != [] {
      OtherSendersUnchanged(h, sender, items[..|items| - 1], other);
    }
  }

  /** Without a session end, the sender's history is the old one followed by the new texts. */
  lemma {:induction false} HistoryAppendsTexts(h: map<string, seq<string>>, sender: string, items: seq<Content>)
    requires EndSession !in items
    ensures Lookup(HistoryAfter(h, sender, items), sender) == Lookup(h, sender) + Texts(items)
  {
    if items != [] {
      var init := items[..|items| - 1];
      assert EndSession !in init by {
        forall k | 0 <= k < |init| ensures init[k] != EndSession {
          assert init[k] == items[k];
        }
      }
      HistoryAppendsTexts(h, sender, init);
    }
  }

  /** A session end forgets the sender, whatever came before. */
  lemma SessionEndForgets(h: map<string, seq<string>>, sender: string, items: seq<Content>)
    ensures sender !in HistoryAfter(h, sender, items + [EndSession])
  {
    assert (items + [EndSession])[..|items|] == items;
  }

  /** After the last session end, the sender's history holds exactly the texts sent since. */
  lemma HistoryAfterSessionEnd(h: map<string, seq<string>>, sender: string, before: seq<Content>, since: seq<Content>)
    requires EndSession !in since
    ensures Lookup(HistoryAfter(h, sender, before + [EndSession] + since), sender) == Texts(since)
  {
    HistoryAfterConcat(h, sender, before + [EndSession], since);
    SessionEndForgets(h, sender, before);
    HistoryAppendsTexts(HistoryAfter(h, sender, before + [EndSession]), sender, since);
  }

  /** A session start changes nothing in the context. */
  lemma SessionStartKeepsHistory(h: map<string, seq<string>>, sender: string, items: seq<Content>)
    ensures HistoryAfter(h, sender, items + [StartSession]) == HistoryAfter(h, sender, items)
  {
    assert (items + [StartSession])[..|items|] == items;
  }

  /**
   * The request forwarded for a text carries the sender's history that already
   * ends with that text, after the text itself.
   */
  lemma ForwardedHistoryEndsWithMessage(h: map<string, seq<string>>, sender: string, t: string, render: seq<string> -> string)
    ensures Output(h, sender, Text(t), render)[0]
            == ToBrain(ForwardRequest(t, render(Lookup(h, sender) + [t])))
  {
  }
}
