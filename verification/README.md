# Health Guardian agents — a Dafny model

The system has two chat agents:

- **Health Guardian.** Talks to a user and keeps every sender's messages in an in-memory `conversation_context` map. It forwards each text to the other agent as `"ANALYZE: <message>\nCONTEXT: <history>"`. It also has an offline keyword responder.
- **Medical Brain.** Pulls the user's query back out of such a request and answers it with `analyze_symptoms`. That function lower-cases the query, stops at the first emergency phrase it finds, and otherwise matches the query against a six-entry symptom table. It then renders a report or a "need more information" text.

The model has six modules:

- `Text` (`text.dfy`): the Python string operations these agents use, as functions on `seq<char>`. These are `in`, `lower()`, `capitalize()`, `replace(' ', '')`, `strip()`, `split(sep)[0]` and the text after the first separator (`partition(sep)[2]`).
- `Chat` (`chat.dfy`): the three kinds of chat content the agents act on; both agents ignore every other kind.
- `Knowledge` (`knowledge.dfy`): the symptom table, with its exact texts, in insertion order.
- `MedicalBrain` (`medical_brain.dfy`):
  - `analyze_symptoms` as loop methods, each proved against a specification function (`Analysis`, `Matches`, `Report`)
  - lemmas about those specification functions
  - the query extraction, and the request handler as a loop over content items.
- `HealthGuardian` (`health_guardian.dfy`):
  - the offline responder and the request string
  - `conversation_context` as the class `ConversationContext`, holding a `map<string, seq<string>>`, with methods that update it in place
  - the message handler, proved against the specification functions `HistoryAfter` and `Outbox`.
- `Relay` (`relay.dfy`): the two agents together. For a message without either marker, the request the Health Guardian builds is read back by the Medical Brain as the stripped message. A message that contains "CONTEXT:" is cut short at its first such marker, when no "ANALYZE:" comes before it in the message.

Three behaviours of the code worth noting:

- **The emergency check is not space-insensitive.** It is a plain substring test on the lower-cased message. "ChestPain" raises no emergency, although it matches the "chest pain" table entry (`ChestpainMatchesButIsNoEmergency`).
- **"Space-insensitive" means the space character only.** The code removes only `' '`, not other white space.
- **Extraction stops at a second "ANALYZE:".** The query is `split("ANALYZE:")[1].split("CONTEXT:")[0]`. So it also ends at a second "ANALYZE:" that comes before the "CONTEXT:" marker (`ExtractStopsAtSecondMarker`).

## Model

| member | source | states |
|---|---|---|
| Knowledge.TableKeysDistinct | agents/medical_brain.py:54-120 | the table has six entries and no key twice |
| Text.Find | agents/medical_brain.py:156 | `p in s`: nothing found exactly when no window of `s` equals `p`; otherwise the first such window |
| Text.Lower | agents/medical_brain.py:149 | `lower()`: same length, each character lowered (ASCII) |
| Text.LowerIdempotent | agents/medical_brain.py:149 | lowering twice is lowering once |
| Text.Capitalize | agents/medical_brain.py:199 | `capitalize()`: same length, first character upper-cased, every later character lower-cased; lowering the result equals lowering the input, so only case changes |
| Text.RemoveSpaces | agents/medical_brain.py:171 | `replace(' ', '')`: no space left, never longer, identity on space-free text |
| Text.RemoveSpacesConcat | agents/medical_brain.py:171 | removing spaces distributes over concatenation |
| Text.ContainsRemoveSpaces | agents/medical_brain.py:171 | an occurrence survives removing spaces from both text and pattern |
| Text.Strip | agents/medical_brain.py:253 | `strip()`: the result is a window of the input with only white space around it and no white space at its ends |
| Text.StripLeadingSpace | agents/medical_brain.py:253 | a leading white-space character does not change `strip()` |
| Text.StripTrailingSpace | agents/medical_brain.py:253 | a trailing white-space character does not change `strip()` |
| Text.SplitHead | agents/medical_brain.py:253 | `split(sep)[0]`: the prefix of the input up to the first `sep`; no `sep` starts inside it, it is the whole input exactly when `sep` does not occur, and otherwise the first `sep` starts right after it |
| Text.SplitTail | agents/medical_brain.py:253 | the text after the first `sep` (`partition(sep)[2]`): the input is head + `sep` + tail; `split(sep)[1]` is `SplitHead` of it |
| MedicalBrain.MatchSymptoms | agents/medical_brain.py:169-172 | the matching loop returns the matching table rows in table order (`Matches`) |
| MedicalBrain.AppendBullets | agents/medical_brain.py:202-203 | the inner loop appends one marker line per item, in order |
| MedicalBrain.AppendSection | agents/medical_brain.py:199-211 | one iteration appends the symptom line, conditions, advice and warning of one row |
| MedicalBrain.RenderReport | agents/medical_brain.py:193-228 | the report is the header, one section per match in order, and the disclaimer once |
| MedicalBrain.AnalyzeSymptoms | agents/medical_brain.py:147-228 | the method's answer is `Analysis` of the message: emergency text, fallback, or report |
| MedicalBrain.EmergencyIff | agents/medical_brain.py:152-166 | the emergency text comes back if and only if some emergency phrase occurs in the lower-cased message |
| MedicalBrain.FallbackIff | agents/medical_brain.py:180-190 | the fallback text comes back if and only if there is no emergency phrase and no match |
| MedicalBrain.AnalysisIgnoresCase | agents/medical_brain.py:149 | messages that differ only in ASCII case get the same answer |
| MedicalBrain.MatchesMembership | agents/medical_brain.py:169-172 | a row is matched if and only if it is in the table and its key matches |
| MedicalBrain.MatchesInTableOrder | agents/medical_brain.py:170 | matches keep the table's order |
| MedicalBrain.MatchesDistinct | agents/medical_brain.py:170-172 | no key is matched twice |
| MedicalBrain.KeyMatchesIgnoresSpaces | agents/medical_brain.py:171 | a key matches if and only if its space-free form occurs in the space-free message |
| MedicalBrain.NoMatches | agents/medical_brain.py:169-172 | when no key matches, the match list is empty |
| MedicalBrain.ChestpainMatchesButIsNoEmergency | agents/medical_brain.py:155-156 | "ChestPain" triggers no emergency phrase but matches exactly the "chest pain" row |
| MedicalBrain.ReportLength | agents/medical_brain.py:198-211 | each matched row adds at least one section frame to the report's length |
| MedicalBrain.SectionsShowWarning | agents/medical_brain.py:211 | every rendered row's warning line is in the rendered sections |
| MedicalBrain.MatchedWarningShown | agents/medical_brain.py:198-211 | without an emergency phrase, every matching row's warning line is in the answer |
| MedicalBrain.ExtractQuery | agents/medical_brain.py:252-255 | the query is the whole text when it lacks "ANALYZE:"; otherwise it is a piece of the text after the first "ANALYZE:" that contains neither marker |
| MedicalBrain.ExtractWithoutMarker | agents/medical_brain.py:254-255 | without "ANALYZE:" the query is the whole text |
| MedicalBrain.ExtractBetweenMarkers | agents/medical_brain.py:252-253 | with the markers in place, the query is the stripped text between "ANALYZE:" and the next "CONTEXT:" |
| MedicalBrain.ExtractToEnd | agents/medical_brain.py:252-253 | with no marker after the first "ANALYZE:", the query is the stripped rest of the text |
| MedicalBrain.ExtractStopsAtSecondMarker | agents/medical_brain.py:253 | a second "ANALYZE:" with no "CONTEXT:" before it ends the query: the query is the stripped text between the two "ANALYZE:" markers |
| MedicalBrain.HandleAnalysisRequest | agents/medical_brain.py:246-258 | one analysis per text item, in order, of the extracted query; other items are skipped |
| HealthGuardian.Classify | agents/health_guardian.py:116-162 | pain is chosen exactly when a pain word occurs in the lower-cased message; any other non-general class only when one of its own words occurs; the general class exactly when none of the ten words occurs |
| HealthGuardian.SimpleResponse | agents/health_guardian.py:116-162 | the answer is one of the four texts, and the general text exactly when none of the ten words occurs |
| HealthGuardian.TemplatesDistinct | agents/health_guardian.py:121-162 | the four responder texts are pairwise different |
| HealthGuardian.ResponsePrecedence | agents/health_guardian.py:121-162 | pain words win; then fever words; then cold words; the general text only when none occurs (each as an if-and-only-if) |
| HealthGuardian.ResponseIgnoresCase | agents/health_guardian.py:118 | the responder gives the same answer for messages that differ only in ASCII case |
| HealthGuardian.FluShotGetsFeverAdvice | agents/health_guardian.py:132 | plain substring matching: "Flu shot" contains "hot", so the fever text beats the flu text |
| HealthGuardian.ForwardRequest | agents/health_guardian.py:91-94 | the forwarded request's length is the message's, the history's and the 19 marker characters' |
| HealthGuardian.ConversationContext.constructor | agents/health_guardian.py:34 | the context starts empty |
| HealthGuardian.ConversationContext.RecordText | agents/health_guardian.py:81-83 | the sender's list (created if missing) gets the text appended; nothing else changes |
| HealthGuardian.ConversationContext.EndSession | agents/health_guardian.py:107-108 | the sender's entry is removed if present; otherwise nothing changes |
| HealthGuardian.ConversationContext.HandleUserMessage | agents/health_guardian.py:62-113 | the handler's new map and outgoing messages are `HistoryAfter` and `Outbox` of the content items |
| HealthGuardian.RecordedEffect | agents/health_guardian.py:81-83 | after a text the sender's history is the old one (or empty) plus the text, other senders unchanged |
| HealthGuardian.EndedEffect | agents/health_guardian.py:107-108 | after a session end the sender has no history, a missing sender is a no-op, other senders unchanged |
| HealthGuardian.HistoryAfterConcat | agents/health_guardian.py:62 | handling items one after another composes |
| HealthGuardian.OtherSendersUnchanged | agents/health_guardian.py:62-113 | a sender's items never change another sender's entry |
| HealthGuardian.HistoryAppendsTexts | agents/health_guardian.py:76-83 | without a session end, the history is the old one followed by the new texts in order |
| HealthGuardian.SessionEndForgets | agents/health_guardian.py:105-108 | after a session end the sender has no entry |
| HealthGuardian.HistoryAfterSessionEnd | agents/health_guardian.py:76-83 | after the last session end, the history is exactly the texts sent since |
| HealthGuardian.SessionStartKeepsHistory | agents/health_guardian.py:63-74 | a session start does not touch the map |
| HealthGuardian.ForwardedHistoryEndsWithMessage | agents/health_guardian.py:91-94 | the request carries the message and the history that already ends with it |
| Relay.RequestIsFramed | agents/health_guardian.py:91-94 | a request is "ANALYZE:", a space, the message, a line break, "CONTEXT:", a space, then exactly the rendered history |
| Relay.FramedQuery | agents/medical_brain.py:252-253 | from such a framed request with a marker-free message, the query is the stripped message |
| Relay.ForwardedQueryRoundTrip | agents/medical_brain.py:252-253 | round trip: for any history, extraction of the forwarded request gives the stripped message, when the message has neither marker |
| Relay.GuardianTextIsAnalysed | agents/medical_brain.py:246-258 | the Medical Brain answers a forwarded marker-free text with the analysis of the stripped text |
| Relay.FramedMarkerTruncates | agents/medical_brain.py:253 | a framed message `x + "CONTEXT:" + y`, where `x` holds neither marker, is read back as the stripped `x` |
| Relay.ContextMarkerInMessageTruncates | agents/health_guardian.py:91-94 | a user text `x + "CONTEXT:" + y` reaches the analyser cut short at its first "CONTEXT:", when no "ANALYZE:" comes before it |

## Left out

- The uagents framework is not modelled. Outgoing messages are the `Outbound` values that `HandleUserMessage` returns. Left out with it are `Agent`, `Protocol`, `ctx.send`, async dispatch, acknowledgements, logging and start-up.
- Two handlers running at the same time are not modelled; each message is handled as one atomic call.
- `create_text_chat` is not modelled. It stamps messages with `datetime.utcnow()` and `uuid4()`, so a message is modelled as its text.
- MeTTa/hyperon is modelled as absent. So the knowledge-file loading, `query_metta_knowledge` and the "powered by MeTTa" line are not part of this model.
- `load_dotenv` and the agent seeds, ports and endpoints are left out.
- The `MEDICAL_BRAIN_ADDRESS == "agent1q..."` test is not modelled, because that constant is never the placeholder. `HandleUserMessage` always forwards, and `SimpleResponse` is the offline responder on its own.
- Python's `repr` of the history list is not modelled. It is the `render` parameter, an arbitrary function, so no property depends on its output.
- `Text.Lower`, `Text.Capitalize`: ASCII letters only; Unicode case mapping is not modelled.
- The property that an unmatched row's warning line is absent from the report is not stated. Proving that a text is absent from a composed report needs a search over all the table's literal texts.
- The table has no "prevention" field, so none is modelled.
- `HealthGuardian.ForwardRequest`: its own contract states only the length. The full layout, frame and rendered history, is stated by `Relay.RequestIsFramed`.
