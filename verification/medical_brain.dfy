/**
 * The Medical Brain agent: the symptom analyser (emergency short-circuit,
 * keyword matching against the knowledge table, report rendering) and the
 * extraction of the user's query from an "ANALYZE: ... CONTEXT: ..." request.
 * The optional MeTTa knowledge graph is taken to be absent.
 */
module MedicalBrain {
  import opened Text
  import opened Knowledge
  import opened Chat

  // ---------------------------------------------------------------- fixed texts

  /** The phrases that make the analyser stop and tell the user to get help. */
  const EmergencyKeywords: seq<string> := [
    "chest pain", "chest-pain", "shortness of breath", "difficulty breathing",
    "severe bleeding", "unconscious", "stroke", "heart attack"
  ]

  // Each reply text is written as its first character followed by the rest, so
  // that the replies can be told apart by their first character alone.

  const EmergencyText: string :=
    "🚨" + " **EMERGENCY ALERT** 🚨\n\nBased on your symptoms, you may be experiencing a medical emergency.\n\n**IMMEDIATE ACTIONS:**\n1. Call emergency services (911 or local emergency number) NOW\n2. Do not drive yourself\n3. Stay calm and sit or lie down\n4. If someone is with you, inform them\n\n⚠️ Do not wait or try to treat this yourself. Get emergency help immediately!"

  const NeedMoreInfoText: string :=
    "🤔" + " I need more information to provide accurate guidance.\n\nCould you describe your symptoms in more detail? For example:\n• What are you feeling? (pain, discomfort, etc.)\n• Where is it located?\n• When did it start?\n• How severe is it (1-10)?\n\n💡 Common symptoms I can help with: headache, fever, cough, fatigue, nausea, chest pain, and more."

  const Header: string := "🏥" + " **Medical Analysis**\n\n"

  const Disclaimer: string :=
    "---\n\n**Important Disclaimer:**\nThis is general health information and not a substitute for professional medical advice. Always consult with a qualified healthcare provider for diagnosis and treatment.\n\n🆘 **Seek immediate emergency care if you experience:**\n• Chest pain or pressure\n• Difficulty breathing\n• Severe bleeding\n• Loss of consciousness\n• Severe allergic reaction\n• Stroke symptoms (FAST: Face drooping, Arm weakness, Speech difficulty, Time to call 911)\n"

  const ConditionsLabel: string := "**Possible Conditions:**\n"
  const ActionsLabel: string := "**Recommended Actions:**\n"

  // ---------------------------------------------------------------- specification

  /** Some emergency phrase occurs in the (lower-cased) message. */
  predicate IsEmergency(lower: string) {
    exists i :: 0 <= i < |EmergencyKeywords| && Contains(lower, EmergencyKeywords[i])
  }

  /** The table test: the key occurs in the message, or does so once spaces are removed from both. */
  predicate KeyMatches(key: string, lower: string) {
    Contains(lower, key) || Contains(RemoveSpaces(lower), RemoveSpaces(key))
  }

  /** The rows of `t` whose key matches, in the order of `t`. */
  function Matches(t: seq<Row>, lower: string): seq<Row> {
    if t == [] then []
    else
      var init := Matches(t[..|t| - 1], lower);
      if KeyMatches(t[|t| - 1].0, lower) then init + [t[|t| - 1]] else init
  }

  /** One line per item, each started by `marker`. */
  function Bullets(marker: string, items: seq<string>): string {
    if items == [] then ""
    else Bullets(marker, items[..|items| - 1]) + (marker + items[|items| - 1] + "\n")
  }

  function Title(key: string): string {
    "**Symptom: " + Capitalize(key) + "**\n\n"
  }

  function WarningLine(warning: string): string {
    "⚠️ **Warning:** " + warning + "\n\n"
  }

  /** The part of the report that describes one matched row. */
  function Section(r: Row): string {
    Title(r.0) + ConditionsLabel + Bullets("• ", r.1.conditions) + "\n"
    + ActionsLabel + Bullets("✓ ", r.1.advice) + "\n"
    + WarningLine(r.1.warning)
  }

  function Sections(ms: seq<Row>): string {
    if ms == [] then "" else Sections(ms[..|ms| - 1]) + Section(ms[|ms| - 1])
  }

  /** The full report for a non-empty list of matches. */
  function Report(ms: seq<Row>): string {
    Header + Sections(ms) + Disclaimer
  }

  /** What `analyze_symptoms` returns for a message. */
  function Analysis(userMessage: string): string {
    var lower := Lower(userMessage);
    if IsEmergency(lower) then EmergencyText
    else
      var ms := Matches(Table, lower);
      if ms == [] then NeedMoreInfoText else Report(ms)
  }

  // ---------------------------------------------------------------- the analyser

  /** The matching loop of `analyze_symptoms`: walks the table in order, keeping the rows whose key matches. */
  method MatchSymptoms(lower: string) returns (matched: seq<Row>)
    ensures matched == Matches(Table, lower)
  {
    matched := [];
    for i := 0 to |Table|
      invariant matched == Matches(Table[..i], lower)
    {
      var symptom := Table[i].0;
      if Contains(lower, symptom) || Contains(RemoveSpaces(lower), RemoveSpaces(symptom)) {
        matched := matched + [Table[i]];
      }
      assert Table[..i + 1][..i] == Table[..i];
    }
    assert Table[..|Table|] == Table;
  }

  /** The inner loops of the report: one line per item, appended to `response`. */
  method AppendBullets(response: string, marker: string, items: seq<string>) returns (r: string)
    ensures r == response + Bullets(marker, items)
  {
    r := response;
    for j := 0 to |items|
      invariant r == response + Bullets(marker, items[..j])
    {
      assert items[..j + 1][..j] == items[..j];
      r := r + (marker + items[j] + "\n");
    }
    assert items[..|items|] == items;
  }

  /** One iteration of the report loop: the section of one matched row, appended to `response`. */
  method AppendSection(response: string, row: Row) returns (r: string)
    ensures r == response + Section(row)
  {
    var symptom, data := row.0, row.1;
    r := response + Title(symptom);
    ghost var part := Title(symptom);
    // invariant of the steps below: r == response + part
    ConcatAssoc(response, part, ConditionsLabel);
    r := r + ConditionsLabel;
    part := part + ConditionsLabel;
    ConcatAssoc(response, part, Bullets("• ", data.conditions));
    r := AppendBullets(r, "• ", data.conditions);
    part := part + Bullets("• ", data.conditions);
    ConcatAssoc(response, part, "\n");
    r := r + "\n";
    part := part + "\n";
    ConcatAssoc(response, part, ActionsLabel);
    r := r + ActionsLabel;
    part := part + ActionsLabel;
    ConcatAssoc(response, part, Bullets("✓ ", data.advice));
    r := AppendBullets(r, "✓ ", data.advice);
    part := part + Bullets("✓ ", data.advice);
    ConcatAssoc(response, part, "\n");
    r := r + "\n";
    part := part + "\n";
    ConcatAssoc(response, part, WarningLine(data.warning));
    r := r + WarningLine(data.warning);
    part := part + WarningLine(data.warning);
    assert part == Section(row);
  }

  /** The rendering loop: the header, each matched row's section in order, the disclaimer once. */
  method RenderReport(matched: seq<Row>) returns (response: string)
    ensures response == Report(matched)
  {
    response := Header;
    for i := 0 to |matched|
      invariant response == Header + Sections(matched[..i])
    {
      ghost var done := Sections(matched[..i]);
      response := AppendSection(response, matched[i]);
      ConcatAssoc(Header, done, Section(matched[i]));
      assert matched[..i + 1][..i] == matched[..i];
      assert Sections(matched[..i + 1]) == done + Section(matched[i]);
    }
    assert matched[..|matched|] == matched;
    response := response + Disclaimer;
  }

  /**
   * `analyze_symptoms`: checks the emergency phrases one by one and stops at the
   * first hit; otherwise collects the matching table rows and renders them.
   */
  method AnalyzeSymptoms(userMessage: string) returns (response: string)
    ensures response == Analysis(userMessage)
  {
    var lower := Lower(userMessage);
    for i := 0 to |EmergencyKeywords|
      invariant forall j :: 0 <= j < i ==> !Contains(lower, EmergencyKeywords[j])
    {
      if Contains(lower, EmergencyKeywords[i]) {
        return EmergencyText;
      }
    }
    var matched := MatchSymptoms(lower);
    if matched == [] {
      return NeedMoreInfoText;
    }
    response := RenderReport(matched);
  }

  // ---------------------------------------------------------------- properties

  /** The emergency text comes back exactly when an emergency phrase occurs, whichever it is. */
  lemma EmergencyIff(userMessage: string)
    ensures Analysis(userMessage) == EmergencyText <==> IsEmergency(Lower(userMessage))
  {
    var lower := Lower(userMessage);
    if !IsEmergency(lower) {
      var ms := Matches(Table, lower);
      assert NeedMoreInfoText[0] != EmergencyText[0];
      if ms != [] {
        assert Report(ms)[0] == Header[0] != EmergencyText[0];
      }
    }
  }

  /** The "need more information" text comes back exactly when nothing is urgent and nothing matched. */
  lemma FallbackIff(userMessage: string)
    ensures Analysis(userMessage) == NeedMoreInfoText
            <==> !IsEmergency(Lower(userMessage)) && Matches(Table, Lower(userMessage)) == []
  {
    var lower := Lower(userMessage);
    assert NeedMoreInfoText[0] != EmergencyText[0];
    var ms := Matches(Table, lower);
    if ms != [] {
      assert Report(ms)[0] == Header[0] != NeedMoreInfoText[0];
    }
  }

  /** The analysis only sees the lower-cased message. */
  lemma AnalysisIgnoresCase(userMessage: string)
    ensures Analysis(Lower(userMessage)) == Analysis(userMessage)
  {
    LowerIdempotent(userMessage);
  }

  /** A row is matched exactly when it is in the table and its key matches. */
  lemma {:induction false} MatchesMembership(t: seq<Row>, lower: string, r: Row)
    ensures r in Matches(t, lower) <==> r in t && KeyMatches(r.0, lower)
  {
    if t != [] {
      var init := t[..|t| - 1];
      MatchesMembership(init, lower, r);
      assert t == init + [t[|t| - 1]];
    }
  }

  /** `a` is `b` with some elements left out, the rest kept in order. */
  predicate IsSubsequence<T(==)>(a: seq<T>, b: seq<T>)
    decreases |b|
  {
    if a == [] then true
    else if b == [] then false
    else if a[|a| - 1] == b[|b| - 1] then IsSubsequence(a[..|a| - 1], b[..|b| - 1])
    else IsSubsequence(a, b[..|b| - 1])
  }

  /** Matches are listed in table order, not in the order they occur in the message. */
  lemma {:induction false} MatchesInTableOrder(t: seq<Row>, lower: string)
    ensures IsSubsequence(Matches(t, lower), t)
  {
    if t != [] {
      var init := t[..|t| - 1];
      var last := t[|t| - 1];
      MatchesInTableOrder(init, lower);
      var ms := Matches(t, lower);
      if KeyMatches(last.0, lower) {
        assert ms[..|ms| - 1] == Matches(init, lower);
      } else if ms != [] {
        MatchesMembership(init, lower, ms[|ms| - 1]);
        assert ms[|ms| - 1] != last;
      }
    }
  }

  /** Each key is matched at most once. */
  lemma {:induction false} MatchesDistinct(t: seq<Row>, lower: string)
    requires DistinctKeys(t)
    ensures DistinctKeys(Matches(t, lower))
  {
    if t != [] {
      var init := t[..|t| - 1];
      var last := t[|t| - 1];
      MatchesDistinct(init, lower);
      var prev := Matches(init, lower);
      if KeyMatches(last.0, lower) {
        forall i | 0 <= i < |prev| ensures prev[i].0 != last.0 {
          MatchesMembership(init, lower, prev[i]);
          var k :| 0 <= k < |init| && init[k] == prev[i];
        }
      }
    }
  }

  /** The exact test adds nothing to the space-free one: a key matches iff it occurs once spaces are gone. */
  lemma KeyMatchesIgnoresSpaces(key: string, lower: string)
    ensures KeyMatches(key, lower) <==> Contains(RemoveSpaces(lower), RemoveSpaces(key))
  {
    if Contains(lower, key) {
      ContainsRemoveSpaces(lower, key);
    }
  }

  /** None of the emergency phrases occurs in "chestpain": all but one are longer, and "stroke" has a "k". */
  lemma NoEmergencyPhraseIn(s: string)
    requires s == "chestpain"
    ensures !IsEmergency(s)
  {
    forall i | 0 <= i < |EmergencyKeywords| ensures !Contains(s, EmergencyKeywords[i]) {
      if i == 6 {
        NotContainsMissingChar(s, "stroke", 'k');
      } else {
        NotContainsLonger(s, EmergencyKeywords[i]);
      }
    }
  }

  /** A key without spaces that has a character the message lacks does not match. */
  lemma KeyMissesChar(key: string, lower: string, c: char)
    requires c in key && c !in lower && ' ' !in key && ' ' !in lower
    ensures !KeyMatches(key, lower)
  {
    NotContainsMissingChar(lower, key, c);
  }

  /** When no key matches, nothing is matched. */
  lemma {:induction false} NoMatches(t: seq<Row>, lower: string)
    requires forall i :: 0 <= i < |t| ==> !KeyMatches(t[i].0, lower)
    ensures Matches(t, lower) == []
  {
    if t != [] {
      NoMatches(t[..|t| - 1], lower);
    }
  }

  /** Of the table's keys only "chest pain" matches "chestpain". */
  lemma OnlyChestPainMatches(s: string)
    requires s == "chestpain"
    ensures Matches(Table, s) == [Table[5]]
  {
    forall i | 0 <= i < 5 ensures !KeyMatches(Table[i].0, s) {
      if i == 0 {
        KeyMissesChar(Table[0].0, s, 'd');
      } else if i == 1 {
        KeyMissesChar(Table[1].0, s, 'f');
      } else if i == 2 {
        KeyMissesChar(Table[2].0, s, 'o');
      } else if i == 3 {
        KeyMissesChar(Table[3].0, s, 'f');
      } else {
        KeyMissesChar(Table[4].0, s, 'u');
      }
    }
    NoMatches(Table[..5], s);
    LastKeyIsChestPain();
    ChestPainWithoutSpaces();
    SpaceFreeFormMatches(Table[5].0, s);
  }

  lemma LastKeyIsChestPain()
    ensures Table[5].0 == "chest pain"
  {
  }

  lemma ChestPainWithoutSpaces()
    ensures RemoveSpaces("chest pain") == "chestpain"
  {
    assert "chest pain" == "chest" + " " + "pain";
    RemoveOneSpace("chest", "pain");
    assert "chest" + "pain" == "chestpain";
  }

  /** A message without spaces matches every key whose space-free form is the message. */
  lemma SpaceFreeFormMatches(key: string, lower: string)
    requires ' ' !in lower && RemoveSpaces(key) == lower
    ensures KeyMatches(key, lower)
  {
    ContainsAt(lower, lower, 0);
  }

  /**
   * The table match is space-insensitive but the emergency check is not:
   * "ChestPain" raises no emergency, yet matches the "chest pain" row and no other.
   */
  lemma ChestpainMatchesButIsNoEmergency()
    ensures !IsEmergency(Lower("ChestPain"))
    ensures Matches(Table, Lower("ChestPain")) == [Table[5]]
  {
    var s := Lower("ChestPain");
    assert s == "chestpain";
    NoEmergencyPhraseIn(s);
    OnlyChestPainMatches(s);
  }

  /** The fixed part of every section: labels, blank lines and the warning marker. */
  const SectionFrame: nat := |Section(("", Entry([], [], "")))|

  lemma SectionLength(r: Row)
    ensures |Section(r)| >= SectionFrame
  {
  }

  /** The report grows by at least one section frame per matched row. */
  lemma {:induction false} ReportLength(ms: seq<Row>)
    ensures |Report(ms)| >= |Header| + |Disclaimer| + |ms| * SectionFrame
  {
    if ms != [] {
      ReportLength(ms[..|ms| - 1]);
      SectionLength(ms[|ms| - 1]);
    }
  }

  /** Every row in the list has its warning line somewhere in the rendered sections. */
  lemma {:induction false} SectionsShowWarning(ms: seq<Row>, r: Row)
    requires r in ms
    ensures Contains(Sections(ms), WarningLine(r.1.warning))
  {
    var init := ms[..|ms| - 1];
    var last := ms[|ms| - 1];
    if r in init {
      SectionsShowWarning(init, r);
      ContainsConcat(Sections(init), Section(last), WarningLine(r.1.warning));
    } else {
      assert r == last;
      var w := WarningLine(r.1.warning);
      ContainsAt(w, w, 0);
      var head := Title(r.0) + ConditionsLabel + Bullets("• ", r.1.conditions) + "\n"
                  + ActionsLabel + Bullets("✓ ", r.1.advice) + "\n";
      assert Section(r) == head + w;
      ContainsConcat(head, w, w);
      ContainsConcat(Sections(init), Section(last), w);
    }
  }

  /** Every matched row's warning is in the answer (when no emergency phrase cut it short). */
  lemma MatchedWarningShown(userMessage: string, r: Row)
    requires !IsEmergency(Lower(userMessage))
    requires r in Table && KeyMatches(r.0, Lower(userMessage))
    ensures Contains(Analysis(userMessage), WarningLine(r.1.warning))
  {
    var lower := Lower(userMessage);
    var ms := Matches(Table, lower);
    MatchesMembership(Table, lower, r);
    SectionsShowWarning(ms, r);
    var w := WarningLine(r.1.warning);
    ContainsConcat(Header, Sections(ms), w);
    ContainsConcat(Header + Sections(ms), Disclaimer, w);
  }

  // ---------------------------------------------------------------- requests

  const AnalyzeMarker: string := "ANALYZE:"
  const ContextMarker: string := "CONTEXT:"

  /**
   * The query in a request: `text.split("ANALYZE:")[1].split("CONTEXT:")[0].strip()`
   * when the text has the marker, the whole text otherwise. A marked text gives
   * a piece of the text after its first "ANALYZE:" that holds neither marker.
   */
  function ExtractQuery(text: string): (r: string)
    ensures !Contains(text, AnalyzeMarker) ==> r == text
    ensures Contains(text, AnalyzeMarker) ==> !Contains(r, AnalyzeMarker) && !Contains(r, ContextMarker)
    ensures Contains(text, AnalyzeMarker) ==>
              exists i: nat :: Find(text, AnalyzeMarker).value + |AnalyzeMarker| <= i && OccursAt(text, r, i)
  {
    if Contains(text, AnalyzeMarker) then
      MarkedQuery(text);
      Strip(SplitHead(SplitHead(SplitTail(text, AnalyzeMarker), AnalyzeMarker), ContextMarker))
    else text
  }

  /** The marked case of `ExtractQuery`: each step keeps a window of the step before. */
  lemma MarkedQuery(text: string)
    requires Contains(text, AnalyzeMarker)
    ensures var q := Strip(SplitHead(SplitHead(SplitTail(text, AnalyzeMarker), AnalyzeMarker), ContextMarker));
            !Contains(q, AnalyzeMarker) && !Contains(q, ContextMarker)
            && exists i: nat :: Find(text, AnalyzeMarker).value + |AnalyzeMarker| <= i && OccursAt(text, q, i)
  {
    SplitWindow(text, AnalyzeMarker, ContextMarker);
  }

  /** A text without the marker is analysed as it stands. */
  lemma ExtractWithoutMarker(text: string)
    requires !Contains(text, AnalyzeMarker)
    ensures ExtractQuery(text) == text
  {
  }

  /** Without `sep` among the first `n` positions, `split(sep)[0]` keeps at least `n` characters. */
  lemma SplitHeadLength(s: string, sep: string, n: nat)
    requires sep != [] && n <= |s|
    requires forall j: nat :: j < n ==> !OccursAt(s, sep, j)
    ensures n <= |SplitHead(s, sep)|
  {
  }

  /** After the marker at `b - 8`, the text up to the second "ANALYZE:" reaches past the "CONTEXT:" at `c`. */
  lemma RestReachesContext(text: string, b: nat, c: nat)
    requires b <= c && c + |ContextMarker| <= |text|
    requires forall j: nat :: b <= j < c + |ContextMarker| ==> !OccursAt(text, AnalyzeMarker, j)
    ensures c - b + |ContextMarker| <= |SplitHead(text[b..], AnalyzeMarker)|
  {
    var n := c - b + |ContextMarker|;
    forall j: nat | j < n ensures !OccursAt(text[b..], AnalyzeMarker, j) {
      OccursAfter(text, AnalyzeMarker, b, j);
    }
    SplitHeadLength(text[b..], AnalyzeMarker, n);
  }

  /** A prefix of `text[b..]` long enough to hold the first "CONTEXT:" at `c` splits there. */
  lemma HeadSplitsAtContext(text: string, b: nat, c: nat, head: string)
    requires b <= c && OccursAt(text, ContextMarker, c)
    requires forall j: nat :: b <= j < c ==> !OccursAt(text, ContextMarker, j)
    requires c - b + |ContextMarker| <= |head| <= |text| - b && head == text[b..][..|head|]
    ensures SplitHead(head, ContextMarker) == text[b..c]
  {
    var rest := text[b..];
    OccursAfter(text, ContextMarker, b, c - b);
    OccursBefore(rest, ContextMarker, |head|, c - b);
    forall j: nat | j < c - b ensures !OccursAt(head, ContextMarker, j) {
      OccursBefore(rest, ContextMarker, |head|, j);
      OccursAfter(text, ContextMarker, b, j);
    }
    SplitAt(head, ContextMarker, c - b);
    assert head[..c - b] == text[b..c];
  }

  /**
   * With the first "ANALYZE:" at `a`, the first later "CONTEXT:" at `c`, and no
   * second "ANALYZE:" starting before that "CONTEXT:" ends, the query is the
   * stripped text between the two markers.
   */
  lemma ExtractBetweenMarkers(text: string, a: nat, c: nat)
    requires OccursAt(text, AnalyzeMarker, a)
    requires forall j: nat :: j < a ==> !OccursAt(text, AnalyzeMarker, j)
    requires a + |AnalyzeMarker| <= c && OccursAt(text, ContextMarker, c)
    requires forall j: nat :: a + |AnalyzeMarker| <= j < c ==> !OccursAt(text, ContextMarker, j)
    requires forall j: nat :: a + |AnalyzeMarker| <= j < c + |ContextMarker| ==> !OccursAt(text, AnalyzeMarker, j)
    ensures ExtractQuery(text) == Strip(text[a + |AnalyzeMarker|..c])
  {
    var b := a + |AnalyzeMarker|;
    SplitAt(text, AnalyzeMarker, a);
    RestReachesContext(text, b, c);
    HeadSplitsAtContext(text, b, c, SplitHead(text[b..], AnalyzeMarker));
  }

  /** `ExtractBetweenMarkers` for a text that starts with "ANALYZE:". */
  lemma ExtractFromStart(text: string, c: nat)
    requires OccursAt(text, AnalyzeMarker, 0) && 8 <= c && OccursAt(text, ContextMarker, c)
    requires forall j: nat :: 8 <= j < c ==> !OccursAt(text, ContextMarker, j)
    requires forall j: nat :: 8 <= j < c + 8 ==> !OccursAt(text, AnalyzeMarker, j)
    ensures ExtractQuery(text) == Strip(text[8..c])
  {
    ExtractBetweenMarkers(text, 0, c);
  }

  /**
   * With the first "ANALYZE:" at `a` and neither marker anywhere after it, the
   * query is the stripped rest of the text.
   */
  lemma ExtractToEnd(text: string, a: nat)
    requires OccursAt(text, AnalyzeMarker, a)
    requires forall j: nat :: j < a ==> !OccursAt(text, AnalyzeMarker, j)
    requires forall j: nat :: a + |AnalyzeMarker| <= j ==> !OccursAt(text, AnalyzeMarker, j)
    requires forall j: nat :: a + |AnalyzeMarker| <= j ==> !OccursAt(text, ContextMarker, j)
    ensures ExtractQuery(text) == Strip(text[a + |AnalyzeMarker|..])
  {
    var b := a + |AnalyzeMarker|;
    SplitAt(text, AnalyzeMarker, a);
    NoSeparatorAfter(text, b, AnalyzeMarker);
    NoSeparatorAfter(text, b, ContextMarker);
  }

  /** With no `sep` starting at or after `b`, `split(sep)[0]` keeps all of `text[b..]`. */
  lemma NoSeparatorAfter(text: string, b: nat, sep: string)
    requires sep != [] && b <= |text|
    requires forall j: nat :: b <= j ==> !OccursAt(text, sep, j)
    ensures SplitHead(text[b..], sep) == text[b..]
  {
    forall j: nat ensures !OccursAt(text[b..], sep, j) {
      OccursAfter(text, sep, b, j);
    }
    assert !Contains(text[b..], sep);
  }

  /**
   * A second "ANALYZE:" ends the query as well: with the first marker at `a`, the
   * next one at `d` and no "CONTEXT:" wholly between them, the query is the
   * stripped text between the two "ANALYZE:" markers.
   */
  lemma ExtractStopsAtSecondMarker(text: string, a: nat, d: nat)
    requires OccursAt(text, AnalyzeMarker, a)
    requires forall j: nat :: j < a ==> !OccursAt(text, AnalyzeMarker, j)
    requires a + |AnalyzeMarker| <= d && OccursAt(text, AnalyzeMarker, d)
    requires forall j: nat :: a + |AnalyzeMarker| <= j < d ==> !OccursAt(text, AnalyzeMarker, j)
    requires forall j: nat :: a + |AnalyzeMarker| <= j && j + |ContextMarker| <= d ==> !OccursAt(text, ContextMarker, j)
    ensures ExtractQuery(text) == Strip(text[a + |AnalyzeMarker|..d])
  {
    var b := a + |AnalyzeMarker|;
    SplitAt(text, AnalyzeMarker, a);
    HeadBeforeSecondMarker(text, b, d);
    NoContextBetween(text, b, d);
  }

  /** After the marker that ends at `b`, `split("ANALYZE:")[0]` stops at the next one, at `d`. */
  lemma HeadBeforeSecondMarker(text: string, b: nat, d: nat)
    requires b <= d && OccursAt(text, AnalyzeMarker, d)
    requires forall j: nat :: b <= j < d ==> !OccursAt(text, AnalyzeMarker, j)
    ensures SplitHead(text[b..], AnalyzeMarker) == text[b..d]
  {
    var rest := text[b..];
    OccursAfter(text, AnalyzeMarker, b, d - b);
    forall j: nat | j < d - b ensures !OccursAt(rest, AnalyzeMarker, j) {
      OccursAfter(text, AnalyzeMarker, b, j);
    }
    SplitAt(rest, AnalyzeMarker, d - b);
  }

  /** A stretch of the text that no "CONTEXT:" lies wholly inside is not split by it. */
  lemma NoContextBetween(text: string, b: nat, d: nat)
    requires b <= d <= |text|
    requires forall j: nat :: b <= j && j + |ContextMarker| <= d ==> !OccursAt(text, ContextMarker, j)
    ensures SplitHead(text[b..d], ContextMarker) == text[b..d]
  {
    var head := text[b..d];
    forall j: nat ensures !OccursAt(head, ContextMarker, j) {
      if j + |ContextMarker| <= |head| {
        OccursInside(text, head, b, ContextMarker, b + j);
      }
    }
    assert !Contains(head, ContextMarker);
  }

  /** `handle_analysis_request`: the analysis of each text item's query, in order. */
  function Replies(items: seq<Content>): seq<string> {
    if items == [] then []
    else
      var last := items[|items| - 1];
      Replies(items[..|items| - 1]) + (if last.Text? then [Analysis(ExtractQuery(last.text))] else [])
  }

  /** `handle_analysis_request`: answers every text item of a request message, skipping the rest. */
  method HandleAnalysisRequest(items: seq<Content>) returns (replies: seq<string>)
    ensures replies == Replies(items)
  {
    replies := [];
    for i := 0 to |items|
      invariant replies == Replies(items[..i])
    {
      if items[i].Text? {
        var query := ExtractQuery(items[i].text);
        var result := AnalyzeSymptoms(query);
        replies := replies + [result];
      }
      assert items[..i + 1][..i] == items[..i];
    }
    assert items[..|items|] == items;
  }
}
