/**
 * The two agents together: the request the Health Guardian forwards for a
 * user's text, read back by the Medical Brain.
 */
module Relay {
  import opened Text
  import opened Chat
  import MedicalBrain
  import HealthGuardian

  /**
   * The layout of a forwarded request around the user's message `msg`:
   * "ANALYZE:", a space, the message, a line break, then "CONTEXT: ".
   */
  predicate Framed(t: string, msg: string) {
    var n := |msg|;
    && 19 + n <= |t|
    && t[..8] == MedicalBrain.AnalyzeMarker
    && t[8] == ' '
    && t[9..9 + n] == msg
    && t[9 + n] == '\n'
    && t[10 + n..18 + n] == MedicalBrain.ContextMarker
    && t[18 + n] == ' '
  }

  /** A request built by the Health Guardian has that layout, followed by exactly the rendered history. */
  lemma RequestIsFramed(msg: string, context: string)
    ensures Framed(HealthGuardian.ForwardRequest(msg, context), msg)
    ensures HealthGuardian.ForwardRequest(msg, context)[19 + |msg|..] == context
  {
    var t := HealthGuardian.ForwardRequest(msg, context);
    var n := |msg|;
    var front := "ANALYZE: ";
    var back := "\nCONTEXT: ";
    assert t == front + msg + back + context;
    assert t[..8] == front[..8];
    assert t[9..9 + n] == msg;
    assert t[10 + n..18 + n] == back[1..9];
    assert t[18 + n] == back[9];
    assert t[19 + n..] == context;
  }

  /** No "ANALYZE:" begins between the first marker and the end of "CONTEXT:". */
  lemma NoSecondAnalyzeMarker(t: string, msg: string, j: nat)
    requires Framed(t, msg) && !Contains(msg, MedicalBrain.AnalyzeMarker)
    requires 8 <= j < 18 + |msg|
    ensures !OccursAt(t, MedicalBrain.AnalyzeMarker, j)
  {
    var a := MedicalBrain.AnalyzeMarker;
    var n := |msg|;
    if j == 8 {
      NotOccursOver(t, a, j, j);
    } else if j + 8 <= 9 + n {
      OccursInside(t, msg, 9, a, j);
    } else if j <= 9 + n {
      assert '\n' !in a;
      NotOccursOver(t, a, j, 9 + n);
    } else {
      assert t[j] == MedicalBrain.ContextMarker[j - 10 - n];
      assert 'A' !in MedicalBrain.ContextMarker;
      NotOccursOver(t, a, j, j);
    }
  }

  /** No "CONTEXT:" begins before the one that follows the message. */
  lemma NoEarlierContextMarker(t: string, msg: string, j: nat)
    requires Framed(t, msg) && !Contains(msg, MedicalBrain.ContextMarker)
    requires 8 <= j < 10 + |msg|
    ensures !OccursAt(t, MedicalBrain.ContextMarker, j)
  {
    var c := MedicalBrain.ContextMarker;
    var n := |msg|;
    if j == 8 {
      NotOccursOver(t, c, j, j);
    } else if j + 8 <= 9 + n {
      OccursInside(t, msg, 9, c, j);
    } else {
      assert '\n' !in c;
      NotOccursOver(t, c, j, 9 + n);
    }
  }

  /** The message framed by the space after "ANALYZE:" and the line break before "CONTEXT:". */
  lemma StripFramedMessage(msg: string)
    ensures Strip([' '] + msg + ['\n']) == Strip(msg)
  {
    StripTrailingSpace([' '] + msg, '\n');
    StripLeadingSpace(' ', msg);
  }

  /** The text between the two markers of a framed request. */
  lemma FramedSlice(t: string, msg: string)
    requires Framed(t, msg)
    ensures t[8..10 + |msg|] == [' '] + msg + ['\n']
  {
    var n := |msg|;
    assert t[8..10 + n] == [t[8]] + t[9..9 + n] + [t[9 + n]];
  }

  /** In a framed request without markers in the message, the markers found are the framing ones. */
  lemma FramedMarkers(t: string, msg: string)
    requires Framed(t, msg)
    requires !Contains(msg, MedicalBrain.AnalyzeMarker) && !Contains(msg, MedicalBrain.ContextMarker)
    ensures OccursAt(t, MedicalBrain.AnalyzeMarker, 0) && OccursAt(t, MedicalBrain.ContextMarker, 10 + |msg|)
    ensures forall j: nat :: 8 <= j < 18 + |msg| ==> !OccursAt(t, MedicalBrain.AnalyzeMarker, j)
    ensures forall j: nat :: 8 <= j < 10 + |msg| ==> !OccursAt(t, MedicalBrain.ContextMarker, j)
  {
    forall j: nat | 8 <= j < 18 + |msg| ensures !OccursAt(t, MedicalBrain.AnalyzeMarker, j) {
      NoSecondAnalyzeMarker(t, msg, j);
    }
    forall j: nat | 8 <= j < 10 + |msg| ensures !OccursAt(t, MedicalBrain.ContextMarker, j) {
      NoEarlierContextMarker(t, msg, j);
    }
  }

  /** The query of a framed request without markers in the message is the stripped text between the markers. */
  lemma FramedExtract(t: string, msg: string)
    requires Framed(t, msg)
    requires !Contains(msg, MedicalBrain.AnalyzeMarker) && !Contains(msg, MedicalBrain.ContextMarker)
    ensures MedicalBrain.ExtractQuery(t) == Strip(t[8..10 + |msg|])
  {
    FramedMarkers(t, msg);
    MedicalBrain.ExtractFromStart(t, 10 + |msg|);
  }

  /** Stripping the text between the markers of a framed request strips the message. */
  lemma FramedStrip(t: string, msg: string)
    requires Framed(t, msg)
    ensures Strip(t[8..10 + |msg|]) == Strip(msg)
  {
    FramedSlice(t, msg);
    StripFramedMessage(msg);
  }

  /** From a framed request without markers in the message, the Medical Brain reads back the stripped message. */
  lemma FramedQuery(t: string, msg: string)
    requires Framed(t, msg)
    requires !Contains(msg, MedicalBrain.AnalyzeMarker) && !Contains(msg, MedicalBrain.ContextMarker)
    ensures MedicalBrain.ExtractQuery(t) == Strip(msg)
  {
    FramedExtract(t, msg);
    FramedStrip(t, msg);
  }

  /**
   * The round trip of the relay: for a message without either marker, whatever
   * the rendered history, the Medical Brain reads back the stripped message.
   */
  lemma ForwardedQueryRoundTrip(msg: string, context: string)
    requires !Contains(msg, MedicalBrain.AnalyzeMarker) && !Contains(msg, MedicalBrain.ContextMarker)
    ensures MedicalBrain.ExtractQuery(HealthGuardian.ForwardRequest(msg, context)) == Strip(msg)
  {
    RequestIsFramed(msg, context);
    FramedQuery(HealthGuardian.ForwardRequest(msg, context), msg);
  }

  /**
   * End to end: the request the Health Guardian forwards for a marker-free text
   * is answered by the Medical Brain with the analysis of the stripped text.
   */
  lemma GuardianTextIsAnalysed(h: map<string, seq<string>>, sender: string, msg: string, render: seq<string> -> string)
    requires !Contains(msg, MedicalBrain.AnalyzeMarker) && !Contains(msg, MedicalBrain.ContextMarker)
    ensures var out := HealthGuardian.Output(h, sender, Text(msg), render);
      && out[0].ToBrain?
      && MedicalBrain.Replies([Text(out[0].request)]) == [MedicalBrain.Analysis(Strip(msg))]
  {
    var out := HealthGuardian.Output(h, sender, Text(msg), render);
    ForwardedQueryRoundTrip(msg, render(HealthGuardian.Lookup(HealthGuardian.Recorded(h, sender, msg), sender)));
    assert [Text(out[0].request)][..0] == [];
  }

  /** Where the parts of a framed message `x + "CONTEXT:" + y` sit in the request. */
  lemma TruncatedLayout(t: string, x: string, y: string)
    requires Framed(t, x + MedicalBrain.ContextMarker + y)
    ensures 17 + |x| <= |t| && t[8] == ' '
    ensures t[9..9 + |x|] == x && t[9 + |x|..17 + |x|] == MedicalBrain.ContextMarker
  {
    var msg := x + MedicalBrain.ContextMarker + y;
    var n := |x|;
    assert msg[..n] == x;
    assert msg[n..n + 8] == MedicalBrain.ContextMarker;
    SliceOfWindow(t, 9, msg, 0, n);
    SliceOfWindow(t, 9, msg, n, n + 8);
  }

  /** A slice of a window of `t` is the matching slice of `t`. */
  lemma SliceOfWindow(t: string, off: nat, w: string, lo: nat, hi: nat)
    requires off + |w| <= |t| && t[off..off + |w|] == w && lo <= hi <= |w|
    ensures t[off + lo..off + hi] == w[lo..hi]
  {
    forall k | 0 <= k < hi - lo ensures t[off + lo..off + hi][k] == w[lo..hi][k] {
      assert w[lo + k] == t[off..off + |w|][lo + k];
    }
  }

  /**
   * No "ANALYZE:" begins between the first framing marker and the end of the
   * message's own "CONTEXT:": not at the space, not inside `x`, not across the
   * end of `x` (that window would need a 'C'), and not inside "CONTEXT:".
   */
  lemma NoAnalyzeBeforeOwnContext(t: string, x: string, j: nat)
    requires 17 + |x| <= |t| && t[8] == ' '
    requires t[9..9 + |x|] == x && t[9 + |x|..17 + |x|] == MedicalBrain.ContextMarker
    requires !Contains(x, MedicalBrain.AnalyzeMarker)
    requires 8 <= j < 17 + |x|
    ensures !OccursAt(t, MedicalBrain.AnalyzeMarker, j)
  {
    var a := MedicalBrain.AnalyzeMarker;
    var c := MedicalBrain.ContextMarker;
    var n := |x|;
    if j == 8 {
      NotOccursOver(t, a, j, j);
    } else if j + 8 <= 9 + n {
      OccursInside(t, x, 9, a, j);
    } else if j < 9 + n {
      assert t[9 + n] == c[0] == 'C';
      assert 'C' !in a;
      NotOccursOver(t, a, j, 9 + n);
    } else {
      assert t[j] == c[j - 9 - n];
      assert 'A' !in c;
      NotOccursOver(t, a, j, j);
    }
  }

  /**
   * No "CONTEXT:" begins before the message's own: not at the space, not inside
   * `x`, and not across the end of `x` ("CONTEXT:" has no second 'C').
   */
  lemma NoContextBeforeOwn(t: string, x: string, j: nat)
    requires 17 + |x| <= |t| && t[8] == ' '
    requires t[9..9 + |x|] == x && t[9 + |x|..17 + |x|] == MedicalBrain.ContextMarker
    requires !Contains(x, MedicalBrain.ContextMarker)
    requires 8 <= j < 9 + |x|
    ensures !OccursAt(t, MedicalBrain.ContextMarker, j)
  {
    var c := MedicalBrain.ContextMarker;
    var n := |x|;
    if j == 8 {
      NotOccursOver(t, c, j, j);
    } else if j + 8 <= 9 + n {
      OccursInside(t, x, 9, c, j);
    } else {
      assert t[9 + n] == c[0] == 'C';
      assert forall k :: 1 <= k < 8 ==> c[k] != 'C';
      NotOccursOver(t, c, j, 9 + n);
    }
  }

  /** In a framed message `x + "CONTEXT:" + y`, the markers found are the first framing one and the message's own. */
  lemma TruncatingMarkers(t: string, x: string, y: string)
    requires Framed(t, x + MedicalBrain.ContextMarker + y)
    requires !Contains(x, MedicalBrain.AnalyzeMarker) && !Contains(x, MedicalBrain.ContextMarker)
    ensures OccursAt(t, MedicalBrain.AnalyzeMarker, 0) && OccursAt(t, MedicalBrain.ContextMarker, 9 + |x|)
    ensures forall j: nat :: 8 <= j < 17 + |x| ==> !OccursAt(t, MedicalBrain.AnalyzeMarker, j)
    ensures forall j: nat :: 8 <= j < 9 + |x| ==> !OccursAt(t, MedicalBrain.ContextMarker, j)
  {
    TruncatedLayout(t, x, y);
    forall j: nat | 8 <= j < 17 + |x| ensures !OccursAt(t, MedicalBrain.AnalyzeMarker, j) {
      NoAnalyzeBeforeOwnContext(t, x, j);
    }
    forall j: nat | 8 <= j < 9 + |x| ensures !OccursAt(t, MedicalBrain.ContextMarker, j) {
      NoContextBeforeOwn(t, x, j);
    }
  }

  /** The text between the first framing marker and the message's own "CONTEXT:". */
  lemma TruncatedSlice(t: string, x: string, y: string)
    requires Framed(t, x + MedicalBrain.ContextMarker + y)
    ensures t[8..9 + |x|] == [' '] + x
  {
    TruncatedLayout(t, x, y);
    assert t[8..9 + |x|] == [t[8]] + t[9..9 + |x|];
  }

  /** The query of such a request is the stripped text between the first framing marker and the message's own "CONTEXT:". */
  lemma TruncatedExtract(t: string, x: string, y: string)
    requires Framed(t, x + MedicalBrain.ContextMarker + y)
    requires !Contains(x, MedicalBrain.AnalyzeMarker) && !Contains(x, MedicalBrain.ContextMarker)
    ensures MedicalBrain.ExtractQuery(t) == Strip(t[8..9 + |x|])
  {
    TruncatingMarkers(t, x, y);
    MedicalBrain.ExtractFromStart(t, 9 + |x|);
  }

  /**
   * A framed message `x + "CONTEXT:" + y`, where `x` holds neither marker (so
   * the "CONTEXT:" is the first one in the message), is read back as `x` only.
   */
  lemma FramedMarkerTruncates(t: string, x: string, y: string)
    requires Framed(t, x + MedicalBrain.ContextMarker + y)
    requires !Contains(x, MedicalBrain.AnalyzeMarker) && !Contains(x, MedicalBrain.ContextMarker)
    ensures MedicalBrain.ExtractQuery(t) == Strip(x)
  {
    TruncatedExtract(t, x, y);
    TruncatedSlice(t, x, y);
    StripLeadingSpace(' ', x);
  }

  /**
   * A user text that itself contains "CONTEXT:" is cut short at the first such
   * marker, when no "ANALYZE:" comes before it.
   */
  lemma ContextMarkerInMessageTruncates(x: string, y: string, context: string)
    requires !Contains(x, MedicalBrain.AnalyzeMarker) && !Contains(x, MedicalBrain.ContextMarker)
    ensures MedicalBrain.ExtractQuery(HealthGuardian.ForwardRequest(x + MedicalBrain.ContextMarker + y, context)) == Strip(x)
  {
    var msg := x + MedicalBrain.ContextMarker + y;
    RequestIsFramed(msg, context);
    FramedMarkerTruncates(HealthGuardian.ForwardRequest(msg, context), x, y);
  }
}
