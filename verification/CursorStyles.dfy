/** Following cursor-style requests (ESC [ parameters SP q) in a byte stream that arrives in chunks. */
module CursorStyles {
  import opened Options
  import opened Cells
  import opened Frames

  const ESC: char := '\U{1B}'
  const MAX_PARAMETERS: nat := 16

  datatype SequenceState = Ground | Escape | Csi | CsiIntermediate

  datatype Tracker = Tracker(state: SequenceState, parameters: string, style: CursorStyle, changes: nat)

  predicate IsDigit(ch: char) { '0' <= ch <= '9' }
  predicate IsParameter(ch: char) { IsDigit(ch) || ch == ';' }

  /** The decimal number at the start of `text`, 0 if there is none. */
  function LeadingNumber(text: string, n: nat, value: nat): nat
    requires n <= |text|
    decreases |text| - n
  {
    if n < |text| && IsDigit(text[n]) then
      LeadingNumber(text, n + 1, 10 * value + (text[n] as int - '0' as int))
    else value
  }

  function Truncated(parameters: string): string {
    if |parameters| <= MAX_PARAMETERS then parameters else parameters[..MAX_PARAMETERS]
  }

  /** The number a request carries: read from its first 16 parameter bytes, as a 32-bit value. */
  function RequestValue(parameters: string): nat { PlainValue(parameters) % TWO_32 }

  function StyleOfValue(value: nat): Option<CursorStyle> {
    if value <= 2 then Some(Block) else if value <= 4 then Some(Underline)
    else if value <= 6 then Some(Bar) else None
  }

  /** The number itself, before it is cut to 32 bits. */
  function PlainValue(parameters: string): nat { LeadingNumber(Truncated(parameters), 0, 0) }

  /** Cutting the number to 32 bits changes the style that is asked for exactly if the number is too large
      and its low 32 bits name a style. */
  lemma CutChangesTheStyleExactlyWhenLowBitsNameOne(parameters: string)
    ensures StyleOfValue(RequestValue(parameters)) == StyleOfValue(PlainValue(parameters)) <==>
      PlainValue(parameters) < TWO_32 || PlainValue(parameters) % TWO_32 > 6
  {
  }

  /** 4294967296 asks for a block, as 0 does. */
  lemma LargeValueAsksForABlock()
    ensures PlainValue("4294967296") == TWO_32 && RequestValue("4294967296") == 0
    ensures StyleOfValue(RequestValue("4294967296")) == Some(Block)
    ensures StyleOfValue(PlainValue("4294967296")) == None
  {
    var text := "4294967296";
    assert Truncated(text) == text;
    assert LeadingNumber(text, 10, TWO_32) == TWO_32;
    assert LeadingNumber(text, 9, 429496729) == TWO_32;
    assert LeadingNumber(text, 7, 4294967) == TWO_32;
    assert LeadingNumber(text, 4, 4294) == TWO_32;
    assert LeadingNumber(text, 2, 42) == TWO_32;
  }

  // ---- Declarative specification ----

  ghost predicate AllParameters(p: string) { forall i | 0 <= i < |p| :: IsParameter(p[i]) }

  ghost predicate EndsWith(stream: string, suffix: string) {
    |suffix| <= |stream| && stream[|stream| - |suffix|..] == suffix
  }

  ghost predicate EndsCsi(stream: string, p: string) { AllParameters(p) && EndsWith(stream, [ESC, '['] + p) }

  ghost predicate EndsSpace(stream: string, p: string) { AllParameters(p) && EndsWith(stream, [ESC, '['] + p + [' ']) }

  /** `stream` ends with a complete cursor-style request. */
  ghost predicate EndsRequest(stream: string, p: string) {
    AllParameters(p) && EndsWith(stream, [ESC, '['] + p + [' ', 'q'])
  }

  ghost predicate IsEscape(stream: string) { stream != "" && stream[|stream| - 1] == ESC }

  /** The style that a request ending here asks for, if one ends here and asks for a known style. */
  ghost function RequestedStyle(stream: string): Option<CursorStyle> {
    if p :| EndsRequest(stream, p) then StyleOfValue(RequestValue(p)) else None
  }

  ghost function StyleAfter(stream: string): CursorStyle {
    if stream == "" then Block else
      match RequestedStyle(stream)
      case Some(style) => style
      case None => StyleAfter(stream[..|stream| - 1])
  }

  ghost function ChangesAfter(stream: string): nat {
    if stream == "" then 0 else
      var front := stream[..|stream| - 1];
      ChangesAfter(front) + if StyleAfter(stream) != StyleAfter(front) then 1 else 0
  }

  /** The style is that of the last request for a known style, wherever the stream was cut. */
  lemma {:induction false} LastRequestWins(stream: string, i: nat)
    requires 0 < i <= |stream| && RequestedStyle(stream[..i]).Some?
    requires forall j | i < j <= |stream| :: RequestedStyle(stream[..j]).None?
    ensures StyleAfter(stream) == RequestedStyle(stream[..i]).value
  {
    assert stream[..|stream|] == stream;
    if i < |stream| {
      var front := stream[..|stream| - 1];
      assert forall j | 0 <= j <= |front| :: front[..j] == stream[..j];
      LastRequestWins(front, i);
    }
  }

  /** A request ending here sets the style its number names, read from its first 16 parameter bytes and cut to 32
      bits: 0 to 2 a block, 3 and 4 an underline, 5 and 6 a bar; any other number leaves the style as it was. */
  lemma RequestSetsTheStyle(stream: string, p: string)
    requires EndsRequest(stream, p)
    ensures var value := LeadingNumber(if |p| <= 16 then p else p[..16], 0, 0) % 4294967296;
            && (value <= 2 ==> StyleAfter(stream) == Block)
            && (value == 3 || value == 4 ==> StyleAfter(stream) == Underline)
            && (value == 5 || value == 6 ==> StyleAfter(stream) == Bar)
            && (value > 6 ==> StyleAfter(stream) == StyleAfter(stream[..|stream| - 1]))
  {
    var front, last := stream[..|stream| - 1], stream[|stream| - 1];
    assert stream == front + [last];
    forall q | EndsRequest(stream, q) ensures q == p {
      SpaceAndRequestSnoc(front, last, p);
      SpaceAndRequestSnoc(front, last, q);
      SpaceParametersAreUnique(front, p, q);
    }
    assert RequestedStyle(stream) == StyleOfValue(RequestValue(p));
  }

  /** Nothing else changes the style, which is a block at first. */
  lemma OnlyRequestsSetTheStyle(stream: string)
    requires forall p :: !EndsRequest(stream, p)
    ensures StyleAfter(stream) == if stream == "" then Block else StyleAfter(stream[..|stream| - 1])
  {
  }

  /** Digits are read in base ten, up to the first byte that is none. */
  lemma {:induction false} NumberReadsOn(text: string, n: nat, value: nat, digit: char)
    requires n <= |text| && IsDigit(digit) && forall i | n <= i < |text| :: IsDigit(text[i])
    ensures LeadingNumber(text + [digit], n, value)
         == 10 * LeadingNumber(text, n, value) + (digit as int - '0' as int)
    decreases |text| - n
  {
    if n < |text| {
      NumberReadsOn(text, n + 1, 10 * value + (text[n] as int - '0' as int), digit);
    } else {
      assert LeadingNumber(text + [digit], n + 1, 10 * value + (digit as int - '0' as int))
          == 10 * value + (digit as int - '0' as int);
    }
  }

  lemma {:induction false} NumberStops(text: string, n: nat, value: nat, other: char, rest: string)
    requires n <= |text| && !IsDigit(other) && forall i | n <= i < |text| :: IsDigit(text[i])
    ensures LeadingNumber(text + [other] + rest, n, value) == LeadingNumber(text, n, value)
    decreases |text| - n
  {
    if n < |text| {
      NumberStops(text, n + 1, 10 * value + (text[n] as int - '0' as int), other, rest);
    }
  }

  // ---- One more byte ----

  lemma ParametersAreUnique(stream: string, p: string, q: string)
    requires EndsCsi(stream, p) && EndsCsi(stream, q)
    ensures p == q
  {
    if |p| <= |q| {
      ShorterParametersAgree(stream, p, q);
    } else {
      ShorterParametersAgree(stream, q, p);
    }
  }

  lemma ShorterParametersAgree(stream: string, p: string, q: string)
    requires EndsCsi(stream, p) && EndsCsi(stream, q) && |p| <= |q|
    ensures p == q
  {
    var a, b := [ESC, '['] + p, [ESC, '['] + q;
    assert stream[|stream| - |a|] == a[0] == ESC;
    assert forall k | 0 <= k < |b| :: stream[|stream| - |b| + k] == b[k];
    var k := |b| - |a|;
    assert b[k] == ESC;
    assert forall i | 2 <= i < |b| :: b[i] == q[i - 2];
    assert k == 0;
    assert a == b && p == a[2..] && q == b[2..];
  }

  lemma EndsWithSnoc(stream: string, ch: char, suffix: string, last: char)
    ensures EndsWith(stream + [ch], suffix + [last]) <==> ch == last && EndsWith(stream, suffix)
  {
    var s, t := stream + [ch], suffix + [last];
    if |t| <= |s| {
      assert s[|s| - |t|..] == stream[|stream| - |suffix|..] + [ch];
      if s[|s| - |t|..] == t {
        assert (stream[|stream| - |suffix|..] + [ch])[|suffix|] == t[|suffix|];
        assert stream[|stream| - |suffix|..] == (stream[|stream| - |suffix|..] + [ch])[..|suffix|]
            == t[..|suffix|] == suffix;
      }
    }
  }

  lemma CsiSnoc(stream: string, ch: char, p: string)
    ensures EndsCsi(stream + [ch], p) <==>
      if p == "" then ch == '[' && IsEscape(stream)
      else IsParameter(ch) && ch == p[|p| - 1] && EndsCsi(stream, p[..|p| - 1])
  {
    if p == "" {
      assert [ESC, '['] + p == [ESC] + ['['];
      EndsWithSnoc(stream, ch, [ESC], '[');
      if stream != "" {
        var front := stream[..|stream| - 1];
        assert stream == front + [stream[|stream| - 1]];
        EndsWithSnoc(front, stream[|stream| - 1], [], ESC);
        assert [] + [ESC] == [ESC];
      }
    } else {
      var front := p[..|p| - 1];
      assert [ESC, '['] + p == ([ESC, '['] + front) + [p[|p| - 1]];
      EndsWithSnoc(stream, ch, [ESC, '['] + front, p[|p| - 1]);
    }
  }

  lemma SpaceAndRequestSnoc(stream: string, ch: char, p: string)
    ensures EndsSpace(stream + [ch], p) <==> ch == ' ' && EndsCsi(stream, p)
    ensures EndsRequest(stream + [ch], p) <==> ch == 'q' && EndsSpace(stream, p)
  {
    EndsWithSnoc(stream, ch, [ESC, '['] + p, ' ');
    assert [ESC, '['] + p + [' ', 'q'] == ([ESC, '['] + p + [' ']) + ['q'];
    EndsWithSnoc(stream, ch, [ESC, '['] + p + [' '], 'q');
  }

  lemma SpaceParametersAreUnique(stream: string, p: string, q: string)
    requires EndsSpace(stream, p) && EndsSpace(stream, q)
    ensures p == q
  {
    var front := stream[..|stream| - 1];
    assert stream == front + [stream[|stream| - 1]];
    SpaceAndRequestSnoc(front, stream[|stream| - 1], p);
    SpaceAndRequestSnoc(front, stream[|stream| - 1], q);
    ParametersAreUnique(front, p, q);
  }

  /** The automaton state says how much of a request the stream ends with. */
  ghost predicate Recognises(tracker: Tracker, stream: string) {
    && (tracker.state == Escape <==> IsEscape(stream))
    && (tracker.state == Csi <==> exists p :: EndsCsi(stream, p))
    && (tracker.state == CsiIntermediate <==> exists p :: EndsSpace(stream, p))
    && (forall p | EndsCsi(stream, p) || EndsSpace(stream, p) :: tracker.parameters == Truncated(p))
  }

  ghost predicate Matches(tracker: Tracker, stream: string) {
    && Recognises(tracker, stream)
    && tracker.style == StyleAfter(stream) && tracker.changes == ChangesAfter(stream)
  }

  const INITIAL := Tracker(Ground, "", Block, 0)

  lemma InitialTrackerMatches()
    ensures Matches(INITIAL, "")
  {
  }

  /** The state and the parameters after one byte. */
  function NextState(tracker: Tracker, ch: char): (SequenceState, string) {
    match tracker.state
    case Ground => (if ch == ESC then Escape else Ground, tracker.parameters)
    case Escape =>
      if ch == '[' then (Csi, "") else (if ch == ESC then Escape else Ground, tracker.parameters)
    case Csi =>
      if IsParameter(ch) then
        (Csi, if |tracker.parameters| < MAX_PARAMETERS then tracker.parameters + [ch] else tracker.parameters)
      else (if ch == ' ' then CsiIntermediate else if ch == ESC then Escape else Ground, tracker.parameters)
    case CsiIntermediate => (if ch == ESC then Escape else Ground, tracker.parameters)
  }

  lemma TruncatedSnoc(p: string, ch: char)
    ensures var t := Truncated(p);
            Truncated(p + [ch]) == if |t| < MAX_PARAMETERS then t + [ch] else t
  {
    if |p| >= MAX_PARAMETERS {
      assert (p + [ch])[..MAX_PARAMETERS] == p[..MAX_PARAMETERS];
    }
  }

  lemma StepMissesNoCsi(tracker: Tracker, stream: string, ch: char, p: string)
    requires Recognises(tracker, stream) && EndsCsi(stream + [ch], p)
    ensures NextState(tracker, ch) == (Csi, Truncated(p))
  {
    CsiSnoc(stream, ch, p);
    if p != "" {
      var front := p[..|p| - 1];
      assert EndsCsi(stream, front) && tracker.state == Csi && tracker.parameters == Truncated(front);
      assert p == front + [ch];
      TruncatedSnoc(front, ch);
    }
  }

  lemma StepMissesNothing(tracker: Tracker, stream: string, ch: char, p: string)
    requires Recognises(tracker, stream)
    ensures EndsCsi(stream + [ch], p) ==> NextState(tracker, ch) == (Csi, Truncated(p))
    ensures EndsSpace(stream + [ch], p) ==> NextState(tracker, ch) == (CsiIntermediate, Truncated(p))
  {
    if EndsCsi(stream + [ch], p) {
      StepMissesNoCsi(tracker, stream, ch, p);
    }
    SpaceAndRequestSnoc(stream, ch, p);
  }

  lemma StepInventsNothing(tracker: Tracker, stream: string, ch: char)
    requires Recognises(tracker, stream)
    ensures NextState(tracker, ch).0 == Csi ==> exists p :: EndsCsi(stream + [ch], p)
    ensures NextState(tracker, ch).0 == CsiIntermediate ==> exists p :: EndsSpace(stream + [ch], p)
  {
    if tracker.state == Escape {
      CsiSnoc(stream, ch, "");
    } else if tracker.state == Csi {
      var p :| EndsCsi(stream, p);
      assert (p + [ch])[..|p|] == p;
      CsiSnoc(stream, ch, p + [ch]);
      SpaceAndRequestSnoc(stream, ch, p);
    }
  }

  lemma StepRecognises(tracker: Tracker, stream: string, ch: char)
    requires Recognises(tracker, stream)
    ensures var next := NextState(tracker, ch);
            Recognises(tracker.(state := next.0, parameters := next.1), stream + [ch])
  {
    forall p
      ensures EndsCsi(stream + [ch], p) ==> NextState(tracker, ch) == (Csi, Truncated(p))
      ensures EndsSpace(stream + [ch], p) ==> NextState(tracker, ch) == (CsiIntermediate, Truncated(p))
    {
      StepMissesNothing(tracker, stream, ch, p);
    }
    StepInventsNothing(tracker, stream, ch);
  }

  /** A request ends here exactly if the automaton completes one, and its parameters are the recorded ones. */
  lemma RequestIsRecognised(tracker: Tracker, stream: string, ch: char)
    requires Recognises(tracker, stream)
    ensures RequestedStyle(stream + [ch]) ==
      if tracker.state == CsiIntermediate && ch == 'q'
      then StyleOfValue(LeadingNumber(tracker.parameters, 0, 0) % TWO_32) else None
  {
    var after := stream + [ch];
    forall p ensures EndsRequest(after, p) <==> ch == 'q' && EndsSpace(stream, p) {
      SpaceAndRequestSnoc(stream, ch, p);
    }
    if tracker.state == CsiIntermediate && ch == 'q' {
      var p :| EndsSpace(stream, p);
      forall q | EndsRequest(after, q) ensures q == p {
        SpaceParametersAreUnique(stream, p, q);
      }
      assert EndsRequest(after, p);
    }
  }

  method TrackByte(tracker: Tracker, ch: char, ghost stream: string) returns (next: Tracker)
    requires Matches(tracker, stream)
    ensures Matches(next, stream + [ch])
  {
    assert (stream + [ch])[..|stream|] == stream;
    StepRecognises(tracker, stream, ch);
    RequestIsRecognised(tracker, stream, ch);
    next := tracker;
    match tracker.state {
      case Ground =>
        if ch == ESC {
          next := next.(state := Escape);
        }
      case Escape =>
        if ch == '[' {
          next := next.(parameters := "", state := Csi);
        } else if ch != ESC {
          next := next.(state := Ground);
        }
      case Csi =>
        if IsParameter(ch) {
          if |tracker.parameters| < MAX_PARAMETERS {
            next := next.(parameters := tracker.parameters + [ch]);
          }
        } else if ch == ' ' {
          next := next.(state := CsiIntermediate);
        } else {
          next := next.(state := if ch == ESC then Escape else Ground);
        }
      case CsiIntermediate =>
        if ch == 'q' {
          var value := LeadingNumber(tracker.parameters, 0, 0) % TWO_32;
          var style := tracker.style;
          if value <= 2 {
            style := Block;
          } else if value <= 4 {
            style := Underline;
          } else if value <= 6 {
            style := Bar;
          }
          if style != tracker.style {
            next := next.(style := style, changes := tracker.changes + 1);
          }
          next := next.(state := Ground);
        } else {
          next := next.(state := if ch == ESC then Escape else Ground);
        }
    }
  }

  /** Feeds one chunk to the tracker. */
  method TrackCursorStyle(tracker: Tracker, data: string, ghost stream: string) returns (tracker': Tracker)
    requires Matches(tracker, stream)
    ensures Matches(tracker', stream + data)
  {
    tracker' := tracker;
    PrefixSteps(stream, data);
    for index := 0 to |data|
      invariant Matches(tracker', Prefix(stream, data, index))
    {
      tracker' := TrackByte(tracker', data[index], Prefix(stream, data, index));
    }
  }

  ghost function Prefix(stream: string, data: string, n: nat): string
    requires n <= |data|
  {
    stream + data[..n]
  }

  lemma PrefixSteps(stream: string, data: string)
    ensures Prefix(stream, data, 0) == stream && Prefix(stream, data, |data|) == stream + data
    ensures forall i | 0 <= i < |data| :: Prefix(stream, data, i) + [data[i]] == Prefix(stream, data, i + 1)
  {
  }
}
