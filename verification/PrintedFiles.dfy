/**
  The printed file says everything: two lists of segments that print alike are the same list. Unlike a
  reader, which may drop part of a text, the file as a string keeps every character of it, because the only
  arrowheads in a file are the ones of its timing lines.
*/
module PrintedFiles {
  import opened Decimal
  import opened Rendering
  import opened RoundTrip
  import opened WebVtt

  // ----- cutting a text at a mark -----

  lemma MarkInside(x: string, y: string, x': string, y': string, mark: char)
    requires x + [mark] + y == x' + [mark] + y' && |x| < |x'|
    ensures mark in y && mark in x'
  {
    var all, all' := x + [mark] + y, x' + [mark] + y';
    assert x'[|x|] == all'[|x|] == all[|x|];
    assert y[|x'| - |x| - 1] == all[|x'|] == all'[|x'|];
  }

  lemma SplitsAlike(x: string, y: string, x': string, y': string, mark: char)
    requires x + [mark] + y == x' + [mark] + y' && |x| == |x'|
    ensures x == x' && y == y'
  {
    var all, all' := x + [mark] + y, x' + [mark] + y';
    assert x == all[..|x|] && y == all[|x| + 1..];
    assert x' == all'[..|x'|] && y' == all'[|x'| + 1..];
  }

  lemma SplitAtLast(x: string, y: string, x': string, y': string, mark: char)
    requires x + [mark] + y == x' + [mark] + y' && mark !in y && mark !in y'
    ensures x == x' && y == y'
  {
    if |x| < |x'| {
      MarkInside(x, y, x', y', mark);
    } else if |x'| < |x| {
      MarkInside(x', y', x, y, mark);
    } else {
      SplitsAlike(x, y, x', y', mark);
    }
  }

  lemma SplitAtFirst(x: string, y: string, x': string, y': string, mark: char)
    requires x + [mark] + y == x' + [mark] + y' && mark !in x && mark !in x'
    ensures x == x' && y == y'
  {
    if |x| < |x'| {
      MarkInside(x, y, x', y', mark);
    } else if |x'| < |x| {
      MarkInside(x', y', x, y, mark);
    } else {
      SplitsAlike(x, y, x', y', mark);
    }
  }

  // ----- a file as a row of cues -----

  function Terminated(lines: seq<string>): string {
    if lines == [] then "" else Terminated(lines[..|lines| - 1]) + lines[|lines| - 1] + "\n"
  }

  lemma {:induction false} TerminatedAppend(a: seq<string>, b: seq<string>)
    ensures Terminated(a + b) == Terminated(a) + Terminated(b)
  {
    if b == [] {
      assert a + b == a;
    } else {
      var n := |b| - 1;
      assert (a + b)[..|a| + n] == a + b[..n];
      TerminatedAppend(a, b[..n]);
    }
  }

  lemma TerminatedOne(line: string)
    ensures Terminated([line]) == line + "\n"
  {
    assert [line][..0] == [];
  }

  lemma {:induction false} JoinIsTerminated(lines: seq<string>)
    requires lines != []
    ensures Join(lines) + "\n" == Terminated(lines)
  {
    TerminatedOne(lines[0]);
    if |lines| > 1 {
      JoinIsTerminated(lines[1..]);
      TerminatedAppend([lines[0]], lines[1..]);
      assert [lines[0]] + lines[1..] == lines;
    } else {
      assert lines == [lines[0]];
    }
  }

  function Stamp(milliseconds: int): string {
    if milliseconds < 0 then "" else Timestamp(milliseconds)
  }

  /** What stands before a cue's arrowhead, and after it. */
  function Before(s: Segment): string {
    Digits(s.position) + "\n" + (Stamp(s.startMs) + " --")
  }

  function After(s: Segment): string {
    " " + Stamp(s.endMs) + "\n" + (Escape(s.text) + "\n\n")
  }

  function Body(segments: seq<Segment>): string {
    if segments == [] then "" else
      var n := |segments| - 1;
      Body(segments[..n]) + (Before(segments[n]) + ">" + After(segments[n]))
  }

  lemma BlockTerminated(d: string, t: string, e: string)
    ensures Terminated([d, t, e, ""]) == d + "\n" + (t + "\n") + (e + "\n") + "\n"
  {
    hide Terminated;
    TerminatedAppend([d, t, e], [""]);
    TerminatedAppend([d, t], [e]);
    TerminatedAppend([d], [t]);
    TerminatedOne(d);
    TerminatedOne(t);
    TerminatedOne(e);
    TerminatedOne("");
    assert [d, t, e, ""] == [d, t, e] + [""] && [d, t, e] == [d, t] + [e] && [d, t] == [d] + [t];
  }

  lemma BlockRegrouped(d: string, a: string, b: string, e: string)
    ensures d + "\n" + (a + " " + CUE_SEPARATOR + " " + b + "\n") + (e + "\n") + "\n"
         == d + "\n" + (a + " --") + ">" + (" " + b + "\n" + (e + "\n\n"))
  {
  }

  lemma BlockIsBeforeAndAfter(s: Segment)
    requires s.startMs >= 0 && s.endMs >= 0
    ensures Terminated(CueBlock(s)) == Before(s) + ">" + After(s)
  {
    hide Timestamp, Escape, Terminated, Digits;
    BlockTerminated(Digits(s.position), TimingLine(s.startMs, s.endMs), Escape(s.text));
    BlockRegrouped(Digits(s.position), Timestamp(s.startMs), Timestamp(s.endMs), Escape(s.text));
  }

  lemma {:induction false} CueLinesAreBody(segments: seq<Segment>)
    requires Printable(segments)
    ensures Terminated(CueLines(segments)) == Body(segments)
  {
    if segments != [] {
      hide Before, After, CueBlock, Terminated, Join;
      var n := |segments| - 1;
      CueLinesAreBody(segments[..n]);
      TerminatedAppend(CueLines(segments[..n]), CueBlock(segments[n]));
      BlockIsBeforeAndAfter(segments[n]);
    }
  }

  lemma FileIsBody(segments: seq<Segment>)
    requires Printable(segments)
    ensures Vtt(segments).value + "\n" == Terminated(HEADER) + Body(segments)
  {
    hide Join, Terminated, Body, CueLines;
    JoinIsTerminated(HEADER + CueLines(segments));
    TerminatedAppend(HEADER, CueLines(segments));
    CueLinesAreBody(segments);
  }

  // ----- reading a cue off the end -----

  lemma TimestampsDiffer(a: nat, b: nat)
    requires Timestamp(a) == Timestamp(b)
    ensures a == b
  {
    hide Timestamp, CollectTimestamp;
    TimestampRoundTrip(a, "");
    TimestampRoundTrip(b, "");
    assert Timestamp(a) + "" == Timestamp(a) && Timestamp(b) + "" == Timestamp(b);
  }

  lemma NumeralsDiffer(a: nat, b: nat)
    requires Digits(a) == Digits(b)
    ensures a == b
  {
    ValueOfDigits(a);
    ValueOfDigits(b);
  }

  lemma AfterHoldsNoArrowhead(s: Segment)
    requires s.endMs >= 0
    ensures '>' !in After(s)
  {
    hide Timestamp, Escape;
    TimestampShape(s.endMs);
    EscapedTextIsInert(s.text);
  }

  lemma AfterTellsEndAndText(s: Segment, t: Segment)
    requires s.endMs >= 0 && t.endMs >= 0 && After(s) == After(t)
    ensures s.endMs == t.endMs && s.text == t.text
  {
    hide Timestamp, Escape, Unescape;
    TimestampShape(s.endMs);
    TimestampShape(t.endMs);
    SplitAtFirst(" " + Timestamp(s.endMs), Escape(s.text) + "\n\n",
                 " " + Timestamp(t.endMs), Escape(t.text) + "\n\n", '\n');
    assert (" " + Timestamp(s.endMs))[1..] == Timestamp(s.endMs);
    assert (" " + Timestamp(t.endMs))[1..] == Timestamp(t.endMs);
    TimestampsDiffer(s.endMs, t.endMs);
    var e, f := Escape(s.text), Escape(t.text);
    assert (e + "\n\n")[..|e + "\n\n"| - 2] == e && (f + "\n\n")[..|f + "\n\n"| - 2] == f;
    UnescapeInvertsEscape(s.text);
    UnescapeInvertsEscape(t.text);
  }

  predicate EndsItsLine(x: string) {
    x == "" || x == x[..|x| - 1] + "\n"
  }

  /** Earlier cues end in a line break, so a cue's own number is what follows the last one. */
  lemma BodyEndsItsLine(segments: seq<Segment>)
    ensures EndsItsLine(Body(segments))
  {
    hide Timestamp, Escape, Before;
  }

  lemma BeforeTellsNumberAndStart(x: string, s: Segment, y: string, t: Segment)
    requires s.startMs >= 0 && t.startMs >= 0 && x + Before(s) == y + Before(t)
    requires EndsItsLine(x)
    requires EndsItsLine(y)
    ensures x == y && s.position == t.position && s.startMs == t.startMs
  {
    hide Timestamp, Digits;
    TimestampShape(s.startMs);
    TimestampShape(t.startMs);
    var d, e := Digits(s.position), Digits(t.position);
    SplitAtLast(x + d, Timestamp(s.startMs) + " --", y + e, Timestamp(t.startMs) + " --", '\n') by {
      assert x + d + "\n" + (Timestamp(s.startMs) + " --") == x + Before(s);
      assert y + e + "\n" + (Timestamp(t.startMs) + " --") == y + Before(t);
    }
    var a, b := Timestamp(s.startMs), Timestamp(t.startMs);
    assert (a + " --")[..|a + " --"| - 3] == a && (b + " --")[..|b + " --"| - 3] == b;
    TimestampsDiffer(s.startMs, t.startMs);
    NumberAfterLastBreak(x, d, y, e);
    NumeralsDiffer(s.position, t.position);
  }

  lemma NumberAfterLastBreak(x: string, d: string, y: string, e: string)
    requires AllDigits(d) && AllDigits(e) && x + d == y + e
    requires EndsItsLine(x)
    requires EndsItsLine(y)
    ensures x == y && d == e
  {
    if x == "" && y == "" {
      assert x + d == d && y + e == e;
    } else if x != "" && y != "" {
      assert x + d == x[..|x| - 1] + "\n" + d && y + e == y[..|y| - 1] + "\n" + e;
      SplitAtLast(x[..|x| - 1], d, y[..|y| - 1], e, '\n');
    } else if x != "" {
      BreakIsNoDigit(x, d, e);
    } else if y != "" {
      BreakIsNoDigit(y, e, d);
    }
  }

  lemma BreakIsNoDigit(x: string, d: string, e: string)
    requires x != "" && x == x[..|x| - 1] + "\n" && x + d == e
    ensures !AllDigits(e)
  {
    assert e[|x| - 1] == x[|x| - 1] == '\n';
  }

  lemma BodyIsNotEmpty(segments: seq<Segment>)
    ensures Body(segments) == "" <==> segments == []
  {
    hide Before, After;
  }

  lemma Regrouped(x: string, y: string, z: string)
    ensures x + (y + ">" + z) == x + y + ">" + z
  {
  }

  lemma BodyUnfolds(segments: seq<Segment>)
    requires segments != []
    ensures var n := |segments| - 1;
            Body(segments) == Body(segments[..n]) + Before(segments[n]) + ">" + After(segments[n])
  {
    hide Before, After;
    var n := |segments| - 1;
    Regrouped(Body(segments[..n]), Before(segments[n]), After(segments[n]));
  }

  lemma LastSegmentTold(x: string, s: Segment, y: string, t: Segment)
    requires s.startMs >= 0 && s.endMs >= 0 && t.startMs >= 0 && t.endMs >= 0
    requires x + Before(s) + ">" + After(s) == y + Before(t) + ">" + After(t)
    requires EndsItsLine(x) && EndsItsLine(y)
    ensures x == y && s == t
  {
    hide Before, After, EndsItsLine;
    AfterHoldsNoArrowhead(s);
    AfterHoldsNoArrowhead(t);
    SplitAtLast(x + Before(s), After(s), y + Before(t), After(t), '>');
    AfterTellsEndAndText(s, t);
    BeforeTellsNumberAndStart(x, s, y, t);
  }

  lemma BodyTellsLast(a: seq<Segment>, b: seq<Segment>)
    requires Printable(a) && Printable(b) && Body(a) == Body(b) && a != [] && b != []
    ensures Body(a[..|a| - 1]) == Body(b[..|b| - 1]) && a[|a| - 1] == b[|b| - 1]
  {
    hide Before, After, Body, EndsItsLine;
    var m, n := |a| - 1, |b| - 1;
    BodyUnfolds(a);
    BodyUnfolds(b);
    BodyEndsItsLine(a[..m]);
    BodyEndsItsLine(b[..n]);
    LastSegmentTold(Body(a[..m]), a[m], Body(b[..n]), b[n]);
  }

  lemma {:induction false} BodyTellsSegments(a: seq<Segment>, b: seq<Segment>)
    requires Printable(a) && Printable(b) && Body(a) == Body(b)
    ensures a == b
  {
    hide Body;
    BodyIsNotEmpty(a);
    BodyIsNotEmpty(b);
    if a != [] && b != [] {
      BodyTellsLast(a, b);
      BodyTellsSegments(a[..|a| - 1], b[..|b| - 1]);
      assert a == a[..|a| - 1] + [a[|a| - 1]];
      assert b == b[..|b| - 1] + [b[|b| - 1]];
    }
  }

  /** Two lists print alike exactly when they are the same list, whatever their texts contain. */
  lemma PrintsTellSegments(a: seq<Segment>, b: seq<Segment>)
    requires Printable(a) && Printable(b)
    ensures Vtt(a) == Vtt(b) <==> a == b
  {
    hide Vtt, Body, Terminated;
    if Vtt(a) == Vtt(b) {
      FileIsBody(a);
      FileIsBody(b);
      var header := Terminated(HEADER);
      assert (header + Body(a))[|header|..] == Body(a);
      assert (header + Body(b))[|header|..] == Body(b);
      BodyTellsSegments(a, b);
    }
  }
}
