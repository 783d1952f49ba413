/** What a WebVTT reader recovers from the printer's file, for every list of segments. */
module RoundTrip {
  import opened Decimal
  import opened Options
  import opened Rendering
  import opened WebVtt

  // ----- timestamps -----

  ghost predicate StopsDigits(s: string) {
    s == "" || !IsDigit(s[0])
  }

  lemma {:induction false} DigitRunExact(digits: string, rest: string)
    requires AllDigits(digits) && StopsDigits(rest)
    ensures DigitRun(digits + rest) == |digits|
  {
    if digits == "" {
      assert digits + rest == rest;
    } else {
      assert (digits + rest)[1..] == digits[1..] + rest;
      DigitRunExact(digits[1..], rest);
    }
  }

  lemma FieldExact(separator: char, digits: string, rest: string)
    requires AllDigits(digits) && StopsDigits(rest)
    ensures Field([separator] + digits + rest, separator, |digits|) == Some((Value(digits), rest))
  {
    var s := [separator] + digits + rest;
    assert s[1..] == digits + rest;
    DigitRunExact(digits, rest);
    assert (digits + rest)[..|digits|] == digits;
    assert (digits + rest)[|digits|..] == rest;
  }

  lemma Regroup(h: string, m: string, s: string, f: string, rest: string)
    ensures h + ":" + m + ":" + s + "." + f + rest == h + (":" + m + (":" + s + ("." + f + rest)))
  {
    assert h + ":" + m == h + (":" + m);
    assert h + (":" + m) + ":" + s == h + (":" + m + (":" + s));
    assert h + (":" + m + (":" + s)) + "." + f == h + (":" + m + (":" + s + ("." + f)));
  }

  /** The reader's collector on the printer's layout, before any arithmetic. */
  lemma CollectLayout(h: string, m: string, s: string, f: string, rest: string)
    requires AllDigits(h) && AllDigits(m) && AllDigits(s) && AllDigits(f)
    requires |h| >= 2 && |m| == 2 && |s| == 2 && |f| == 3 && StopsDigits(rest)
    requires Value(m) <= 59 && Value(s) <= 59
    ensures CollectTimestamp(h + ":" + m + ":" + s + "." + f + rest)
         == Some((((Value(h) * 60 + Value(m)) * 60 + Value(s)) * 1000 + Value(f), rest))
  {
    hide Field, Value, DigitRun, CollectAfterFirst, CollectTimestamp, AllDigits;
    var after3 := "." + f + rest;
    var after2 := ":" + s + after3;
    var after1 := ":" + m + after2;
    Regroup(h, m, s, f, rest);
    CollectFirst(h, after1);
    FieldExact(':', m, after2);
    FieldExact(':', s, after3);
    FieldExact('.', f, rest);
    CollectFields(Value(h), |h|, Value(m), Value(s), Value(f), after1, after2, after3, rest);
  }

  lemma CollectFirst(digits: string, after: string)
    requires AllDigits(digits) && digits != "" && after != "" && after[0] == ':'
    ensures CollectTimestamp(digits + after) == CollectAfterFirst(Value(digits), |digits|, after)
  {
    DigitRunExact(digits, after);
    assert (digits + after)[..|digits|] == digits && (digits + after)[|digits|..] == after;
  }

  lemma CollectFields(h: nat, width: nat, m: nat, s: nat, f: nat,
                      after1: string, after2: string, after3: string, rest: string)
    requires Field(after1, ':', 2) == Some((m, after2)) && after2 != "" && after2[0] == ':'
    requires Field(after2, ':', 2) == Some((s, after3))
    requires Field(after3, '.', 3) == Some((f, rest))
    requires m <= 59 && s <= 59
    ensures CollectAfterFirst(h, width, after1) == Some((((h * 60 + m) * 60 + s) * 1000 + f, rest))
  {
    hide Field;
  }

  lemma {:induction false} TimestampRoundTrip(milliseconds: nat, rest: string)
    requires StopsDigits(rest)
    ensures CollectTimestamp(Timestamp(milliseconds) + rest) == Some((milliseconds, rest))
  {
    hide CollectTimestamp, Value, Padded;
    var seconds, f := milliseconds / 1000, milliseconds % 1000;
    var minutes, s := seconds / 60, seconds % 60;
    var h, m := minutes / 60, minutes % 60;
    HoursPadded(h);
    PaddedIsFaithful(m, 2);
    PaddedIsFaithful(s, 2);
    PaddedIsFaithful(f, 3);
    CollectLayout(Padded(h, 2), Padded(m, 2), Padded(s, 2), Padded(f, 3), rest);
    assert ((h * 60 + m) * 60 + s) * 1000 + f == milliseconds;
  }

  lemma HoursPadded(h: nat)
    ensures Value(Padded(h, 2)) == h && |Padded(h, 2)| >= 2
  {
    PaddedIsFaithful(h, 2);
  }

  lemma TimestampShape(milliseconds: nat)
    ensures Timestamp(milliseconds) != "" && IsDigit(Timestamp(milliseconds)[0])
    ensures forall c :: c in Timestamp(milliseconds) ==> IsDigit(c) || c == ':' || c == '.'
  {
    hide Padded, Value;
  }

  lemma {:induction false} TimingsRoundTrip(startMs: nat, endMs: nat)
    ensures CollectTimings(TimingLine(startMs, endMs)) == Some((startMs, endMs))
  {
    hide Timestamp, CollectTimestamp;
    var start, end := Timestamp(startMs), Timestamp(endMs);
    var line := TimingLine(startMs, endMs);
    TimestampShape(startMs);
    TimestampShape(endMs);
    assert line == start + (" --> " + end);
    assert SkipSpaces(line) == line;
    TimestampRoundTrip(startMs, " --> " + end);
    assert (" --> " + end)[1..] == "--> " + end;
    assert SkipSpaces(" --> " + end) == "--> " + end;
    assert ("--> " + end)[3..] == " " + end;
    assert (" " + end)[1..] == end;
    assert SkipSpaces(" " + end) == end;
    TimestampRoundTrip(endMs, "");
    assert end + "" == end;
  }

  lemma {:induction false} ContainsAt(a: string, pattern: string, b: string)
    ensures Contains(a + pattern + b, pattern)
  {
    var text := a + pattern + b;
    if a == "" {
      assert text[..|pattern|] == pattern;
    } else {
      assert text[1..] == a[1..] + pattern + b;
      ContainsAt(a[1..], pattern, b);
    }
  }

  // ----- lines -----

  function FileLines(s: string): (lines: seq<string>)
    ensures lines != []
  {
    Lines(Normalise(s))
  }

  /** A carriage return at the end of a line joins the line feed the printer puts after it. */
  function Chomp(s: string): string {
    if s != "" && s[|s| - 1] == '\r' then s[..|s| - 1] else s
  }

  lemma {:induction false} LinesOfAppend(x: string, y: string)
    ensures FileLines(x + "\n" + y) == FileLines(Chomp(x)) + FileLines(y)
    decreases |x|
  {
    hide FileLines, Chomp;
    if x == "" || x == "\r" {
      LinesOfBareBreak(x, y);
    } else if "\r\n" <= x {
      LinesOfAppend(x[2..], y);
      LinesOfAppendBreak(x, y);
    } else {
      LinesOfAppend(x[1..], y);
      LinesOfAppendChar(x, y);
    }
  }

  lemma LinesOfBareBreak(x: string, y: string)
    requires x == "" || x == "\r"
    ensures FileLines(x + "\n" + y) == FileLines(Chomp(x)) + FileLines(y)
  {
    hide FileLines;
    EmptyText();
    var all := x + "\n" + y;
    if x == "" {
      assert all[0] == '\n' && all[1..] == y;
      LinesAfterChar('\n', y, all);
    } else {
      LinesAfterBreak("\r\n", y, all);
      assert Chomp(x) == "";
    }
  }

  lemma LinesOfAppendBreak(x: string, y: string)
    requires "\r\n" <= x
    requires FileLines(x[2..] + "\n" + y) == FileLines(Chomp(x[2..])) + FileLines(y)
    ensures FileLines(x + "\n" + y) == FileLines(Chomp(x)) + FileLines(y)
  {
    hide FileLines;
    var tail, all := x[2..], x + "\n" + y;
    assert all == "\r\n" + (tail + "\n" + y);
    LinesAfterBreak("\r\n", tail + "\n" + y, all);
    assert Chomp(x) == "\r\n" + Chomp(tail);
    LinesAfterBreak("\r\n", Chomp(tail), Chomp(x));
  }

  lemma LinesOfAppendChar(x: string, y: string)
    requires x != "" && x != "\r" && !("\r\n" <= x)
    requires FileLines(x[1..] + "\n" + y) == FileLines(Chomp(x[1..])) + FileLines(y)
    ensures FileLines(x + "\n" + y) == FileLines(Chomp(x)) + FileLines(y)
  {
    hide FileLines, Chomp;
    var tail, all := x[1..], x + "\n" + y;
    assert all == [x[0]] + (tail + "\n" + y);
    NoBreakInFront(x, all);
    LinesAfterChar(x[0], tail + "\n" + y, all);
    LinesAfterChar(x[0], Chomp(tail), Chomp(x));
  }

  lemma EmptyText()
    ensures FileLines("") == [""]
  {
    assert Normalise("") == "";
  }

  lemma NoBreakInFront(x: string, all: string)
    requires x != "" && x != "\r" && x <= all && !("\r\n" <= x)
    ensures !("\r\n" <= all) && !("\r\n" <= Chomp(x))
    ensures Chomp(x) == [x[0]] + Chomp(x[1..])
  {
    if |x| == 1 {
      assert all[0] == x[0];
    } else {
      assert all[0] == x[0] && all[1] == x[1];
    }
  }

  lemma LinesAfterBreak(break_: string, tail: string, all: string)
    requires break_ == "\r\n" && all == break_ + tail
    ensures FileLines(all) == [""] + FileLines(tail)
  {
    assert all[2..] == tail;
    assert ("\n" + Normalise(tail))[1..] == Normalise(tail);
  }

  lemma LinesAfterChar(c: char, tail: string, all: string)
    requires all == [c] + tail && !("\r\n" <= all)
    ensures var rest := FileLines(tail);
            FileLines(all) == if NormalChar(c) == '\n' then [""] + rest
                              else [[NormalChar(c)] + rest[0]] + rest[1..]
  {
    assert all[1..] == tail;
    assert ([NormalChar(c)] + Normalise(tail))[1..] == Normalise(tail);
  }

  /** The lines a reader sees for a list of printed lines. */
  function Seen(lines: seq<string>): seq<string> {
    if lines == [] then [] else Seen(lines[..|lines| - 1]) + FileLines(Chomp(lines[|lines| - 1]))
  }

  lemma {:induction false} SeenAppend(a: seq<string>, b: seq<string>)
    ensures Seen(a + b) == Seen(a) + Seen(b)
  {
    hide FileLines, Chomp;
    if b == [] {
      assert a + b == a;
    } else {
      var n := |b| - 1;
      assert (a + b)[..|a| + n] == a + b[..n];
      SeenAppend(a, b[..n]);
    }
  }

  lemma SeenOne(line: string)
    ensures Seen([line]) == FileLines(Chomp(line))
  {
    assert [line][..0] == [];
  }

  lemma {:induction false} JoinedLines(lines: seq<string>)
    requires lines != [] && lines[|lines| - 1] == ""
    ensures FileLines(Join(lines)) == Seen(lines)
  {
    hide Lines, Normalise;
    var first, rest := lines[0], lines[1..];
    SeenOne(first);
    if rest != [] {
      JoinedLines(rest);
      LinesOfAppend(first, Join(rest));
      SeenAppend([first], rest);
      assert [first] + rest == lines;
    }
  }

  predicate Plain(s: string) {
    forall i :: 0 <= i < |s| ==> s[i] != '\n' && s[i] != '\r' && s[i] != '\0'
  }

  lemma {:induction false} PlainLine(s: string)
    requires Plain(s)
    ensures FileLines(s) == [s] && Chomp(s) == s
  {
    if s != "" {
      PlainLine(s[1..]);
      assert s == [s[0]] + s[1..];
      assert !("\r\n" <= s);
      LinesAfterChar(s[0], s[1..], s);
    }
  }

  // ----- blocks -----

  ghost predicate NoArrow(lines: seq<string>) {
    forall i :: 0 <= i < |lines| ==> !Contains(lines[i], CUE_SEPARATOR)
  }

  /** The lines up to the first blank one, joined behind `buffer`. */
  function Gather(buffer: string, lines: seq<string>): string
    decreases |lines|
  {
    if lines == [] || lines[0] == "" then buffer else Gather(AppendLine(buffer, lines[0]), lines[1..])
  }

  /** What is left of the text after its first blank line, the printer's own blank line included. */
  function Leftover(lines: seq<string>): (left: seq<string>)
    ensures |left| <= |lines|
    ensures left == [] || left[|left| - 1] == ""
  {
    if lines == [] then [] else if lines[0] == "" then lines[1..] + [""] else Leftover(lines[1..])
  }

  /** A block with its head already read ends at the first blank line of the text. */
  lemma {:induction false} CollectText(text: seq<string>, rest: seq<string>, count: nat, buffer: string,
                                       head: Option<CueHead>, seenArrow: bool)
    requires NoArrow(text)
    ensures CollectBlock(text + [""] + rest, false, count, buffer, head, seenArrow)
         == (Close(head, Gather(buffer, text)), Leftover(text) + rest)
    decreases |text|
  {
    hide CollectTimings, AppendLine, Close;
    var lines := text + [""] + rest;
    assert !Contains("", CUE_SEPARATOR);
    if text == [] {
      assert lines[0] == "" && lines[1..] == rest;
      assert Leftover(text) + rest == rest;
    } else {
      assert lines[0] == text[0];
      assert lines[1..] == text[1..] + [""] + rest;
      assert Gather(buffer, text) == if text[0] == "" then buffer else Gather(AppendLine(buffer, text[0]), text[1..]);
      if text[0] != "" {
        CollectText(text[1..], rest, count + 1, AppendLine(buffer, text[0]), head, seenArrow);
      }
    }
  }

  /** Paragraphs after the first are blocks without timings: the reader drops them. */
  lemma {:induction false} JunkIsDropped(junk: seq<string>, rest: seq<string>)
    requires NoArrow(junk)
    ensures Blocks(junk + [""] + rest) == Blocks(rest)
    decreases |junk|
  {
    hide CollectBlock, Contains;
    var lines := junk + [""] + rest;
    if junk == [] {
      assert lines[0] == "" && lines[1..] == rest;
    } else if junk[0] == "" {
      assert lines[0] == "" && lines[1..] == junk[1..] + [""] + rest;
      JunkIsDropped(junk[1..], rest);
    } else {
      assert lines[0] == junk[0];
      CollectText(junk, rest, 0, "", None, false);
      LeftoverIsDropped(junk, rest);
    }
  }

  lemma {:induction false} LeftoverIsDropped(text: seq<string>, rest: seq<string>)
    requires NoArrow(text)
    requires text == [] || text[0] != ""
    ensures Blocks(Leftover(text) + rest) == Blocks(rest)
    decreases |text|, 0
  {
    hide CollectBlock, Contains;
    if text == [] {
      assert Leftover(text) + rest == rest;
    } else if |text| > 1 && text[1] == "" {
      assert text[1..][1..] == text[2..];
      JunkIsDropped(text[2..], rest);
    } else {
      LeftoverIsDropped(text[1..], rest);
    }
  }

  // ----- escaping goes through the reader's steps -----

  lemma {:induction false} EscapeAppend(a: string, b: string)
    ensures Escape(a + b) == Escape(a) + Escape(b)
  {
    if a == "" {
      assert a + b == b;
    } else {
      assert (a + b)[1..] == a[1..] + b;
      EscapeAppend(a[1..], b);
    }
  }

  lemma EscapeOne(c: char)
    ensures Escape([c]) == EscapedChar(c)
  {
    assert [c][1..] == "";
  }

  function EscapeAll(lines: seq<string>): (escaped: seq<string>)
    ensures |escaped| == |lines|
  {
    if lines == [] then [] else [Escape(lines[0])] + EscapeAll(lines[1..])
  }

  /** A run of characters that are neither breaks nor NUL passes through the reader's lines unchanged. */
  lemma {:induction false} LinesAfterPlain(prefix: string, tail: string)
    requires Plain(prefix)
    ensures FileLines(prefix + tail) == [prefix + FileLines(tail)[0]] + FileLines(tail)[1..]
  {
    hide FileLines;
    if prefix == "" {
      assert prefix + tail == tail;
      assert prefix + FileLines(tail)[0] == FileLines(tail)[0];
    } else {
      var all := prefix + tail;
      assert all == [prefix[0]] + (prefix[1..] + tail);
      assert all[0] != '\r';
      LinesAfterPlain(prefix[1..], tail);
      LinesAfterChar(prefix[0], prefix[1..] + tail, all);
      assert [prefix[0]] + (prefix[1..] + FileLines(tail)[0]) == prefix + FileLines(tail)[0];
    }
  }

  /** The lines of the escaped text are the escaped lines. */
  lemma {:induction false} EscapeKeepsLines(t: string)
    ensures FileLines(Escape(t)) == EscapeAll(FileLines(t))
    decreases |t|
  {
    hide FileLines;
    EmptyText();
    if t == "" {
    } else if "\r\n" <= t {
      EscapeKeepsLines(t[2..]);
      LinesAfterBreak("\r\n", t[2..], t);
      assert Escape(t) == "\r\n" + Escape(t[2..]) by {
        assert t == "\r\n" + t[2..];
        EscapeAppend("\r\n", t[2..]);
        assert Escape("\r\n") == "\r" + Escape("\n") by { assert "\r\n"[1..] == "\n"; }
        EscapeOne('\n');
      }
      LinesAfterBreak("\r\n", Escape(t[2..]), Escape(t));
    } else {
      EscapeKeepsLines(t[1..]);
      assert t[0] == '\r' && |t| >= 2 ==> t[1] != '\n';
      EscapeKeepsLinesChar(t);
    }
  }

  lemma EscapeKeepsLinesChar(t: string)
    requires t != "" && !("\r\n" <= t)
    requires FileLines(Escape(t[1..])) == EscapeAll(FileLines(t[1..]))
    ensures FileLines(Escape(t)) == EscapeAll(FileLines(t))
  {
    hide FileLines, Escape, EscapeAll;
    var c, tail := t[0], t[1..];
    var rest := FileLines(tail);
    LinesAfterChar(c, tail, t);
    EscapeCons(c, tail);
    assert t == [c] + tail;
    EscapeAllCons(rest[0], rest[1..]);
    assert [rest[0]] + rest[1..] == rest;
    if Plain([c]) {
      assert [c][0] == c;
      LinesAfterPlain(EscapedChar(c), Escape(tail));
      EscapeCons(c, rest[0]);
      EscapeAllCons([c] + rest[0], rest[1..]);
    } else {
      EscapeKeepsBreak(c, tail);
    }
  }

  lemma EscapeKeepsBreak(c: char, tail: string)
    requires c == '\n' || c == '\r' || c == '\0'
    requires !("\r\n" <= [c] + tail)
    requires FileLines(Escape(tail)) == EscapeAll(FileLines(tail))
    ensures FileLines([c] + Escape(tail)) == EscapeAll(FileLines([c] + tail))
  {
    hide FileLines, Escape, EscapeAll;
    var rest := FileLines(tail);
    FirstOfEscaped(tail);
    LinesAfterChar(c, tail, [c] + tail);
    LinesAfterChar(c, Escape(tail), [c] + Escape(tail));
    EscapeAllCons(rest[0], rest[1..]);
    assert [rest[0]] + rest[1..] == rest;
    if c == '\0' {
      EscapeCons(NormalChar(c), rest[0]);
      EscapeAllCons([NormalChar(c)] + rest[0], rest[1..]);
    } else {
      EscapeAllCons("", rest);
      FirstOfEscaped("");
    }
  }

  lemma EscapeCons(c: char, tail: string)
    ensures Escape([c] + tail) == EscapedChar(c) + Escape(tail)
  {
    assert ([c] + tail)[1..] == tail;
  }

  lemma EscapeAllCons(line: string, lines: seq<string>)
    ensures EscapeAll([line] + lines) == [Escape(line)] + EscapeAll(lines)
  {
    assert ([line] + lines)[1..] == lines;
  }

  lemma FirstOfEscaped(t: string)
    ensures Escape(t) != "" ==> (Escape(t)[0] == '\n' <==> t[0] == '\n')
    ensures t == "" <==> Escape(t) == ""
  {
  }

  lemma ChompOfEscaped(t: string)
    ensures Chomp(Escape(t)) == Escape(Chomp(t))
  {
    hide Escape;
    FirstOfEscaped(t);
    if t != "" {
      var n := |t| - 1;
      assert t == t[..n] + [t[n]];
      EscapeAppend(t[..n], [t[n]]);
      EscapeOne(t[n]);
    }
  }

  lemma {:induction false} EscapeGathers(buffer: string, lines: seq<string>)
    ensures Gather(Escape(buffer), EscapeAll(lines)) == Escape(Gather(buffer, lines))
    decreases |lines|
  {
    if lines != [] && lines[0] != "" {
      FirstOfEscaped(lines[0]);
      FirstOfEscaped(buffer);
      EscapeAppend(buffer, "\n");
      EscapeOne('\n');
      EscapeAppend(buffer + "\n", lines[0]);
      assert AppendLine(Escape(buffer), Escape(lines[0])) == Escape(AppendLine(buffer, lines[0]));
      EscapeGathers(AppendLine(buffer, lines[0]), lines[1..]);
    }
  }

  // ----- the file -----

  /** The text a reader shows for a cue: line breaks normalised, cut at the first blank line. */
  function ShownText(text: string): string {
    Gather("", FileLines(Chomp(text)))
  }

  function Shown(s: Segment): Segment {
    s.(text := ShownText(s.text))
  }

  function ShownAll(segments: seq<Segment>): (shown: seq<Segment>)
    ensures |shown| == |segments|
    ensures forall i :: 0 <= i < |segments| ==> shown[i] == Shown(segments[i])
  {
    if segments == [] then [] else
      var n := |segments| - 1;
      ShownAll(segments[..n]) + [Shown(segments[n])]
  }

  /** The cue the reader makes of one printed block. */
  function CueOf(s: Segment): ParsedCue
    requires s.startMs >= 0 && s.endMs >= 0
  {
    ParsedCue(Digits(s.position), s.startMs, s.endMs, Gather("", FileLines(Chomp(Escape(s.text)))))
  }

  function CuesOf(segments: seq<Segment>): seq<ParsedCue>
    requires Printable(segments)
  {
    if segments == [] then [] else
      var n := |segments| - 1;
      CuesOf(segments[..n]) + [CueOf(segments[n])]
  }

  lemma CueRecovered(s: Segment)
    requires s.startMs >= 0 && s.endMs >= 0
    ensures Recover(CueOf(s)) == Some(Shown(s))
  {
    hide Gather, FileLines, Chomp, Escape, Unescape, EscapeAll;
    ValueOfDigits(s.position);
    ChompOfEscaped(s.text);
    EscapeKeepsLines(Chomp(s.text));
    assert Escape("") == "" by { FirstOfEscaped(""); }
    EscapeGathers("", FileLines(Chomp(s.text)));
    UnescapeInvertsEscape(ShownText(s.text));
  }

  lemma {:induction false} EscapedLinesHaveNoArrow(lines: seq<string>)
    ensures NoArrow(EscapeAll(lines))
  {
    if lines != [] {
      EscapedTextIsInert(lines[0]);
      EscapedLinesHaveNoArrow(lines[1..]);
    }
  }

  /** The lines of one printed block, as the reader sees them. */
  lemma SeenBlock(s: Segment)
    requires s.startMs >= 0 && s.endMs >= 0
    ensures Seen(CueBlock(s)) == [Digits(s.position), TimingLine(s.startMs, s.endMs)]
                                 + FileLines(Chomp(Escape(s.text))) + [""]
  {
    hide FileLines, Chomp, Escape, TimingLine, Seen;
    var id, timings, text := Digits(s.position), TimingLine(s.startMs, s.endMs), Escape(s.text);
    PlainLine(id);
    TimingLineIsPlain(s.startMs, s.endMs);
    PlainLine(timings);
    PlainLine("");
    SeenOne(id);
    SeenOne(timings);
    SeenOne(text);
    SeenOne("");
    SeenAppend([id], [timings]);
    SeenAppend([id] + [timings], [text]);
    SeenAppend([id] + [timings] + [text], [""]);
    assert CueBlock(s) == [id] + [timings] + [text] + [""];
    assert [id] + [timings] == [id, timings];
  }

  lemma TimingLineIsPlain(startMs: nat, endMs: nat)
    ensures Plain(TimingLine(startMs, endMs))
    ensures Contains(TimingLine(startMs, endMs), CUE_SEPARATOR)
    ensures TimingLine(startMs, endMs) != ""
  {
    hide Timestamp, Contains;
    TimestampShape(startMs);
    TimestampShape(endMs);
    var start, end := Timestamp(startMs) + " ", " " + Timestamp(endMs);
    var line := TimingLine(startMs, endMs);
    assert line == start + CUE_SEPARATOR + end;
    forall i | 0 <= i < |line|
      ensures line[i] != '\n' && line[i] != '\r' && line[i] != '\0'
    {
      if i < |Timestamp(startMs)| {
        assert line[i] in Timestamp(startMs);
      } else if i >= |start| + 4 {
        assert line[i] in Timestamp(endMs);
      }
    }
    ContainsAt(start, CUE_SEPARATOR, end);
  }

  lemma DigitsAreNoArrow(n: nat)
    ensures !Contains(Digits(n), CUE_SEPARATOR)
  {
    NoSeparatorWithoutItsArrowhead(Digits(n));
  }

  /** The reader makes exactly one cue of a printed block, whatever follows. */
  lemma BlockIsOneCue(s: Segment, rest: seq<string>)
    requires s.startMs >= 0 && s.endMs >= 0
    ensures Blocks(Seen(CueBlock(s)) + rest) == [CueOf(s)] + Blocks(rest)
  {
    hide FileLines, Chomp, Escape, TimingLine, CollectTimings, Contains, Digits, Leftover, Gather, Seen, EscapeAll;
    var id, timings := Digits(s.position), TimingLine(s.startMs, s.endMs);
    var text := FileLines(Chomp(Escape(s.text)));
    SeenBlock(s);
    var lines := [id, timings] + text + [""] + rest;
    assert lines[0] == id;
    assert lines[1..][0] == timings;
    assert lines[1..][1..] == text + [""] + rest;
    DigitsAreNoArrow(s.position);
    TimingLineIsPlain(s.startMs, s.endMs);
    TimingsRoundTrip(s.startMs, s.endMs);
    ChompOfEscaped(s.text);
    EscapeKeepsLines(Chomp(s.text));
    EscapedLinesHaveNoArrow(FileLines(Chomp(s.text)));
    CollectText(text, rest, 2, "", Some(CueHead(id, s.startMs, s.endMs)), true);
    BlockOfLines(lines, id, timings, s.startMs, s.endMs, Gather("", text), Leftover(text) + rest);
    LeftoverAnyIsDropped(text, rest);
  }

  /** The first two lines of a block open a cue; then its text is collected. */
  lemma BlockOfLines(lines: seq<string>, id: string, timings: string, startMs: nat, endMs: nat,
                     text: string, rest: seq<string>)
    requires |lines| >= 2 && lines[0] == id && lines[1..][0] == timings
    requires id != "" && !Contains(id, CUE_SEPARATOR) && Contains(timings, CUE_SEPARATOR)
    requires CollectTimings(timings) == Some((startMs, endMs))
    requires CollectBlock(lines[1..][1..], false, 2, "", Some(CueHead(id, startMs, endMs)), true)
          == (Some(ParsedCue(id, startMs, endMs, text)), rest)
    ensures Blocks(lines) == [ParsedCue(id, startMs, endMs, text)] + Blocks(rest)
  {
    hide CollectTimings, Contains;
    assert CollectBlock(lines[1..], false, 1, id, None, false)
        == CollectBlock(lines[1..][1..], false, 2, "", Some(CueHead(id, startMs, endMs)), true);
    assert AppendLine("", id) == id;
    assert CollectBlock(lines, false, 0, "", None, false) == CollectBlock(lines[1..], false, 1, id, None, false);
  }

  lemma LeftoverAnyIsDropped(text: seq<string>, rest: seq<string>)
    requires NoArrow(text)
    ensures Blocks(Leftover(text) + rest) == Blocks(rest)
  {
    hide Blocks;
    if text == [] || text[0] != "" {
      LeftoverIsDropped(text, rest);
    } else {
      JunkIsDropped(text[1..], rest);
    }
  }

  lemma {:induction false} BlocksOfCueLines(segments: seq<Segment>, rest: seq<string>)
    requires Printable(segments)
    ensures Blocks(Seen(CueLines(segments)) + rest) == CuesOf(segments) + Blocks(rest)
  {
    hide Blocks, CueBlock, CueOf, Seen;
    if segments == [] {
      assert Seen([]) == [] by { SeenNothing(); }
      assert [] + rest == rest;
    } else {
      var n := |segments| - 1;
      var init, last := segments[..n], CueBlock(segments[n]);
      SeenAppend(CueLines(init), last);
      assert Seen(CueLines(segments)) + rest == Seen(CueLines(init)) + (Seen(last) + rest);
      BlocksOfCueLines(init, Seen(last) + rest);
      BlockIsOneCue(segments[n], rest);
    }
  }

  lemma SeenNothing()
    ensures Seen([]) == []
  {
  }

  /** The reader's cues for a printed file: one per segment, in the same order. */
  lemma {:induction false} ParsePrinted(segments: seq<Segment>)
    requires Printable(segments)
    ensures Parse(Vtt(segments).value) == Some(CuesOf(segments))
  {
    hide Seen, Lines, Normalise, CueLines, CuesOf, Blocks;
    var lines := HEADER + CueLines(segments);
    LastLineIsBlank(segments);
    JoinedLines(lines);
    SeenAppend(HEADER, CueLines(segments));
    SeenHeader();
    var seen := Seen(CueLines(segments));
    var read := HEADER + seen;
    assert FileLines(Join(lines)) == read;
    assert read[0] == "WEBVTT" && read[1] == "" && read[2..] == seen;
    assert IsSignature("WEBVTT");
    BlocksOfCueLines(segments, []);
    assert seen + [] == seen;
    NoBlocks();
    assert CuesOf(segments) + [] == CuesOf(segments);
  }

  lemma NoBlocks()
    ensures Blocks([]) == []
  {
  }

  lemma SeenHeader()
    ensures Seen(HEADER) == HEADER
  {
    hide Seen, FileLines;
    PlainLine("WEBVTT");
    PlainLine("");
    SeenOne("WEBVTT");
    SeenOne("");
    SeenAppend(["WEBVTT"], [""]);
    assert HEADER == ["WEBVTT"] + [""];
  }

  lemma LastLineIsBlank(segments: seq<Segment>)
    requires Printable(segments)
    ensures var lines := HEADER + CueLines(segments); lines[|lines| - 1] == ""
  {
    hide Timestamp, Escape;
  }

  /** Reading a whole file back; `None` when it is no WebVTT file or a cue identifier is no number. */
  function Read(file: string): Option<seq<Segment>> {
    match Parse(file)
    case None => None
    case Some(cues) => RecoverAll(cues)
  }

  function RecoverAll(cues: seq<ParsedCue>): Option<seq<Segment>> {
    if cues == [] then Some([]) else
      var n := |cues| - 1;
      match (RecoverAll(cues[..n]), Recover(cues[n]))
      case (Some(segments), Some(s)) => Some(segments + [s])
      case _ => None
  }

  lemma {:induction false} AllRecovered(segments: seq<Segment>)
    requires Printable(segments)
    ensures RecoverAll(CuesOf(segments)) == Some(ShownAll(segments))
  {
    hide Recover, CueOf, Shown;
    if segments != [] {
      var n := |segments| - 1;
      AllRecovered(segments[..n]);
      CueRecovered(segments[n]);
      assert CuesOf(segments)[..|CuesOf(segments)| - 1] == CuesOf(segments[..n]);
    }
  }

  /**
    For every list of segments, with any text whatever, a reader recovers each position and both times,
    and of each text what `ShownText` says.
  */
  lemma ReadPrinted(segments: seq<Segment>)
    requires Printable(segments)
    ensures Read(Vtt(segments).value) == Some(ShownAll(segments))
  {
    hide Vtt, Parse, CuesOf, RecoverAll;
    ParsePrinted(segments);
    AllRecovered(segments);
  }

  // ----- exactly which texts survive -----

  /** No CR or NUL, no line feed at either end, and no blank line in between. */
  predicate Survives(text: string) {
    && (forall i :: 0 <= i < |text| ==> text[i] != '\r' && text[i] != '\0')
    && SingleParagraph(text)
  }

  predicate SingleParagraph(text: string) {
    && (text != "" ==> text[0] != '\n' && text[|text| - 1] != '\n')
    && (forall i :: 0 <= i < |text| - 1 ==> text[i] != '\n' || text[i + 1] != '\n')
  }

  ghost predicate Clean(s: string) {
    forall i :: 0 <= i < |s| ==> s[i] != '\r' && s[i] != '\0'
  }

  lemma {:induction false} NormalisedIsClean(s: string)
    ensures Clean(Normalise(s))
    ensures Clean(s) ==> Normalise(s) == s
    decreases |s|
  {
    if s == "" {
    } else if "\r\n" <= s {
      assert s[0] == '\r';
      NormalisedIsClean(s[2..]);
    } else {
      assert s == [s[0]] + s[1..];
      NormalisedIsClean(s[1..]);
    }
  }

  lemma {:induction false} LinesAreClean(s: string)
    requires Clean(s)
    ensures forall i :: 0 <= i < |Lines(s)| ==> Plain(Lines(s)[i])
  {
    if s != "" {
      LinesAreClean(s[1..]);
    }
  }

  lemma {:induction false} GatheredIsSingle(buffer: string, lines: seq<string>)
    requires Clean(buffer) && SingleParagraph(buffer)
    requires forall i :: 0 <= i < |lines| ==> Plain(lines[i])
    ensures Clean(Gather(buffer, lines)) && SingleParagraph(Gather(buffer, lines))
    decreases |lines|
  {
    if lines != [] && lines[0] != "" {
      GatheredIsSingle(AppendLine(buffer, lines[0]), lines[1..]);
    }
  }

  lemma {:induction false} LinesJoin(text: string)
    ensures Join(Lines(text)) == text
  {
    if text != "" {
      LinesJoin(text[1..]);
      var rest := Lines(text[1..]);
      if text[0] == '\n' {
        assert ([""] + rest)[1..] == rest;
      } else {
        var lines := [[text[0]] + rest[0]] + rest[1..];
        assert lines[1..] == rest[1..];
        assert text == [text[0]] + text[1..];
      }
    }
  }

  lemma {:induction false} NoBlankLine(text: string)
    requires text != "" && SingleParagraph(text)
    ensures forall i :: 0 <= i < |Lines(text)| ==> Lines(text)[i] != ""
    decreases |text|
  {
    var tail := text[1..];
    if tail == "" {
    } else if tail[0] == '\n' {
      assert text[1] == '\n' && text[2] != '\n';
      var more := tail[1..];
      NoBlankLine(more);
      assert Lines(tail) == [""] + Lines(more);
      assert Lines(text) == [[text[0]] + ""] + Lines(more);
    } else {
      assert SingleParagraph(tail) by {
        forall i | 0 <= i < |tail| - 1
          ensures tail[i] != '\n' || tail[i + 1] != '\n'
        {
          assert tail[i] == text[i + 1] && tail[i + 1] == text[i + 2];
        }
      }
      NoBlankLine(tail);
    }
  }

  lemma {:induction false} GatherAll(buffer: string, lines: seq<string>)
    requires lines != [] && forall i :: 0 <= i < |lines| ==> lines[i] != ""
    ensures Gather(buffer, lines) == AppendLine(buffer, Join(lines))
    decreases |lines|
  {
    if |lines| > 1 {
      var more := lines[1..];
      GatherAll(AppendLine(buffer, lines[0]), more);
      assert buffer + "\n" + lines[0] + "\n" + Join(more) == buffer + "\n" + (lines[0] + "\n" + Join(more));
    }
  }

  /** A text is shown as it was written exactly when it survives. */
  lemma ShownAsWritten(text: string)
    ensures ShownText(text) == text <==> Survives(text)
  {
    hide Normalise, Lines, Gather;
    var seen := Normalise(Chomp(text));
    NormalisedIsClean(Chomp(text));
    LinesAreClean(seen);
    GatheredIsSingle("", Lines(seen));
    if Survives(text) {
      assert Chomp(text) == text;
      assert seen == text;
      LinesJoin(text);
      if text == "" {
        EmptyText();
        assert Gather("", [""]) == "" by { GatherNothing(); }
      } else {
        NoBlankLine(text);
        GatherAll("", Lines(text));
      }
    }
  }

  lemma GatherNothing()
    ensures Gather("", [""]) == ""
  {
  }

  /**
    The round trip holds exactly for the lists whose texts all survive: no CR, no NUL, and no line feed
    that would start, end or split a paragraph.
  */
  lemma {:induction false} RoundTripExactly(segments: seq<Segment>)
    requires Printable(segments)
    ensures Read(Vtt(segments).value) == Some(segments)
       <==> forall i :: 0 <= i < |segments| ==> Survives(segments[i].text)
  {
    hide Vtt, Read, Survives, ShownText, ShownAll;
    ReadPrinted(segments);
    forall i | 0 <= i < |segments|
      ensures Shown(segments[i]) == segments[i] <==> Survives(segments[i].text)
    {
      ShownAsWritten(segments[i].text);
    }
    if forall i :: 0 <= i < |segments| ==> Survives(segments[i].text) {
      assert ShownAll(segments) == segments;
    } else {
      var i :| 0 <= i < |segments| && !Survives(segments[i].text);
      assert ShownAll(segments)[i] != segments[i];
    }
  }

  /** The escape handles markup but not line breaks: a blank line inside a text cuts the cue short. */
  lemma BlankLineCutsTheCue()
    ensures var s := Segment(1, 0, 1000, "a\n\nb");
            Read(Vtt([s]).value) == Some([s.(text := ShownText(s.text))]) && ShownText(s.text) != s.text
  {
    hide Vtt, Read, ShownText;
    var s := Segment(1, 0, 1000, "a\n\nb");
    ReadPrinted([s]);
    assert ShownAll([s]) == [Shown(s)];
    assert !Survives(s.text) by { assert s.text[1] == '\n' && s.text[2] == '\n'; }
    ShownAsWritten(s.text);
  }
}
