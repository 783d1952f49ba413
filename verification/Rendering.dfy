/** The WebVTT printer: `escape_cue_text`, `format_timestamp` and `render_vtt`. */
module Rendering {
  import opened Decimal
  import opened Options

  /** One row of `TranscriptSegment`, as the printer reads it. */
  datatype Segment = Segment(position: nat, startMs: int, endMs: int, text: string)

  const ESCAPES: seq<(char, string)> := [('&', "&amp;"), ('<', "&lt;"), ('>', "&gt;")]
  const CUE_SEPARATOR := "-->"
  const HEADER: seq<string> := ["WEBVTT", ""]

  // ----- escaping -----

  /** Python's `str.replace` for a pattern of one character. */
  function Replace(text: string, c: char, replacement: string): string {
    if text == "" then "" else
      (if text[0] == c then replacement else [text[0]]) + Replace(text[1..], c, replacement)
  }

  /** The replacements of `escapes`, applied to the whole text one after the other. */
  function ReplaceInOrder(text: string, escapes: seq<(char, string)>): string {
    if escapes == [] then text else
      var last := escapes[|escapes| - 1];
      Replace(ReplaceInOrder(text, escapes[..|escapes| - 1]), last.0, last.1)
  }

  /** What one character becomes in a cue. */
  function EscapedChar(c: char): string {
    match c
    case '&' => "&amp;"
    case '<' => "&lt;"
    case '>' => "&gt;"
    case _ => [c]
  }

  /** A single pass over the text, each character escaped by itself. */
  function Escape(text: string): string {
    if text == "" then "" else EscapedChar(text[0]) + Escape(text[1..])
  }

  /** The reader's side: the three character references back to what they stand for. */
  function Unescape(text: string): string {
    if text == "" then ""
    else if "&amp;" <= text then "&" + Unescape(text[5..])
    else if "&lt;" <= text then "<" + Unescape(text[4..])
    else if "&gt;" <= text then ">" + Unescape(text[4..])
    else [text[0]] + Unescape(text[1..])
  }

  lemma {:induction false} ReplaceDistributes(a: string, b: string, c: char, replacement: string)
    ensures Replace(a + b, c, replacement) == Replace(a, c, replacement) + Replace(b, c, replacement)
  {
    if a == "" {
      assert a + b == b;
    } else {
      assert (a + b)[1..] == a[1..] + b;
      ReplaceDistributes(a[1..], b, c, replacement);
    }
  }

  lemma ReplaceInOrderUnfolds(text: string)
    ensures ReplaceInOrder(text, ESCAPES) ==
            Replace(Replace(Replace(text, '&', "&amp;"), '<', "&lt;"), '>', "&gt;")
  {
    assert |ESCAPES| == 3;
    assert ESCAPES[..2] == [ESCAPES[0], ESCAPES[1]];
    assert [ESCAPES[0], ESCAPES[1]][..1] == [ESCAPES[0]];
    assert [ESCAPES[0]][..0] == [];
    assert ReplaceInOrder(text, [ESCAPES[0]]) == Replace(text, '&', "&amp;");
    assert ReplaceInOrder(text, [ESCAPES[0], ESCAPES[1]]) == Replace(Replace(text, '&', "&amp;"), '<', "&lt;");
  }

  lemma EscapedCharIsThreeReplacements(c: char)
    ensures Replace(Replace(Replace([c], '&', "&amp;"), '<', "&lt;"), '>', "&gt;") == EscapedChar(c)
  {
    ReplaceInOneChar(c, '&', "&amp;");
    ReplaceInOneChar(c, '<', "&lt;");
    ReplaceInOneChar(c, '>', "&gt;");
    NothingToReplace("&amp;", '<', "&lt;");
    NothingToReplace("&amp;", '>', "&gt;");
    NothingToReplace("&lt;", '>', "&gt;");
  }

  lemma ReplaceInOneChar(c: char, d: char, replacement: string)
    ensures Replace([c], d, replacement) == if c == d then replacement else [c]
  {
    assert [c][1..] == "";
    assert Replace("", d, replacement) == "";
    assert replacement + "" == replacement;
  }

  lemma {:induction false} NothingToReplace(text: string, c: char, replacement: string)
    requires c !in text
    ensures Replace(text, c, replacement) == text
  {
    if text != "" {
      NothingToReplace(text[1..], c, replacement);
    }
  }

  /** Three global passes in this order are one pass per character: no pass touches an earlier one's output. */
  lemma {:induction false} ThreePassesAreOne(text: string)
    ensures ReplaceInOrder(text, ESCAPES) == Escape(text)
  {
    ReplaceInOrderUnfolds(text);
    if text != "" {
      var c, rest := [text[0]], text[1..];
      assert text == c + rest;
      ReplaceDistributes(c, rest, '&', "&amp;");
      var c1, rest1 := Replace(c, '&', "&amp;"), Replace(rest, '&', "&amp;");
      ReplaceDistributes(c1, rest1, '<', "&lt;");
      ReplaceDistributes(Replace(c1, '<', "&lt;"), Replace(rest1, '<', "&lt;"), '>', "&gt;");
      EscapedCharIsThreeReplacements(text[0]);
      ThreePassesAreOne(rest);
      ReplaceInOrderUnfolds(rest);
    }
  }

  /** Escaping loses nothing: every text, whatever it already contains, comes back. */
  lemma {:induction false} UnescapeInvertsEscape(text: string)
    ensures Unescape(Escape(text)) == text
  {
    if text != "" {
      var c, rest := text[0], text[1..];
      UnescapeInvertsEscape(rest);
      var e := EscapedChar(c);
      assert (e + Escape(rest))[|e|..] == Escape(rest);
      if c == '<' {
        assert (e + Escape(rest))[1] == 'l';
      } else if c == '>' {
        assert (e + Escape(rest))[1] == 'g';
      } else if c == '&' {
      } else {
        assert (e + Escape(rest))[0] == c;
      }
    }
  }

  /** No markup and no cue separator survives escaping. */
  lemma {:induction false} EscapedTextIsInert(text: string)
    ensures '<' !in Escape(text) && '>' !in Escape(text)
    ensures !Contains(Escape(text), CUE_SEPARATOR)
  {
    if text != "" {
      EscapedTextIsInert(text[1..]);
    }
    NoSeparatorWithoutItsArrowhead(Escape(text));
  }

  predicate Contains(text: string, pattern: string) {
    pattern <= text || (text != "" && Contains(text[1..], pattern))
  }

  lemma {:induction false} NoSeparatorWithoutItsArrowhead(text: string)
    requires '>' !in text
    ensures !Contains(text, CUE_SEPARATOR)
  {
    assert CUE_SEPARATOR[2] == '>';
    if text != "" {
      NoSeparatorWithoutItsArrowhead(text[1..]);
    }
  }

  /** `escape_cue_text`: the loop over the table of replacements. */
  method EscapeCueText(text: string) returns (escaped: string)
    ensures escaped == Escape(text)
    ensures Unescape(escaped) == text
    ensures '<' !in escaped && '>' !in escaped && !Contains(escaped, CUE_SEPARATOR)
  {
    escaped := text;
    for i := 0 to |ESCAPES|
      invariant escaped == ReplaceInOrder(text, ESCAPES[..i])
    {
      escaped := Replace(escaped, ESCAPES[i].0, ESCAPES[i].1);
      assert ESCAPES[..i + 1][..i] == ESCAPES[..i];
    }
    assert ESCAPES[..|ESCAPES|] == ESCAPES;
    ThreePassesAreOne(text);
    UnescapeInvertsEscape(text);
    EscapedTextIsInert(text);
  }

  // ----- timestamps and the file -----

  /** `format_timestamp`; `None` stands for its ValueError. */
  function FormatTimestamp(milliseconds: int): Option<string> {
    if milliseconds < 0 then None else Some(Timestamp(milliseconds))
  }

  function Timestamp(milliseconds: nat): string {
    var seconds, remainder := milliseconds / 1000, milliseconds % 1000;
    var minutes, seconds' := seconds / 60, seconds % 60;
    var hours, minutes' := minutes / 60, minutes % 60;
    Padded(hours, 2) + ":" + Padded(minutes', 2) + ":" + Padded(seconds', 2) + "." + Padded(remainder, 3)
  }

  function TimingLine(startMs: nat, endMs: nat): string {
    Timestamp(startMs) + " " + CUE_SEPARATOR + " " + Timestamp(endMs)
  }

  predicate Printable(segments: seq<Segment>) {
    forall i :: 0 <= i < |segments| ==> segments[i].startMs >= 0 && segments[i].endMs >= 0
  }

  /** Identifier, timings, text, and the blank line that ends the cue. */
  function CueBlock(s: Segment): seq<string>
    requires s.startMs >= 0 && s.endMs >= 0
  {
    [Digits(s.position), TimingLine(s.startMs, s.endMs), Escape(s.text), ""]
  }

  /** The blocks of all segments, in their order. */
  function CueLines(segments: seq<Segment>): seq<string>
    requires Printable(segments)
  {
    if segments == [] then [] else
      var n := |segments| - 1;
      CueLines(segments[..n]) + CueBlock(segments[n])
  }

  function Join(lines: seq<string>): string {
    if lines == [] then "" else if |lines| == 1 then lines[0] else lines[0] + "\n" + Join(lines[1..])
  }

  /** The file `render_vtt` returns; `None` when a timestamp is negative and formatting raises. */
  function Vtt(segments: seq<Segment>): Option<string> {
    if Printable(segments) then Some(Join(HEADER + CueLines(segments))) else None
  }

  /** `render_vtt`: the loop that appends to `lines`, and the join. */
  method RenderVtt(segments: seq<Segment>) returns (file: Option<string>)
    ensures file == Vtt(segments)
  {
    hide Timestamp;
    var lines := HEADER;
    for i := 0 to |segments|
      invariant Printable(segments[..i])
      invariant lines == HEADER + CueLines(segments[..i])
    {
      var segment := segments[i];
      var start, end := FormatTimestamp(segment.startMs), FormatTimestamp(segment.endMs);
      if start.None? || end.None? {
        assert !Printable(segments);
        return None;
      }
      var text := EscapeCueText(segment.text);
      lines := AppendCue(lines, segment, start.value, end.value, text);
      assert segments[..i + 1][..i] == segments[..i];
    }
    assert segments[..|segments|] == segments;
    file := Some(Join(lines));
  }

  /** The four appends of one round of the loop. */
  method AppendCue(before: seq<string>, segment: Segment, start: string, end: string, text: string)
    returns (lines: seq<string>)
    requires segment.startMs >= 0 && segment.endMs >= 0
    requires start == Timestamp(segment.startMs) && end == Timestamp(segment.endMs)
    requires text == Escape(segment.text)
    ensures lines == before + CueBlock(segment)
  {
    lines := before + [Digits(segment.position)];
    lines := lines + [start + " " + CUE_SEPARATOR + " " + end];
    lines := lines + [text];
    lines := lines + [""];
  }
}
