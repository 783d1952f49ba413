/**
  A reader for cues, after section 6.1 (WebVTT file parsing) of the W3C WebVTT specification: newline
  normalisation, the signature, the block collector with its put-back of a second timing line, and the
  timestamp collector with optional hours. Cue settings, STYLE and REGION blocks never contribute a cue
  and are skipped.
*/
module WebVtt {
  import opened Decimal
  import opened Options
  import opened Rendering

  datatype ParsedCue = ParsedCue(id: string, startMs: nat, endMs: nat, text: string)

  // ----- lines -----

  /** CRLF and lone CR become LF; NUL becomes U+FFFD. */
  function Normalise(s: string): string {
    if s == "" then ""
    else if "\r\n" <= s then "\n" + Normalise(s[2..])
    else [NormalChar(s[0])] + Normalise(s[1..])
  }

  function NormalChar(c: char): char {
    if c == '\r' then '\n' else if c == '\0' then '\U{FFFD}' else c
  }

  /** The text cut at every LF. */
  function Lines(s: string): (lines: seq<string>)
    ensures lines != []
  {
    if s == "" then [""]
    else if s[0] == '\n' then [""] + Lines(s[1..])
    else
      var rest := Lines(s[1..]);
      [[s[0]] + rest[0]] + rest[1..]
  }

  // ----- timings -----

  function SkipSpaces(s: string): string {
    if s != "" && (s[0] == ' ' || s[0] == '\t') then SkipSpaces(s[1..]) else s
  }

  /** How many digits `s` starts with. */
  function DigitRun(s: string): (n: nat)
    ensures n <= |s| && AllDigits(s[..n])
  {
    if s != "" && IsDigit(s[0]) then
      var n := 1 + DigitRun(s[1..]);
      assert s[..n] == [s[0]] + s[1..][..n - 1];
      n
    else 0
  }

  /** A separator and then exactly `width` digits; the rest of the input follows. */
  function Field(s: string, separator: char, width: nat): Option<(nat, string)> {
    if s == "" || s[0] != separator || DigitRun(s[1..]) != width then None
    else Some((Value(s[1..][..width]), s[1..][width..]))
  }

  /** "Collect a WebVTT timestamp": `[hours:]minutes:seconds.milliseconds`. */
  function CollectTimestamp(s: string): Option<(nat, string)> {
    var n := DigitRun(s);
    if n == 0 then None else CollectAfterFirst(Value(s[..n]), n, s[n..])
  }

  /** The first number, of `width` digits, has been read: it counts hours or minutes. */
  function CollectAfterFirst(first: nat, width: nat, after: string): Option<(nat, string)> {
    match Field(after, ':', 2)
    case None => None
    case Some((second, after2)) =>
      if width != 2 || first > 59 || (after2 != "" && after2[0] == ':') then
        match Field(after2, ':', 2)
        case None => None
        case Some((third, after3)) => CollectFraction(first, second, third, after3)
      else
        CollectFraction(0, first, second, after2)
  }

  function CollectFraction(hours: nat, minutes: nat, seconds: nat, after: string): Option<(nat, string)> {
    match Field(after, '.', 3)
    case None => None
    case Some((fraction, rest)) =>
      if minutes > 59 || seconds > 59 then None
      else Some((((hours * 60 + minutes) * 60 + seconds) * 1000 + fraction, rest))
  }

  /** The two timestamps of a timing line; what follows them is settings. */
  function CollectTimings(line: string): Option<(nat, nat)> {
    var start := CollectTimestamp(SkipSpaces(line));
    if start.None? then None else
      var middle := SkipSpaces(start.value.1);
      if !(CUE_SEPARATOR <= middle) then None else
        var end := CollectTimestamp(SkipSpaces(middle[3..]));
        if end.None? then None else Some((start.value.0, end.value.0))
  }

  // ----- blocks -----

  /** The cue a block has opened so far: its identifier and timings. */
  datatype CueHead = CueHead(id: string, startMs: nat, endMs: nat)

  function Close(head: Option<CueHead>, buffer: string): Option<ParsedCue> {
    if head.None? then None
    else Some(ParsedCue(head.value.id, head.value.startMs, head.value.endMs, buffer))
  }

  function AppendLine(buffer: string, line: string): string {
    if buffer == "" then line else buffer + "\n" + line
  }

  /** "Collect a WebVTT block": what the block yields, and the lines left after it. */
  function CollectBlock(lines: seq<string>, inHeader: bool, count: nat, buffer: string,
                        head: Option<CueHead>, seenArrow: bool): (r: (Option<ParsedCue>, seq<string>))
    ensures |r.1| <= |lines|
    ensures lines != [] && !inHeader && count == 0 ==> |r.1| < |lines|
  {
    if lines == [] then (Close(head, buffer), [])
    else
      var line := lines[0];
      if Contains(line, CUE_SEPARATOR) then
        if !inHeader && (count == 0 || (count == 1 && !seenArrow)) then
          var timings := CollectTimings(line);
          if timings.Some? then
            CollectBlock(lines[1..], inHeader, count + 1, "",
                         Some(CueHead(buffer, timings.value.0, timings.value.1)), true)
          else
            CollectBlock(lines[1..], inHeader, count + 1, buffer, None, true)
        else (Close(head, buffer), lines)
      else if line == "" then (Close(head, buffer), lines[1..])
      else CollectBlock(lines[1..], inHeader, count + 1, AppendLine(buffer, line), head, seenArrow)
  }

  /** The block loop: blank lines are skipped, blocks without a cue are dropped. */
  function Blocks(lines: seq<string>): seq<ParsedCue>
    decreases |lines|
  {
    if lines == [] then []
    else if lines[0] == "" then Blocks(lines[1..])
    else
      var block := CollectBlock(lines, false, 0, "", None, false);
      (if block.0.Some? then [block.0.value] else []) + Blocks(block.1)
  }

  predicate IsSignature(line: string) {
    "WEBVTT" <= line && (|line| == 6 || line[6] == ' ' || line[6] == '\t')
  }

  /** The cues of a file; `None` when it does not start with the signature. */
  function Parse(file: string): Option<seq<ParsedCue>> {
    var lines := Lines(Normalise(file));
    if !IsSignature(lines[0]) then None
    else if |lines| == 1 then Some([])
    else if lines[1] == "" then Some(Blocks(lines[2..]))
    else Some(Blocks(CollectBlock(lines[1..], true, 0, "", None, false).1))
  }

  /** A cue read back into the columns it was printed from. */
  function Recover(cue: ParsedCue): Option<Segment> {
    if AllDigits(cue.id) then Some(Segment(Value(cue.id), cue.startMs, cue.endMs, Unescape(cue.text))) else None
  }
}
