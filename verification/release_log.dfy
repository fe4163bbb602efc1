/** Truncation of the global change log (`truncate_release_file`): keep the
    last `count` stripped lines, rewrite the log to exactly those lines, and
    return them. */
module ReleaseLog {
  import opened Base
  import opened Text
  import opened LineFile

  /** The log's lines as truncation collects them: each one stripped. */
  function Entries(text: string): seq<string> {
    StripAll(ReadLines(text))
  }

  /** Stripping each line as Python reads it, line feed included, gives the
      entries: `strip()` removes the line feed along with the whitespace. */
  lemma EntriesOfRawLines(text: string)
    ensures |Entries(text)| == |RawLines(text)|
    ensures forall i :: 0 <= i < |RawLines(text)| ==> Entries(text)[i] == Strip(RawLines(text)[i])
  {
    var lines := ReadLines(text);
    var raw := RawLines(text);
    forall i | 0 <= i < |raw|
      ensures Entries(text)[i] == Strip(raw[i])
    {
      if raw[i] != lines[i] {
        StripIgnoresNewline(lines[i]);
      }
    }
  }

  /** The rewritten log text and the lines returned to the caller. */
  datatype Truncated = Truncated(text: string, lines: seq<string>)

  /** Reference definition: the last `count` entries, written back one per
      line. `None` when the log file does not exist, which the program
      reports as a fatal I/O error. */
  function Truncation(log: Option<string>, count: nat): Option<Truncated> {
    match log
    case None => None
    case Some(text) =>
      var kept := LastN(Entries(text), count);
      Some(Truncated(Render(kept), kept))
  }

  lemma StrippedLinesHaveNoNewline(text: string)
    ensures NoNewlines(Entries(text))
  {
    var lines := ReadLines(text);
    forall i | 0 <= i < |lines|
      ensures '\n' !in Entries(text)[i]
    {
      StripKeepsOut(lines[i], '\n');
    }
  }

  /** Python's `collections.deque(maxlen=count)` fed with `xs` in order: when
      full, each append drops the oldest element. */
  method BoundedDeque<X>(xs: seq<X>, count: nat) returns (window: seq<X>)
    ensures |window| == Min(|xs|, count)
    ensures window == xs[|xs| - |window|..]
  {
    window := [];
    var i := 0;
    while i < |xs|
      invariant 0 <= i <= |xs|
      invariant |window| == Min(i, count)
      invariant window == xs[i - |window|..i]
    {
      assert xs[i - |window|..i + 1] == xs[i - |window|..i] + [xs[i]];
      window := window + [xs[i]];
      if |window| > count {
        window := window[1..];
      }
      i := i + 1;
    }
  }

  /** Writes each line followed by a line feed, collecting the lines written. */
  method WriteLines(window: seq<string>) returns (text: string, written: seq<string>)
    ensures written == window
    ensures text == Render(window)
  {
    text := "";
    written := [];
    var j := 0;
    while j < |window|
      invariant 0 <= j <= |window|
      invariant written == window[..j]
      invariant text == Render(written)
    {
      RenderAppend(written, window[j]);
      text := text + window[j] + "\n";
      written := written + [window[j]];
      j := j + 1;
    }
  }

  /** `truncate_release_file`: reads the log line by line, keeping the last
      `count` stripped lines, then writes the kept lines back and returns
      them. */
  method TruncateReleaseFile(log: Option<string>, count: nat) returns (r: Option<Truncated>)
    ensures r.None? <==> log.None?
    ensures r.Some? ==>
      var entries := Entries(log.value);
      && |r.value.lines| == Min(|entries|, count)
      && r.value.lines == entries[|entries| - |r.value.lines|..]
      && r.value.text == Render(r.value.lines)
    ensures r == Truncation(log, count)
  {
    if log.None? {
      return None;
    }
    var window := BoundedDeque(Entries(log.value), count);
    var text, lines := WriteLines(window);
    r := Some(Truncated(text, lines));
  }

  /** The returned lines are a suffix of the log's stripped lines, and the
      rewritten log reads back as exactly those lines. */
  lemma TruncationKeepsSuffix(log: Option<string>, count: nat)
    requires log.Some?
    ensures var t := Truncation(log, count).value; var entries := Entries(log.value);
      && |t.lines| <= count
      && t.lines == entries[|entries| - |t.lines|..]
      && ReadLines(t.text) == t.lines
      && Terminated(t.text)
  {
    var t := Truncation(log, count).value;
    StrippedLinesHaveNoNewline(log.value);
    RenderThenRead(t.lines);
  }

  /** Truncating twice with the same bound changes nothing the second time:
      the same lines come back and the log text stays as it is. */
  lemma {:induction false} TruncationIdempotent(log: Option<string>, count: nat)
    requires log.Some?
    ensures var t := Truncation(log, count).value;
      Truncation(Some(t.text), count) == Some(t)
  {
    var t := Truncation(log, count).value;
    TruncationKeepsSuffix(log, count);
    assert StripAll(t.lines) == t.lines;
    assert LastN(t.lines, count) == t.lines;
  }
}
