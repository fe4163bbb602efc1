/** Line-oriented text files: the global change log (`cache/releases`) and
    the per-package version history are both written one entry per line,
    each followed by a line feed, and read back line by line. */
module LineFile {
  import opened Base
  import opened Text

  /** The lines of a file's text without their line feeds, as Python's
      `for line in handle` yields them (less the terminator): a final line
      feed does not start another line, and an empty file has no lines. */
  function ReadLines(text: string): (lines: seq<string>)
    ensures forall i :: 0 <= i < |lines| ==> '\n' !in lines[i]
  {
    var pieces := Split(text, '\n');
    if pieces[|pieces| - 1] == "" then pieces[..|pieces| - 1] else pieces
  }

  /** The lines exactly as `for line in handle` yields them: each with its
      line feed, except a last line the file does not end with one. */
  function RawLines(text: string): (raw: seq<string>)
    ensures |raw| == |ReadLines(text)|
  {
    var lines := ReadLines(text);
    seq(|lines|, i requires 0 <= i < |lines| =>
      if i < |lines| - 1 || Terminated(text) then lines[i] + "\n" else lines[i])
  }

  /** The text written by `handle.write(line + "\n")` for each line in turn. */
  function Render(lines: seq<string>): string
    decreases |lines|
  {
    if |lines| == 0 then "" else lines[0] + "\n" + Render(lines[1..])
  }

  /** Empty, or ending in a line feed: appending a line starts a new line. */
  predicate Terminated(text: string) {
    |text| == 0 || text[|text| - 1] == '\n'
  }

  predicate NoNewlines(lines: seq<string>) {
    forall i :: 0 <= i < |lines| ==> '\n' !in lines[i]
  }

  lemma {:induction false} RenderAppend(lines: seq<string>, line: string)
    ensures Render(lines + [line]) == Render(lines) + line + "\n"
    decreases |lines|
  {
    if |lines| > 0 {
      assert (lines + [line])[1..] == lines[1..] + [line];
      RenderAppend(lines[1..], line);
    } else {
      assert lines + [line] == [line];
    }
  }

  lemma {:induction false} SplitRender(lines: seq<string>)
    requires NoNewlines(lines)
    ensures Split(Render(lines), '\n') == lines + [""]
    decreases |lines|
  {
    if |lines| > 0 {
      SplitRender(lines[1..]);
      SplitConcat(lines[0], Render(lines[1..]), '\n');
      assert lines[0] + "\n" + Render(lines[1..]) == lines[0] + ['\n'] + Render(lines[1..]);
      assert [lines[0]] + lines[1..] == lines;
    }
  }

  /** Writing lines and reading them back gives the same lines, and the text
      written ends with a line feed. */
  lemma {:induction false} RenderThenRead(lines: seq<string>)
    requires NoNewlines(lines)
    ensures ReadLines(Render(lines)) == lines
    ensures Terminated(Render(lines))
  {
    SplitRender(lines);
    assert (lines + [""])[..|lines|] == lines;
    if |lines| > 0 {
      RenderAppend(lines[..|lines| - 1], lines[|lines| - 1]);
      assert lines[..|lines| - 1] + [lines[|lines| - 1]] == lines;
    }
  }

  /** Text whose pieces end with an empty one reads as the pieces before it. */
  lemma ReadLinesOfPieces(text: string, lines: seq<string>)
    requires Split(text, '\n') == lines + [""]
    ensures ReadLines(text) == lines
  {
    assert (lines + [""])[..|lines|] == lines;
  }

  lemma SplitTerminatedLine(line: string)
    requires '\n' !in line
    ensures Split(line + "\n", '\n') == [line, ""]
  {
    assert line + "\n" == line + ['\n'] + "";
    SplitCons(line, "", '\n');
  }

  lemma SplitAfterLine(front: string, rest: string)
    ensures Split(front + "\n" + rest, '\n') == Split(front, '\n') + Split(rest, '\n')
  {
    assert front + "\n" + rest == front + ['\n'] + rest;
    SplitConcat(front, rest, '\n');
  }

  lemma AppendLineToNonEmpty(front: string, line: string)
    requires '\n' !in line
    ensures ReadLines(front + "\n" + (line + "\n")) == ReadLines(front + "\n") + [line]
  {
    var pieces := Split(front, '\n');
    SplitTerminatedLine(line);
    SplitAfterLine(front, "");
    assert front + "\n" + "" == front + "\n";
    ReadLinesOfPieces(front + "\n", pieces);
    SplitAfterLine(front, line + "\n");
    assert Split(front + "\n" + (line + "\n"), '\n') == (pieces + [line]) + [""];
    ReadLinesOfPieces(front + "\n" + (line + "\n"), pieces + [line]);
  }

  /** Appending `line + "\n"` to terminated text adds exactly that one line. */
  lemma {:induction false} AppendLine(text: string, line: string)
    requires Terminated(text)
    requires '\n' !in line
    ensures ReadLines(text + line + "\n") == ReadLines(text) + [line]
    ensures Terminated(text + line + "\n")
  {
    var t := text + line + "\n";
    assert t[|t| - 1] == '\n';
    if |text| == 0 {
      SplitTerminatedLine(line);
      assert t == line + "\n";
      ReadLinesOfPieces(t, [line]);
      ReadLinesOfPieces(text, []);
    } else {
      var front := text[..|text| - 1];
      assert text == front + "\n";
      assert t == front + "\n" + (line + "\n");
      AppendLineToNonEmpty(front, line);
    }
  }
}
