/** String operations both halves of the system lean on: whitespace
    stripping (Python `str.strip()`, JavaScript `trim`), ASCII lower-casing,
    substring search (`indexOf`), and splitting/joining on one separator
    character (`str.split("/")`, `"/".join`). */
module Text {
  import opened Base

  /** ASCII whitespace: space, tab, line feed, carriage return, vertical tab, form feed. */
  predicate IsSpace(c: char) {
    c == ' ' || c == '\t' || c == '\n' || c == '\r' || c == '\U{000B}' || c == '\U{000C}'
  }

  /** No whitespace at either end. */
  predicate IsStripped(s: string) {
    |s| == 0 || (!IsSpace(s[0]) && !IsSpace(s[|s| - 1]))
  }

  /** `s` without its leading whitespace. */
  function TrimStart(s: string): (r: string)
    ensures |r| <= |s| && r == s[|s| - |r|..]
    ensures forall i :: 0 <= i < |s| - |r| ==> IsSpace(s[i])
    ensures |r| == 0 || !IsSpace(r[0])
  {
    if |s| > 0 && IsSpace(s[0]) then TrimStart(s[1..]) else s
  }

  /** `s` without its trailing whitespace. */
  function TrimEnd(s: string): (r: string)
    ensures |r| <= |s| && r == s[..|r|]
    ensures forall i :: |r| <= i < |s| ==> IsSpace(s[i])
    ensures |r| == 0 || !IsSpace(r[|r| - 1])
  {
    if |s| > 0 && IsSpace(s[|s| - 1]) then TrimEnd(s[..|s| - 1]) else s
  }

  /** Python's `s.strip()` and JavaScript's `s.trim()`: whitespace removed at both ends. */
  function Strip(s: string): (r: string)
    ensures IsStripped(r)
    ensures |r| <= |s|
    ensures IsStripped(s) ==> r == s
  {
    TrimEnd(TrimStart(s))
  }

  /** Stripping only removes characters. */
  lemma StripKeepsOut(s: string, c: char)
    requires c !in s
    ensures c !in Strip(s)
  {
  }

  /** Stripping every element of a list. */
  function StripAll(lines: seq<string>): (r: seq<string>)
    ensures |r| == |lines|
    ensures forall i :: 0 <= i < |lines| ==> r[i] == Strip(lines[i])
  {
    seq(|lines|, i requires 0 <= i < |lines| => Strip(lines[i]))
  }

  lemma {:induction false} TrimStartAppend(p: string, q: string)
    ensures TrimStart(p) != [] ==> TrimStart(p + q) == TrimStart(p) + q
    ensures TrimStart(p) == [] ==> TrimStart(p + q) == TrimStart(q)
    decreases |p|
  {
    if |p| == 0 {
      assert p + q == q;
    } else if IsSpace(p[0]) {
      assert (p + q)[1..] == p[1..] + q;
      TrimStartAppend(p[1..], q);
    }
  }

  lemma TrimEndSpace(t: string, c: char)
    requires IsSpace(c)
    ensures TrimEnd(t + [c]) == TrimEnd(t)
  {
    assert (t + [c])[..|t|] == t;
  }

  /** Python iterates a file's lines with their terminating line feed; since
      `strip()` removes it, a stripped line equals the stripped text before it. */
  lemma StripIgnoresNewline(p: string)
    ensures Strip(p + "\n") == Strip(p)
  {
    TrimStartAppend(p, "\n");
    if TrimStart(p) == [] {
      assert TrimStart("\n") == [];
    } else {
      TrimEndSpace(TrimStart(p), '\n');
    }
  }

  /** A text strips to nothing exactly when it is all whitespace. */
  lemma StripBlank(s: string)
    ensures Strip(s) == "" <==> forall i :: 0 <= i < |s| ==> IsSpace(s[i])
  {
    assert Strip(s) == "" ==> TrimStart(s) == "";
  }

  /** `s` without its leading characters that occur in `cs`. */
  function DropLeading(s: string, cs: string): (r: string)
    ensures |r| <= |s| && r == s[|s| - |r|..]
    ensures forall i :: 0 <= i < |s| - |r| ==> s[i] in cs
    ensures |r| == 0 || r[0] !in cs
  {
    if |s| > 0 && s[0] in cs then
      var r := DropLeading(s[1..], cs);
      assert r == s[|s| - |r|..] by {
        assert s[1..][|s| - 1 - |r|..] == s[|s| - |r|..];
      }
      assert forall i :: 1 <= i < |s| - |r| ==> s[i] in cs by {
        forall i | 1 <= i < |s| - |r| ensures s[i] in cs {
          assert s[i] == s[1..][i - 1];
        }
      }
      r
    else s
  }

  /** `s` without its trailing characters that occur in `cs`. */
  function DropTrailing(s: string, cs: string): (r: string)
    ensures |r| <= |s| && r == s[..|r|]
    ensures forall i :: |r| <= i < |s| ==> s[i] in cs
    ensures |r| == 0 || r[|r| - 1] !in cs
  {
    if |s| > 0 && s[|s| - 1] in cs then DropTrailing(s[..|s| - 1], cs) else s
  }

  /** Underscore.string's `trim(s, characters)` with `characters` given:
      every character of `cs` is removed from both ends. */
  function TrimChars(s: string, cs: string): (r: string)
    ensures |r| <= |s|
    ensures |r| == 0 || (r[0] !in cs && r[|r| - 1] !in cs)
    ensures exists k :: TrimmedFrom(s, r, k, cs)
  {
    var front := DropLeading(s, cs);
    var r := DropTrailing(front, cs);
    TrimmedSlice(s, cs, front, r);
    r
  }

  /** `r` sits at `k` in `s`, and every character of `s` before or after it
      is in `cs`. */
  predicate TrimmedFrom(s: string, r: string, k: int, cs: string) {
    OccursAt(s, r, k)
    && (forall i :: 0 <= i < k ==> s[i] in cs)
    && (forall i :: k + |r| <= i < |s| ==> s[i] in cs)
  }

  /** Dropping a prefix of characters in `cs` and then a suffix of them
      leaves a slice of `s` whose surroundings are all in `cs`. */
  lemma TrimmedSlice(s: string, cs: string, front: string, r: string)
    requires |front| <= |s| && front == s[|s| - |front|..]
    requires forall i :: 0 <= i < |s| - |front| ==> s[i] in cs
    requires |r| <= |front| && r == front[..|r|]
    requires forall i :: |r| <= i < |front| ==> front[i] in cs
    ensures TrimmedFrom(s, r, |s| - |front|, cs)
  {
    var k := |s| - |front|;
    assert OccursAt(s, r, k) by {
      assert s[k..k + |r|] == front[..|r|];
    }
    assert forall i :: k + |r| <= i < |s| ==> s[i] in cs by {
      forall i | k + |r| <= i < |s| ensures s[i] in cs {
        assert s[i] == front[i - k];
      }
    }
  }

  /** A text whose end characters are not in `cs` is left as it is. */
  lemma TrimCharsKeeps(s: string, cs: string)
    requires |s| == 0 || (s[0] !in cs && s[|s| - 1] !in cs)
    ensures TrimChars(s, cs) == s
  {
  }

  /** A text made only of characters in `cs` is removed entirely. */
  lemma TrimCharsAll(s: string, cs: string)
    requires forall i :: 0 <= i < |s| ==> s[i] in cs
    ensures TrimChars(s, cs) == ""
  {
  }

  function LowerChar(c: char): char {
    if 'A' <= c <= 'Z' then (c as int + 32) as char else c
  }

  /** JavaScript's `toLowerCase` on ASCII letters. */
  function Lower(s: string): (r: string)
    ensures |r| == |s|
    ensures forall i :: 0 <= i < |s| ==> r[i] == LowerChar(s[i])
  {
    seq(|s|, i requires 0 <= i < |s| => LowerChar(s[i]))
  }

  lemma LowerIdempotent(s: string)
    ensures Lower(Lower(s)) == Lower(s)
  {
  }

  /** `sub` occurs in `s` starting at index `i`. */
  predicate OccursAt(s: string, sub: string, i: int) {
    0 <= i && i + |sub| <= |s| && s[i..i + |sub|] == sub
  }

  /** The first occurrence of `sub` in `s` at or after `k`. */
  function IndexOfFrom(s: string, sub: string, k: nat): (r: Option<nat>)
    ensures r.Some? ==> k <= r.value && OccursAt(s, sub, r.value)
    ensures r.Some? ==> forall j :: k <= j < r.value ==> !OccursAt(s, sub, j)
    ensures r.None? ==> forall j :: k <= j ==> !OccursAt(s, sub, j)
    decreases |s| - k
  {
    if k + |sub| > |s| then None
    else if s[k..k + |sub|] == sub then Some(k)
    else IndexOfFrom(s, sub, k + 1)
  }

  /** JavaScript's `s.indexOf(sub)`, with `None` for -1: the first occurrence. */
  function IndexOf(s: string, sub: string): (r: Option<nat>)
    ensures r.Some? ==> OccursAt(s, sub, r.value)
    ensures r.Some? ==> forall j :: 0 <= j < r.value ==> !OccursAt(s, sub, j)
    ensures r.None? <==> forall j :: !OccursAt(s, sub, j)
  {
    IndexOfFrom(s, sub, 0)
  }

  /** `sub` is a substring of `s`. */
  predicate Contains(s: string, sub: string) {
    IndexOf(s, sub).Some?
  }

  /** Python's `s.split(sep)` for a one-character separator: every separator
      ends a piece, so there is always one more piece than separators. */
  function Split(s: string, sep: char): (parts: seq<string>)
    ensures |parts| >= 1
    ensures forall i :: 0 <= i < |parts| ==> sep !in parts[i]
    ensures sep !in s ==> parts == [s]
    decreases |s|
  {
    if |s| == 0 then [""]
    else if s[0] == sep then [""] + Split(s[1..], sep)
    else
      var rest := Split(s[1..], sep);
      assert [s[0]] + s[1..] == s;
      assert sep !in s ==> sep !in s[1..];
      [[s[0]] + rest[0]] + rest[1..]
  }

  /** Python's `sep.join(parts)`. */
  function Join(parts: seq<string>, sep: char): string
    decreases |parts|
  {
    if |parts| == 0 then ""
    else if |parts| == 1 then parts[0]
    else parts[0] + [sep] + Join(parts[1..], sep)
  }

  /** Joining a list with at least two parts puts the separator after the first. */
  lemma JoinCons(x: string, rest: seq<string>, sep: char)
    requires |rest| > 0
    ensures Join([x] + rest, sep) == x + [sep] + Join(rest, sep)
  {
    assert ([x] + rest)[1..] == rest;
  }

  /** Joining the pieces of a split gives back the original string. */
  lemma {:induction false} JoinSplit(s: string, sep: char)
    ensures Join(Split(s, sep), sep) == s
    decreases |s|
  {
    if |s| > 0 {
      var rest := Split(s[1..], sep);
      JoinSplit(s[1..], sep);
      if s[0] == sep {
        JoinCons("", rest, sep);
      } else {
        JoinPrepend(s[0], rest, sep);
      }
      assert [s[0]] + s[1..] == s;
    }
  }

  /** Gluing a character to the front of the first part glues it to the
      front of the joined text. */
  lemma JoinPrepend(c: char, parts: seq<string>, sep: char)
    requires |parts| >= 1
    ensures Join([[c] + parts[0]] + parts[1..], sep) == [c] + Join(parts, sep)
  {
    if |parts| > 1 {
      JoinCons([c] + parts[0], parts[1..], sep);
      JoinCons(parts[0], parts[1..], sep);
      assert [parts[0]] + parts[1..] == parts;
    }
  }

  /** A separator splits exactly where it stands: the pieces of `a + sep + b`
      are the pieces of `a` followed by the pieces of `b`. */
  lemma {:induction false} SplitConcat(a: string, b: string, sep: char)
    ensures Split(a + [sep] + b, sep) == Split(a, sep) + Split(b, sep)
    decreases |a|
  {
    var s := a + [sep] + b;
    if |a| == 0 {
      assert s[1..] == b;
    } else {
      assert s[1..] == a[1..] + [sep] + b;
      SplitConcat(a[1..], b, sep);
    }
  }

  /** A separator-free first piece is split off whole. */
  lemma SplitCons(a: string, rest: string, sep: char)
    requires sep !in a
    ensures Split(a + [sep] + rest, sep) == [a] + Split(rest, sep)
  {
    SplitConcat(a, rest, sep);
  }

  /** No part contains the separator. */
  ghost predicate Separated(parts: seq<string>, sep: char) {
    forall i :: 0 <= i < |parts| ==> sep !in parts[i]
  }

  lemma SeparatedTail(parts: seq<string>, sep: char)
    requires |parts| > 0 && Separated(parts, sep)
    ensures sep !in parts[0] && Separated(parts[1..], sep)
  {
    var tail := parts[1..];
    forall i | 0 <= i < |tail|
      ensures sep !in tail[i]
    {
      assert tail[i] == parts[i + 1];
    }
  }

  /** Splitting the join of separator-free pieces gives back the pieces. */
  lemma {:induction false} SplitJoin(parts: seq<string>, sep: char)
    requires |parts| >= 1 && Separated(parts, sep)
    ensures Split(Join(parts, sep), sep) == parts
    decreases |parts|
  {
    SeparatedTail(parts, sep);
    if |parts| > 1 {
      SplitJoin(parts[1..], sep);
      JoinCons(parts[0], parts[1..], sep);
      SplitCons(parts[0], Join(parts[1..], sep), sep);
      assert [parts[0]] + parts[1..] == parts;
    }
  }

  /** Underscore.string's `strLeft(s, sep)`: the part of `s` before the first
      `sep`, or all of `s` when `sep` is empty or absent. */
  function StrLeft(s: string, sep: string): (r: string)
    ensures |r| <= |s| && r == s[..|r|]
    ensures sep != "" && Contains(s, sep) ==> OccursAt(s, sep, |r|) && !Contains(r, sep)
    ensures sep == "" || !Contains(s, sep) ==> r == s
  {
    if sep == "" then s
    else match IndexOf(s, sep)
      case None => s
      case Some(i) =>
        assert forall j :: OccursAt(s[..i], sep, j) ==> OccursAt(s, sep, j) by {
          forall j | OccursAt(s[..i], sep, j)
            ensures OccursAt(s, sep, j)
          {
            assert s[..i][j..j + |sep|] == s[j..j + |sep|];
          }
        }
        s[..i]
  }
}
