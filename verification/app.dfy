/** The release page's logic (`js/app.js`): normalising a manifest for the
    details view, turning the change log into table rows newest first,
    dispatching search-box events, and the case-insensitive row filter. The
    DOM, ajax and templates are not part of this model: a table is the
    sequence of its rows, and filtering yields which rows are shown. */
module App {
  import opened Base
  import opened Text
  import opened LineFile
  import opened Cache
  import opened ReleaseLog
  import opened Feed

  // ---------------------------------------------------------------------
  // normalizePackage

  /** A manifest as the page reads it: its string fields, plus the two
      fields read as containers, `keywords` (an array) and `bugs` (an
      object of string fields). */
  datatype Package = Package(fields: map<string, string>, keywords: Option<seq<string>>,
                             bugs: Option<map<string, string>>)

  /** The view model handed to the details template. */
  datatype Normalized = Normalized(name: string, title: string, description: string, homepage: string,
                                   version: string, keywords: seq<string>, bugs: string)

  /** JavaScript truthiness of a string field: present and non-empty. */
  predicate Truthy(m: map<string, string>, key: string) {
    key in m && m[key] != ""
  }

  /** `m[k1] || m[k2] || ... || ""`: the first truthy field among `keys`. */
  function FirstTruthy(m: map<string, string>, keys: seq<string>): (r: string)
    ensures r == "" <==> forall i :: 0 <= i < |keys| ==> !Truthy(m, keys[i])
    ensures r != "" ==> exists i :: 0 <= i < |keys| && Truthy(m, keys[i]) && r == m[keys[i]]
                                   && forall j :: 0 <= j < i ==> !Truthy(m, keys[j])
    decreases |keys|
  {
    if |keys| == 0 then ""
    else if Truthy(m, keys[0]) then m[keys[0]]
    else
      TailIndex(keys);
      FirstTruthy(m, keys[1..])
  }

  lemma TailIndex<T>(s: seq<T>)
    requires |s| > 0
    ensures forall j :: 1 <= j < |s| ==> s[j] == s[1..][j - 1]
  {
  }

  /** Two-key fallback `m[a] || m[b] || ""`, spelled out. */
  lemma FirstOfTwo(m: map<string, string>, a: string, b: string)
    ensures FirstTruthy(m, [a, b]) == (if Truthy(m, a) then m[a] else if Truthy(m, b) then m[b] else "")
  {
    if !Truthy(m, a) {
      assert [a, b][1..] == [b];
      if !Truthy(m, b) {
        assert FirstTruthy(m, [a, b]) == "";
      }
    }
  }

  lemma FirstOfOne(m: map<string, string>, a: string)
    ensures FirstTruthy(m, [a]) == (if Truthy(m, a) then m[a] else "")
  {
    if !Truthy(m, a) {
      assert FirstTruthy(m, [a]) == "";
    }
  }

  /** `normalizePackage`: fall back across fields by truthiness, so an empty
      string counts as missing; arrays and objects are always truthy. Name
      and title stand in for each other: both are non-empty exactly when
      either field is, each keeps its own field when that is non-empty, and
      they coincide when one of the two is missing or empty. Homepage falls
      back to url (an empty homepage too), description and version default
      to empty, keywords to no keywords, and bugs is the first non-empty of
      `bugs.web` and `bugs.url`, or empty without a bugs object. */
  function NormalizePackage(pkg: Package): (n: Normalized)
    ensures var f := pkg.fields;
      && (n.name != "" <==> Truthy(f, "name") || Truthy(f, "title"))
      && (n.title != "" <==> Truthy(f, "name") || Truthy(f, "title"))
      && (Truthy(f, "name") ==> n.name == f["name"])
      && (Truthy(f, "title") ==> n.title == f["title"])
      && (!Truthy(f, "name") || !Truthy(f, "title") ==> n.name == n.title)
    ensures var f := pkg.fields;
      && n.homepage == (if Truthy(f, "homepage") then f["homepage"] else if Truthy(f, "url") then f["url"] else "")
      && n.description == (if Truthy(f, "description") then f["description"] else "")
      && n.version == (if Truthy(f, "version") then f["version"] else "")
    ensures n.keywords == (if pkg.keywords.Some? then pkg.keywords.value else [])
    ensures pkg.bugs.Some? ==> n.bugs == (if Truthy(pkg.bugs.value, "web") then pkg.bugs.value["web"]
                                         else if Truthy(pkg.bugs.value, "url") then pkg.bugs.value["url"] else "")
    ensures pkg.bugs.None? ==> n.bugs == ""
  {
    var f := pkg.fields;
    FirstOfTwo(f, "name", "title");
    FirstOfTwo(f, "title", "name");
    FirstOfTwo(f, "homepage", "url");
    FirstOfOne(f, "description");
    FirstOfOne(f, "version");
    if pkg.bugs.Some? then
      FirstOfTwo(pkg.bugs.value, "web", "url");
      Normalized(
        FirstTruthy(f, ["name", "title"]),
        FirstTruthy(f, ["title", "name"]),
        FirstTruthy(f, ["description"]),
        FirstTruthy(f, ["homepage", "url"]),
        FirstTruthy(f, ["version"]),
        pkg.keywords.GetOr([]),
        FirstTruthy(pkg.bugs.value, ["web", "url"]))
    else
      Normalized(
        FirstTruthy(f, ["name", "title"]),
        FirstTruthy(f, ["title", "name"]),
        FirstTruthy(f, ["description"]),
        FirstTruthy(f, ["homepage", "url"]),
        FirstTruthy(f, ["version"]),
        pkg.keywords.GetOr([]),
        "")
  }

  /** The details view and the feed pick a manifest's link differently: the
      feed keys on presence, the page on truthiness. They agree except when
      `homepage` is present but empty and `url` is not, where the feed links
      nowhere and the page links to `url`. */
  lemma HomepageVersusFeedLink(path: string, m: Manifest)
    ensures var page := NormalizePackage(Package(m, None, None)).homepage;
            var feed := PackageToFeedEntry(path, m).link;
      && (page == feed <==> !("homepage" in m && m["homepage"] == "" && Truthy(m, "url")))
      && ("homepage" in m && m["homepage"] == "" && Truthy(m, "url") ==> feed == "" && page == m["url"])
  {
  }

  // ---------------------------------------------------------------------
  // inputToSearch

  /** The key code of Enter. */
  const EnterKey: int := 13

  datatype Handler = LiveSearch | Search | Clear

  /** Which of the three optional callbacks were supplied. */
  datatype Handlers = Handlers(live: bool, search: bool, clear: bool)

  datatype Call = Call(handler: Handler, query: string)

  /** `onSearchEvent` on a keyup or search event: the callback it invokes
      with the box's current value, if any. `keyCode` is `None` for a search
      event, which carries no key. */
  function OnSearchEvent(query: string, keyCode: Option<int>, h: Handlers): (r: Option<Call>)
    ensures r.Some? ==> r.value.query == query
    ensures (r.Some? && r.value.handler == Clear) <==> (query == "" && h.clear)
    ensures (r.Some? && r.value.handler == Search) <==> (query != "" && keyCode == Some(EnterKey) && h.search)
    ensures (r.Some? && r.value.handler == LiveSearch) <==> (query != "" && keyCode != Some(EnterKey) && h.live)
  {
    if query == "" then
      if h.clear then Some(Call(Clear, query)) else None
    else if keyCode == Some(EnterKey) then
      if h.search then Some(Call(Search, query)) else None
    else if h.live then Some(Call(LiveSearch, query))
    else None
  }

  /** The page wires `onSearch` as all three callbacks of the filter box: so
      every event, whatever its key, filters by the box's value. */
  lemma FilterBoxAlwaysSearches(query: string, keyCode: Option<int>)
    ensures OnSearchEvent(query, keyCode, Handlers(true, true, true)).Some?
    ensures OnSearchEvent(query, keyCode, Handlers(true, true, true)).value.query == query
  {
  }

  // ---------------------------------------------------------------------
  // containsi and onSearch

  /** The `:containsi(q)` selector: the lower-cased text contains the
      lower-cased query somewhere. */
  function Containsi(text: string, query: string): (b: bool)
    ensures b <==> exists j :: OccursAt(Lower(text), Lower(query), j)
  {
    Contains(Lower(text), Lower(query))
  }

  /** An empty query matches every text. */
  lemma ContainsiEmpty(text: string)
    ensures Containsi(text, "")
  {
    assert Lower("") == "";
    assert OccursAt(Lower(text), "", 0);
  }

  /** A literal occurrence matches, whatever the case of either side. */
  lemma {:induction false} ContainsiOfOccurrence(text: string, query: string, j: int)
    requires OccursAt(text, query, j)
    ensures Containsi(text, query)
    ensures Containsi(Lower(text), query) && Containsi(text, Lower(query))
  {
    var lt := Lower(text);
    assert lt[j..j + |query|] == Lower(query) by {
      forall k | 0 <= k < |query|
        ensures lt[j..j + |query|][k] == Lower(query)[k]
      {
        assert text[j..j + |query|][k] == query[k];
      }
    }
    assert OccursAt(lt, Lower(query), j);
    LowerIdempotent(text);
    LowerIdempotent(query);
  }

  /** A row of the releases table. */
  datatype ReleaseRow = ReleaseRow(repo: string, org: string, name: string, version: string, path: string)

  /** The row's text content: its four cells' texts run together. The
      snapshot path is only the target of the version link. */
  function RowText(row: ReleaseRow): string {
    row.repo + row.org + row.name + row.version
  }

  /** `onSearch`: which rows stay visible. A query that is blank once trimmed
      shows every row; otherwise a row is shown when it matches the query
      as typed, untrimmed. */
  function OnSearch(text: string, rows: seq<ReleaseRow>): (shown: seq<bool>)
    ensures |shown| == |rows|
    ensures Strip(text) == "" ==> forall i :: 0 <= i < |rows| ==> shown[i]
    ensures Strip(text) != "" ==>
      forall i :: 0 <= i < |rows| ==> (shown[i] <==> exists j :: OccursAt(Lower(RowText(rows[i])), Lower(text), j))
  {
    if Strip(text) == "" then seq(|rows|, i => true)
    else seq(|rows|, i requires 0 <= i < |rows| => Containsi(RowText(rows[i]), text))
  }

  /** A row whose text contains the query, in any case, is never hidden. */
  lemma SearchShowsMatches(text: string, rows: seq<ReleaseRow>, i: nat, j: int)
    requires i < |rows|
    requires OccursAt(RowText(rows[i]), text, j)
    ensures OnSearch(text, rows)[i]
  {
    ContainsiOfOccurrence(RowText(rows[i]), text, j);
  }

  /** The rows visible after one event on a search box wired with `h`
      whose callbacks are `onSearch`: the event's callback, if any,
      refilters by the query it passes; without a callback, what was shown
      stays shown. */
  function AfterEvent(shown: seq<bool>, query: string, keyCode: Option<int>, h: Handlers,
                      rows: seq<ReleaseRow>): (r: seq<bool>)
    requires |shown| == |rows|
    ensures |r| == |rows|
  {
    match OnSearchEvent(query, keyCode, h)
    case None => shown
    case Some(call) => OnSearch(call.query, rows)
  }

  /** On the page's filter box what is shown depends on the typed query
      alone: any event, whatever its key and whatever was shown before,
      leaves exactly the rows `onSearch` selects for the query, so a key-up
      followed by Enter on the same query changes nothing more, and clearing
      the box shows every row again. */
  lemma FilterBoxSettles(shown: seq<bool>, query: string, first: Option<int>, next: Option<int>,
                         rows: seq<ReleaseRow>)
    requires |shown| == |rows|
    ensures AfterEvent(shown, query, first, Handlers(true, true, true), rows) == OnSearch(query, rows)
    ensures var once := AfterEvent(shown, query, first, Handlers(true, true, true), rows);
      AfterEvent(once, query, next, Handlers(true, true, true), rows) == once
    ensures query == "" ==>
      forall i :: 0 <= i < |rows| ==> AfterEvent(shown, query, first, Handlers(true, true, true), rows)[i]
  {
    FilterBoxAlwaysSearches(query, first);
    FilterBoxAlwaysSearches(query, next);
    StripBlank(query);
  }

  /** Typing on can only hide rows: once the query is not blank, a row
      shown for the longer query `q + more` is also shown for `q`. */
  lemma NarrowingHidesMore(q: string, more: string, rows: seq<ReleaseRow>, i: nat)
    requires i < |rows|
    requires Strip(q) != ""
    ensures OnSearch(q + more, rows)[i] ==> OnSearch(q, rows)[i]
  {
    NotBlankExtends(q, more);
    if OnSearch(q + more, rows)[i] {
      var t := Lower(RowText(rows[i]));
      var j :| OccursAt(t, Lower(q + more), j);
      LowerAppend(q, more);
      OccursPrefix(t, Lower(q), Lower(more), j);
    }
  }

  /** A query that is not blank stays so when typed on. */
  lemma NotBlankExtends(q: string, more: string)
    requires Strip(q) != ""
    ensures Strip(q + more) != ""
  {
    StripBlank(q);
    StripBlank(q + more);
    var k :| 0 <= k < |q| && !IsSpace(q[k]);
    assert (q + more)[k] == q[k];
  }

  lemma LowerAppend(a: string, b: string)
    ensures Lower(a + b) == Lower(a) + Lower(b)
  {
  }

  /** Where `a + b` occurs, `a` occurs. */
  lemma OccursPrefix(t: string, a: string, b: string, j: int)
    requires OccursAt(t, a + b, j)
    ensures OccursAt(t, a, j)
  {
    assert t[j..j + |a|] == t[j..j + |a + b|][..|a|];
  }

  // ---------------------------------------------------------------------
  // onReleasesLoaded

  /** Every line is non-empty and has no surrounding whitespace. */
  ghost predicate AllTrimmed(lines: seq<string>) {
    forall i :: 0 <= i < |lines| ==> lines[i] != "" && IsStripped(lines[i])
  }

  lemma AllTrimmedConcat(a: seq<string>, b: seq<string>)
    requires AllTrimmed(a) && AllTrimmed(b)
    ensures AllTrimmed(a + b)
  {
    forall i | 0 <= i < |a + b|
      ensures (a + b)[i] != "" && IsStripped((a + b)[i])
    {
      if i >= |a| {
        assert (a + b)[i] == b[i - |a|];
      }
    }
  }

  /** Trim every line and drop those left empty, keeping the order. */
  function Clean(lines: seq<string>): seq<string>
    decreases |lines|
  {
    if |lines| == 0 then []
    else Kept(lines[0]) + Clean(lines[1..])
  }

  /** Cleaning never adds lines, and every line it keeps is trimmed and
      non-empty. */
  lemma {:induction false} CleanTrimmed(lines: seq<string>)
    ensures |Clean(lines)| <= |lines|
    ensures AllTrimmed(Clean(lines))
    decreases |lines|
  {
    if |lines| > 0 {
      CleanTrimmed(lines[1..]);
      AllTrimmedConcat(Kept(lines[0]), Clean(lines[1..]));
    }
  }

  /** What cleaning keeps of one line: the line trimmed, or nothing when blank. */
  function Kept(line: string): (r: seq<string>)
    ensures |r| <= 1
    ensures AllTrimmed(r)
  {
    if Strip(line) == "" then [] else [Strip(line)]
  }

  lemma {:induction false} CleanAppend(a: seq<string>, b: seq<string>)
    ensures Clean(a + b) == Clean(a) + Clean(b)
    decreases |a|
  {
    if |a| > 0 {
      AppendHead(a, b);
      CleanAppend(a[1..], b);
      ConcatAssoc(Kept(a[0]), Clean(a[1..]), Clean(b));
    } else {
      assert a + b == b;
    }
  }

  lemma ReverseShort<T>(s: seq<T>)
    requires |s| <= 1
    ensures Reverse(s) == s
  {
  }

  /** Cleaning commutes with reversal. */
  lemma {:induction false} CleanReverse(lines: seq<string>)
    ensures Clean(Reverse(lines)) == Reverse(Clean(lines))
    decreases |lines|
  {
    if |lines| > 0 {
      var front := lines[..|lines| - 1];
      var last := [lines[|lines| - 1]];
      assert lines == front + last;
      calc {
        Clean(Reverse(lines));
        { ReverseAppend(front, last); ReverseShort(last); }
        Clean(last + Reverse(front));
        { CleanAppend(last, Reverse(front)); }
        Clean(last) + Clean(Reverse(front));
        { CleanReverse(front); }
        Clean(last) + Reverse(Clean(front));
        { CleanTrimmed(last); ReverseShort(Clean(last)); }
        Reverse(Clean(last)) + Reverse(Clean(front));
        { ReverseAppend(Clean(front), Clean(last)); }
        Reverse(Clean(front) + Clean(last));
        { CleanAppend(front, last); }
        Reverse(Clean(lines));
      }
    }
  }

  /** Lines already stripped and non-empty pass cleaning unchanged. */
  lemma {:induction false} CleanKeeps(lines: seq<string>)
    requires AllTrimmed(lines)
    ensures Clean(lines) == lines
    decreases |lines|
  {
    if |lines| > 0 {
      var tail := lines[1..];
      assert forall i :: 0 <= i < |tail| ==> tail[i] == lines[i + 1];
      CleanKeeps(tail);
      assert Strip(lines[0]) == lines[0];
      assert lines == [lines[0]] + tail;
    }
  }

  lemma CleanDropsBlank()
    ensures Clean([""]) == []
  {
    assert Kept("") == [] by {
      assert IsStripped("");
    }
    assert Clean([""]) == Kept("") + Clean([""][1..]);
  }

  /** A trailing empty piece, as after a final line feed, is dropped. */
  lemma CleanTerminated(lines: seq<string>)
    requires AllTrimmed(lines)
    ensures Clean(lines + [""]) == lines
  {
    CleanKeeps(lines);
    CleanAppend(lines, [""]);
    CleanDropsBlank();
  }

  /** A decimal digit. */
  predicate IsDigit(c: char) {
    '0' <= c <= '9'
  }

  /** `"" + n`: the decimal numeral of `n`. */
  function Numeral(n: nat): (r: string)
    ensures |r| >= 1
    ensures forall i :: 0 <= i < |r| ==> IsDigit(r[i])
  {
    if n < 10 then [('0' as int + n) as char]
    else Numeral(n / 10) + [('0' as int + n % 10) as char]
  }

  /** `Str.trim` as `map` calls it: the item's index arrives second, where
      `trim` expects the characters to remove. Index 0 is falsy and selects
      the whitespace trim; any other index is read as its numeral, so its
      digits are removed from both ends and whitespace is kept. */
  function TrimAt(item: string, index: nat): string
  {
    if index == 0 then Strip(item) else TrimChars(item, Numeral(index))
  }

  /** What `TrimAt` leaves of an item: item 0 is whitespace-trimmed; a later
      item keeps a contiguous piece of itself, having lost only characters of
      its index's numeral at either end, and neither end of what remains is
      such a character. */
  lemma TrimAtSlice(item: string, index: nat)
    ensures index == 0 ==> TrimAt(item, index) == Strip(item)
    ensures index > 0 ==> exists k :: TrimmedFrom(item, TrimAt(item, index), k, Numeral(index))
    ensures index > 0 ==> var r := TrimAt(item, index);
      |r| == 0 || (r[0] !in Numeral(index) && r[|r| - 1] !in Numeral(index))
  {
    if index > 0 {
      var cs := Numeral(index);
      assert TrimAt(item, index) == TrimChars(item, cs);
    }
  }

  /** `map(Str.trim)`: each item trimmed as its index dictates. */
  function TrimIndexed(items: seq<string>): (r: seq<string>)
    ensures |r| == |items|
  {
    seq(|items|, j requires 0 <= j < |items| => TrimAt(items[j], j))
  }

  /** `filter(item !== "")`: the non-empty items, in order. */
  function NonEmpty(items: seq<string>): (r: seq<string>)
    ensures |r| <= |items|
    ensures forall i :: 0 <= i < |r| ==> r[i] != ""
    ensures forall x :: x in r <==> x in items && x != ""
    decreases |items|
  {
    if |items| == 0 then []
    else (if items[0] == "" then [] else [items[0]]) + NonEmpty(items[1..])
  }

  /** Filtering a concatenation filters each part and keeps them in order. */
  lemma {:induction false} NonEmptyAppend(a: seq<string>, b: seq<string>)
    ensures NonEmpty(a + b) == NonEmpty(a) + NonEmpty(b)
    decreases |a|
  {
    if |a| > 0 {
      assert (a + b)[0] == a[0];
      assert (a + b)[1..] == a[1..] + b;
      NonEmptyAppend(a[1..], b);
    } else {
      assert a + b == b;
    }
  }

  /** The positions, from `from` on, of the non-empty items, in increasing
      order. */
  function FilledFrom(items: seq<string>, from: nat): (idx: seq<nat>)
    requires from <= |items|
    ensures forall i :: 0 <= i < |idx| ==> from <= idx[i] < |items| && items[idx[i]] != ""
    ensures forall i, k :: 0 <= i < k < |idx| ==> idx[i] < idx[k]
    ensures forall j :: from <= j < |items| && items[j] != "" ==> j in idx
    decreases |items| - from
  {
    if from == |items| then []
    else (if items[from] == "" then [] else [from]) + FilledFrom(items, from + 1)
  }

  /** The filter keeps exactly the items at the non-empty positions, in
      order: item `i` of the result is the item at the `i`-th such position. */
  lemma {:induction false} NonEmptyPositions(items: seq<string>, from: nat)
    requires from <= |items|
    ensures var idx := FilledFrom(items, from);
      |NonEmpty(items[from..])| == |idx|
      && forall i :: 0 <= i < |idx| ==> NonEmpty(items[from..])[i] == items[idx[i]]
    decreases |items| - from
  {
    if from < |items| {
      var rest := items[from..];
      assert rest[0] == items[from];
      assert rest[1..] == items[from + 1..];
      NonEmptyPositions(items, from + 1);
    }
  }

  /** The items the rendering loop walks: the file's lines last to first,
      each trimmed by `TrimAt` at its position, empty ones dropped. */
  function Items(data: string): (r: seq<string>)
    ensures |r| <= |Split(data, '\n')|
    ensures forall i :: 0 <= i < |r| ==> r[i] != ""
  {
    NonEmpty(TrimIndexed(Reverse(Split(data, '\n'))))
  }

  /** Which lines the walk visits, and in what order. Walked item `i` is the
      line at position `p` from the end of the file, trimmed as the item at
      position `p`, where `p` is the `i`-th entry of an increasing list of
      positions; every line whose trim is non-empty is visited. */
  lemma ItemsWalked(data: string)
    ensures var lines := Split(data, '\n');
      var idx := FilledFrom(TrimIndexed(Reverse(lines)), 0);
      |Items(data)| == |idx|
      && (forall i :: 0 <= i < |idx| ==>
            idx[i] < |lines| && Items(data)[i] == TrimAt(lines[|lines| - 1 - idx[i]], idx[i]))
      && (forall i, k :: 0 <= i < k < |idx| ==> idx[i] < idx[k])
      && (forall j :: 0 <= j < |lines| && TrimAt(lines[|lines| - 1 - j], j) != "" ==> j in idx)
  {
    var lines := Split(data, '\n');
    var walked := TrimIndexed(Reverse(lines));
    assert walked[0..] == walked;
    NonEmptyPositions(walked, 0);
    forall j | 0 <= j < |lines|
      ensures walked[j] == TrimAt(lines[|lines| - 1 - j], j)
    {
      ReverseAt(lines, j);
    }
  }

  /** The items with every line trimmed of whitespace, as the chain is
      evidently meant to compute them. */
  function CleanItems(data: string): seq<string> {
    Clean(Reverse(Split(data, '\n')))
  }

  /** With the whitespace trim, there is one item per non-blank line,
      trimmed, and the last line of the file comes first. */
  lemma CleanItemsNewestFirst(data: string)
    ensures CleanItems(data) == Reverse(Clean(Split(data, '\n')))
  {
    CleanReverse(Split(data, '\n'));
  }

  /** Neither end of the text is a decimal digit. */
  predicate DigitFreeEnds(s: string) {
    |s| == 0 || (!IsDigit(s[0]) && !IsDigit(s[|s| - 1]))
  }

  /** Lines both trims leave alone: no whitespace and no digit at either end. */
  ghost predicate Plain(lines: seq<string>) {
    forall i :: 0 <= i < |lines| ==> IsStripped(lines[i]) && DigitFreeEnds(lines[i])
  }

  /** Past item 0 only digits are trimmed, so a line without a digit at
      either end is kept whole, whitespace included. */
  lemma TrimAtDigitFree(s: string, index: nat)
    requires index > 0 && DigitFreeEnds(s)
    ensures TrimAt(s, index) == s
  {
    if |s| > 0 {
      NotInNumeral(s[0], index);
      NotInNumeral(s[|s| - 1], index);
    }
    TrimCharsKeeps(s, Numeral(index));
  }

  lemma NotInNumeral(c: char, n: nat)
    requires !IsDigit(c)
    ensures c !in Numeral(n)
  {
  }

  lemma TrimAtPlain(s: string, index: nat)
    requires IsStripped(s) && DigitFreeEnds(s)
    ensures TrimAt(s, index) == s
  {
    if index > 0 {
      TrimAtDigitFree(s, index);
    }
  }

  lemma TrimIndexedPlain(items: seq<string>)
    requires Plain(items)
    ensures TrimIndexed(items) == items
  {
    forall j | 0 <= j < |items|
      ensures TrimIndexed(items)[j] == items[j]
    {
      TrimAtPlain(items[j], j);
    }
  }

  lemma PlainTail(lines: seq<string>)
    requires |lines| > 0 && Plain(lines)
    ensures IsStripped(lines[0]) && Plain(lines[1..])
  {
    var tail := lines[1..];
    forall i | 0 <= i < |tail|
      ensures IsStripped(tail[i]) && DigitFreeEnds(tail[i])
    {
      assert tail[i] == lines[i + 1];
    }
  }

  lemma PlainReverse(lines: seq<string>)
    requires Plain(lines)
    ensures Plain(Reverse(lines))
  {
    var r := Reverse(lines);
    forall i | 0 <= i < |r|
      ensures IsStripped(r[i]) && DigitFreeEnds(r[i])
    {
      ReverseAt(lines, i);
    }
  }

  /** On lines with no whitespace at their ends, cleaning only drops the
      empty ones. */
  lemma {:induction false} CleanPlain(lines: seq<string>)
    requires Plain(lines)
    ensures Clean(lines) == NonEmpty(lines)
    decreases |lines|
  {
    if |lines| > 0 {
      PlainTail(lines);
      CleanPlain(lines[1..]);
      assert Kept(lines[0]) == (if lines[0] == "" then [] else [lines[0]]);
    }
  }

  /** Where no line has whitespace or a digit at either end, as holds of
      every line the Python side writes, the indexed trim changes nothing:
      the items are the non-empty lines, the last line first, and agree
      with the whitespace trim. */
  lemma ItemsNewestFirst(data: string)
    requires Plain(Split(data, '\n'))
    ensures Items(data) == Reverse(NonEmpty(Split(data, '\n')))
    ensures Items(data) == CleanItems(data)
  {
    var lines := Split(data, '\n');
    PlainReverse(lines);
    TrimIndexedPlain(Reverse(lines));
    CleanPlain(Reverse(lines));
    CleanPlain(lines);
    CleanReverse(lines);
  }

  /** A blank line past item 0 is kept, since only item 0 gets the
      whitespace trim: for the text `x\n \n` the page walks ` ` and then
      `x`, and the `each` loop stops at ` ` with its missing pieces, where
      the whitespace trim walks `x` alone. */
  lemma IndexedTrimKeepsBlank()
    ensures Items("x\n \n") == [" ", "x"]
    ensures CleanItems("x\n \n") == ["x"]
    ensures ParseReleaseLine(" ").None?
  {
    SplitBlankLine();
    BlankLineItems("x\n \n", "x", " ");
    BlankItemUnparsed();
  }

  /** For a text of a plain line `x` followed by a non-empty line of
      whitespace, the page walks the whitespace line and then `x`, where the
      whitespace trim walks `x` alone. */
  lemma BlankLineItems(data: string, x: string, blank: string)
    requires Split(data, '\n') == [x, blank, ""]
    requires x != "" && IsStripped(x) && DigitFreeEnds(x)
    requires blank != "" && DigitFreeEnds(blank)
    requires forall i :: 0 <= i < |blank| ==> IsSpace(blank[i])
    ensures Items(data) == [blank, x]
    ensures CleanItems(data) == [x]
  {
    StripBlank("");
    StripBlank(blank);
    TrimAtDigitFree(blank, 1);
    TrimAtPlain(x, 2);
    assert Kept("") == [] && Kept(blank) == [] && Kept(x) == [x];
    ReverseOfThree(x, blank, "");
    TrimIndexedOfThree("", blank, x);
    NonEmptyOfThree("", blank, x);
    CleanOfThree("", blank, x);
  }

  /** A line of whitespace holds no `/`, so it splits into one path part
      where a release row needs five. */
  lemma BlankItemUnparsed()
    ensures ParseReleaseLine(" ").None?
  {
  }

  lemma SplitBlankLine()
    ensures Split("x\n \n", '\n') == ["x", " ", ""]
  {
    assert "x\n \n" == "x" + ['\n'] + " \n";
    assert " \n" == " " + ['\n'] + "";
    SplitCons(" ", "", '\n');
    SplitCons("x", " \n", '\n');
  }

  /** A line made of the digits of its index is trimmed away: for the text
      `1\n` the line `1` has index 1 once reversed, so the page walks no
      item, where the whitespace trim walks `1`. */
  lemma IndexedTrimDropsDigits()
    ensures Items("1\n") == []
    ensures CleanItems("1\n") == ["1"]
  {
    SplitDigitLine();
    TrimAtDigit();
    DigitStrips();
    DigitLineItems("1\n", "1");
  }

  lemma DigitLineItems(data: string, d: string)
    requires Split(data, '\n') == [d, ""]
    requires TrimAt("", 0) == "" && TrimAt(d, 1) == ""
    requires Kept("") == [] && Kept(d) == [d]
    ensures Items(data) == []
    ensures CleanItems(data) == [d]
  {
    ReverseOfTwo(d, "");
    TrimIndexedOfTwo("", d);
    NonEmptyOfTwo("", "");
    CleanOfTwo("", d);
  }

  lemma SplitDigitLine()
    ensures Split("1\n", '\n') == ["1", ""]
  {
    assert "1\n" == "1" + ['\n'] + "";
    SplitCons("1", "", '\n');
  }

  lemma TrimAtDigit()
    ensures TrimAt("", 0) == "" && TrimAt("1", 1) == ""
  {
    assert Numeral(1) == "1";
    TrimCharsAll("1", "1");
  }

  lemma DigitStrips()
    ensures Kept("") == [] && Kept("1") == ["1"]
  {
    StripBlank("");
    assert IsStripped("1");
  }

  // The lemmas from here to `CleanOfTwo` only evaluate the chain's steps on
  // two- and three-line sequences, for the two examples above.

  lemma ReverseOfThree<T>(a: T, b: T, c: T)
    ensures Reverse([a, b, c]) == [c, b, a]
  {
  }

  lemma ReverseOfTwo<T>(a: T, b: T)
    ensures Reverse([a, b]) == [b, a]
  {
  }

  lemma TrimIndexedOfThree(a: string, b: string, c: string)
    ensures TrimIndexed([a, b, c]) == [TrimAt(a, 0), TrimAt(b, 1), TrimAt(c, 2)]
  {
  }

  lemma TrimIndexedOfTwo(a: string, b: string)
    ensures TrimIndexed([a, b]) == [TrimAt(a, 0), TrimAt(b, 1)]
  {
  }

  lemma NonEmptyCons(x: string, rest: seq<string>)
    ensures NonEmpty([x] + rest) == (if x == "" then [] else [x]) + NonEmpty(rest)
  {
    assert ([x] + rest)[1..] == rest;
  }

  lemma NonEmptyOfThree(a: string, b: string, c: string)
    requires a == "" && b != "" && c != ""
    ensures NonEmpty([a, b, c]) == [b, c]
  {
    assert [a, b, c] == [a] + ([b] + [c]);
    NonEmptyCons(a, [b] + [c]);
    NonEmptyCons(b, [c]);
    NonEmptyCons(c, []);
  }

  lemma NonEmptyOfTwo(a: string, b: string)
    requires a == "" && b == ""
    ensures NonEmpty([a, b]) == []
  {
    assert [a, b] == [a] + [b];
    NonEmptyCons(a, [b]);
    NonEmptyCons(b, []);
  }

  lemma CleanCons(x: string, rest: seq<string>)
    ensures Clean([x] + rest) == Kept(x) + Clean(rest)
  {
    assert ([x] + rest)[1..] == rest;
  }

  lemma CleanOfThree(a: string, b: string, c: string)
    requires Kept(a) == [] && Kept(b) == [] && Kept(c) == [c]
    ensures Clean([a, b, c]) == [c]
  {
    assert [a, b, c] == [a] + ([b] + [c]);
    CleanCons(a, [b] + [c]);
    CleanCons(b, [c]);
    CleanCons(c, []);
  }

  lemma CleanOfTwo(a: string, b: string)
    requires Kept(a) == [] && Kept(b) == [b]
    ensures Clean([a, b]) == [b]
  {
    calc {
      Clean([a, b]);
      { assert [a, b][1..] == [b]; }
      Kept(a) + Clean([b]);
      { assert [b][1..] == []; }
      Kept(a) + (Kept(b) + Clean([]));
      [b];
    }
  }

  /** Every line the Python side writes to the change log is a snapshot
      path, which starts with `c` and ends with `n`. */
  lemma SnapshotPathPlain(repo: string, org: string, name: string, version: string)
    ensures IsStripped(SnapshotPath(repo, org, name, version))
    ensures DigitFreeEnds(SnapshotPath(repo, org, name, version))
  {
    var p := SnapshotPath(repo, org, name, version);
    assert p[0] == 'c' && p[|p| - 1] == 'n';
  }

  /** The row for one change-log line: host kind, org, name from the second
      to fourth `/`-pieces, version from the fifth up to `.json`. `None`
      when a piece is missing: `strLeft` on the missing fifth piece throws. */
  function ParseReleaseLine(item: string): (r: Option<ReleaseRow>)
    ensures r.Some? <==> |Split(item, '/')| >= 5
    ensures r.Some? ==> r.value.path == item
    ensures r.Some? ==> '/' !in r.value.repo + r.value.org + r.value.name + r.value.version
  {
    var parts := Split(item, '/');
    if |parts| < 5 then None
    else
      var v := StrLeft(parts[4], ".json");
      assert '/' !in v by {
        assert v == parts[4][..|v|];
      }
      Some(ReleaseRow(parts[1], parts[2], parts[3], v, item))
  }

  /** The rows the `each` loop appends: one per item in order, up to the
      first item with a missing piece, where the thrown error ends the
      loop. */
  function AppendRows(items: seq<string>): (rows: seq<ReleaseRow>)
    ensures |rows| <= |items|
    ensures forall i :: 0 <= i < |rows| ==> ParseReleaseLine(items[i]) == Some(rows[i])
    ensures |rows| < |items| ==> ParseReleaseLine(items[|rows|]).None?
  {
    TakeWhileSome(seq(|items|, i requires 0 <= i < |items| => ParseReleaseLine(items[i])))
  }

  /** `onReleasesLoaded`: the rows shown for the change log's text. */
  function OnReleasesLoaded(data: string): (rows: seq<ReleaseRow>)
    ensures |rows| <= |Items(data)|
    ensures forall i :: 0 <= i < |rows| ==> ParseReleaseLine(Items(data)[i]) == Some(rows[i])
    ensures |rows| < |Items(data)| ==> ParseReleaseLine(Items(data)[|rows|]).None?
  {
    AppendRows(Items(data))
  }

  /** A version that does not itself contain `.json` is recovered from
      `{version}.json`: no earlier occurrence can straddle the boundary,
      since `.` appears in `.json` only at its start. */
  lemma {:induction false} StrLeftJson(v: string)
    requires !Contains(v, ".json")
    ensures StrLeft(v + ".json", ".json") == v
  {
    var s := v + ".json";
    assert OccursAt(s, ".json", |v|) by {
      assert s[|v|..|v| + 5] == ".json";
    }
    assert Contains(s, ".json");
    var r := StrLeft(s, ".json");
    assert OccursAt(s, ".json", |r|);
    if |r| < |v| {
      var j := |r|;
      if j + 5 <= |v| {
        assert s[j..j + 5] == v[j..j + 5];
        assert OccursAt(v, ".json", j);
      } else {
        NoStraddle(v, j);
      }
    }
    assert |r| == |v|;
    assert r == s[..|v|] == v;
  }

  /** `.json` cannot start inside `v` and end inside the `.json` after it. */
  lemma NoStraddle(v: string, j: int)
    requires 0 <= j < |v| < j + 5
    ensures !OccursAt(v + ".json", ".json", j)
  {
    var s := v + ".json";
    assert s[|v|] == '.';
    assert s[j..j + 5][|v| - j] == s[|v|];
    assert ".json"[|v| - j] != '.';
  }

  /** A snapshot path of slash-free names parses back to the host kind, org,
      name and version it was built from. */
  lemma {:induction false} ParseSnapshotPath(repo: string, org: string, name: string, version: string)
    requires '/' !in repo && '/' !in org && '/' !in name && '/' !in version
    requires !Contains(version, ".json")
    ensures ParseReleaseLine(SnapshotPath(repo, org, name, version))
         == Some(ReleaseRow(repo, org, name, version, SnapshotPath(repo, org, name, version)))
  {
    var path := SnapshotPath(repo, org, name, version);
    SnapshotPathPieces(repo, org, name, version);
    var parts := Split(path, '/');
    assert |parts| == 5 && parts[1] == repo && parts[2] == org && parts[3] == name;
    assert parts[4] == version + ".json";
    StrLeftJson(version);
  }

  /** A log of stripped, non-empty lines with no digit at either end is
      walked last line first, by the page and by the whitespace trim alike. */
  lemma {:induction false} ItemsOfRendered(lines: seq<string>)
    requires NoNewlines(lines)
    requires AllTrimmed(lines)
    requires Plain(lines)
    ensures Items(Render(lines)) == Reverse(lines)
    ensures CleanItems(Render(lines)) == Reverse(lines)
  {
    SplitRender(lines);
    PlainAppendEmpty(lines);
    ItemsNewestFirst(Render(lines));
    CleanPlain(lines + [""]);
    CleanTerminated(lines);
  }

  /** A change log written one path per line, each with the five
      `/`-pieces of a snapshot path, gives one table row per line, the last
      line first, each row parsed from its line and keeping it as its path. */
  lemma PageRows(lines: seq<string>)
    requires NoNewlines(lines)
    requires AllTrimmed(lines)
    requires Plain(lines)
    requires forall i :: 0 <= i < |lines| ==> |Split(lines[i], '/')| >= 5
    ensures |OnReleasesLoaded(Render(lines))| == |lines|
    ensures forall i :: 0 <= i < |lines| ==>
      ParseReleaseLine(lines[|lines| - 1 - i]) == Some(OnReleasesLoaded(Render(lines))[i])
    ensures forall i :: 0 <= i < |lines| ==> OnReleasesLoaded(Render(lines))[i].path == lines[|lines| - 1 - i]
  {
    ItemsOfRendered(lines);
    var items := Reverse(lines);
    forall i | 0 <= i < |items|
      ensures ParseReleaseLine(items[i]).Some?
    {
      ReverseAt(lines, i);
    }
    EveryItemParses(items);
    RowsOfReversed(lines, AppendRows(items));
  }

  /** Rows parsed from the reversed lines, one per line, describe the lines
      last to first. */
  lemma RowsOfReversed(lines: seq<string>, rows: seq<ReleaseRow>)
    requires |rows| == |lines|
    requires forall i :: 0 <= i < |rows| ==> ParseReleaseLine(Reverse(lines)[i]) == Some(rows[i])
    ensures forall i :: 0 <= i < |lines| ==> ParseReleaseLine(lines[|lines| - 1 - i]) == Some(rows[i])
  {
    forall i | 0 <= i < |lines|
      ensures ParseReleaseLine(lines[|lines| - 1 - i]) == Some(rows[i])
    {
      ReverseAt(lines, i);
    }
  }

  /** When every item parses, the loop runs to the end: one row per item,
      in order. */
  lemma EveryItemParses(items: seq<string>)
    requires forall i :: 0 <= i < |items| ==> ParseReleaseLine(items[i]).Some?
    ensures |AppendRows(items)| == |items|
    ensures forall i :: 0 <= i < |items| ==> AppendRows(items)[i] == ParseReleaseLine(items[i]).value
  {
  }

  lemma PlainAppendEmpty(lines: seq<string>)
    requires Plain(lines)
    ensures Plain(lines + [""])
  {
    var l := lines + [""];
    forall i | 0 <= i < |l|
      ensures IsStripped(l[i]) && DigitFreeEnds(l[i])
    {
      if i < |lines| {
        assert l[i] == lines[i];
      }
    }
  }

  lemma EntriesClean(text: string)
    ensures NoNewlines(Entries(text))
    ensures forall i :: 0 <= i < |Entries(text)| ==> IsStripped(Entries(text)[i])
  {
    StrippedLinesHaveNoNewline(text);
    var lines := ReadLines(text);
    forall i | 0 <= i < |Entries(text)|
      ensures IsStripped(Entries(text)[i])
    {
      assert Entries(text)[i] == Strip(lines[i]);
    }
  }

  lemma LastNClean(entries: seq<string>, count: nat)
    requires NoNewlines(entries)
    requires forall i :: 0 <= i < |entries| ==> IsStripped(entries[i])
    ensures NoNewlines(LastN(entries, count))
    ensures forall i :: 0 <= i < |LastN(entries, count)| ==> IsStripped(LastN(entries, count)[i])
  {
  }

  /** The lines truncation keeps are stripped and free of line feeds. */
  lemma KeptLinesClean(log: Option<string>, count: nat)
    requires log.Some?
    ensures NoNewlines(Truncation(log, count).value.lines)
    ensures forall i :: 0 <= i < |Truncation(log, count).value.lines| ==> IsStripped(Truncation(log, count).value.lines[i])
  {
    EntriesClean(log.value);
    LastNClean(Entries(log.value), count);
  }

  /** After feed generation, the page lists the rewritten log's lines in the
      feed's order: item `i` is the snapshot path feed entry `i` describes.
      Every retained line must be non-empty with no digit at either end, as
      snapshot paths are; the whitespace trim would walk the same items. */
  lemma {:induction false} PageMatchesFeed(c: CacheState, count: nat)
    requires GenerateFeeds(c, count).Some?
    requires forall i :: 0 <= i < |Truncation(c.log, count).value.lines| ==>
      Truncation(c.log, count).value.lines[i] != "" && DigitFreeEnds(Truncation(c.log, count).value.lines[i])
    ensures var g := GenerateFeeds(c, count).value; var items := Items(g.cache.log.value);
      && |items| == |g.entries|
      && CleanItems(g.cache.log.value) == items
      && forall i :: 0 <= i < |items| ==>
           items[i] in c.snapshots && g.entries[i] == PackageToFeedEntry(items[i], c.snapshots[items[i]])
  {
    var t := Truncation(c.log, count).value;
    var g := GenerateFeeds(c, count).value;
    assert g.cache.log.value == t.text;
    KeptItems(c.log, count);
    var items := Items(t.text);
    forall i | 0 <= i < |items|
      ensures items[i] in c.snapshots && g.entries[i] == PackageToFeedEntry(items[i], c.snapshots[items[i]])
    {
      PageRow(c, count, i);
    }
  }

  /** The page walks the retained lines newest first, under either trim. */
  lemma KeptItems(log: Option<string>, count: nat)
    requires log.Some?
    requires forall i :: 0 <= i < |Truncation(log, count).value.lines| ==>
      Truncation(log, count).value.lines[i] != "" && DigitFreeEnds(Truncation(log, count).value.lines[i])
    ensures var t := Truncation(log, count).value;
      Items(t.text) == Reverse(t.lines) && CleanItems(t.text) == Reverse(t.lines)
  {
    var t := Truncation(log, count).value;
    KeptLinesClean(log, count);
    assert AllTrimmed(t.lines) && Plain(t.lines);
    ItemsOfRendered(t.lines);
  }

  /** Row `i` of the reversed retained lines and feed entry `i` describe the
      same snapshot. */
  lemma PageRow(c: CacheState, count: nat, i: nat)
    requires GenerateFeeds(c, count).Some?
    requires i < |Truncation(c.log, count).value.lines|
    ensures var items := Reverse(Truncation(c.log, count).value.lines);
      && items[i] in c.snapshots
      && GenerateFeeds(c, count).value.entries[i] == PackageToFeedEntry(items[i], c.snapshots[items[i]])
  {
    FeedEntries(c, count);
    ReversedRow(c.snapshots, Truncation(c.log, count).value.lines, i);
  }

  /** Entry `i` of the reversed loaded list describes line `i` of the
      reversed list of paths. */
  lemma ReversedRow(snapshots: map<string, Manifest>, kept: seq<string>, i: nat)
    requires LoadEntries(snapshots, kept).Some?
    requires i < |kept|
    ensures Reverse(kept)[i] in snapshots
    ensures Reverse(LoadEntries(snapshots, kept).value)[i]
         == PackageToFeedEntry(Reverse(kept)[i], snapshots[Reverse(kept)[i]])
  {
    LoadedBackwards(snapshots, kept, i);
    ReverseAt(kept, i);
  }
}
