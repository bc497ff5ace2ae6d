/** Physical lines and the pages of a citation: `api/citations.py`. */
module Citations {
  import opened Sequences
  import opened TextLines

  const MAX_PAGE_CHARS := 65536

  // -------------------------------------------------------------------------------- physical lines

  datatype Match = Match(begin: nat, end: nat)

  /** The first match of `\r\n|\r|\n` from `start` on. */
  function NextNewline(text: string, start: nat): (m: Option<Match>)
    requires start <= |text|
    ensures m.Some? ==> start <= m.value.begin < m.value.end <= |text|
    decreases |text| - start
  {
    if start == |text| then None
    else if text[start] == '\r' && start + 1 < |text| && text[start + 1] == '\n' then Some(Match(start, start + 2))
    else if PhysicalBreak(text[start]) then Some(Match(start, start + 1))
    else NextNewline(text, start + 1)
  }

  lemma {:induction false} LineEndFound(text: string, start: nat)
    requires start < |text|
    ensures var m := NextNewline(text, start);
      LineEnd(text[start..], PhysicalBreak) == (if m.Some? then m.value.end else |text|) - start
    decreases |text| - start
  {
    var t := text[start..];
    if !PhysicalBreak(text[start]) && start + 1 < |text| {
      assert t[1..] == text[start + 1..];
      LineEndFound(text, start + 1);
    }
  }

  /** One line more, up to the next match or to the end. */
  lemma SplitStep(text: string, start: nat)
    requires start < |text|
    ensures var m := NextNewline(text, start);
      var end := if m.Some? then m.value.end else |text|;
      SplitLines(text[start..], PhysicalBreak) == [text[start..end]] + SplitLines(text[end..], PhysicalBreak)
  {
    LineEndFound(text, start);
    var (rest, n) := (text[start..], LineEnd(text[start..], PhysicalBreak));
    assert rest[..n] == text[start..start + n] && rest[n..] == text[start + n..];
  }

  /** The lines from every position on. */
  function LinesFrom(text: string): nat -> seq<string> {
    (start: nat) => if start <= |text| then SplitLines(text[start..], PhysicalBreak) else []
  }

  ghost predicate StepsAt(text: string, left: nat -> seq<string>, start: nat) {
    start < |text| ==>
      var m := NextNewline(text, start);
      var end := if m.Some? then m.value.end else |text|;
      left(start) == [text[start..end]] + left(end)
  }

  /** The loop of `_physical_lines`. */
  method CutAtNewlines(text: string, ghost left: nat -> seq<string>) returns (lines: seq<string>)
    requires left(|text|) == [] && forall start: nat :: StepsAt(text, left, start)
    ensures lines == left(0)
  {
    lines := [];
    var start: nat := 0;
    var newline := NextNewline(text, 0);
    while newline.Some?
      invariant start <= |text| && newline == NextNewline(text, start)
      invariant lines + left(start) == left(0)
      decreases |text| - start
    {
      assert StepsAt(text, left, start);
      Assoc(lines, [text[start..newline.value.end]], left(newline.value.end));
      lines := lines + [text[start..newline.value.end]];
      start := newline.value.end;
      newline := NextNewline(text, start);
    }
    if start < |text| {
      assert StepsAt(text, left, start);
      assert text[start..|text|] == text[start..];
      lines := lines + [text[start..]];
    }
  }

  /** `_physical_lines` */
  method PhysicalLines(text: string) returns (lines: seq<string>)
    ensures lines == SplitLines(text, PhysicalBreak)
  {
    assert text[|text|..] == [] && text[0..] == text;
    forall start: nat ensures StepsAt(text, LinesFrom(text), start) {
      if start < |text| { SplitStep(text, start); }
    }
    lines := CutAtNewlines(text, LinesFrom(text));
  }

  /** Some characters, then at most one line end. */
  predicate OneLine(l: string) {
    l != [] && (|l| == 1 || (if PhysicalBreak(l[0]) then l == "\r\n" else OneLine(l[1..])))
  }

  predicate Ended(l: string) { l != [] && PhysicalBreak(l[|l| - 1]) }

  /** The boundary falls inside a carriage return and line feed. */
  predicate Torn(a: string, b: string) { a != [] && b != [] && a[|a| - 1] == '\r' && b[0] == '\n' }

  /** Lines one after the other: all but the last are ended, and no pair of line ends is torn. */
  ghost predicate LineList(lines: seq<string>) {
    && (forall l :: l in lines ==> OneLine(l))
    && (forall i :: 0 <= i < |lines| - 1 ==> Ended(lines[i]) && !Torn(lines[i], lines[i + 1]))
  }

  lemma {:induction false} FirstLine(t: string)
    requires t != []
    ensures var n := LineEnd(t, PhysicalBreak);
      && OneLine(t[..n]) && (n < |t| ==> Ended(t[..n]) && !Torn(t[..n], t[n..]))
    decreases |t|
  {
    if !PhysicalBreak(t[0]) && |t| > 1 {
      var n := LineEnd(t[1..], PhysicalBreak);
      FirstLine(t[1..]);
      assert t[..n + 1] == [t[0]] + t[1..][..n] && t[n + 1..] == t[1..][n..];
    }
  }

  lemma LinePrepended(l: string, rest: seq<string>)
    requires OneLine(l) && LineList(rest) && (rest != [] ==> Ended(l) && !Torn(l, rest[0]))
    ensures LineList([l] + rest)
  {
    var lines := [l] + rest;
    forall i | 0 <= i < |lines| - 1 ensures Ended(lines[i]) && !Torn(lines[i], lines[i + 1]) {
      if i > 0 { assert Ended(rest[i - 1]) && !Torn(rest[i - 1], rest[i]); }
    }
  }

  lemma {:induction false} JoinFirst(lines: seq<string>)
    requires LineList(lines) && lines != []
    ensures lines[0] != [] && Join(lines) != [] && Join(lines)[0] == lines[0][0]
  {
    assert OneLine(lines[0]);
  }

  lemma LineJoined(l: string, rest: seq<string>, t: string)
    requires Join(rest) == t
    ensures Join([l] + rest) == l + t
  {
    assert ([l] + rest)[1..] == rest;
  }

  lemma LinesGrow(l: string, rest: seq<string>, t: string)
    requires OneLine(l) && LineList(rest) && Join(rest) == t && (t != [] ==> Ended(l) && !Torn(l, t))
    ensures LineList([l] + rest) && Join([l] + rest) == l + t
  {
    if rest != [] { JoinFirst(rest); }
    LinePrepended(l, rest);
    LineJoined(l, rest, t);
  }

  lemma SplitHead(t: string)
    requires t != []
    ensures var n := LineEnd(t, PhysicalBreak);
      SplitLines(t, PhysicalBreak) == [t[..n]] + SplitLines(t[n..], PhysicalBreak)
  {
  }

  lemma SplitGrows(t: string, rest: seq<string>)
    requires t != [] && LineList(rest) && Join(rest) == t[LineEnd(t, PhysicalBreak)..]
    ensures var lines := [t[..LineEnd(t, PhysicalBreak)]] + rest;
      LineList(lines) && Join(lines) == t
  {
    var n := LineEnd(t, PhysicalBreak);
    FirstLine(t);
    LinesGrow(t[..n], rest, t[n..]);
    assert t == t[..n] + t[n..];
  }

  /** Splitting loses nothing and gives lines. */
  lemma {:induction false} SplitGivesLines(t: string)
    ensures Join(SplitLines(t, PhysicalBreak)) == t && LineList(SplitLines(t, PhysicalBreak))
    decreases |t|
  {
    if t != [] {
      var n := LineEnd(t, PhysicalBreak);
      SplitGivesLines(t[n..]);
      SplitGrows(t, SplitLines(t[n..], PhysicalBreak));
      SplitHead(t);
    }
  }

  lemma {:induction false} LineEndOf(l: string, rest: string)
    requires OneLine(l) && (rest != [] ==> Ended(l) && !Torn(l, rest))
    ensures LineEnd(l + rest, PhysicalBreak) == |l|
    decreases |l|
  {
    var t := l + rest;
    if !PhysicalBreak(l[0]) && |l| > 1 {
      assert t[1..] == l[1..] + rest;
      LineEndOf(l[1..], rest);
    }
  }

  /** The lines of a text are the only list of lines that makes it up. */
  lemma {:induction false} SplitUnique(lines: seq<string>)
    requires LineList(lines)
    ensures SplitLines(Join(lines), PhysicalBreak) == lines
  {
    if lines != [] {
      var (l, rest) := (lines[0], lines[1..]);
      forall i | 0 <= i < |rest| - 1 ensures Ended(rest[i]) && !Torn(rest[i], rest[i + 1]) {
        assert Ended(lines[i + 1]) && !Torn(lines[i + 1], lines[i + 2]);
      }
      SplitUnique(rest);
      if rest != [] {
        JoinFirst(rest);
        assert !Torn(lines[0], lines[1]);
      }
      LineEndOf(l, Join(rest));
      assert (l + Join(rest))[..|l|] == l && (l + Join(rest))[|l|..] == Join(rest);
    }
  }

  // ------------------------------------------------------------------------------------------ pages

  datatype CitationRefusal = NotFound | InvalidRequest

  datatype TextPage = TextPage(text: string, offset: nat, next: Option<nat>, total: nat)

  /** `_span` */
  function Span(lines: seq<string>, first: int, last: int): Option<string> {
    if 1 <= first <= last <= |lines| then Some(Join(lines[first - 1..last])) else None
  }

  /** The page of a display block. */
  function CitationPage(source: string, first: int, last: int, offset: int, limit: int)
    : Result<TextPage, CitationRefusal>
  {
    if offset < 0 || !(1 <= limit <= MAX_PAGE_CHARS) then Failure(InvalidRequest)
    else
      match Span(SplitLines(source, PhysicalBreak), first, last)
      case None => Failure(NotFound)
      case Some(text) =>
        if offset > |text| then Failure(InvalidRequest)
        else
          var end := if |text| < offset + limit then |text| else offset + limit;
          Success(TextPage(text[offset..end], offset, if end == |text| then None else Some(end), |text|))
  }

  lemma {:induction false} JoinConcat(a: seq<string>, b: seq<string>)
    ensures Join(a + b) == Join(a) + Join(b)
  {
    if a == [] {
      assert a + b == b;
    } else {
      assert (a + b)[1..] == a[1..] + b;
      JoinConcat(a[1..], b);
    }
  }

  lemma JoinThree(a: seq<string>, b: seq<string>, c: seq<string>)
    ensures Join(a + b + c) == Join(a) + Join(b) + Join(c)
  {
    JoinConcat(a + b, c);
    JoinConcat(a, b);
  }

  lemma CutTwice<T>(s: seq<T>, i: nat, j: nat)
    requires i <= j <= |s|
    ensures s == s[..i] + s[i..j] + s[j..]
  {
  }

  /** The display block is a piece of the source: the lines before it, then it, then the lines after it. */
  lemma SpanInSource(source: string, first: int, last: int)
    requires Span(SplitLines(source, PhysicalBreak), first, last).Some?
    ensures var lines := SplitLines(source, PhysicalBreak);
      source == Join(lines[..first - 1]) + Span(lines, first, last).value + Join(lines[last..])
  {
    SplitGivesLines(source);
    var lines := SplitLines(source, PhysicalBreak);
    CutTwice(lines, first - 1, last);
    JoinThree(lines[..first - 1], lines[first - 1..last], lines[last..]);
  }

  /** A citation is found exactly when its first line is there, not after its last, and its last line is there; a
      citation of one line is that line, and any other the lines one after the other. */
  lemma SpanFound(source: string, first: int, last: int)
    ensures var lines := SplitLines(source, PhysicalBreak);
      var span := Span(lines, first, last);
      && (span.Some? <==> 1 <= first && first <= last && last <= |lines|)
      && (span.Some? && first == last ==> span.value == lines[first - 1])
      && (span.Some? && first < last ==>
            Span(lines, first + 1, last).Some? && span.value == lines[first - 1] + Span(lines, first + 1, last).value)
  {
    var lines := SplitLines(source, PhysicalBreak);
    if 1 <= first <= last <= |lines| {
      assert lines[first - 1..last][0] == lines[first - 1] && lines[first - 1..last][1..] == lines[first..last];
      assert Join(lines[first - 1..last]) == lines[first - 1] + Join(lines[first..last]);
      assert Join([]) == "" && lines[first - 1] + "" == lines[first - 1];
    }
  }

  /** When a page is refused: its offset or size is out of range, or the citation is not found. */
  lemma PageRefusals(source: string, first: int, last: int, offset: int, limit: int)
    ensures var (lines, page) := (SplitLines(source, PhysicalBreak), CitationPage(source, first, last, offset, limit));
      var found := 1 <= first <= last <= |lines|;
      && (page == Failure(NotFound) <==> offset >= 0 && 1 <= limit <= 65536 && !found)
      && (page == Failure(InvalidRequest) <==>
            offset < 0 || limit < 1 || limit > 65536 || (found && offset > |Join(lines[first - 1..last])|))
  {
  }

  /** A reader that follows `next_offset`, for at most `calls` pages. */
  function ReadOn(read: int -> Result<TextPage, CitationRefusal>, offset: nat, calls: nat): Option<seq<TextPage>>
    decreases calls
  {
    if calls == 0 then None
    else
      match read(offset)
      case Failure(_) => None
      case Success(page) =>
        if page.next.None? then Some([page])
        else
          match ReadOn(read, page.next.value, calls - 1)
          case None => None
          case Some(more) => Some([page] + more)
  }

  function PageReader(source: string, first: int, last: int, limit: int): int -> Result<TextPage, CitationRefusal> {
    offset => CitationPage(source, first, last, offset, limit)
  }

  function TextOfPage(page: TextPage): string { page.text }

  lemma {:induction false} ReadOnExact(
    read: int -> Result<TextPage, CitationRefusal>, text: string, limit: nat, offset: nat, calls: nat)
    requires limit >= 1 && offset <= |text| && calls > |text| - offset
    requires forall at: nat :: at <= |text| ==> read(at) == Success(
        var end := if |text| < at + limit then |text| else at + limit;
        TextPage(text[at..end], at, if end == |text| then None else Some(end), |text|))
    ensures var pages := ReadOn(read, offset, calls);
      pages.Some? && FlatMap(pages.value, TextOfPage) == text[offset..]
    decreases calls
  {
    var page := read(offset).value;
    if page.next.None? {
      assert [page][1..] == [];
      assert FlatMap([page], TextOfPage) == page.text + [];
    } else {
      ReadOnExact(read, text, limit, page.next.value, calls - 1);
      var more := ReadOn(read, page.next.value, calls - 1).value;
      assert ([page] + more)[1..] == more;
      assert text[offset..] == page.text + text[page.next.value..];
    }
  }

  /** Following `next_offset` from 0 gives exactly the display block, for every page size. */
  lemma PagesGiveSpan(source: string, first: int, last: int, limit: nat)
    requires 1 <= limit <= MAX_PAGE_CHARS
    requires Span(SplitLines(source, PhysicalBreak), first, last).Some?
    ensures var text := Span(SplitLines(source, PhysicalBreak), first, last).value;
      var pages := ReadOn(PageReader(source, first, last, limit), 0, |text| + 1);
      pages.Some? && FlatMap(pages.value, TextOfPage) == text
  {
    var text := Span(SplitLines(source, PhysicalBreak), first, last).value;
    ReadOnExact(PageReader(source, first, last, limit), text, limit, 0, |text| + 1);
    assert text[0..] == text;
  }
}
