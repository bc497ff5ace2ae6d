/** Which lines the diff parser reads, said as the texts that it accepts, and what a section of a document gives. */
module DiffGrammar {
  import opened Sequences
  import opened TextLines
  import opened UnifiedDiff
  import DiffPrinting

  // -------------------------------------------------------------------------- the header lines

  predicate Digits(s: string) { s != "" && forall c :: c in s ==> '0' <= c <= '9' }

  /** A count may be left out. */
  predicate Count(s: string) { s == "" || (s[0] == ',' && Digits(s[1..])) }

  /** The parts of a hunk header; of what follows the second `@@` nothing is asked. */
  datatype Parts = Parts(start: string, count: string, newStart: string, newCount: string, rest: string)
  {
    predicate Valid() { Digits(start) && Count(count) && Digits(newStart) && Count(newCount) }

    function Tail(): string { newCount + (" @@" + rest) }

    function NewSpan(): string { " +" + (newStart + Tail()) }

    function Line(): string { "@@ -" + (start + (count + NewSpan())) }
  }

  lemma DigitsRead(d: string, rest: string)
    requires Digits(d) && (rest == "" || !IsDigit(rest[0]))
    ensures var s := d + rest; DigitCount(s) == |d| && s[..DigitCount(s)] == d && s[DigitCount(s)..] == rest
  {
    DiffPrinting.DigitsStop(d, rest);
    assert (d + rest)[..|d|] == d && (d + rest)[|d|..] == rest;
  }

  lemma CountRead(c: string, rest: string)
    requires Count(c) && rest != "" && rest[0] == ' '
    ensures SkipCount(c + rest) == rest
  {
    if c == "" {
      assert c + rest == rest;
    } else {
      DigitsRead(c[1..], rest);
      assert (c + rest)[1..] == c[1..] + rest;
      assert (c + rest)[|c|..] == rest;
    }
  }

  lemma TailRead(p: Parts)
    requires p.Valid()
    ensures SkipCount(p.Tail()) == " @@" + p.rest && " @@" <= SkipCount(p.Tail())
    ensures !IsDigit(p.Tail()[0])
  {
    CountRead(p.newCount, " @@" + p.rest);
  }

  lemma NewSpanRead(p: Parts)
    requires p.Valid()
    ensures NewRange(p.NewSpan()) && p.NewSpan()[0] == ' '
  {
    TailRead(p);
    DigitsRead(p.newStart, p.Tail());
    assert p.NewSpan()[2..] == p.newStart + p.Tail();
  }

  /** Every such line is a header, and its old start is all that counts. */
  lemma PartsRead(p: Parts)
    requires p.Valid()
    ensures HunkHeader(p.Line()) == Some(Value(p.start))
  {
    var range := p.start + (p.count + p.NewSpan());
    NewSpanRead(p);
    CountRead(p.count, p.NewSpan());
    assert !IsDigit((p.count + p.NewSpan())[0]);
    DigitsRead(p.start, p.count + p.NewSpan());
    assert p.Line()[4..] == range;
  }

  lemma {:induction false} CountedDigits(s: string)
    ensures forall c :: c in s[..DigitCount(s)] ==> '0' <= c <= '9'
  {
    if s != "" && IsDigit(s[0]) {
      CountedDigits(s[1..]);
      assert s[..DigitCount(s)] == [s[0]] + s[1..][..DigitCount(s[1..])];
    }
  }

  lemma SkippedCount(s: string) returns (c: string)
    ensures Count(c) && s == c + SkipCount(s)
  {
    c := "";
    if s != "" && s[0] == ',' && DigitCount(s[1..]) > 0 {
      c := s[..1 + DigitCount(s[1..])];
      CountedDigits(s[1..]);
      assert c[1..] == s[1..][..DigitCount(s[1..])];
    }
  }

  lemma LeadingDigits(s: string) returns (d: string)
    requires DigitCount(s) > 0
    ensures Digits(d) && d == s[..DigitCount(s)] && s == d + s[DigitCount(s)..]
  {
    d := s[..DigitCount(s)];
    CountedDigits(s);
  }

  lemma AfterMark(s: string, mark: string) returns (rest: string)
    requires mark <= s
    ensures s == mark + rest
  {
    rest := s[|mark|..];
  }

  lemma NewSpanParsed(s: string) returns (n: string, c: string, rest: string)
    requires NewRange(s)
    ensures Digits(n) && Count(c) && s == " +" + (n + (c + (" @@" + rest)))
  {
    var range := s[2..];
    n := LeadingDigits(range);
    var after := range[DigitCount(range)..];
    c := SkippedCount(after);
    rest := AfterMark(SkipCount(after), " @@");
    assert s == " +" + range;
  }

  /** A line is a hunk header exactly when it has the form `@@ -l[,s] +l[,s] @@`, whatever follows. */
  lemma HeaderIff(line: string, n: nat)
    ensures HunkHeader(line) == Some(n) <==> exists p: Parts :: p.Valid() && line == p.Line() && n == Value(p.start)
  {
    if p: Parts :| p.Valid() && line == p.Line() && n == Value(p.start) {
      PartsRead(p);
    }
    if HunkHeader(line) == Some(n) {
      var range := line[4..];
      var start := LeadingDigits(range);
      var after := range[DigitCount(range)..];
      var count := SkippedCount(after);
      var newStart, newCount, rest := NewSpanParsed(SkipCount(after));
      var p := Parts(start, count, newStart, newCount, rest);
      assert line == "@@ -" + range;
      assert p.Line() == line;
    }
  }

  /** A path line names a path exactly when `a/` or `b/` and something more follow its mark. */
  lemma PathIff(line: string, path: string)
    ensures DiffPath(line) == Some(path) <==>
              path != "" && exists mark, side :: (mark == "--- " || mark == "+++ ") && (side == "a/" || side == "b/")
                              && line == mark + side + path
  {
    if DiffPath(line) == Some(path) {
      var (mark, side) := (line[..4], line[4..6]);
      assert line == mark + side + path;
      assert side == "a/" || side == "b/";
    }
    if path != "" && (exists mark, side :: (mark == "--- " || mark == "+++ ") && (side == "a/" || side == "b/")
                        && line == mark + side + path) {
      var mark, side :| (mark == "--- " || mark == "+++ ") && (side == "a/" || side == "b/")
                        && line == mark + side + path;
      assert line == mark + [side[0]] + "/" + path;
      DiffPrinting.DiffPathRead(mark, side[0], path);
    }
  }

  // ---------------------------------------------------------------------------- a section

  /** What a line of a hunk is, by its first character: a context, removed or added line, with the rest of it as its
      text; an empty line is an empty context line; anything else, the remark `\ No newline at end of file` among it,
      is left out. */
  function LineIn(raw: string): Option<HunkLine> {
    if raw == "" || raw == "\n" then Some(HunkLine(' ', raw))
    else if raw[0] == ' ' || raw[0] == '-' || raw[0] == '+' then Some(HunkLine(raw[0], raw[1..]))
    else None
  }

  /** The line does not begin as a header does. */
  predicate Plain(raw: string) {
    !("--- " <= raw) && !("+++ " <= raw) && !("@@ -" <= raw)
  }

  /** A file header cannot be told from its line feed alone. */
  lemma FeedAside(raw: string, mark: string)
    requires |mark| == 4 && mark[3] != '\n'
    ensures mark <= raw <==> mark <= LineBody(raw)
  {
    if mark <= raw {
      assert raw[3] == mark[3];
      assert LineBody(raw)[..4] == raw[..4];
    }
    if mark <= LineBody(raw) {
      assert raw[..4] == LineBody(raw)[..4];
    }
  }

  lemma PlainClassified(raw: string)
    requires Plain(raw)
    ensures Classify(raw) == if LineIn(raw).Some? then Body(LineIn(raw).value) else Ignored
  {
    FeedAside(raw, "--- ");
    FeedAside(raw, "+++ ");
    FeedAside(raw, "@@ -");
    if raw != "" && raw != "\n" && Ends(raw) {
      assert raw[1..] == LineBody(raw)[1..] + "\n";
    }
  }

  lemma {:induction false} PlainRun(st: ParseState, raws: seq<string>)
    requires st.current.Some? && st.body.Some? && forall raw :: raw in raws ==> Plain(raw)
    ensures Run(st, Map(raws, Classify)) == st.(body := Some(st.body.value + Collect(raws, LineIn)))
    decreases |raws|
  {
    if raws == [] {
      assert st.body.value + [] == st.body.value;
    } else {
      var st' := Advance(st, Classify(raws[0]));
      PlainClassified(raws[0]);
      DiffPrinting.MapTail(raws, Classify);
      PlainRun(st', raws[1..]);
      if LineIn(raws[0]).Some? {
        Assoc(st.body.value, [LineIn(raws[0]).value], Collect(raws[1..], LineIn));
      }
    }
  }

  /** The line has the kind of a header with these parts. */
  ghost predicate HeaderWith(raw: string, p: Parts) {
    p.Valid() && (raw == p.Line() || raw == p.Line() + "\n") && NoFeedIn(p.rest)
  }

  predicate NoFeedIn(t: string) { forall c :: c in t ==> c != '\n' }

  lemma LastOf(a: string, b: string)
    requires b != ""
    ensures (a + b)[|a + b| - 1] == b[|b| - 1]
  {
  }

  lemma LineEnds(p: Parts)
    requires NoFeedIn(p.rest)
    ensures p.Line() != "" && p.Line()[|p.Line()| - 1] != '\n'
  {
    var end := " @@" + p.rest;
    assert p.rest != "" ==> p.rest[|p.rest| - 1] in p.rest && end[|end| - 1] == p.rest[|p.rest| - 1];
    LastOf(p.newCount, end);
    LastOf(p.newStart, p.Tail());
    LastOf(" +", p.newStart + p.Tail());
    LastOf(p.count, p.NewSpan());
    LastOf(p.start, p.count + p.NewSpan());
    LastOf("@@ -", p.start + (p.count + p.NewSpan()));
  }

  lemma FeedLeft(raw: string, line: string)
    requires raw == line || raw == line + "\n"
    requires line != "" && line[|line| - 1] != '\n'
    ensures LineBody(raw) == line
  {
    DiffPrinting.FeedStripped(line);
  }

  lemma HeaderClassified(raw: string, p: Parts)
    requires HeaderWith(raw, p)
    ensures Classify(raw) == HunkStart(Value(p.start))
  {
    PartsRead(p);
    LineEnds(p);
    FeedLeft(raw, p.Line());
    MarkedHeader(p.Line());
  }

  lemma MarkedHeader(line: string)
    requires HunkHeader(line).Some?
    ensures !("--- " <= line) && !("+++ " <= line)
  {
    DiffPrinting.NotFileHeader(line);
  }

  /** A hunk of a file: its header's old start, and its lines. Counts in the header are not looked at, and the hunk
      before it is closed. */
  lemma HunkParsed(st: ParseState, header: string, p: Parts, raws: seq<string>)
    requires st.current.Some? && HeaderWith(header, p) && forall raw :: raw in raws ==> Plain(raw)
    ensures Run(st, Map([header] + raws, Classify))
         == ParseState(st.files, st.current, st.Read(), Some(Collect(raws, LineIn)), Value(p.start))
  {
    HeaderClassified(header, p);
    MapConcat([header], raws, Classify);
    RunConcat(st, [Classify(header)], Map(raws, Classify));
    RunOne(st, [], Classify(header));
    assert [] + [Classify(header)] == [Classify(header)];
    var open := Advance(st, Classify(header));
    PlainRun(open, raws);
    assert [] + Collect(raws, LineIn) == Collect(raws, LineIn);
  }

  /** A line of the given mark that names this path, or none. */
  ghost predicate PathLine(raw: string, mark: string, path: Option<string>) {
    && mark <= raw
    && match path
       case Some(p) =>
         && p != "" && NoFeedIn(p)
         && exists side, feed :: side in {"a/", "b/"} && feed in {"", "\n"} && raw == mark + side + p + feed
       case None => !(mark + "a/" <= raw) && !(mark + "b/" <= raw)
  }

  lemma PathNamed(raw: string, mark: string, path: Option<string>)
    requires (mark == "--- " || mark == "+++ ") && PathLine(raw, mark, path)
    ensures DiffPath(LineBody(raw)) == path
  {
    var line := LineBody(raw);
    if path.Some? {
      var p := path.value;
      var side, feed :| side in {"a/", "b/"} && feed in {"", "\n"} && raw == mark + side + p + feed;
      LastOf(mark + side, p);
      assert p[|p| - 1] in p;
      FeedLeft(raw, mark + side + p);
      PathIff(line, p);
    } else {
      SideNamed(raw, mark);
    }
  }

  lemma SideNamed(raw: string, mark: string)
    requires (mark == "--- " || mark == "+++ ") && mark <= raw
    ensures DiffPath(LineBody(raw)).Some? ==> mark + "a/" <= raw || mark + "b/" <= raw
  {
    var line := LineBody(raw);
    if DiffPath(line).Some? {
      assert raw[..6] == mark + line[4..6];
      assert line[4..6] == "a/" || line[4..6] == "b/";
    }
  }

  lemma PathClassified(raw: string, path: Option<string>)
    ensures PathLine(raw, "--- ", path) ==> Classify(raw) == OldPath(path)
    ensures PathLine(raw, "+++ ", path) ==> Classify(raw) == NewPath(path)
  {
    FeedAside(raw, "--- ");
    FeedAside(raw, "+++ ");
    if PathLine(raw, "--- ", path) {
      PathNamed(raw, "--- ", path);
    }
    if PathLine(raw, "+++ ", path) {
      PathNamed(raw, "+++ ", path);
      assert raw[0] == '+' && "--- "[0] == '-';
    }
  }

  /** A document of one file and one hunk. The path is the one that the second header line names, or else the first's,
      so a created and a deleted file are both known by the path they have; without any path the document says
      nothing. */
  lemma OneFileParsed(text: string, was: Option<string>, now: Option<string>, p: Parts, raws: seq<string>)
    requires |raws| >= 3 && raws == SplitLines(text, UnicodeBreak)
    requires PathLine(raws[0], "--- ", was) && PathLine(raws[1], "+++ ", now) && HeaderWith(raws[2], p)
    requires forall raw :: raw in raws[3..] ==> Plain(raw)
    ensures var hunk := Hunk(Value(p.start), Collect(raws[3..], LineIn));
      Parse(text) == if now.Some? then [FilePatch(now.value, [hunk])]
                     else if was.Some? then [FilePatch(was.value, [hunk])]
                     else []
  {
    var path := if now.Some? then now else was;
    var st := ParseState([], path, [], None, 0);
    PathClassified(raws[0], was);
    PathClassified(raws[1], now);
    TwoHeaders(st, raws[0], raws[1], was, now, [raws[2]] + raws[3..]);
    assert raws == [raws[0], raws[1]] + ([raws[2]] + raws[3..]);
    SectionClosed(st, raws[2], p, raws[3..]);
  }

  lemma SectionClosed(st: ParseState, header: string, p: Parts, raws: seq<string>)
    requires st == ParseState([], st.current, [], None, 0) && HeaderWith(header, p)
    requires forall raw :: raw in raws ==> Plain(raw)
    ensures Run(st, Map([header] + raws, Classify)).Closed() ==
              if st.current.None? then []
              else [FilePatch(st.current.value, [Hunk(Value(p.start), Collect(raws, LineIn))])]
  {
    if st.current.Some? {
      HunkParsed(st, header, p, raws);
      assert st.Read() == [] && [] + [Hunk(Value(p.start), Collect(raws, LineIn))]
                                == [Hunk(Value(p.start), Collect(raws, LineIn))];
    } else {
      PathlessSection(st, header, p, raws);
    }
  }

  lemma PathlessSection(st: ParseState, header: string, p: Parts, raws: seq<string>)
    requires st.current.None? && HeaderWith(header, p) && forall raw :: raw in raws ==> Plain(raw)
    ensures Run(st, Map([header] + raws, Classify)).Closed() == st.files
  {
    HeaderClassified(header, p);
    forall raw | raw in [header] + raws ensures !Classify(raw).OldPath? && !Classify(raw).NewPath? {
      if raw in raws {
        PlainClassified(raw);
      }
    }
    PathlessRun(st, [header] + raws);
  }

  lemma TwoHeaders(st: ParseState, first: string, second: string, was: Option<string>, now: Option<string>,
                   rest: seq<string>)
    requires Classify(first) == OldPath(was) && Classify(second) == NewPath(now)
    requires Advance(Advance(START, OldPath(was)), NewPath(now)) == st
    ensures Run(START, Map([first, second] + rest, Classify)) == Run(st, Map(rest, Classify))
  {
    MapConcat([first, second], rest, Classify);
    var (k, l) := (Classify(first), Classify(second));
    assert Map([first, second], Classify) == [k] + [l];
    RunConcat(START, [k] + [l], Map(rest, Classify));
    RunOne(START, [k], l);
    RunOne(START, [], k);
    assert [] + [k] == [k];
  }

  /** Without a path nothing reaches the files, as long as no line names one. */
  lemma {:induction false} PathlessRun(st: ParseState, raws: seq<string>)
    requires st.current.None?
    requires forall raw :: raw in raws ==> !Classify(raw).OldPath? && !Classify(raw).NewPath?
    ensures Run(st, Map(raws, Classify)).Closed() == st.files
    decreases |raws|
  {
    if raws != [] {
      DiffPrinting.MapTail(raws, Classify);
      PathlessRun(Advance(st, Classify(raws[0])), raws[1..]);
    }
  }
}
