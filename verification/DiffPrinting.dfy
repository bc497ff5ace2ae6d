/** Printing an edit as a unified diff, and reading it back.

    An edit of a file is a sequence of pieces, each either untouched lines or a changed block; every
    way of cutting the difference of two files into hunks is one. Lines are written without their
    line feed.
 */
module DiffPrinting {
  import opened Sequences
  import opened TextLines
  import opened UnifiedDiff

  datatype Piece = Same(lines: seq<string>) | Change(body: seq<HunkLine>)

  datatype FileEdit = FileEdit(path: string, pieces: seq<Piece>)

  function Before(p: Piece): seq<string> { if p.Same? then p.lines else OldSide(p.body) }

  function After(p: Piece): seq<string> { if p.Same? then p.lines else NewSide(p.body) }

  function LinesBefore(ps: seq<Piece>): seq<string> { FlatMap(ps, Before) }

  function LinesAfter(ps: seq<Piece>): seq<string> { FlatMap(ps, After) }

  /** A newline-terminated text. */
  function TextOf(lines: seq<string>): string { Join(Terminated(lines)) }

  // ------------------------------------------------------------------------------ printing

  function Decimal(n: nat): string {
    if n < 10 then [(n + '0' as int) as char] else Decimal(n / 10) + [(n % 10 + '0' as int) as char]
  }

  /** The start of a range in a hunk header: the line before it when the range is empty. */
  function StartOf(position: nat, count: nat): nat { if count == 0 then position else position + 1 }

  function HeaderLine(o: nat, oldCount: nat, n: nat, newCount: nat): string {
    "@@ -" + (Decimal(StartOf(o, oldCount)) + ("," + Decimal(oldCount) + NewPart(n, newCount)))
  }

  function NewPart(n: nat, newCount: nat): string {
    " +" + Decimal(StartOf(n, newCount)) + ("," + Decimal(newCount) + " @@")
  }

  function PrintLine(l: HunkLine): string { [l.tag] + l.text }

  /** A piece with the numbers of old and of new lines before it. */
  datatype Place = Place(piece: Piece, o: nat, n: nat)

  function Places(ps: seq<Piece>, o: nat, n: nat): seq<Place> {
    if ps == [] then []
    else [Place(ps[0], o, n)] + Places(ps[1..], o + |Before(ps[0])|, n + |After(ps[0])|)
  }

  function PrintPlace(at: Place): seq<string> {
    if at.piece.Same? then []
    else [HeaderLine(at.o, |Before(at.piece)|, at.n, |After(at.piece)|)] + Map(at.piece.body, PrintLine)
  }

  function PrintFile(e: FileEdit): seq<string> {
    ["--- a/" + e.path, "+++ b/" + e.path] + FlatMap(Places(e.pieces, 0, 0), PrintPlace)
  }

  function PrintedLines(edits: seq<FileEdit>): seq<string> { FlatMap(edits, PrintFile) }

  function Print(edits: seq<FileEdit>): string { TextOf(PrintedLines(edits)) }

  // ------------------------------------------------------------------- what should be parsed

  function WithFeed(l: HunkLine): HunkLine { HunkLine(l.tag, l.text + "\n") }

  function HunkAt(at: Place): Option<Hunk> {
    if at.piece.Same? then None
    else Some(Hunk(StartOf(at.o, |Before(at.piece)|), Map(at.piece.body, WithFeed)))
  }

  function HunksOf(ps: seq<Piece>): seq<Hunk> { Collect(Places(ps, 0, 0), HunkAt) }

  function PatchOf(e: FileEdit): Option<FilePatch> {
    if HunksOf(e.pieces) == [] then None else Some(FilePatch(e.path, HunksOf(e.pieces)))
  }

  // ------------------------------------------------------------------------- printable edits

  ghost predicate LineOk(l: HunkLine) {
    (l.tag == ' ' || l.tag == '+' || l.tag == '-') && Unbroken(l.text, UnicodeBreak)
  }

  /** A changed line that the parser would take for a file header. */
  predicate HeaderLike(l: HunkLine) {
    (l.tag == '-' && "-- " <= l.text) || (l.tag == '+' && "++ " <= l.text)
  }

  ghost predicate PieceOk(p: Piece) {
    match p
    case Same(lines) => forall l :: l in lines ==> Unbroken(l, UnicodeBreak)
    case Change(body) => forall l :: l in body ==> LineOk(l)
  }

  ghost predicate EditOk(e: FileEdit) {
    e.path != [] && Unbroken(e.path, UnicodeBreak) && forall p :: p in e.pieces ==> PieceOk(p)
  }

  ghost predicate Unmistakable(e: FileEdit) {
    forall p, l :: p in e.pieces && p.Change? && l in p.body ==> !HeaderLike(l)
  }

  ghost predicate DistinctPaths(edits: seq<FileEdit>) {
    forall i, j :: 0 <= i < j < |edits| ==> edits[i].path != edits[j].path
  }

  // ---------------------------------------------------------------------------- the numbers

  lemma {:induction false} DecimalDigits(n: nat)
    ensures Decimal(n) != [] && forall c :: c in Decimal(n) ==> IsDigit(c)
    ensures Value(Decimal(n)) == n
  {
    if n < 10 {
      assert Decimal(n)[..0] == [];
    } else {
      DecimalDigits(n / 10);
      var d := Decimal(n);
      assert d[..|d| - 1] == Decimal(n / 10);
    }
  }

  lemma {:induction false} DigitsStop(s: string, rest: string)
    requires forall c :: c in s ==> IsDigit(c)
    requires rest == [] || !IsDigit(rest[0])
    ensures DigitCount(s + rest) == |s|
  {
    if s == [] {
      assert s + rest == rest;
    } else {
      DigitsStop(s[1..], rest);
      assert (s + rest)[1..] == s[1..] + rest;
    }
  }

  lemma NumberRead(n: nat, rest: string)
    requires rest == [] || !IsDigit(rest[0])
    ensures var s := Decimal(n) + rest;
      DigitCount(s) == |Decimal(n)| > 0 && s[DigitCount(s)..] == rest && Value(s[..DigitCount(s)]) == n
  {
    DecimalDigits(n);
    DigitsStop(Decimal(n), rest);
    assert (Decimal(n) + rest)[..|Decimal(n)|] == Decimal(n);
  }

  lemma CountSkipped(n: nat, rest: string)
    requires rest == [] || !IsDigit(rest[0])
    ensures SkipCount("," + Decimal(n) + rest) == rest
  {
    NumberRead(n, rest);
    var s := "," + Decimal(n) + rest;
    assert s[1..] == Decimal(n) + rest;
    assert s[1 + DigitCount(s[1..])..] == s[1..][DigitCount(s[1..])..];
  }

  lemma NewPartRead(n: nat, newCount: nat)
    ensures NewRange(NewPart(n, newCount))
  {
    var after := "," + Decimal(newCount) + " @@";
    assert NewPart(n, newCount)[2..] == Decimal(StartOf(n, newCount)) + after;
    NumberRead(StartOf(n, newCount), after);
    CountSkipped(newCount, " @@");
  }

  /** A printed hunk header is read back as its old start. */
  lemma HeaderRead(o: nat, oldCount: nat, n: nat, newCount: nat)
    ensures HunkHeader(HeaderLine(o, oldCount, n, newCount)) == Some(StartOf(o, oldCount))
  {
    var after := "," + Decimal(oldCount) + NewPart(n, newCount);
    var line := HeaderLine(o, oldCount, n, newCount);
    assert line == "@@ -" + (Decimal(StartOf(o, oldCount)) + after);
    assert line[4..] == Decimal(StartOf(o, oldCount)) + after;
    NumberRead(StartOf(o, oldCount), after);
    CountSkipped(oldCount, NewPart(n, newCount));
    NewPartRead(n, newCount);
  }

  // ------------------------------------------------------------------------- running the parser

  lemma FeedStripped(line: string)
    ensures Ends(line + "\n") && LineBody(line + "\n") == line
  {
    assert (line + "\n")[..|line|] == line;
  }

  lemma HeaderLikeIff(l: HunkLine)
    ensures HeaderLike(l) <==> "--- " <= PrintLine(l) || "+++ " <= PrintLine(l)
  {
    var line := PrintLine(l);
    assert line[1..] == l.text;
    assert "--- " == ['-'] + "-- " && "+++ " == ['+'] + "++ ";
    if "--- " <= line { assert line[0] == "--- "[0] && line[1..][..3] == "--- "[1..]; }
    if "+++ " <= line { assert line[0] == "+++ "[0] && line[1..][..3] == "+++ "[1..]; }
    if HeaderLike(l) {
      assert line[..4] == [l.tag] + l.text[..3];
    }
  }

  lemma BodyClassified(l: HunkLine)
    requires LineOk(l) && !HeaderLike(l)
    ensures Classify(PrintLine(l) + "\n") == Body(WithFeed(l))
  {
    var line := PrintLine(l);
    FeedStripped(line);
    HeaderLikeIff(l);
    assert line[0] == l.tag && line[1..] == l.text;
    assert HunkHeader(line).None? by {
      assert "@@ -"[0] == '@';
    }
  }

  lemma HeaderClassified(o: nat, oldCount: nat, n: nat, newCount: nat)
    ensures Classify(HeaderLine(o, oldCount, n, newCount) + "\n") == HunkStart(StartOf(o, oldCount))
  {
    var line := HeaderLine(o, oldCount, n, newCount);
    FeedStripped(line);
    HeaderRead(o, oldCount, n, newCount);
    NotFileHeader(line);
  }

  lemma NotFileHeader(line: string)
    requires "@@ -" <= line
    ensures !("--- " <= line) && !("+++ " <= line)
  {
    assert line[0] == "@@ -"[0] && "--- "[0] == '-' && "+++ "[0] == '+';
  }

  lemma DiffPathRead(mark: string, side: char, path: string)
    requires mark == "--- " || mark == "+++ "
    requires (side == 'a' || side == 'b') && path != []
    ensures DiffPath(mark + [side] + "/" + path) == Some(path)
  {
    var line := mark + [side] + "/" + path;
    assert line[6..] == path && line[4] == side && line[5] == '/';
  }

  lemma PathsClassified(path: string)
    requires path != []
    ensures Classify("--- a/" + path + "\n") == OldPath(Some(path))
    ensures Classify("+++ b/" + path + "\n") == NewPath(Some(path))
  {
    var (a, b) := ("--- a/" + path, "+++ b/" + path);
    assert a == "--- " + ['a'] + "/" + path && b == "+++ " + ['b'] + "/" + path;
    DiffPathRead("--- ", 'a', path);
    DiffPathRead("+++ ", 'b', path);
    FeedStripped(a);
    FeedStripped(b);
    assert b[0] == '+' && "--- "[0] == '-';
  }

  /** The kinds of the printed lines. */
  function BodyKind(l: HunkLine): LineKind { Body(WithFeed(l)) }

  function PlaceKinds(at: Place): seq<LineKind> {
    if at.piece.Same? then []
    else [HunkStart(StartOf(at.o, |Before(at.piece)|))] + Map(at.piece.body, BodyKind)
  }

  function FileKinds(e: FileEdit): seq<LineKind> {
    [OldPath(Some(e.path)), NewPath(Some(e.path))] + FlatMap(Places(e.pieces, 0, 0), PlaceKinds)
  }

  function KindsIn(lines: seq<string>): seq<LineKind> { Map(Terminated(lines), Classify) }

  lemma KindsConcat(a: seq<string>, b: seq<string>)
    ensures KindsIn(a + b) == KindsIn(a) + KindsIn(b)
  {
    TerminatedConcat(a, b);
    MapConcat(Terminated(a), Terminated(b), Classify);
  }

  lemma KindsOne(line: string)
    ensures KindsIn([line]) == [Classify(line + "\n")]
  {
    assert [line][1..] == [];
    assert Terminated([line]) == [line + "\n"];
  }

  lemma {:induction false} BodyKinds(body: seq<HunkLine>)
    requires forall l :: l in body ==> LineOk(l) && !HeaderLike(l)
    ensures KindsIn(Map(body, PrintLine)) == Map(body, BodyKind)
  {
    if body != [] {
      BodyKinds(body[1..]);
      BodyClassified(body[0]);
      KindsOne(PrintLine(body[0]));
      KindsConcat([PrintLine(body[0])], Map(body[1..], PrintLine));
      assert Map(body, PrintLine) == [PrintLine(body[0])] + Map(body[1..], PrintLine);
    }
  }

  lemma {:induction false} KindsGathered<T>(s: seq<T>, printed: T -> seq<string>, kinds: T -> seq<LineKind>)
    requires forall x :: x in s ==> KindsIn(printed(x)) == kinds(x)
    ensures KindsIn(FlatMap(s, printed)) == FlatMap(s, kinds)
  {
    if s != [] {
      KindsGathered(s[1..], printed, kinds);
      KindsConcat(printed(s[0]), FlatMap(s[1..], printed));
    }
  }

  lemma PlaceRead(at: Place)
    requires at.piece.Change? ==> forall l :: l in at.piece.body ==> LineOk(l) && !HeaderLike(l)
    ensures KindsIn(PrintPlace(at)) == PlaceKinds(at)
  {
    if at.piece.Change? {
      var header := HeaderLine(at.o, |Before(at.piece)|, at.n, |After(at.piece)|);
      HeaderClassified(at.o, |Before(at.piece)|, at.n, |After(at.piece)|);
      KindsOne(header);
      BodyKinds(at.piece.body);
      KindsConcat([header], Map(at.piece.body, PrintLine));
    }
  }

  lemma {:induction false} PlacesHold(ps: seq<Piece>, o: nat, n: nat)
    ensures forall at :: at in Places(ps, o, n) ==> at.piece in ps
    decreases |ps|
  {
    if ps != [] {
      PlacesHold(ps[1..], o + |Before(ps[0])|, n + |After(ps[0])|);
    }
  }

  lemma FileKindsRead(e: FileEdit)
    requires EditOk(e) && Unmistakable(e)
    ensures KindsIn(PrintFile(e)) == FileKinds(e)
  {
    var (a, b) := ("--- a/" + e.path, "+++ b/" + e.path);
    PathsClassified(e.path);
    KindsOne(a);
    KindsOne(b);
    KindsConcat([a], [b]);
    assert [a, b] == [a] + [b];
    var places := Places(e.pieces, 0, 0);
    KindsConcat([a, b], FlatMap(places, PrintPlace));
    PlacesHold(e.pieces, 0, 0);
    forall at | at in places ensures KindsIn(PrintPlace(at)) == PlaceKinds(at) {
      PlaceRead(at);
    }
    KindsGathered(places, PrintPlace, PlaceKinds);
  }

  // ------------------------------------------------------------------------- running the parser

  lemma AppendMapped<T, U>(done: seq<U>, s: seq<T>, f: T -> U)
    requires s != []
    ensures done + [f(s[0])] + Map(s[1..], f) == done + Map(s, f)
  {
  }

  lemma {:induction false} RunBody(st: ParseState, body: seq<HunkLine>)
    requires st.body.Some? && st.current.Some?
    ensures Run(st, Map(body, BodyKind)) == st.(body := Some(st.body.value + Map(body, WithFeed)))
    decreases |body|
  {
    if body == [] {
      assert st.body.value + [] == st.body.value;
    } else {
      var st' := st.(body := Some(st.body.value + [WithFeed(body[0])]));
      assert Advance(st, BodyKind(body[0])) == st';
      MapTail(body, BodyKind);
      RunBody(st', body[1..]);
      AppendMapped(st.body.value, body, WithFeed);
    }
  }

  lemma MapTail<T, U>(s: seq<T>, f: T -> U)
    requires s != []
    ensures Map(s, f)[1..] == Map(s[1..], f)
  {
  }

  lemma RunChange(st: ParseState, start: nat, body: seq<HunkLine>)
    requires st.current.Some?
    ensures Run(st, [HunkStart(start)] + Map(body, BodyKind))
         == ParseState(st.files, st.current, st.Read(), Some(Map(body, WithFeed)), start)
  {
    var (first, kinds) := (HunkStart(start), Map(body, BodyKind));
    assert ([first] + kinds)[1..] == kinds;
    RunBody(ParseState(st.files, st.current, st.Read(), Some([]), start), body);
    assert [] + Map(body, WithFeed) == Map(body, WithFeed);
  }

  /** The parser keeps its files and its path, and reads some hunks more. */
  ghost predicate Reads(st: ParseState, st': ParseState, hunks: seq<Hunk>) {
    st'.files == st.files && st'.current == st.current && st'.Read() == st.Read() + hunks
  }

  function OneHunk(at: Place): seq<Hunk> { if HunkAt(at).Some? then [HunkAt(at).value] else [] }

  lemma RunPlace(st: ParseState, at: Place)
    requires st.current.Some?
    ensures Reads(st, Run(st, PlaceKinds(at)), OneHunk(at))
  {
    if at.piece.Change? {
      RunChange(st, StartOf(at.o, |Before(at.piece)|), at.piece.body);
    } else {
      assert st.Read() + [] == st.Read();
    }
  }

  lemma ReadsOn(st: ParseState, st1: ParseState, st2: ParseState, a: seq<Hunk>, b: seq<Hunk>)
    requires Reads(st, st1, a) && Reads(st1, st2, b)
    ensures Reads(st, st2, a + b)
  {
  }

  /** Read in turn, for any way of printing and of reading one place. */
  lemma {:induction false} RunEach<T>(
    st: ParseState, s: seq<T>, kinds: T -> seq<LineKind>, hunks: T -> seq<Hunk>)
    requires st.current.Some?
    requires forall x, st0: ParseState {:trigger Run(st0, kinds(x))} ::
        x in s && st0.current.Some? ==> Reads(st0, Run(st0, kinds(x)), hunks(x))
    ensures Reads(st, Run(st, FlatMap(s, kinds)), FlatMap(s, hunks))
    decreases |s|
  {
    if s == [] {
      assert st.Read() + [] == st.Read();
    } else {
      RunConcat(st, kinds(s[0]), FlatMap(s[1..], kinds));
      var st1 := Run(st, kinds(s[0]));
      RunEach(st1, s[1..], kinds, hunks);
      ReadsOn(st, st1, Run(st1, FlatMap(s[1..], kinds)), hunks(s[0]), FlatMap(s[1..], hunks));
    }
  }

  lemma {:induction false} CollectFlat<T, U>(s: seq<T>, f: T -> Option<U>, g: T -> seq<U>)
    requires forall x :: x in s ==> g(x) == if f(x).Some? then [f(x).value] else []
    ensures FlatMap(s, g) == Collect(s, f)
  {
    if s != [] {
      CollectFlat(s[1..], f, g);
    }
  }

  /** What the hunks of a file leave behind: the same files and path, and the hunks in order. */
  lemma RunPlaces(st: ParseState, places: seq<Place>)
    requires st.current.Some?
    ensures Reads(st, Run(st, FlatMap(places, PlaceKinds)), Collect(places, HunkAt))
  {
    forall at, st0: ParseState | at in places && st0.current.Some?
      ensures Reads(st0, Run(st0, PlaceKinds(at)), OneHunk(at))
    {
      RunPlace(st0, at);
    }
    RunEach(st, places, PlaceKinds, OneHunk);
    CollectFlat(places, HunkAt, OneHunk);
  }

  lemma RunFile(st: ParseState, e: FileEdit)
    ensures var st' := Run(st, FileKinds(e));
      st'.files == st.Closed() && st'.current == Some(e.path) && st'.Read() == HunksOf(e.pieces)
  {
    var (a, b) := (OldPath(Some(e.path)), NewPath(Some(e.path)));
    var st1 := Advance(Advance(st, a), b);
    var places := Places(e.pieces, 0, 0);
    RunPlaces(st1, places);
    RunConcat(st, [a, b], FlatMap(places, PlaceKinds));
    assert [a, b][1..] == [b] && [b][1..] == [];
    assert [] + HunksOf(e.pieces) == HunksOf(e.pieces);
  }

  lemma {:induction false} AssignNew(files: seq<FilePatch>, path: string, hunks: seq<Hunk>)
    requires forall f :: f in files ==> f.path != path
    ensures Assign(files, path, hunks) == files + [FilePatch(path, hunks)]
  {
    if files != [] {
      AssignNew(files[1..], path, hunks);
      assert files == [files[0]] + files[1..];
    }
  }

  lemma {:induction false} RunFiles(edits: seq<FileEdit>)
    requires DistinctPaths(edits)
    ensures Run(START, FlatMap(edits, FileKinds)).Closed() == Collect(edits, PatchOf)
  {
    if edits != [] {
      var n := |edits| - 1;
      var (init, last) := (edits[..n], edits[n]);
      assert edits == init + [last];
      RunFiles(init);
      FlatMapConcat(init, [last], FileKinds);
      assert FlatMap([last], FileKinds) == FileKinds(last) by { assert [last][1..] == []; }
      RunConcat(START, FlatMap(init, FileKinds), FileKinds(last));
      RunFile(Run(START, FlatMap(init, FileKinds)), last);
      CollectConcat(init, [last], PatchOf);
      forall f | f in Collect(init, PatchOf) ensures f.path != last.path {
        CollectMember(init, PatchOf, f);
      }
      AssignNew(Collect(init, PatchOf), last.path, HunksOf(last.pieces));
    }
  }

  // ------------------------------------------------------------------------- unbroken lines

  lemma {:induction false} DecimalPlain(n: nat)
    ensures forall c :: c in Decimal(n) ==> !UnicodeBreak(c)
  {
    DecimalDigits(n);
  }

  lemma PlainConcat(a: string, b: string)
    requires forall c :: c in a ==> !UnicodeBreak(c)
    requires Unbroken(b, UnicodeBreak)
    ensures Unbroken(a + b, UnicodeBreak)
  {
  }

  lemma HeaderPlain(o: nat, oldCount: nat, n: nat, newCount: nat)
    ensures Unbroken(HeaderLine(o, oldCount, n, newCount), UnicodeBreak)
  {
    DecimalPlain(StartOf(o, oldCount));
    DecimalPlain(oldCount);
    DecimalPlain(StartOf(n, newCount));
    DecimalPlain(newCount);
  }

  lemma PlaceUnbroken(at: Place)
    requires PieceOk(at.piece)
    ensures forall l :: l in PrintPlace(at) ==> Unbroken(l, UnicodeBreak)
  {
    if at.piece.Change? {
      HeaderPlain(at.o, |Before(at.piece)|, at.n, |After(at.piece)|);
      forall i | 0 <= i < |at.piece.body|
        ensures Unbroken(Map(at.piece.body, PrintLine)[i], UnicodeBreak)
      {
        assert LineOk(at.piece.body[i]);
        PlainConcat([at.piece.body[i].tag], at.piece.body[i].text);
      }
    }
  }

  lemma FileUnbroken(e: FileEdit)
    requires EditOk(e)
    ensures forall l :: l in PrintFile(e) ==> Unbroken(l, UnicodeBreak)
  {
    var places := Places(e.pieces, 0, 0);
    PlainConcat("--- a/", e.path);
    PlainConcat("+++ b/", e.path);
    PlacesHold(e.pieces, 0, 0);
    forall l | l in FlatMap(places, PrintPlace) ensures Unbroken(l, UnicodeBreak) {
      FlatMapMember(places, PrintPlace, l);
      var at :| at in places && l in PrintPlace(at);
      PlaceUnbroken(at);
    }
  }

  /** The raw lines of a printed document are the printed lines. */
  lemma PrintedSplit(edits: seq<FileEdit>)
    requires forall e :: e in edits ==> EditOk(e)
    ensures SplitLines(Print(edits), UnicodeBreak) == Terminated(PrintedLines(edits))
  {
    forall l | l in PrintedLines(edits) ensures Unbroken(l, UnicodeBreak) {
      FlatMapMember(edits, PrintFile, l);
      var e :| e in edits && l in PrintFile(e);
      FileUnbroken(e);
    }
    SplitJoined(PrintedLines(edits), UnicodeBreak);
  }

  // --------------------------------------------------------------------- counting body lines

  function BodyCount(kind: LineKind): nat { if kind.Body? then 1 else 0 }

  function HunkSize(h: Hunk): nat { |h.body| }

  function PatchSize(f: FilePatch): nat { Sum(f.hunks, HunkSize) }

  function OpenSize(st: ParseState): nat { if st.body.Some? then |st.body.value| else 0 }

  /** The body lines that the parser holds. */
  function Held(st: ParseState): nat { Sum(st.files, PatchSize) + Sum(st.hunks, HunkSize) + OpenSize(st) }

  lemma {:induction false} AssignSize(files: seq<FilePatch>, path: string, hunks: seq<Hunk>)
    ensures Sum(Assign(files, path, hunks), PatchSize) <= Sum(files, PatchSize) + Sum(hunks, HunkSize)
  {
    var patch := FilePatch(path, hunks);
    assert PatchSize(patch) == Sum(hunks, HunkSize);
    if files == [] {
      SumOne(patch, PatchSize);
    } else if files[0].path == path {
      SumConcat([patch], files[1..], PatchSize);
      SumOne(patch, PatchSize);
    } else {
      AssignSize(files[1..], path, hunks);
    }
  }

  lemma ReadSize(st: ParseState)
    ensures Sum(st.Read(), HunkSize) == Sum(st.hunks, HunkSize) + OpenSize(st)
  {
    if st.body.Some? {
      var h := Hunk(st.oldStart, st.body.value);
      SumConcat(st.hunks, [h], HunkSize);
      SumOne(h, HunkSize);
    }
  }

  lemma ClosedSize(st: ParseState)
    ensures Sum(st.Closed(), PatchSize) <= Held(st)
  {
    ReadSize(st);
    if st.current.Some? {
      AssignSize(st.files, st.current.value, st.Read());
    }
  }

  lemma AdvanceHeld(st: ParseState, kind: LineKind)
    ensures Held(Advance(st, kind)) <= Held(st) + BodyCount(kind)
  {
    ReadSize(st);
    ClosedSize(st);
  }

  lemma {:induction false} RunHeld(st: ParseState, kinds: seq<LineKind>)
    ensures Held(Run(st, kinds)) <= Held(st) + Sum(kinds, BodyCount)
    decreases |kinds|
  {
    if kinds != [] {
      AdvanceHeld(st, kinds[0]);
      RunHeld(Advance(st, kinds[0]), kinds[1..]);
    }
  }

  function PlaceSize(at: Place): nat { if at.piece.Same? then 0 else |at.piece.body| }

  function EditSize(e: FileEdit): nat { Sum(Places(e.pieces, 0, 0), PlaceSize) }

  function BodiesIn(lines: seq<string>): nat { Sum(KindsIn(lines), BodyCount) }

  function PlaceBodies(at: Place): nat { BodiesIn(PrintPlace(at)) }

  function FileBodies(e: FileEdit): nat { BodiesIn(PrintFile(e)) }

  lemma BodiesConcat(a: seq<string>, b: seq<string>)
    ensures BodiesIn(a + b) == BodiesIn(a) + BodiesIn(b)
  {
    KindsConcat(a, b);
    SumConcat(KindsIn(a), KindsIn(b), BodyCount);
  }

  lemma BodiesOne(line: string)
    ensures BodiesIn([line]) == BodyCount(Classify(line + "\n"))
  {
    KindsOne(line);
    SumOne(Classify(line + "\n"), BodyCount);
  }

  /** A header-like line is not read as a body line. */
  lemma BodyLost(l: HunkLine)
    requires HeaderLike(l)
    ensures BodyCount(Classify(PrintLine(l) + "\n")) == 0
  {
    HeaderLikeIff(l);
    FeedStripped(PrintLine(l));
  }

  lemma {:induction false} BodyLinesCounted(body: seq<HunkLine>)
    requires forall l :: l in body ==> LineOk(l)
    ensures BodiesIn(Map(body, PrintLine)) <= |body|
    ensures BodiesIn(Map(body, PrintLine)) == |body| <==> forall l :: l in body ==> !HeaderLike(l)
  {
    if body != [] {
      var l := body[0];
      BodyLinesCounted(body[1..]);
      assert Map(body, PrintLine) == [PrintLine(l)] + Map(body[1..], PrintLine);
      BodiesConcat([PrintLine(l)], Map(body[1..], PrintLine));
      BodiesOne(PrintLine(l));
      if HeaderLike(l) { BodyLost(l); } else { BodyClassified(l); }
      assert body == [l] + body[1..];
    }
  }

  lemma PlaceCounted(at: Place)
    requires PieceOk(at.piece)
    ensures PlaceBodies(at) <= PlaceSize(at)
    ensures PlaceBodies(at) == PlaceSize(at) <==>
              (at.piece.Change? ==> forall l :: l in at.piece.body ==> !HeaderLike(l))
  {
    if at.piece.Change? {
      var header := HeaderLine(at.o, |Before(at.piece)|, at.n, |After(at.piece)|);
      HeaderClassified(at.o, |Before(at.piece)|, at.n, |After(at.piece)|);
      BodiesOne(header);
      BodyLinesCounted(at.piece.body);
      BodiesConcat([header], Map(at.piece.body, PrintLine));
    }
  }

  lemma {:induction false} PlacesCover(ps: seq<Piece>, o: nat, n: nat, p: Piece)
    requires p in ps
    ensures exists at :: at in Places(ps, o, n) && at.piece == p
    decreases |ps|
  {
    var (o', n') := (o + |Before(ps[0])|, n + |After(ps[0])|);
    if p == ps[0] {
      assert Place(p, o, n) in Places(ps, o, n);
    } else {
      PlacesCover(ps[1..], o', n', p);
      var at :| at in Places(ps[1..], o', n') && at.piece == p;
      assert at in Places(ps, o, n);
    }
  }

  lemma FileCounted(e: FileEdit)
    requires EditOk(e)
    ensures FileBodies(e) <= EditSize(e)
    ensures FileBodies(e) == EditSize(e) <==> Unmistakable(e)
  {
    var places := Places(e.pieces, 0, 0);
    HeadingCounted(e);
    SumPlaces(places);
    PlacesHold(e.pieces, 0, 0);
    forall at | at in places
      ensures PlaceBodies(at) <= PlaceSize(at)
      ensures PlaceBodies(at) == PlaceSize(at) <==>
                (at.piece.Change? ==> forall l :: l in at.piece.body ==> !HeaderLike(l))
    {
      PlaceCounted(at);
    }
    SumBelow(places, PlaceBodies, PlaceSize);
    forall p | p in e.pieces ensures exists at :: at in places && at.piece == p {
      PlacesCover(e.pieces, 0, 0, p);
    }
  }

  lemma SumPlaces(places: seq<Place>)
    ensures BodiesIn(FlatMap(places, PrintPlace)) == Sum(places, PlaceBodies)
  {
    BodiesGathered(places, PrintPlace, PlaceBodies);
  }

  lemma {:induction false} BodiesGathered<T>(s: seq<T>, printed: T -> seq<string>, each: T -> nat)
    requires forall x :: x in s ==> each(x) == BodiesIn(printed(x))
    ensures BodiesIn(FlatMap(s, printed)) == Sum(s, each)
  {
    if s != [] {
      BodiesGathered(s[1..], printed, each);
      BodiesConcat(printed(s[0]), FlatMap(s[1..], printed));
    }
  }

  lemma HeadingCounted(e: FileEdit)
    requires EditOk(e)
    ensures FileBodies(e) == BodiesIn(FlatMap(Places(e.pieces, 0, 0), PrintPlace))
  {
    var (a, b) := ("--- a/" + e.path, "+++ b/" + e.path);
    PathsClassified(e.path);
    BodiesOne(a);
    BodiesOne(b);
    BodiesConcat([a], [b]);
    assert [a, b] == [a] + [b];
    BodiesConcat([a, b], FlatMap(Places(e.pieces, 0, 0), PrintPlace));
  }

  /** The wanted patches hold every body line of the edits. */
  lemma WantedSize(edits: seq<FileEdit>)
    ensures Sum(Collect(edits, PatchOf), PatchSize) == Sum(edits, EditSize)
  {
    forall e | e in edits
      ensures EditSize(e) == if PatchOf(e).Some? then PatchSize(PatchOf(e).value) else 0
    {
      SumCollect(Places(e.pieces, 0, 0), HunkAt, HunkSize, PlaceSize);
    }
    SumCollect(edits, PatchOf, PatchSize, EditSize);
  }

  /** A printed document is read back as the patches it was printed from exactly when no changed line
      begins like a file header: such a line is lost, whatever the parser makes of the rest. */
  lemma ParsePrinted(edits: seq<FileEdit>)
    requires DistinctPaths(edits) && forall e :: e in edits ==> EditOk(e)
    ensures Parse(Print(edits)) == Collect(edits, PatchOf) <==> forall e :: e in edits ==> Unmistakable(e)
  {
    PrintedSplit(edits);
    if forall e :: e in edits ==> Unmistakable(e) {
      forall e | e in edits ensures KindsIn(PrintFile(e)) == FileKinds(e) {
        FileKindsRead(e);
      }
      KindsGathered(edits, PrintFile, FileKinds);
      RunFiles(edits);
    } else {
      var kinds := KindsIn(PrintedLines(edits));
      RunHeld(START, kinds);
      ClosedSize(Run(START, kinds));
      WantedSize(edits);
      forall e | e in edits
        ensures FileBodies(e) <= EditSize(e) && (FileBodies(e) == EditSize(e) <==> Unmistakable(e))
      {
        FileCounted(e);
      }
      SumBelow(edits, FileBodies, EditSize);
      BodiesGathered(edits, PrintFile, FileBodies);
    }
  }
}
