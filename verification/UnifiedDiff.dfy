/** The unified-diff parser and applier of `artifacts/bound_workspace.py`.

    The format is the "Diff -u or -U Output Format" of the `diff` utility in IEEE Std 1003.1. The parser
    ignores the counts of a hunk header, and takes any line that begins like a file header for one.
 */
module UnifiedDiff {
  import opened Sequences
  import opened TextLines

  datatype HunkLine = HunkLine(tag: char, text: string)

  datatype Hunk = Hunk(start: int, body: seq<HunkLine>)

  datatype FilePatch = FilePatch(path: string, hunks: seq<Hunk>)

  predicate Ends(t: string) { t != [] && t[|t| - 1] == '\n' }

  /** `_line_body`: a line without its line feed. */
  function LineBody(t: string): string { if Ends(t) then t[..|t| - 1] else t }

  // -------------------------------------------------------------------------- header lines

  predicate IsDigit(c: char) { '0' <= c <= '9' }

  function DigitCount(s: string): (n: nat)
    ensures n <= |s|
  {
    if s == [] || !IsDigit(s[0]) then 0 else 1 + DigitCount(s[1..])
  }

  function Value(s: string): nat {
    if s == [] then 0
    else 10 * Value(s[..|s| - 1]) + (if IsDigit(s[|s| - 1]) then s[|s| - 1] as int - '0' as int else 0)
  }

  /** `(?:,(\d+))?` */
  function SkipCount(s: string): string {
    if s != [] && s[0] == ',' && DigitCount(s[1..]) > 0 then s[1 + DigitCount(s[1..])..] else s
  }

  /** ` \+(\d+)(?:,(\d+))? @@` */
  predicate NewRange(s: string) {
    " +" <= s && DigitCount(s[2..]) > 0 && " @@" <= SkipCount(s[2..][DigitCount(s[2..])..])
  }

  /** `_HUNK_HEADER`: the old start, which is all that the parser keeps of a hunk header. */
  function HunkHeader(line: string): Option<nat> {
    if !("@@ -" <= line) then None
    else
      var range := line[4..];
      var n := DigitCount(range);
      if n > 0 && NewRange(SkipCount(range[n..])) then Some(Value(range[..n])) else None
  }

  /** `_DIFF_PATH`. */
  function DiffPath(line: string): Option<string> {
    if ("--- " <= line || "+++ " <= line) && |line| > 6 && (line[4] == 'a' || line[4] == 'b') && line[5] == '/'
    then Some(line[6..]) else None
  }

  // ------------------------------------------------------------------------------ the parser

  datatype ParseState = ParseState(
    files: seq<FilePatch>, current: Option<string>, hunks: seq<Hunk>, body: Option<seq<HunkLine>>, oldStart: int)
  {
    /** The hunks read so far for the current file, the open one included. */
    function Read(): seq<Hunk> {
      if body.Some? then hunks + [Hunk(oldStart, body.value)] else hunks
    }

    /** The files once the current one is closed. */
    function Closed(): seq<FilePatch> {
      if current.Some? && Read() != [] then Assign(files, current.value, Read()) else files
    }
  }

  const START := ParseState([], None, [], None, 0)

  /** Assignment into an insertion-ordered dictionary. */
  function Assign(files: seq<FilePatch>, path: string, hunks: seq<Hunk>): seq<FilePatch> {
    if files == [] then [FilePatch(path, hunks)]
    else if files[0].path == path then [FilePatch(path, hunks)] + files[1..]
    else [files[0]] + Assign(files[1..], path, hunks)
  }

  /** What the parser takes a raw line for. */
  datatype LineKind = OldPath(path: Option<string>) | NewPath(path: Option<string>) | HunkStart(start: nat)
                    | Body(line: HunkLine) | Ignored

  function Classify(raw: string): LineKind {
    var line := LineBody(raw);
    var ending := if Ends(raw) then "\n" else "";
    if "--- " <= line then OldPath(DiffPath(line))
    else if "+++ " <= line then NewPath(DiffPath(line))
    else if HunkHeader(line).Some? then HunkStart(HunkHeader(line).value)
    else if line == [] then Body(HunkLine(' ', ending))
    else if line[0] == ' ' || line[0] == '+' || line[0] == '-' then Body(HunkLine(line[0], line[1..] + ending))
    else Ignored
  }

  /** What a line of a kind does to the parser. */
  function Advance(st: ParseState, kind: LineKind): ParseState {
    match kind
    case OldPath(path) => ParseState(st.Closed(), path, [], None, st.oldStart)
    case NewPath(path) => if path.Some? then st.(current := path) else st
    case HunkStart(start) => ParseState(st.files, st.current, st.Read(), Some([]), start)
    case Body(line) =>
      if st.body.None? || st.current.None? then st else st.(body := Some(st.body.value + [line]))
    case Ignored => st
  }

  function Run(st: ParseState, kinds: seq<LineKind>): ParseState
    decreases |kinds|
  {
    if kinds == [] then st else Run(Advance(st, kinds[0]), kinds[1..])
  }

  function Parse(text: string): seq<FilePatch> {
    Run(START, Map(SplitLines(text, UnicodeBreak), Classify)).Closed()
  }

  lemma {:induction false} RunConcat(st: ParseState, a: seq<LineKind>, b: seq<LineKind>)
    ensures Run(st, a + b) == Run(Run(st, a), b)
    decreases |a|
  {
    if a == [] {
      assert a + b == b;
    } else {
      RunConcat(Advance(st, a[0]), a[1..], b);
      assert (a + b)[1..] == a[1..] + b;
    }
  }

  lemma RunOne(st: ParseState, kinds: seq<LineKind>, kind: LineKind)
    ensures Run(st, kinds + [kind]) == Advance(Run(st, kinds), kind)
  {
    RunConcat(st, kinds, [kind]);
    assert [kind][1..] == [];
  }

  /** The parser after the first `i` raw lines. */
  function StateAfter(raws: seq<string>, i: nat): ParseState
    requires i <= |raws|
  {
    Run(START, Map(raws[..i], Classify))
  }

  lemma StateStep(raws: seq<string>, i: nat)
    requires i < |raws|
    ensures StateAfter(raws, i + 1) == Advance(StateAfter(raws, i), Classify(raws[i]))
  {
    MapTakeOne(raws, i, Classify);
    RunOne(START, Map(raws[..i], Classify), Classify(raws[i]));
  }

  /** The body of the line loop. */
  method ReadLine(raw: string, files: seq<FilePatch>, current: Option<string>, hunks: seq<Hunk>,
                  body: Option<seq<HunkLine>>, oldStart: int)
    returns (files': seq<FilePatch>, current': Option<string>, hunks': seq<Hunk>, body': Option<seq<HunkLine>>,
             oldStart': int)
    ensures ParseState(files', current', hunks', body', oldStart')
         == Advance(ParseState(files, current, hunks, body, oldStart), Classify(raw))
  {
    files', current', hunks', body', oldStart' := files, current, hunks, body, oldStart;
    var line := LineBody(raw);
    if "--- " <= line {
      if body.Some? {
        hunks' := hunks + [Hunk(oldStart, body.value)];
        body' := None;
      }
      if current.Some? && hunks' != [] {
        files' := Assign(files, current.value, hunks');
      }
      current', hunks' := DiffPath(line), [];
      return;
    }
    if "+++ " <= line {
      var path := DiffPath(line);
      if path.Some? {
        current' := path;
      }
      return;
    }
    var header := HunkHeader(line);
    if header.Some? {
      if body.Some? {
        hunks' := hunks + [Hunk(oldStart, body.value)];
      }
      oldStart', body' := header.value, Some([]);
      return;
    }
    if body.None? || current.None? {
      return;
    }
    if line == [] {
      body' := Some(body.value + [HunkLine(' ', if Ends(raw) then "\n" else "")]);
    } else if line[0] == ' ' || line[0] == '+' || line[0] == '-' {
      body' := Some(body.value + [HunkLine(line[0], line[1..] + if Ends(raw) then "\n" else "")]);
    }
  }

  /** `_parse_unified_diff`. */
  method ParseUnifiedDiff(text: string) returns (files: seq<FilePatch>)
    ensures files == Parse(text)
  {
    files := [];
    var current: Option<string> := None;
    var hunks: seq<Hunk> := [];
    var body: Option<seq<HunkLine>> := None;
    var oldStart := 0;
    var raws := SplitLines(text, UnicodeBreak);
    for i := 0 to |raws|
      invariant ParseState(files, current, hunks, body, oldStart) == StateAfter(raws, i)
    {
      StateStep(raws, i);
      files, current, hunks, body, oldStart := ReadLine(raws[i], files, current, hunks, body, oldStart);
    }
    TakeAll(raws);
    if body.Some? {
      hunks := hunks + [Hunk(oldStart, body.value)];
    }
    if current.Some? && hunks != [] {
      files := Assign(files, current.value, hunks);
    }
  }

  // ----------------------------------------------------------------------------- the applier

  function OldSide(body: seq<HunkLine>): seq<string> {
    if body == [] then []
    else if body[0].tag == ' ' || body[0].tag == '-' then [body[0].text] + OldSide(body[1..])
    else OldSide(body[1..])
  }

  function NewSide(body: seq<HunkLine>): seq<string> {
    if body == [] then []
    else if body[0].tag == ' ' || body[0].tag == '+' then [body[0].text] + NewSide(body[1..])
    else NewSide(body[1..])
  }

  /** The lines from `start` on match the given ones, line feeds aside. */
  predicate MatchesAt(lines: seq<string>, start: int, given: seq<string>) {
    && 0 <= start && start + |given| <= |lines|
    && forall i :: 0 <= i < |given| ==> LineBody(lines[start + i]) == LineBody(given[i])
  }

  function Spliced(lines: seq<string>, start: int, count: nat, given: seq<string>): seq<string>
    requires 0 <= start && start + count <= |lines|
  {
    lines[..start] + given + lines[start + count..]
  }

  datatype Turn = Turn(lines: seq<string>, offset: int)

  /** One hunk, at its own start moved by the running offset. */
  function TakeHunk(lines: seq<string>, offset: int, h: Hunk): Option<Turn> {
    var (start, was, now) := (h.start - 1 + offset, OldSide(h.body), NewSide(h.body));
    if !MatchesAt(lines, start, was) then None
    else Some(Turn(Spliced(lines, start, |was|, now), offset + |now| - |was|))
  }

  /** Hunk after hunk. */
  function ApplyInTurn(lines: seq<string>, offset: int, hunks: seq<Hunk>): Option<seq<string>>
    decreases |hunks|
  {
    if hunks == [] then Some(lines)
    else
      match TakeHunk(lines, offset, hunks[0])
      case None => None
      case Some(turn) => ApplyInTurn(turn.lines, turn.offset, hunks[1..])
  }

  /** The final line-feed fix-up. */
  function Finished(original: string, lines: seq<string>): string {
    var text := Join(lines);
    if Ends(original) && !Ends(text) then text + "\n" else text
  }

  function Applied(original: string, hunks: seq<Hunk>): Option<string> {
    match ApplyInTurn(SplitLines(original, UnicodeBreak), 0, hunks)
    case None => None
    case Some(lines) => Some(Finished(original, lines))
  }

  method Sides(body: seq<HunkLine>) returns (was: seq<string>, now: seq<string>)
    ensures was == OldSide(body) && now == NewSide(body)
  {
    was, now := [], [];
    for i := 0 to |body|
      invariant was + OldSide(body[i..]) == OldSide(body)
      invariant now + NewSide(body[i..]) == NewSide(body)
    {
      assert body[i..][0] == body[i] && body[i..][1..] == body[i + 1..];
      if body[i].tag == ' ' || body[i].tag == '-' {
        was := was + [body[i].text];
      }
      if body[i].tag == ' ' || body[i].tag == '+' {
        now := now + [body[i].text];
      }
    }
  }

  type Turns = (seq<string>, int, seq<Hunk>) -> Option<seq<string>>

  function Then(run: Turns, turn: Option<Turn>, hs: seq<Hunk>): Option<seq<string>> {
    if turn.None? then None else run(turn.value.lines, turn.value.offset, hs)
  }

  ghost predicate TakesAt(run: Turns, h: Hunk, hs: seq<Hunk>, lines: seq<string>, offset: int) {
    run(lines, offset, [h] + hs) == Then(run, TakeHunk(lines, offset, h), hs)
  }

  /** A way of applying hunks that takes one hunk more as the applier does. */
  ghost predicate TakesHunks(run: Turns) {
    && (forall h, hs, lines, offset :: TakesAt(run, h, hs, lines, offset))
    && (forall lines, offset :: run(lines, offset, []) == Some(lines))
  }

  lemma TurnUnfolded(lines: seq<string>, offset: int, h: Hunk, hs: seq<Hunk>)
    ensures TakesAt(ApplyInTurn, h, hs, lines, offset)
  {
    assert ([h] + hs)[1..] == hs;
  }

  lemma ApplierTakesHunks()
    ensures TakesHunks(ApplyInTurn)
  {
    forall h, hs, lines, offset ensures TakesAt(ApplyInTurn, h, hs, lines, offset) {
      TurnUnfolded(lines, offset, h, hs);
    }
  }

  /** The loop of `_apply_hunks`: the line list is rewritten in place, hunk after hunk. */
  method Rewrite(original: seq<string>, hunks: seq<Hunk>, ghost run: Turns) returns (r: Option<seq<string>>)
    requires TakesHunks(run)
    ensures r == run(original, 0, hunks)
  {
    var lines, offset := original, 0;
    for k := 0 to |hunks|
      invariant run(lines, offset, hunks[k..]) == run(original, 0, hunks)
    {
      assert hunks[k..] == [hunks[k]] + hunks[k + 1..];
      assert TakesAt(run, hunks[k], hunks[k + 1..], lines, offset);
      var was, now := Sides(hunks[k].body);
      var start := hunks[k].start - 1 + offset;
      if !MatchesAt(lines, start, was) {
        return None;
      }
      lines := lines[..start] + now + lines[start + |was|..];
      offset := offset + |now| - |was|;
    }
    return Some(lines);
  }

  /** `_apply_hunks` */
  method ApplyHunks(original: string, hunks: seq<Hunk>) returns (r: Option<string>)
    ensures r == Applied(original, hunks)
  {
    ApplierTakesHunks();
    var lines := Rewrite(SplitLines(original, UnicodeBreak), hunks, ApplyInTurn);
    if lines.None? {
      return None;
    }
    var text := Join(lines.value);
    if Ends(original) && !Ends(text) {
      text := text + "\n";
    }
    return Some(text);
  }

  // --------------------------------------------------------------------------- whole documents

  datatype ApplyError = ApplyError(path: string, reason: string)

  /** `_unsafe_diff_path`. */
  predicate UnsafePath(path: string) { path == [] || path[0] == '/' || ".." in Segments(path) }

  function PatchOne(patch: FilePatch, seeds: map<string, string>): Result<string, ApplyError> {
    if UnsafePath(patch.path) then Failure(ApplyError(patch.path, "unsafe_path"))
    else if patch.path !in seeds then Failure(ApplyError(patch.path, "not_in_seed"))
    else
      match Applied(seeds[patch.path], patch.hunks)
      case None => Failure(ApplyError(patch.path, "hunk_mismatch"))
      case Some(text) => Success(text)
  }

  type Patcher = FilePatch -> Result<string, ApplyError>

  function PatcherOf(seeds: map<string, string>): Patcher { patch => PatchOne(patch, seeds) }

  /** A file whose text stays the same is not recorded. */
  function Record(patched: map<string, string>, path: string, text: string, seeds: map<string, string>)
    : map<string, string>
  {
    if path in seeds && seeds[path] == text then patched else patched[path := text]
  }

  /** All the files in turn; the first one that fails decides. */
  function PatchEach(patches: seq<FilePatch>, seeds: map<string, string>, one: Patcher)
    : Result<map<string, string>, ApplyError>
  {
    if patches == [] then Success(map[])
    else
      var (earlier, last) := (patches[..|patches| - 1], patches[|patches| - 1]);
      match PatchEach(earlier, seeds, one)
      case Failure(e) => Failure(e)
      case Success(patched) =>
        match one(last)
        case Failure(e) => Failure(e)
        case Success(text) => Success(Record(patched, last.path, text, seeds))
  }

  function PatchAll(patches: seq<FilePatch>, seeds: map<string, string>): Result<map<string, string>, ApplyError> {
    PatchEach(patches, seeds, PatcherOf(seeds))
  }

  lemma EachStep(patches: seq<FilePatch>, i: nat, seeds: map<string, string>, one: Patcher)
    requires i < |patches| && PatchEach(patches[..i], seeds, one).Success? && one(patches[i]).Success?
    ensures PatchEach(patches[..i + 1], seeds, one) ==
              Success(Record(PatchEach(patches[..i], seeds, one).value, patches[i].path, one(patches[i]).value, seeds))
  {
    assert patches[..i + 1][..i] == patches[..i];
  }

  lemma {:induction false} FirstFailure(patches: seq<FilePatch>, i: nat, seeds: map<string, string>, one: Patcher)
    requires i < |patches| && PatchEach(patches[..i], seeds, one).Success? && one(patches[i]).Failure?
    ensures PatchEach(patches, seeds, one) == Failure(one(patches[i]).error)
    decreases |patches|
  {
    var n := |patches| - 1;
    if i < n {
      assert patches[..n][..i] == patches[..i] && patches[..n][i] == patches[i];
      FirstFailure(patches[..n], i, seeds, one);
    }
  }

  /** `files_patched_by_unified_diff`: all the files that change, or the refusal of the whole document. */
  method FilesPatchedByUnifiedDiff(text: string, seeds: map<string, string>)
    returns (r: Result<map<string, string>, ApplyError>)
    ensures r == PatchAll(Parse(text), seeds)
  {
    var patches := ParseUnifiedDiff(text);
    var patched: map<string, string> := map[];
    ghost var one := PatcherOf(seeds);
    for i := 0 to |patches|
      invariant PatchEach(patches[..i], seeds, one) == Success(patched)
    {
      var result := PatchFile(patches[i], seeds);
      if result.Failure? {
        FirstFailure(patches, i, seeds, one);
        return Failure(result.error);
      }
      EachStep(patches, i, seeds, one);
      if result.value != seeds[patches[i].path] {
        patched := patched[patches[i].path := result.value];
      }
    }
    TakeAll(patches);
    return Success(patched);
  }

  method PatchFile(patch: FilePatch, seeds: map<string, string>) returns (r: Result<string, ApplyError>)
    ensures r == PatchOne(patch, seeds) && (r.Success? ==> patch.path in seeds)
  {
    if UnsafePath(patch.path) {
      return Failure(ApplyError(patch.path, "unsafe_path"));
    }
    if patch.path !in seeds {
      return Failure(ApplyError(patch.path, "not_in_seed"));
    }
    var result := ApplyHunks(seeds[patch.path], patch.hunks);
    if result.None? {
      return Failure(ApplyError(patch.path, "hunk_mismatch"));
    }
    return Success(result.value);
  }
}
