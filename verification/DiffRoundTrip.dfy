/** Applying a printed edit to the texts it was made from, and taking it back.

    A range without old lines is printed with the line before it as its start, as the "Diff -u or -U
    Output Format" of the `diff` utility in IEEE Std 1003.1 has it, while the applier inserts one line
    above that. So an insertion is put right only when it repeats the line before it.
 */
module DiffRoundTrip {
  import opened Sequences
  import opened TextLines
  import opened UnifiedDiff
  import opened DiffPrinting

  predicate IsInsertion(p: Piece) { p.Change? && OldSide(p.body) == [] }

  /** Lines put above the last of `done`. */
  function Above(done: seq<string>, lines: seq<string>): seq<string>
    requires done != []
  {
    done[..|done| - 1] + lines + [done[|done| - 1]]
  }

  /** The lines after one piece more: an insertion lands above the last line so far. */
  function Next(done: seq<string>, p: Piece): Option<seq<string>> {
    if !IsInsertion(p) then Some(done + After(p))
    else if done == [] then None
    else Some(Above(done, After(p)))
  }

  function Outcome(done: seq<string>, ps: seq<Piece>): Option<seq<string>>
    decreases |ps|
  {
    if ps == [] then Some(done)
    else
      match Next(done, ps[0])
      case None => None
      case Some(done') => Outcome(done', ps[1..])
  }

  ghost predicate AllEqual(lines: seq<string>, line: string) { forall l :: l in lines ==> l == line }

  /** Every insertion has a line before it and repeats that line. */
  ghost predicate Repeating(done: seq<string>, ps: seq<Piece>)
    decreases |ps|
  {
    ps != [] ==>
      && (IsInsertion(ps[0]) ==> done != [] && AllEqual(NewSide(ps[0].body), done[|done| - 1]))
      && Repeating(done + After(ps[0]), ps[1..])
  }

  // ---------------------------------------------------------------- the applier on printed hunks

  lemma {:induction false} SidesFed(body: seq<HunkLine>)
    ensures OldSide(Map(body, WithFeed)) == Terminated(OldSide(body))
    ensures NewSide(Map(body, WithFeed)) == Terminated(NewSide(body))
  {
    if body != [] {
      SidesFed(body[1..]);
    }
  }

  lemma PlaceMatched(a: seq<string>, b: seq<string>, c: seq<string>)
    ensures MatchesAt(a + b + c, |a|, b)
  {
    assert forall i {:trigger b[i]} :: 0 <= i < |b| ==> (a + b + c)[|a| + i] == b[i];
  }

  lemma PlaceSpliced(a: seq<string>, b: seq<string>, c: seq<string>, now: seq<string>)
    ensures Spliced(a + b + c, |a|, |b|, now) == a + now + c
  {
    assert (a + b + c)[..|a|] == a;
    assert (a + b + c)[|a| + |b|..] == c;
  }

  /** A hunk that stands where its old lines are. */
  lemma TakenAt(a: seq<string>, c: seq<string>, offset: int, h: Hunk)
    requires h.start - 1 + offset == |a|
    ensures var (was, now) := (OldSide(h.body), NewSide(h.body));
      TakeHunk(a + was + c, offset, h) == Some(Turn(a + now + c, offset + |now| - |was|))
  {
    PlaceMatched(a, OldSide(h.body), c);
    PlaceSpliced(a, OldSide(h.body), c, NewSide(h.body));
  }

  lemma AtHunk(run: Turns, a: seq<string>, c: seq<string>, offset: int, h: Hunk, hs: seq<Hunk>)
    requires TakesHunks(run) && h.start - 1 + offset == |a|
    ensures var (was, now) := (OldSide(h.body), NewSide(h.body));
      run(a + was + c, offset, [h] + hs) == run(a + now + c, offset + |now| - |was|, hs)
  {
    assert TakesAt(run, h, hs, a + OldSide(h.body) + c, offset);
    TakenAt(a, c, offset, h);
  }

  /** A hunk that only inserts lands above the last line so far. */
  lemma AtInsertion(run: Turns, done: seq<string>, rest: seq<string>, offset: int, h: Hunk, hs: seq<Hunk>)
    requires TakesHunks(run) && done != [] && h.start + offset == |done| && OldSide(h.body) == []
    ensures var now := NewSide(h.body);
      run(done + rest, offset, [h] + hs) == run(Above(done, now) + rest, offset + |now|, hs)
  {
    var (init, tail) := (done[..|done| - 1], [done[|done| - 1]] + rest);
    assert done + rest == init + [] + tail;
    assert Above(done, NewSide(h.body)) + rest == init + NewSide(h.body) + tail;
    AtHunk(run, init, tail, offset, h, hs);
  }

  function HunkOf(p: Piece, o: nat): seq<Hunk> {
    if p.Same? then [] else [Hunk(StartOf(o, |Before(p)|), p.body)]
  }

  function HunksFrom(ps: seq<Piece>, o: nat): seq<Hunk> {
    if ps == [] then [] else HunkOf(ps[0], o) + HunksFrom(ps[1..], o + |Before(ps[0])|)
  }

  /** One piece, given what the applier makes of the hunks after it. */
  lemma PieceStep(run: Turns, done: seq<string>, p: Piece, o: nat, rest: seq<string>, hs: seq<Hunk>)
    requires TakesHunks(run)
    ensures run(done + (Before(p) + rest), |done| - o, HunkOf(p, o) + hs) ==
              match Next(done, p)
              case None => None
              case Some(done') => run(done' + rest, |done'| - (o + |Before(p)|), hs)
  {
    assert done + (Before(p) + rest) == done + Before(p) + rest;
    if p.Same? {
      assert [] + hs == hs;
    } else {
      var h := Hunk(StartOf(o, |Before(p)|), p.body);
      if !IsInsertion(p) {
        AtHunk(run, done, rest, |done| - o, h, hs);
      } else {
        assert done + Before(p) + rest == done + rest;
        if done == [] {
          assert TakesAt(run, h, hs, done + (Before(p) + rest), |done| - o);
        } else {
          AtInsertion(run, done, rest, |done| - o, h, hs);
        }
      }
    }
  }

  /** The applier on printed hunks, insertions included. */
  lemma {:induction false} OutcomeReached(run: Turns, done: seq<string>, ps: seq<Piece>, o: nat)
    requires TakesHunks(run)
    ensures run(done + LinesBefore(ps), |done| - o, HunksFrom(ps, o)) == Outcome(done, ps)
    decreases |ps|
  {
    if ps == [] {
      assert done + LinesBefore(ps) == done;
    } else {
      var o' := o + |Before(ps[0])|;
      PieceStep(run, done, ps[0], o, LinesBefore(ps[1..]), HunksFrom(ps[1..], o'));
      var next := Next(done, ps[0]);
      if next.Some? {
        OutcomeReached(run, next.value, ps[1..], o');
      }
    }
  }

  // ------------------------------------------------------------------- lines with their line feed

  function Fed(p: Piece): Piece {
    if p.Same? then Same(Terminated(p.lines)) else Change(Map(p.body, WithFeed))
  }

  lemma FedSides(p: Piece)
    ensures Before(Fed(p)) == Terminated(Before(p)) && After(Fed(p)) == Terminated(After(p))
    ensures |Before(Fed(p))| == |Before(p)| && |After(Fed(p))| == |After(p)|
    ensures IsInsertion(Fed(p)) <==> IsInsertion(p)
  {
    TerminatedAt(Before(p));
    TerminatedAt(After(p));
    if p.Change? { SidesFed(p.body); }
  }

  lemma {:induction false} PrintedHunks(ps: seq<Piece>, o: nat, n: nat)
    ensures Collect(Places(ps, o, n), HunkAt) == HunksFrom(Map(ps, Fed), o)
    decreases |ps|
  {
    if ps != [] {
      var (p, o', n') := (ps[0], o + |Before(ps[0])|, n + |After(ps[0])|);
      var (at, rest) := (Place(p, o, n), Places(ps[1..], o', n'));
      assert Places(ps, o, n) == [at] + rest && ([at] + rest)[1..] == rest;
      assert Map(ps, Fed)[1..] == Map(ps[1..], Fed);
      FedSides(p);
      PrintedHunks(ps[1..], o', n');
    }
  }

  lemma {:induction false} LinesFed(ps: seq<Piece>)
    ensures LinesBefore(Map(ps, Fed)) == Terminated(LinesBefore(ps))
  {
    if ps != [] {
      LinesFed(ps[1..]);
      FedSides(ps[0]);
      assert Map(ps, Fed)[1..] == Map(ps[1..], Fed);
      TerminatedConcat(Before(ps[0]), LinesBefore(ps[1..]));
    }
  }

  function TerminatedOption(lines: Option<seq<string>>): Option<seq<string>> {
    if lines.None? then None else Some(Terminated(lines.value))
  }

  lemma AboveFed(done: seq<string>, now: seq<string>)
    requires done != []
    ensures Terminated(done) != [] && Above(Terminated(done), Terminated(now)) == Terminated(Above(done, now))
  {
    TerminatedAt(done);
    TerminatedAt(now);
    TerminatedAt(Above(done, now));
  }

  lemma NextFed(done: seq<string>, p: Piece)
    ensures Next(Terminated(done), Fed(p)) == TerminatedOption(Next(done, p))
  {
    FedSides(p);
    if !IsInsertion(p) {
      TerminatedConcat(done, After(p));
    } else if done != [] {
      AboveFed(done, After(p));
    }
  }

  lemma {:induction false} OutcomeFed(done: seq<string>, ps: seq<Piece>)
    ensures Outcome(Terminated(done), Map(ps, Fed)) == TerminatedOption(Outcome(done, ps))
    decreases |ps|
  {
    if ps != [] {
      NextFed(done, ps[0]);
      assert Map(ps, Fed)[1..] == Map(ps[1..], Fed);
      var next := Next(done, ps[0]);
      if next.Some? {
        OutcomeFed(next.value, ps[1..]);
      }
    }
  }

  // ----------------------------------------------------------------- when the outcome is right

  /** A line above the last one is never touched again. */
  lemma {:induction false} Persists(done: seq<string>, ps: seq<Piece>, i: nat)
    requires i + 1 < |done| && Outcome(done, ps).Some?
    ensures i < |Outcome(done, ps).value| && Outcome(done, ps).value[i] == done[i]
    decreases |ps|
  {
    if ps != [] {
      Persists(Next(done, ps[0]).value, ps[1..], i);
    }
  }

  lemma {:induction false} OutcomeLength(done: seq<string>, ps: seq<Piece>)
    requires Outcome(done, ps).Some?
    ensures |Outcome(done, ps).value| == |done| + |LinesAfter(ps)|
    decreases |ps|
  {
    if ps != [] {
      OutcomeLength(Next(done, ps[0]).value, ps[1..]);
    }
  }

  /** A line moved below others shows above the last place, unless they all equal it. */
  lemma {:induction false} MovedShows(lines: seq<string>, line: string) returns (i: nat)
    requires !AllEqual(lines, line)
    ensures i < |lines| && (lines + [line])[i] != ([line] + lines)[i]
  {
    if lines[0] != line {
      i := 0;
    } else {
      assert lines == [lines[0]] + lines[1..];
      var j := MovedShows(lines[1..], line);
      i := j + 1;
      assert (lines + [line])[i] == (lines[1..] + [line])[j];
      assert ([line] + lines)[i] == ([line] + lines[1..])[j];
    }
  }

  lemma RepeatedTail(lines: seq<string>, line: string)
    requires AllEqual(lines, line)
    ensures lines + [line] == [line] + lines
  {
    forall i | 0 <= i < |lines| ensures lines[i] == line { assert lines[i] in lines; }
  }

  lemma {:induction false} OutcomeRight(done: seq<string>, ps: seq<Piece>)
    ensures Outcome(done, ps) == Some(done + LinesAfter(ps)) <==> Repeating(done, ps)
    decreases |ps|
  {
    if ps == [] {
      assert done + LinesAfter(ps) == done;
    } else {
      var (now, rest) := (After(ps[0]), ps[1..]);
      assert done + LinesAfter(ps) == done + now + LinesAfter(rest);
      OutcomeRight(done + now, rest);
      if IsInsertion(ps[0]) && done != [] {
        var (init, last) := (done[..|done| - 1], done[|done| - 1]);
        assert done == init + [last];
        if AllEqual(now, last) {
          RepeatedTail(now, last);
          assert init + now + [last] == init + (now + [last]) && done + now == init + ([last] + now);
        } else {
          InsertionShows(init, last, now, rest);
        }
      }
    }
  }

  lemma InsertionShows(init: seq<string>, last: string, now: seq<string>, rest: seq<Piece>)
    requires !AllEqual(now, last)
    ensures Outcome(init + now + [last], rest) != Some(init + [last] + now + LinesAfter(rest))
  {
    var moved := init + now + [last];
    var i := MovedShows(now, last);
    assert moved[|init| + i] == (now + [last])[i];
    if Outcome(moved, rest).Some? {
      Persists(moved, rest, |init| + i);
      assert (init + [last] + now + LinesAfter(rest))[|init| + i] == ([last] + now)[i];
    }
  }

  // -------------------------------------------------------------------------------- whole texts

  ghost predicate AllUnbroken(lines: seq<string>) { forall l :: l in lines ==> Unbroken(l, UnicodeBreak) }

  lemma {:induction false} SidesUnbroken(body: seq<HunkLine>)
    requires forall l :: l in body ==> LineOk(l)
    ensures AllUnbroken(OldSide(body)) && AllUnbroken(NewSide(body))
  {
    if body != [] {
      assert body[0] in body;
      SidesUnbroken(body[1..]);
    }
  }

  lemma LinesUnbroken(ps: seq<Piece>)
    requires forall p :: p in ps ==> PieceOk(p)
    ensures AllUnbroken(LinesBefore(ps)) && AllUnbroken(LinesAfter(ps))
  {
    forall p | p in ps ensures AllUnbroken(Before(p)) && AllUnbroken(After(p)) {
      if p.Change? { SidesUnbroken(p.body); }
    }
    forall l ensures l in LinesBefore(ps) ==> Unbroken(l, UnicodeBreak)
             ensures l in LinesAfter(ps) ==> Unbroken(l, UnicodeBreak) {
      FlatMapMember(ps, Before, l);
      FlatMapMember(ps, After, l);
    }
  }

  lemma {:induction false} OutcomeUnbroken(done: seq<string>, ps: seq<Piece>)
    requires AllUnbroken(done) && forall p :: p in ps ==> PieceOk(p)
    ensures Outcome(done, ps).Some? ==> AllUnbroken(Outcome(done, ps).value)
    decreases |ps|
  {
    if ps != [] {
      var now := After(ps[0]);
      assert PieceOk(ps[0]);
      if ps[0].Change? { SidesUnbroken(ps[0].body); }
      var next := Next(done, ps[0]);
      if next.Some? {
        forall l | l in next.value ensures Unbroken(l, UnicodeBreak) {
          assert l in now || l in done;
        }
        OutcomeUnbroken(next.value, ps[1..]);
      }
    }
  }

  lemma {:induction false} TextEnds(lines: seq<string>)
    ensures lines != [] <==> TextOf(lines) != []
    ensures lines != [] ==> Ends(TextOf(lines))
  {
    if lines != [] {
      TextEnds(lines[1..]);
    }
  }

  /** The lines of a text determine it, and the other way round. */
  lemma TextDetermines(a: seq<string>, b: seq<string>)
    requires AllUnbroken(a) && AllUnbroken(b) && TextOf(a) == TextOf(b)
    ensures a == b
  {
    SplitJoined(a, UnicodeBreak);
    SplitJoined(b, UnicodeBreak);
    TerminatedAt(a);
    TerminatedAt(b);
    forall i | 0 <= i < |a| ensures a[i] == b[i] {
      assert Terminated(a)[i] == Terminated(b)[i];
      assert a[i] == (a[i] + "\n")[..|a[i]|];
    }
  }

  function OldText(e: FileEdit): string { TextOf(LinesBefore(e.pieces)) }

  function NewText(e: FileEdit): string { TextOf(LinesAfter(e.pieces)) }

  /** What the applier needs: insertions that repeat a line, and no file left without lines. */
  ghost predicate Faithful(e: FileEdit) {
    Repeating([], e.pieces) && (LinesAfter(e.pieces) == [] ==> LinesBefore(e.pieces) == [])
  }

  function FinishedOption(original: string, lines: Option<seq<string>>): Option<string> {
    if lines.None? then None else Some(Finished(original, Terminated(lines.value)))
  }

  lemma AppliedVia(original: string, lines: seq<string>, hunks: seq<Hunk>, outcome: Option<seq<string>>)
    requires SplitLines(original, UnicodeBreak) == lines
    requires ApplyInTurn(lines, 0, hunks) == TerminatedOption(outcome)
    ensures Applied(original, hunks) == FinishedOption(original, outcome)
  {
  }

  lemma HunksTurned(run: Turns, ps: seq<Piece>)
    requires TakesHunks(run)
    ensures run(Terminated(LinesBefore(ps)), 0, HunksOf(ps)) == TerminatedOption(Outcome([], ps))
  {
    LinesFed(ps);
    PrintedHunks(ps, 0, 0);
    OutcomeFed([], ps);
    assert [] + LinesBefore(Map(ps, Fed)) == LinesBefore(Map(ps, Fed));
    OutcomeReached(run, [], Map(ps, Fed), 0);
  }

  lemma AppliedOutcome(e: FileEdit)
    requires EditOk(e)
    ensures Applied(OldText(e), HunksOf(e.pieces)) == FinishedOption(OldText(e), Outcome([], e.pieces))
  {
    var before := LinesBefore(e.pieces);
    LinesUnbroken(e.pieces);
    SplitJoined(before, UnicodeBreak);
    ApplierTakesHunks();
    HunksTurned(ApplyInTurn, e.pieces);
    AppliedVia(OldText(e), Terminated(before), HunksOf(e.pieces), Outcome([], e.pieces));
  }

  /** Exactly when the printed hunks, applied to the old text, give the new one. */
  lemma ApplyPrinted(e: FileEdit)
    requires EditOk(e)
    ensures Applied(OldText(e), HunksOf(e.pieces)) == Some(NewText(e)) <==> Faithful(e)
  {
    var (before, after, outcome) := (LinesBefore(e.pieces), LinesAfter(e.pieces), Outcome([], e.pieces));
    AppliedOutcome(e);
    OutcomeRight([], e.pieces);
    assert [] + after == after;
    TextEnds(before);
    TextEnds(after);
    if outcome.Some? {
      OutcomeLength([], e.pieces);
      OutcomeUnbroken([], e.pieces);
      LinesUnbroken(e.pieces);
      TextEnds(outcome.value);
      if TextOf(outcome.value) == TextOf(after) {
        TextDetermines(outcome.value, after);
      }
    }
  }

  // ---------------------------------------------------------------------------- whole documents

  type Reading = FileEdit -> string

  function ChangesBy(edits: seq<FileEdit>, was: Reading, now: Reading): map<string, string> {
    if edits == [] then map[]
    else
      var (init, e) := (edits[..|edits| - 1], edits[|edits| - 1]);
      if now(e) == was(e) then ChangesBy(init, was, now) else ChangesBy(init, was, now)[e.path := now(e)]
  }

  /** The files whose text the edits change, with their new text. */
  function Changes(edits: seq<FileEdit>): map<string, string> { ChangesBy(edits, OldText, NewText) }

  /** The edits were made from these texts, under paths that the applier takes. */
  ghost predicate Fits(edits: seq<FileEdit>, seeds: map<string, string>) {
    forall e :: e in edits ==> !UnsafePath(e.path) && e.path in seeds && seeds[e.path] == OldText(e)
  }

  ghost predicate Good(edits: seq<FileEdit>) {
    DistinctPaths(edits) && forall e :: e in edits ==> EditOk(e) && Unmistakable(e) && Faithful(e)
  }

  lemma EditApplied(e: FileEdit, seeds: map<string, string>)
    requires Good([e]) && Fits([e], seeds)
    ensures PatchOf(e).Some? ==> PatchOne(PatchOf(e).value, seeds) == Success(NewText(e))
    ensures PatchOf(e).None? ==> NewText(e) == OldText(e)
  {
    assert e in [e];
    ApplyPrinted(e);
    NothingApplied(OldText(e));
  }

  lemma CollectLast<T, U>(init: seq<T>, x: T, f: T -> Option<U>)
    ensures Collect(init + [x], f) == if f(x).Some? then Collect(init, f) + [f(x).value] else Collect(init, f)
  {
    CollectConcat(init, [x], f);
    assert [x][1..] == [];
  }

  lemma GoodParts(edits: seq<FileEdit>, seeds: map<string, string>)
    requires Good(edits) && Fits(edits, seeds) && edits != []
    ensures var (init, e) := (edits[..|edits| - 1], edits[|edits| - 1]);
      Good(init) && Fits(init, seeds) && Good([e]) && Fits([e], seeds)
  {
    var n := |edits| - 1;
    assert edits[n] in edits && forall e :: e in edits[..n] ==> e in edits;
  }

  /** The patches wanted for the edits, applied, change what the edits change. */
  ghost predicate Lands(edits: seq<FileEdit>, seeds: map<string, string>) {
    PatchAll(Collect(edits, PatchOf), seeds) == Success(Changes(edits))
  }

  lemma PatchAdded(init: seq<FileEdit>, e: FileEdit, seeds: map<string, string>)
    requires Lands(init, seeds) && Good([e]) && Fits([e], seeds)
    ensures Lands(init + [e], seeds)
  {
    CollectLast(init, e, PatchOf);
    EditApplied(e, seeds);
    assert e in [e] && (init + [e])[..|init|] == init;
    if PatchOf(e).Some? {
      PatchOnto(Collect(init, PatchOf), PatchOf(e).value, seeds, PatcherOf(seeds));
    }
  }

  /** Induction over edits that are good and fit, for any property. */
  lemma {:induction false} EditByEdit(
    edits: seq<FileEdit>, seeds: map<string, string>, holds: seq<FileEdit> -> bool)
    requires Good(edits) && Fits(edits, seeds) && holds([])
    requires forall init, e :: holds(init) && Good([e]) && Fits([e], seeds) ==> holds(init + [e])
    ensures holds(edits)
  {
    if edits != [] {
      GoodParts(edits, seeds);
      EditByEdit(edits[..|edits| - 1], seeds, holds);
      assert edits == edits[..|edits| - 1] + [edits[|edits| - 1]];
    }
  }

  ghost function Landing(seeds: map<string, string>): seq<FileEdit> -> bool { edits => Lands(edits, seeds) }

  lemma PatchesApplied(edits: seq<FileEdit>, seeds: map<string, string>)
    requires Good(edits) && Fits(edits, seeds)
    ensures Lands(edits, seeds)
  {
    forall init, e | Lands(init, seeds) && Good([e]) && Fits([e], seeds) ensures Lands(init + [e], seeds) {
      PatchAdded(init, e, seeds);
    }
    EditByEdit(edits, seeds, Landing(seeds));
  }

  lemma PatchOnto(patches: seq<FilePatch>, patch: FilePatch, seeds: map<string, string>, one: Patcher)
    requires PatchEach(patches, seeds, one).Success? && one(patch).Success?
    ensures PatchEach(patches + [patch], seeds, one)
         == Success(Record(PatchEach(patches, seeds, one).value, patch.path, one(patch).value, seeds))
  {
    var all := patches + [patch];
    assert all[..|patches|] == patches && all[..|patches| + 1] == all;
    EachStep(all, |patches|, seeds, one);
  }

  lemma {:induction false} SplitLossless(t: string)
    ensures Join(SplitLines(t, UnicodeBreak)) == t
  {
    if t != [] {
      SplitLossless(t[LineEnd(t, UnicodeBreak)..]);
    }
  }

  lemma NothingApplied(original: string)
    ensures Applied(original, []) == Some(original)
  {
    SplitLossless(original);
  }

  ghost predicate Listed(edits: seq<FileEdit>, path: string) { exists e :: e in edits && e.path == path }

  ghost predicate ExactFor(e: FileEdit, changes: map<string, string>, was: Reading, now: Reading) {
    if now(e) == was(e) then e.path !in changes else e.path in changes && changes[e.path] == now(e)
  }

  /** Every edit is recorded exactly if it changes its text, and nothing else is. */
  ghost predicate Exact(edits: seq<FileEdit>, changes: map<string, string>, was: Reading, now: Reading) {
    && (forall e :: e in edits ==> ExactFor(e, changes, was, now))
    && (forall path :: path in changes ==> Listed(edits, path))
  }

  lemma ExactStep(edits: seq<FileEdit>, last: FileEdit, changes: map<string, string>, was: Reading, now: Reading)
    requires Exact(edits, changes, was, now) && !Listed(edits, last.path)
    ensures Exact(edits + [last], if now(last) == was(last) then changes else changes[last.path := now(last)], was, now)
  {
    var changes' := if now(last) == was(last) then changes else changes[last.path := now(last)];
    forall e | e in edits + [last] ensures ExactFor(e, changes', was, now) {
      if e in edits {
        assert ExactFor(e, changes, was, now) && e.path != last.path;
      }
    }
    forall path | path in changes' ensures Listed(edits + [last], path) {
      if path == last.path {
        assert last in edits + [last];
      } else {
        var e :| e in edits && e.path == path;
        assert e in edits + [last];
      }
    }
  }

  lemma {:induction false} ChangesExactBy(edits: seq<FileEdit>, was: Reading, now: Reading)
    requires DistinctPaths(edits)
    ensures Exact(edits, ChangesBy(edits, was, now), was, now)
  {
    if edits != [] {
      var n := |edits| - 1;
      ChangesExactBy(edits[..n], was, now);
      ExactStep(edits[..n], edits[n], ChangesBy(edits[..n], was, now), was, now);
      assert edits == edits[..n] + [edits[n]];
    }
  }

  lemma ChangesExact(edits: seq<FileEdit>)
    requires DistinctPaths(edits)
    ensures Exact(edits, Changes(edits), OldText, NewText)
  {
    ChangesExactBy(edits, OldText, NewText);
  }

  /** Round trip. Printing the edits of any number of files, then parsing and applying what was printed to
      the old texts, gives exactly the files that change with their new texts. */
  lemma RoundTrip(edits: seq<FileEdit>, seeds: map<string, string>)
    requires Good(edits) && Fits(edits, seeds)
    ensures PatchAll(Parse(Print(edits)), seeds) == Success(Changes(edits))
    ensures forall e :: e in edits ==> (seeds + Changes(edits))[e.path] == NewText(e)
  {
    ParsePrinted(edits);
    PatchesApplied(edits, seeds);
    ChangesExact(edits);
    forall e | e in edits ensures (seeds + Changes(edits))[e.path] == NewText(e) {
      assert ExactFor(e, Changes(edits), OldText, NewText);
    }
  }

  // -------------------------------------------------------------------------------------- undo

  /** Additions and removals exchanged. */
  function SwapLine(l: HunkLine): HunkLine {
    HunkLine(if l.tag == '+' then '-' else if l.tag == '-' then '+' else l.tag, l.text)
  }

  function SwapPiece(p: Piece): Piece { if p.Same? then p else Change(Map(p.body, SwapLine)) }

  function Swapped(e: FileEdit): FileEdit { FileEdit(e.path, Map(e.pieces, SwapPiece)) }

  lemma {:induction false} SidesSwapped(body: seq<HunkLine>)
    ensures OldSide(Map(body, SwapLine)) == NewSide(body)
    ensures NewSide(Map(body, SwapLine)) == OldSide(body)
  {
    if body != [] {
      SidesSwapped(body[1..]);
    }
  }

  lemma {:induction false} LinesSwapped(ps: seq<Piece>)
    ensures LinesBefore(Map(ps, SwapPiece)) == LinesAfter(ps)
    ensures LinesAfter(Map(ps, SwapPiece)) == LinesBefore(ps)
  {
    if ps != [] {
      LinesSwapped(ps[1..]);
      if ps[0].Change? { SidesSwapped(ps[0].body); }
      assert Map(ps, SwapPiece)[1..] == Map(ps[1..], SwapPiece);
    }
  }

  /** Undo. The edits with additions and removals exchanged, printed, parsed and applied to the new texts,
      restore every text. */
  lemma Undo(edits: seq<FileEdit>, seeds: map<string, string>)
    requires Good(edits) && Fits(edits, seeds) && Good(Map(edits, Swapped))
    ensures PatchAll(Parse(Print(edits)), seeds) == Success(Changes(edits))
    ensures var now := seeds + Changes(edits);
      var back := PatchAll(Parse(Print(Map(edits, Swapped))), now);
      back.Success? && now + back.value == seeds
  {
    var swapped := Map(edits, Swapped);
    var now := seeds + Changes(edits);
    RoundTrip(edits, seeds);
    forall i | 0 <= i < |edits|
      ensures OldText(swapped[i]) == NewText(edits[i]) && NewText(swapped[i]) == OldText(edits[i])
    {
      LinesSwapped(edits[i].pieces);
    }
    forall e | e in swapped ensures !UnsafePath(e.path) && e.path in now && now[e.path] == OldText(e) {
      var i :| 0 <= i < |swapped| && swapped[i] == e;
      assert edits[i] in edits;
    }
    RoundTrip(swapped, now);
    Restored(edits, swapped, seeds);
  }

  /** Every hunk takes lines away and puts lines in their place. */
  ghost predicate Replaces(ps: seq<Piece>) {
    forall p :: p in ps && p.Change? ==> OldSide(p.body) != [] && NewSide(p.body) != []
  }

  lemma {:induction false} ReplacingRepeats(done: seq<string>, ps: seq<Piece>)
    requires Replaces(ps)
    ensures Repeating(done, ps)
    decreases |ps|
  {
    if ps != [] {
      assert ps[0] in ps;
      ReplacingRepeats(done + After(ps[0]), ps[1..]);
    }
  }

  lemma {:induction false} ReplacingKeepsLines(ps: seq<Piece>)
    requires Replaces(ps)
    ensures LinesAfter(ps) == [] <==> LinesBefore(ps) == []
  {
    if ps != [] {
      assert ps[0] in ps;
      ReplacingKeepsLines(ps[1..]);
    }
  }

  /** With old and new lines in every hunk, an edit and its opposite are both applied faithfully. */
  lemma ReplacingIsFaithful(e: FileEdit)
    requires Replaces(e.pieces)
    ensures Faithful(e) && Faithful(Swapped(e))
  {
    var swapped := Map(e.pieces, SwapPiece);
    forall p | p in swapped && p.Change? ensures OldSide(p.body) != [] && NewSide(p.body) != [] {
      var i :| 0 <= i < |swapped| && swapped[i] == p;
      assert e.pieces[i] in e.pieces && e.pieces[i].Change?;
      SidesSwapped(e.pieces[i].body);
    }
    ReplacingRepeats([], e.pieces);
    ReplacingRepeats([], swapped);
    ReplacingKeepsLines(e.pieces);
    ReplacingKeepsLines(swapped);
  }

  /** One list of edits goes back from where the other arrives, file by file. */
  ghost predicate Opposite(edits: seq<FileEdit>, swapped: seq<FileEdit>) {
    && |edits| == |swapped|
    && forall i {:trigger edits[i]} {:trigger swapped[i]} :: 0 <= i < |edits| ==>
        && swapped[i].path == edits[i].path
        && OldText(swapped[i]) == NewText(edits[i]) && NewText(swapped[i]) == OldText(edits[i])
  }

  lemma Restored(edits: seq<FileEdit>, swapped: seq<FileEdit>, seeds: map<string, string>)
    requires DistinctPaths(edits) && DistinctPaths(swapped) && Fits(edits, seeds) && Opposite(edits, swapped)
    ensures seeds + Changes(edits) + Changes(swapped) == seeds
  {
    forall path | path in Changes(edits) || path in Changes(swapped)
      ensures path in seeds && (seeds + Changes(edits) + Changes(swapped))[path] == seeds[path]
    {
      var i := if path in Changes(edits) then ChangedAt(edits, path) else ChangedAt(swapped, path);
      RestoredAt(edits, swapped, seeds, i);
    }
    OverwrittenBack(seeds, Changes(edits), Changes(swapped));
  }

  ghost function ChangedAt(edits: seq<FileEdit>, path: string): (i: nat)
    requires DistinctPaths(edits) && path in Changes(edits)
    ensures i < |edits| && edits[i].path == path
  {
    ChangesExact(edits);
    assert Listed(edits, path);
    var e :| e in edits && e.path == path;
    IndexOf(edits, e)
  }

  lemma OverwrittenBack(a: map<string, string>, b: map<string, string>, c: map<string, string>)
    requires forall k :: k in b || k in c ==> k in a && (a + b + c)[k] == a[k]
    ensures a + b + c == a
  {
  }

  lemma RestoredAt(edits: seq<FileEdit>, swapped: seq<FileEdit>, seeds: map<string, string>, i: nat)
    requires DistinctPaths(edits) && DistinctPaths(swapped) && Fits(edits, seeds) && Opposite(edits, swapped)
    requires i < |edits|
    ensures edits[i].path in seeds
    ensures (seeds + Changes(edits) + Changes(swapped))[edits[i].path] == seeds[edits[i].path]
  {
    ChangesExact(edits);
    ChangesExact(swapped);
    assert ExactFor(edits[i], Changes(edits), OldText, NewText);
    assert ExactFor(swapped[i], Changes(swapped), OldText, NewText);
  }

  // -------------------------------------------------------------------------------- what fails

  /** A removed line that begins with two dashes and a space is taken for a file header. */
  lemma HeaderLikeLost()
    ensures var edit := FileEdit("f", [Change([HunkLine('-', "-- x"), HunkLine('+', "y")])]);
      EditOk(edit) && Parse(Print([edit])) != Collect([edit], PatchOf)
  {
    var body := [HunkLine('-', "-- x"), HunkLine('+', "y")];
    var edit := FileEdit("f", [Change(body)]);
    assert forall l :: l in body ==> LineOk(l);
    assert "-- " <= "-- x" && HeaderLike(body[0]);
    assert edit.pieces[0].Change? && edit.pieces[0] in edit.pieces && body[0] in edit.pieces[0].body;
    ParsePrinted([edit]);
    assert edit in [edit];
  }

  lemma SideOne(l: HunkLine)
    ensures OldSide([l]) == if l.tag == ' ' || l.tag == '-' then [l.text] else []
    ensures NewSide([l]) == if l.tag == ' ' || l.tag == '+' then [l.text] else []
  {
    assert [l][1..] == [];
  }

  lemma OneInsertion(a: string, b: string, x: string)
    ensures var ps := [Same([a, b]), Change([HunkLine('+', x)])];
      LinesBefore(ps) == [a, b] && LinesAfter(ps) == [a, b, x] && Outcome([], ps) == Some([a, x, b])
  {
    var insertion := Change([HunkLine('+', x)]);
    var ps := [Same([a, b]), insertion];
    SideOne(HunkLine('+', x));
    FlatMapOne(insertion, Before);
    FlatMapOne(insertion, After);
    assert ps[1..] == [insertion] && [insertion][1..] == [];
    assert LinesBefore(ps) == [a, b] + [] && LinesAfter(ps) == [a, b] + [x];
    assert Next([], ps[0]) == Some([] + [a, b]) && [] + [a, b] == [a, b];
    assert Next([a, b], insertion) == Some([a, b][..1] + [x] + [b]) && [a, b][..1] + [x] + [b] == [a, x, b];
    assert Outcome([a, b], [insertion]) == Some([a, x, b]);
  }

  /** A line inserted after the last line lands above it. */
  lemma InsertionMisplaced(a: string, b: string, x: string)
    requires AllUnbroken([a, b, x])
    ensures var edit := FileEdit("f", [Same([a, b]), Change([HunkLine('+', x)])]);
      && OldText(edit) == TextOf([a, b]) && NewText(edit) == TextOf([a, b, x])
      && Applied(OldText(edit), HunksOf(edit.pieces)) == Some(TextOf([a, x, b]))
  {
    var edit := FileEdit("f", [Same([a, b]), Change([HunkLine('+', x)])]);
    OneInsertion(a, b, x);
    assert a in [a, b, x] && b in [a, b, x] && x in [a, b, x];
    AppliedOutcome(edit);
    TextEnds([a, x, b]);
  }

  /** A file emptied keeps a line feed. */
  lemma EmptiedFileKeepsFeed(a: string)
    requires Unbroken(a, UnicodeBreak)
    ensures var edit := FileEdit("f", [Change([HunkLine('-', a)])]);
      NewText(edit) == "" && Applied(OldText(edit), HunksOf(edit.pieces)) == Some("\n")
  {
    var removal := Change([HunkLine('-', a)]);
    var edit := FileEdit("f", [removal]);
    SideOne(HunkLine('-', a));
    FlatMapOne(removal, Before);
    FlatMapOne(removal, After);
    assert Next([], removal) == Some([]) && [removal][1..] == [];
    assert Outcome([], edit.pieces) == Some([]);
    assert forall l :: l in removal.body ==> LineOk(l);
    assert PieceOk(removal);
    AppliedOutcome(edit);
    TextEnds([a]);
    assert OldText(edit) == TextOf([a]);
    assert Terminated([]) == [] && Join([]) == "";
    assert "" + "\n" == "\n";
  }
}
