/** When hunks apply, line by line, and what becomes of a whole document. */
module DiffDocuments {
  import opened Sequences
  import opened TextLines
  import opened UnifiedDiff
  import opened DiffApplication

  // ------------------------------------------------------------------------------- one file

  function Tagged(tags: set<char>): HunkLine -> bool { (l: HunkLine) => l.tag in tags }

  function TextIn(l: HunkLine): string { l.text }

  /** The old side of a hunk is its context and removed lines, the new side its context and added ones, in order. */
  lemma {:induction false} SidesAre(body: seq<HunkLine>)
    ensures OldSide(body) == Map(Filter(body, Tagged({' ', '-'})), TextIn)
    ensures NewSide(body) == Map(Filter(body, Tagged({' ', '+'})), TextIn)
  {
    if body != [] {
      SidesAre(body[1..]);
      var (was, now) := (Filter(body[1..], Tagged({' ', '-'})), Filter(body[1..], Tagged({' ', '+'})));
      MapConcat([body[0]], was, TextIn);
      MapConcat([body[0]], now, TextIn);
    }
  }

  predicate NoFeed(t: string) { t == "" || t[|t| - 1] != '\n' }

  /** The same line, whether or not either ends in a line feed. */
  predicate SameLine(a: string, b: string) {
    a == b || (a == b + "\n" && NoFeed(b)) || (b == a + "\n" && NoFeed(a))
  }

  lemma SameLineIff(a: string, b: string)
    ensures SameLine(a, b) <==> LineBody(a) == LineBody(b)
  {
    if LineBody(a) == LineBody(b) {
      assert Ends(a) ==> a == LineBody(a) + "\n";
      assert Ends(b) ==> b == LineBody(b) + "\n";
    }
    if a == b + "\n" {
      assert a[..|a| - 1] == b;
    }
    if b == a + "\n" {
      assert b[..|b| - 1] == a;
    }
  }

  /** The old line number `i` of the hunk stands in the text where the hunk says. */
  predicate LineStands(lines: seq<string>, h: Hunk, i: nat)
    requires i < |OldSide(h.body)|
  {
    0 <= h.start - 1 + i < |lines| && SameLine(lines[h.start - 1 + i], OldSide(h.body)[i])
  }

  /** The hunk lies within the text, and every old line stands where it says. */
  ghost predicate Stands(lines: seq<string>, h: Hunk) {
    && h.start >= 1 && h.start - 1 + |OldSide(h.body)| <= |lines|
    && forall i: nat :: i < |OldSide(h.body)| ==> LineStands(lines, h, i)
  }

  lemma StandsIff(lines: seq<string>, h: Hunk)
    ensures Stands(lines, h) <==> MatchesAt(lines, From(h), OldSide(h.body))
  {
    var was := OldSide(h.body);
    if h.start >= 1 && h.start - 1 + |was| <= |lines| {
      forall i: nat | i < |was|
        ensures LineStands(lines, h, i) <==> LineBody(lines[h.start - 1 + i]) == LineBody(was[i])
      {
        SameLineIff(lines[h.start - 1 + i], was[i]);
      }
      assert forall i: nat {:trigger was[i]} :: i < |was| ==> LineStands(lines, h, i) || !LineStands(lines, h, i);
    }
  }

  /** Hunks in order and apart apply exactly when every old line of every hunk stands where the hunk says, and no hunk
      reaches past the end (which only one without old lines could do otherwise). */
  lemma AppliesIff(original: string, hunks: seq<Hunk>)
    requires InOrder(hunks, 0)
    ensures Applied(original, hunks).Some? <==>
              forall h :: h in hunks ==> Stands(SplitLines(original, UnicodeBreak), h)
  {
    var lines := SplitLines(original, UnicodeBreak);
    InTurnIsSimultaneous(lines, hunks);
    forall h | h in hunks ensures Stands(lines, h) <==> MatchesAt(lines, From(h), OldSide(h.body)) {
      StandsIff(lines, h);
    }
  }

  /** One old line that is not there, or is another, refuses the file. */
  lemma OneLineRefuses(original: string, hunks: seq<Hunk>, h: Hunk, i: nat)
    requires InOrder(hunks, 0) && h in hunks && i < |OldSide(h.body)|
    requires !LineStands(SplitLines(original, UnicodeBreak), h, i)
    ensures Applied(original, hunks) == None
  {
    AppliesIff(original, hunks);
  }

  /** The text that results: the intervals replaced, joined; a line feed is added exactly when the original ends in
      one and the joined lines do not, so a text without a final line feed gets none. */
  lemma AppliedText(original: string, hunks: seq<Hunk>)
    requires InOrder(hunks, 0) && Applied(original, hunks).Some?
    ensures var lines := SplitLines(original, UnicodeBreak);
      && AllMatch(lines, hunks)
      && var (text, joined) := (Applied(original, hunks).value, Join(Replaced(lines, hunks, 0)));
        if !NoFeed(original) && NoFeed(joined) then text == joined + "\n" else text == joined
  {
    InTurnIsSimultaneous(SplitLines(original, UnicodeBreak), hunks);
  }

  /** A line to insert beyond the end: the hunk has no old line that could differ, and is refused all the same. */
  lemma InsertedBeyondEnd(original: string, h: Hunk)
    requires OldSide(h.body) == [] && h.start - 1 > |SplitLines(original, UnicodeBreak)|
    ensures InOrder([h], 0) && Applied(original, [h]) == None
  {
    assert [h][1..] == [];
    assert InOrder([], To(h));
    AppliesIff(original, [h]);
    assert h in [h];
  }

  // ------------------------------------------------------------------------ whole documents

  /** A path that is empty, absolute, or steps up. */
  ghost predicate Outside(path: string) {
    path == "" || path[0] == '/' || exists i: nat :: DotsAt(path, i)
  }

  lemma OutsideIff(path: string)
    ensures UnsafePath(path) <==> Outside(path)
  {
    DotSegmentIff(path);
  }

  /** What refuses one file of a document, with the reason that is given. */
  ghost predicate Refuses(patch: FilePatch, seeds: map<string, string>, reason: string) {
    || (reason == "unsafe_path" && Outside(patch.path))
    || (reason == "not_in_seed" && !Outside(patch.path) && patch.path !in seeds)
    || (reason == "hunk_mismatch" && !Outside(patch.path) && patch.path in seeds
        && Applied(seeds[patch.path], patch.hunks) == None)
  }

  ghost predicate Accepted(patch: FilePatch, seeds: map<string, string>) {
    !Outside(patch.path) && patch.path in seeds && Applied(seeds[patch.path], patch.hunks) != None
  }

  lemma PatchOneIff(patch: FilePatch, seeds: map<string, string>)
    ensures Accepted(patch, seeds) <==> PatchOne(patch, seeds).Success?
    ensures Accepted(patch, seeds) ==> PatchOne(patch, seeds).value == Applied(seeds[patch.path], patch.hunks).value
    ensures forall e ::
      PatchOne(patch, seeds) == Failure(e) <==> e.path == patch.path && Refuses(patch, seeds, e.reason)
  {
    OutsideIff(patch.path);
  }

  lemma {:induction false} FirstRefused(patches: seq<FilePatch>, seeds: map<string, string>, one: Patcher)
    returns (j: nat)
    requires exists i :: 0 <= i < |patches| && one(patches[i]).Failure?
    ensures j < |patches| && one(patches[j]).Failure? && forall k :: 0 <= k < j ==> one(patches[k]).Success?
    ensures PatchEach(patches, seeds, one) == Failure(one(patches[j]).error)
  {
    j := 0;
    while one(patches[j]).Success?
      invariant j < |patches| && forall k :: 0 <= k < j ==> one(patches[k]).Success?
      decreases |patches| - j
    {
      j := j + 1;
    }
    AllPatched(patches[..j], seeds, one);
    FirstFailure(patches, j, seeds, one);
  }

  lemma {:induction false} AllPatched(patches: seq<FilePatch>, seeds: map<string, string>, one: Patcher)
    requires forall i :: 0 <= i < |patches| ==> one(patches[i]).Success?
    ensures PatchEach(patches, seeds, one).Success?
  {
    if patches != [] {
      AllPatched(patches[..|patches| - 1], seeds, one);
    }
  }

  /** The refusal of a document is that of its first refused file, with that file's reason; nothing is patched. */
  lemma DocumentRefused(patches: seq<FilePatch>, seeds: map<string, string>)
    requires exists i :: 0 <= i < |patches| && !Accepted(patches[i], seeds)
    ensures exists j, reason :: 0 <= j < |patches| && FirstRefusedIs(patches, seeds, j, reason)
              && PatchAll(patches, seeds) == Failure(ApplyError(patches[j].path, reason))
  {
    var one := PatcherOf(seeds);
    forall i | 0 <= i < |patches| ensures Accepted(patches[i], seeds) <==> one(patches[i]).Success? {
      PatchOneIff(patches[i], seeds);
    }
    var j := FirstRefused(patches, seeds, one);
    PatchOneIff(patches[j], seeds);
    var e := one(patches[j]).error;
    assert PatchOne(patches[j], seeds) == Failure(e);
    assert FirstRefusedIs(patches, seeds, j, e.reason);
  }

  ghost predicate FirstRefusedIs(patches: seq<FilePatch>, seeds: map<string, string>, j: int, reason: string)
    requires 0 <= j < |patches|
  {
    Refuses(patches[j], seeds, reason) && forall k :: 0 <= k < j ==> Accepted(patches[k], seeds)
  }

  /** One old line that differs, in any file of the document, refuses all of it: as a mismatch of that file, or for
      what refuses an earlier one. */
  lemma OneLineRefusesDocument(patches: seq<FilePatch>, seeds: map<string, string>, i: nat, h: Hunk, k: nat)
    requires i < |patches| && !Outside(patches[i].path) && patches[i].path in seeds
    requires InOrder(patches[i].hunks, 0) && h in patches[i].hunks && k < |OldSide(h.body)|
    requires !LineStands(SplitLines(seeds[patches[i].path], UnicodeBreak), h, k)
    ensures PatchAll(patches, seeds).Failure?
    ensures (forall j :: 0 <= j < i ==> Accepted(patches[j], seeds)) ==>
      PatchAll(patches, seeds) == Failure(ApplyError(patches[i].path, "hunk_mismatch"))
    ensures exists j, reason :: 0 <= j <= i && Refuses(patches[j], seeds, reason)
              && PatchAll(patches, seeds) == Failure(ApplyError(patches[j].path, reason))
  {
    OneLineRefuses(seeds[patches[i].path], patches[i].hunks, h, k);
    assert !Accepted(patches[i], seeds);
    DocumentRefused(patches, seeds);
    var j, reason :| 0 <= j < |patches| && FirstRefusedIs(patches, seeds, j, reason)
      && PatchAll(patches, seeds) == Failure(ApplyError(patches[j].path, reason));
    assert j <= i;
  }

  // ---------------------------------------------------------------------------- the result

  ghost predicate OwnPaths(files: seq<FilePatch>) {
    forall i, j :: 0 <= i < j < |files| ==> files[i].path != files[j].path
  }

  lemma {:induction false} AssignPaths(files: seq<FilePatch>, path: string, hunks: seq<Hunk>)
    ensures forall f :: f in Assign(files, path, hunks) ==> f.path == path || f in files
    ensures OwnPaths(files) ==> OwnPaths(Assign(files, path, hunks))
  {
    if files != [] {
      AssignPaths(files[1..], path, hunks);
    }
  }

  /** Of two sections for one path the later counts; the patches of other paths stay. */
  lemma {:induction false} LaterSectionCounts(files: seq<FilePatch>, path: string, hunks: seq<Hunk>)
    requires OwnPaths(files)
    ensures forall f :: f in Assign(files, path, hunks) <==>
              f == FilePatch(path, hunks) || (f in files && f.path != path)
  {
    if files != [] {
      LaterSectionCounts(files[1..], path, hunks);
      assert files == [files[0]] + files[1..];
      assert forall f :: f in files[1..] ==> f.path != files[0].path;
    }
  }

  lemma {:induction false} RunPaths(st: ParseState, kinds: seq<LineKind>)
    requires OwnPaths(st.files)
    ensures OwnPaths(Run(st, kinds).files)
    decreases |kinds|
  {
    if kinds != [] {
      if st.current.Some? {
        AssignPaths(st.files, st.current.value, st.Read());
      }
      RunPaths(Advance(st, kinds[0]), kinds[1..]);
    }
  }

  /** A parsed document has one patch for each path. */
  lemma ParsedPaths(text: string)
    ensures OwnPaths(Parse(text))
  {
    var st := Run(START, Map(SplitLines(text, UnicodeBreak), Classify));
    RunPaths(START, Map(SplitLines(text, UnicodeBreak), Classify));
    if st.current.Some? {
      AssignPaths(st.files, st.current.value, st.Read());
    }
  }

  /** The map holds the new text of every file whose text changes, and nothing else. */
  ghost predicate HoldsChanges(patches: seq<FilePatch>, seeds: map<string, string>, patched: map<string, string>)
    requires forall p :: p in patches ==> Accepted(p, seeds)
  {
    forall path :: (path in patched <==> Changes(patches, seeds, path))
      && forall p :: p in patches && p.path == path && path in patched ==>
           path in seeds && Applied(seeds[path], p.hunks) == Some(patched[path])
  }

  ghost predicate Changes(patches: seq<FilePatch>, seeds: map<string, string>, path: string) {
    exists p :: p in patches && p.path == path && path in seeds && Applied(seeds[path], p.hunks) != None
      && Applied(seeds[path], p.hunks).value != seeds[path]
  }

  lemma {:induction false} PatchedChanges(patches: seq<FilePatch>, seeds: map<string, string>)
    requires OwnPaths(patches) && forall p :: p in patches ==> Accepted(p, seeds)
    ensures PatchAll(patches, seeds).Success?
    ensures HoldsChanges(patches, seeds, PatchAll(patches, seeds).value)
  {
    if patches != [] {
      var n := |patches| - 1;
      var (earlier, last) := (patches[..n], patches[n]);
      assert patches == earlier + [last];
      PatchedChanges(earlier, seeds);
      PatchOneIff(last, seeds);
      OneMoreChange(earlier, last, seeds, PatchAll(earlier, seeds).value,
                    Applied(seeds[last.path], last.hunks).value);
    }
  }

  lemma OneMoreChange(earlier: seq<FilePatch>, last: FilePatch, seeds: map<string, string>,
                      patched: map<string, string>, text: string)
    requires OwnPaths(earlier + [last]) && forall p :: p in earlier + [last] ==> Accepted(p, seeds)
    requires forall p :: p in earlier ==> Accepted(p, seeds)
    requires HoldsChanges(earlier, seeds, patched)
    requires last.path in seeds && Applied(seeds[last.path], last.hunks) == Some(text)
    ensures HoldsChanges(earlier + [last], seeds, Record(patched, last.path, text, seeds))
  {
    var patches := earlier + [last];
    forall p | p in earlier ensures p.path != last.path {
      var i :| 0 <= i < |earlier| && earlier[i] == p;
      assert patches[i] == p && patches[|earlier|] == last;
    }
    assert forall p :: p in patches <==> p in earlier || p == last;
    assert !Changes(earlier, seeds, last.path);
    forall path | path != last.path ensures Changes(patches, seeds, path) <==> Changes(earlier, seeds, path) {
    }
  }

  /** A whole document: it is applied exactly when every file's path is safe and in the seeds and its hunks apply;
      the result holds the new text of every file whose text changes, and nothing else. */
  lemma DocumentExact(text: string, seeds: map<string, string>)
    ensures PatchAll(Parse(text), seeds).Success? <==> forall p :: p in Parse(text) ==> Accepted(p, seeds)
    ensures PatchAll(Parse(text), seeds).Success? ==>
      HoldsChanges(Parse(text), seeds, PatchAll(Parse(text), seeds).value)
  {
    ParsedPaths(text);
    if forall p :: p in Parse(text) ==> Accepted(p, seeds) {
      PatchedChanges(Parse(text), seeds);
    } else {
      var p :| p in Parse(text) && !Accepted(p, seeds);
      var i :| 0 <= i < |Parse(text)| && Parse(text)[i] == p;
      DocumentRefused(Parse(text), seeds);
    }
  }
}
