/** The applier refines simultaneous replacement.

    The loop rewrites one list while an offset runs along. For hunks in order and apart from each other
    this is the same as replacing every hunk's interval of the original at once.
 */
module DiffApplication {
  import opened Sequences
  import opened UnifiedDiff

  /** The hunk's interval of the original lines, counted from zero. */
  function From(h: Hunk): int { h.start - 1 }

  function To(h: Hunk): int { h.start - 1 + |OldSide(h.body)| }

  /** The hunks stand in order and do not overlap, from `cut` on. */
  ghost predicate InOrder(hunks: seq<Hunk>, cut: int)
    decreases |hunks|
  {
    hunks == [] || (cut <= From(hunks[0]) && InOrder(hunks[1..], To(hunks[0])))
  }

  /** Every hunk's old lines stand in the original at the hunk's own position. */
  ghost predicate AllMatch(lines: seq<string>, hunks: seq<Hunk>) {
    forall h :: h in hunks ==> MatchesAt(lines, From(h), OldSide(h.body))
  }

  /** The original from `cut` on, with each hunk's interval replaced. */
  function Replaced(lines: seq<string>, hunks: seq<Hunk>, cut: int): seq<string>
    requires 0 <= cut <= |lines| && InOrder(hunks, cut) && AllMatch(lines, hunks)
    decreases |hunks|
  {
    if hunks == [] then lines[cut..]
    else
      assert hunks[0] in hunks;
      assert forall h :: h in hunks[1..] ==> h in hunks;
      lines[cut..From(hunks[0])] + NewSide(hunks[0].body) + Replaced(lines, hunks[1..], To(hunks[0]))
  }

  function Delta(hunks: seq<Hunk>): int {
    if hunks == [] then 0 else |NewSide(hunks[0].body)| - |OldSide(hunks[0].body)| + Delta(hunks[1..])
  }

  lemma AllMatchSplit(lines: seq<string>, hunks: seq<Hunk>)
    requires hunks != []
    ensures AllMatch(lines, hunks) <==>
              MatchesAt(lines, From(hunks[0]), OldSide(hunks[0].body)) && AllMatch(lines, hunks[1..])
  {
    assert forall h :: h in hunks <==> h == hunks[0] || h in hunks[1..];
  }

  /** The lines before the hunk's end, once it is applied. */
  function Reached(lines: seq<string>, done: seq<string>, cut: nat, h: Hunk): seq<string>
    requires cut <= From(h) <= |lines|
  {
    done + lines[cut..From(h)] + NewSide(h.body)
  }

  lemma TakenMoved(lines: seq<string>, done: seq<string>, cut: nat, h: Hunk)
    requires cut <= |lines| && cut <= From(h)
    ensures TakeHunk(done + lines[cut..], |done| - cut, h) ==
              if !MatchesAt(lines, From(h), OldSide(h.body)) then None
              else
                Some(Turn(Reached(lines, done, cut, h) + lines[To(h)..], |Reached(lines, done, cut, h)| - To(h)))
  {
    MatchMoved(lines, done, cut, From(h), OldSide(h.body));
    if MatchesAt(lines, From(h), OldSide(h.body)) {
      SpliceMoved(lines, done, cut, From(h), |OldSide(h.body)|, NewSide(h.body));
    }
  }

  lemma HunkTurn(run: Turns, lines: seq<string>, done: seq<string>, cut: nat, h: Hunk, rest: seq<Hunk>)
    requires TakesHunks(run) && cut <= |lines| && cut <= From(h)
    ensures run(done + lines[cut..], |done| - cut, [h] + rest) ==
              if !MatchesAt(lines, From(h), OldSide(h.body)) then None
              else
                run(Reached(lines, done, cut, h) + lines[To(h)..], |Reached(lines, done, cut, h)| - To(h), rest)
  {
    assert TakesAt(run, h, rest, done + lines[cut..], |done| - cut);
    TakenMoved(lines, done, cut, h);
  }

  /** The invariant of the loop: rewritten lines, then the original from `cut` on, with the offset the
      difference of their lengths. */
  lemma {:induction false} TurnsFrom(run: Turns, lines: seq<string>, done: seq<string>, cut: nat, hunks: seq<Hunk>)
    requires TakesHunks(run) && cut <= |lines| && InOrder(hunks, cut)
    ensures run(done + lines[cut..], |done| - cut, hunks) ==
              if AllMatch(lines, hunks) then Some(done + Replaced(lines, hunks, cut)) else None
    decreases |hunks|
  {
    if hunks != [] {
      var (h, rest) := (hunks[0], hunks[1..]);
      assert hunks == [h] + rest;
      HunkTurn(run, lines, done, cut, h, rest);
      AllMatchSplit(lines, hunks);
      if MatchesAt(lines, From(h), OldSide(h.body)) {
        TurnsFrom(run, lines, Reached(lines, done, cut, h), To(h), rest);
        if AllMatch(lines, hunks) {
          ReplacedStep(lines, done, cut, hunks);
        }
      }
    }
  }

  lemma MatchMoved(lines: seq<string>, done: seq<string>, cut: nat, from: int, given: seq<string>)
    requires cut <= |lines| && cut <= from
    ensures MatchesAt(done + lines[cut..], from + |done| - cut, given) <==> MatchesAt(lines, from, given)
  {
    var current := done + lines[cut..];
    assert |current| == |done| + |lines| - cut;
    assert forall i {:trigger given[i]} :: 0 <= i < |given| && from + |given| <= |lines| ==>
        current[from + |done| - cut + i] == lines[from + i];
  }

  lemma SpliceMoved(lines: seq<string>, done: seq<string>, cut: nat, from: int, count: nat, now: seq<string>)
    requires cut <= from && from + count <= |lines|
    ensures Spliced(done + lines[cut..], from + |done| - cut, count, now)
         == done + lines[cut..from] + now + lines[from + count..]
  {
    var current := done + lines[cut..];
    assert current[..from + |done| - cut] == done + lines[cut..from];
    assert current[from + |done| - cut + count..] == lines[from + count..];
  }

  lemma ReplacedStep(lines: seq<string>, done: seq<string>, cut: nat, hunks: seq<Hunk>)
    requires cut <= |lines| && InOrder(hunks, cut) && AllMatch(lines, hunks) && hunks != []
    requires AllMatch(lines, hunks[1..]) && To(hunks[0]) <= |lines|
    ensures done + lines[cut..From(hunks[0])] + NewSide(hunks[0].body) + Replaced(lines, hunks[1..], To(hunks[0]))
         == done + Replaced(lines, hunks, cut)
  {
  }

  lemma {:induction false} ReplacedLength(lines: seq<string>, hunks: seq<Hunk>, cut: nat)
    requires cut <= |lines| && InOrder(hunks, cut) && AllMatch(lines, hunks)
    ensures |Replaced(lines, hunks, cut)| == |lines| - cut + Delta(hunks)
    decreases |hunks|
  {
    if hunks != [] {
      AllMatchSplit(lines, hunks);
      ReplacedLength(lines, hunks[1..], To(hunks[0]));
    }
  }

  /** Refinement. For hunks in order and apart, applying them in turn with a running offset succeeds
      exactly when each matches the original at its own position; the lines are then the original with
      every interval replaced at once, and their number has changed by the sum of the hunks' deltas. */
  lemma InTurnIsSimultaneous(lines: seq<string>, hunks: seq<Hunk>)
    requires InOrder(hunks, 0)
    ensures ApplyInTurn(lines, 0, hunks) == if AllMatch(lines, hunks) then Some(Replaced(lines, hunks, 0)) else None
    ensures AllMatch(lines, hunks) ==> |Replaced(lines, hunks, 0)| == |lines| + Delta(hunks)
  {
    ApplierTakesHunks();
    TurnsFrom(ApplyInTurn, lines, [], 0, hunks);
    assert [] + lines[0..] == lines;
    if AllMatch(lines, hunks) {
      ReplacedLength(lines, hunks, 0);
      assert [] + Replaced(lines, hunks, 0) == Replaced(lines, hunks, 0);
    }
  }
}
