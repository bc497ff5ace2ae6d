/** Splitting a text into lines that keep their terminators.

    `str.splitlines(keepends=True)` and the physical lines of the citation reader differ only in which
    characters end a line; in both, a carriage return and a line feed together end one line.
 */
module TextLines {
  type Breaks = char -> bool

  /** The line boundaries of `str.splitlines`. */
  predicate UnicodeBreak(c: char) {
    var n := c as int;
    10 <= n <= 13 || 28 <= n <= 30 || n == 0x85 || n == 0x2028 || n == 0x2029
  }

  /** The line boundaries of the citation reader. */
  predicate PhysicalBreak(c: char) { c == '\r' || c == '\n' }

  /** `str.isspace` of one character. */
  predicate IsSpace(c: char) {
    var n := c as int;
    || 9 <= n <= 13 || 28 <= n <= 32 || n == 0x85 || n == 0xA0 || n == 0x1680 || 0x2000 <= n <= 0x200A
    || n == 0x2028 || n == 0x2029 || n == 0x202F || n == 0x205F || n == 0x3000
  }

  /** `not t.strip()` */
  predicate Blank(t: string) { forall c :: c in t ==> IsSpace(c) }

  /** `str.split("/")`. */
  function Segments(path: string): seq<string> {
    if path == [] then [[]]
    else if path[0] == '/' then [[]] + Segments(path[1..])
    else
      var rest := Segments(path[1..]);
      if rest == [] then [[path[0]]] else [[path[0]] + rest[0]] + rest[1..]
  }

  /** The ten characters that end a line for `str.splitlines`, and the two that do for a citation. */
  lemma BreaksAre(c: char)
    ensures UnicodeBreak(c) <==> c in "\n\U{0B}\U{0C}\r\U{1C}\U{1D}\U{1E}\U{85}\U{2028}\U{2029}"
    ensures PhysicalBreak(c) <==> c in "\n\r"
  {
  }

  /** The length of the first line, terminator included. */
  function LineEnd(t: string, breaks: Breaks): (n: nat)
    requires t != []
    ensures 0 < n <= |t|
  {
    if breaks(t[0]) then if t[0] == '\r' && |t| > 1 && t[1] == '\n' then 2 else 1
    else if |t| == 1 then 1
    else 1 + LineEnd(t[1..], breaks)
  }

  function SplitLines(t: string, breaks: Breaks): seq<string> {
    if t == [] then [] else [t[..LineEnd(t, breaks)]] + SplitLines(t[LineEnd(t, breaks)..], breaks)
  }

  /** `"".join(lines)`. */
  function Join(lines: seq<string>): string {
    if lines == [] then [] else lines[0] + Join(lines[1..])
  }

  /** The text of a line up to its terminator may end in a carriage return, which then belongs to the
      terminator, but contains no other break. */
  ghost predicate Unbroken(s: string, breaks: Breaks) {
    forall i :: 0 <= i < |s| ==> breaks(s[i]) ==> i == |s| - 1 && s[i] == '\r'
  }

  lemma {:induction false} LineEndTerminated(s: string, rest: string, breaks: Breaks)
    requires breaks('\n') && Unbroken(s, breaks)
    ensures LineEnd(s + "\n" + rest, breaks) == |s| + 1
  {
    var t := s + "\n" + rest;
    if s != [] && !breaks(s[0]) {
      LineEndTerminated(s[1..], rest, breaks);
      assert t[1..] == s[1..] + "\n" + rest;
    } else if s != [] {
      assert |s| == 1 && t[0] == '\r' && t[1] == '\n';
    }
  }

  /** A terminated line is split off whole. */
  lemma SplitTerminated(s: string, rest: string, breaks: Breaks)
    requires breaks('\n') && Unbroken(s, breaks)
    ensures SplitLines(s + "\n" + rest, breaks) == [s + "\n"] + SplitLines(rest, breaks)
  {
    var t := s + "\n" + rest;
    LineEndTerminated(s, rest, breaks);
    assert t[..|s| + 1] == s + "\n" && t[|s| + 1..] == rest;
  }

  function Terminated(lines: seq<string>): seq<string> {
    if lines == [] then [] else [lines[0] + "\n"] + Terminated(lines[1..])
  }

  lemma {:induction false} SplitJoined(lines: seq<string>, breaks: Breaks)
    requires breaks('\n') && forall l :: l in lines ==> Unbroken(l, breaks)
    ensures SplitLines(Join(Terminated(lines)), breaks) == Terminated(lines)
  {
    if lines != [] {
      SplitJoined(lines[1..], breaks);
      SplitTerminated(lines[0], Join(Terminated(lines[1..])), breaks);
    }
  }

  lemma {:induction false} TerminatedConcat(a: seq<string>, b: seq<string>)
    ensures Terminated(a + b) == Terminated(a) + Terminated(b)
  {
    if a == [] {
      assert a + b == b;
    } else {
      TerminatedConcat(a[1..], b);
      assert (a + b)[1..] == a[1..] + b;
    }
  }

  lemma {:induction false} TerminatedAt(lines: seq<string>)
    ensures |Terminated(lines)| == |lines|
    ensures forall i :: 0 <= i < |lines| ==> Terminated(lines)[i] == lines[i] + "\n"
  {
    if lines != [] {
      TerminatedAt(lines[1..]);
    }
  }

  // --------------------------------------------------------------------- segments of a path

  lemma {:induction false} SegmentsSplit(t: string, u: string)
    requires '/' !in t
    ensures Segments(t + "/" + u) == [t] + Segments(u)
  {
    if t == [] {
      assert (t + "/" + u)[1..] == u;
    } else {
      SegmentsSplit(t[1..], u);
      assert (t + "/" + u)[1..] == t[1..] + "/" + u;
      assert [t[0]] + t[1..] == t;
    }
  }

  lemma {:induction false} SegmentsPlain(t: string)
    requires '/' !in t
    ensures Segments(t) == [t]
  {
    if t != [] {
      SegmentsPlain(t[1..]);
      assert [t[0]] + t[1..] == t;
      assert [t[1..]][1..] == [];
    }
  }

  /** Where `..` stands as a whole segment. */
  predicate DotsAt(t: string, i: nat) {
    && i + 2 <= |t| && t[i] == '.' && t[i + 1] == '.'
    && (i == 0 || t[i - 1] == '/') && (i + 2 == |t| || t[i + 2] == '/')
  }

  lemma {:induction false} FirstSlash(t: string) returns (k: nat)
    requires '/' in t
    ensures k < |t| && t[k] == '/' && '/' !in t[..k] && t == t[..k] + "/" + t[k + 1..]
  {
    k := 0;
    if t[0] != '/' {
      k := FirstSlash(t[1..]);
      k := k + 1;
      assert t[..k] == [t[0]] + t[1..][..k - 1];
    }
  }

  /** A path has a segment `..` exactly when it stands in it between slashes or at an end. */
  lemma {:induction false} DotSegmentIff(t: string)
    ensures ".." in Segments(t) <==> exists i: nat :: DotsAt(t, i)
    decreases |t|
  {
    if '/' !in t {
      SegmentsPlain(t);
      assert t == ".." ==> DotsAt(t, 0);
    } else {
      var k := FirstSlash(t);
      var v := t[k + 1..];
      SegmentsSplit(t[..k], v);
      DotSegmentIff(v);
      if t[..k] == ".." {
        assert DotsAt(t, 0);
      }
      if i: nat :| DotsAt(v, i) {
        assert DotsAt(t, k + 1 + i);
      }
      if i: nat :| DotsAt(t, i) {
        DotsFallWhole(t, k, i);
      }
    }
  }

  lemma DotsFallWhole(t: string, k: nat, i: nat)
    requires k < |t| && t[k] == '/' && '/' !in t[..k] && DotsAt(t, i)
    ensures t[..k] == ".." || (i > k && DotsAt(t[k + 1..], i - k - 1))
  {
    assert forall j :: 0 <= j < k ==> t[j] == t[..k][j] && t[..k][j] in t[..k];
  }
}
