/** The streaming read of `artifact_read` in `api/facade.py`, and what is answered of a long artifact. */
module ArtifactHead {
  import opened Sequences
  import opened Utf8

  const MAX_ARTIFACT_BYTES := 256 * 1024

  /** The content that a sequence of reads returns; an empty read is the end. */
  function Content(chunks: seq<seq<Byte>>): seq<Byte> {
    if chunks == [] || chunks[0] == [] then [] else chunks[0] + Content(chunks[1..])
  }

  datatype Answer =
    | IntegrityError
    | RecheckRequired
    | Read(size: nat, text: Option<seq<Scalar>>, truncated: bool)

  function Least(a: nat, b: nat): nat { if a < b then a else b }

  /** The text of the first bytes of a content of `size` bytes; none for a binary. */
  function TextOf(body: seq<Byte>, size: nat): Option<seq<Scalar>> {
    if Valid(body) then Some(Text(body))
    else if size > MAX_ARTIFACT_BYTES && Stop(body) >= |body| - 3 then Some(Text(body[..Stop(body)]))
    else None
  }

  /** The answer, as a function of the content alone. */
  function Answered(content: seq<Byte>, recorded: string, hash: seq<Byte> -> string, stillSame: bool): Answer {
    if hash(content) != recorded then IntegrityError
    else if !stillSame then RecheckRequired
    else
      Read(|content|, TextOf(content[..Least(|content|, MAX_ARTIFACT_BYTES)], |content|),
           |content| > MAX_ARTIFACT_BYTES)
  }

  /** The read loop: everything is hashed, and one byte more than the limit is kept. */
  method ReadChunks(chunks: seq<seq<Byte>>) returns (digested: seq<Byte>, head: seq<Byte>, size: nat)
    ensures digested == Content(chunks) && size == |digested|
    ensures head == digested[..Least(size, MAX_ARTIFACT_BYTES + 1)]
  {
    digested, head, size := [], [], 0;
    var i := 0;
    ghost var left := Content(chunks);
    while i < |chunks| && chunks[i] != []
      invariant i <= |chunks| && left == Content(chunks[i..])
      invariant digested + left == Content(chunks)
      invariant size == |digested|
      invariant head == digested[..Least(size, MAX_ARTIFACT_BYTES + 1)]
    {
      var chunk := chunks[i];
      assert chunks[i..][0] == chunk && chunks[i..][1..] == chunks[i + 1..];
      HeadGrows(digested, chunk, MAX_ARTIFACT_BYTES + 1);
      left := Content(chunks[i + 1..]);
      Assoc(digested, chunk, left);
      digested := digested + chunk;
      size := size + |chunk|;
      if |head| <= MAX_ARTIFACT_BYTES {
        head := head + chunk[..Least(|chunk|, MAX_ARTIFACT_BYTES + 1 - |head|)];
      }
      i := i + 1;
    }
    assert left == [];
  }

  /** The answer to a read; `stillSame` says that artifact and authorisation are the same when they are
      looked at again. */
  method ReadArtifact(chunks: seq<seq<Byte>>, recorded: string, hash: seq<Byte> -> string, stillSame: bool)
    returns (answer: Answer)
    ensures answer == Answered(Content(chunks), recorded, hash, stillSame)
  {
    var digested, head, size := ReadChunks(chunks);
    if hash(digested) != recorded {
      return IntegrityError;
    }
    if !stillSame {
      return RecheckRequired;
    }
    var truncated := size > MAX_ARTIFACT_BYTES;
    var body := head[..Least(|head|, MAX_ARTIFACT_BYTES)];
    assert body == digested[..Least(size, MAX_ARTIFACT_BYTES)];
    var text: Option<seq<Scalar>> := None;
    if Valid(body) {
      text := Some(Text(body));
    } else if truncated && Stop(body) >= |body| - 3 {
      text := Some(Text(body[..Stop(body)]));
    }
    return Read(size, text, truncated);
  }

  lemma HeadGrows(digested: seq<Byte>, chunk: seq<Byte>, bound: nat)
    ensures var head := digested[..Least(|digested|, bound)];
      (digested + chunk)[..Least(|digested| + |chunk|, bound)] ==
        if |head| < bound then head + chunk[..Least(|chunk|, bound - |head|)] else head
  {
  }

  /** The content is the reads joined, wherever it was cut. */
  lemma {:induction false} ContentIsJoined(chunks: seq<seq<Byte>>)
    requires forall c :: c in chunks ==> c != []
    ensures Content(chunks) == Joined(chunks)
  {
    if chunks != [] {
      assert chunks[0] in chunks && forall c :: c in chunks[1..] ==> c in chunks;
      ContentIsJoined(chunks[1..]);
    }
  }

  /** A UTF-8 content is always answered as text: its bytes are a prefix of the content, at most three short
      of the limit, and the whole content when it is not truncated. */
  lemma TextIsPrefix(content: seq<Byte>, recorded: string, hash: seq<Byte> -> string)
    requires Valid(content) && hash(content) == recorded
    ensures var answer := Answered(content, recorded, hash, true);
      && answer.Read? && answer.size == |content| && answer.text.Some?
      && (answer.truncated <==> |content| > MAX_ARTIFACT_BYTES)
      && Encode(answer.text.value) <= content && answer.text.value <= Text(content)
      && |Encode(answer.text.value)| <= MAX_ARTIFACT_BYTES
      && (answer.truncated ==> |Encode(answer.text.value)| >= MAX_ARTIFACT_BYTES - 3)
      && (!answer.truncated ==> Encode(answer.text.value) == content)
  {
    var limit := Least(|content|, MAX_ARTIFACT_BYTES);
    var body := content[..limit];
    CutLosesLittle(content, limit);
    TextEncoded(body);
    StopValid(body);
    if |content| <= MAX_ARTIFACT_BYTES {
      assert body == content;
    } else {
      assert |body| == MAX_ARTIFACT_BYTES && Stop(body) >= |body| - 3;
    }
    assert Encode(Text(body)) == content[..Stop(body)];
  }

  /** A text, when one is answered, is never a replaced one: its bytes are those of the content. An artifact
      within the limit is answered as text exactly when it is UTF-8. */
  lemma TextIsNeverReplaced(content: seq<Byte>, recorded: string, hash: seq<Byte> -> string)
    requires hash(content) == recorded
    ensures var answer := Answered(content, recorded, hash, true);
      && answer.Read?
      && (answer.text.Some? ==> Encode(answer.text.value) <= content)
      && (|content| <= MAX_ARTIFACT_BYTES ==> (answer.text.Some? <==> Valid(content)))
  {
    var body := content[..Least(|content|, MAX_ARTIFACT_BYTES)];
    TextEncoded(body);
    StopValid(body);
    if |content| <= MAX_ARTIFACT_BYTES {
      assert body == content;
    }
  }

  /** Nothing is answered of a content whose hash is not the recorded one, nor after the artifact or its
      authorisation has changed; anything else is answered. */
  lemma ReadRefusals(content: seq<Byte>, recorded: string, hash: seq<Byte> -> string, stillSame: bool)
    ensures var answer := Answered(content, recorded, hash, stillSame);
      && (answer == IntegrityError <==> hash(content) != recorded)
      && (answer == RecheckRequired <==> hash(content) == recorded && !stillSame)
      && (answer.Read? <==> hash(content) == recorded && stillSame)
      && (answer.Read? ==> answer.size == |content| && (answer.truncated <==> |content| > 262144))
  {
  }

  /** A truncated artifact is answered as text exactly when its first bytes are UTF-8 up to the limit or at most three
      bytes short of it, whatever comes after. */
  lemma TruncatedText(content: seq<Byte>, recorded: string, hash: seq<Byte> -> string)
    requires hash(content) == recorded && |content| > 262144
    ensures var answer := Answered(content, recorded, hash, true);
      answer.Read? && (answer.text.Some? <==> exists n: nat :: 262141 <= n <= 262144 && Valid(content[..n]))
  {
    var body := content[..262144];
    if n: nat :| 262141 <= n <= 262144 && Valid(content[..n]) {
      assert body[..n] == content[..n];
      GoodLead(body, n);
    }
    StopValid(body);
    assert body[..Stop(body)] == content[..Stop(body)];
  }
}
