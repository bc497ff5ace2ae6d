/** Pages that follow a cursor: `_page` of `api/assurance.py` and `execution_snapshot` of `api/taskgraph.py`.

    A token is the cursor's JSON text in URL-safe base64. It names the snapshot it was made in and the sort
    key of the last item shown; the next page holds the items with a greater key.
 */
module CursorPaging {
  import opened Base64Url
  import opened Ordering
  import opened Sequences
  import opened Utf8

  /** The snapshot a cursor is pinned to, and the last sort key if it is well formed. */
  datatype Cursor<+P> = Cursor(pin: P, last: Option<Key>)

  /** The JSON text of a cursor, and what a JSON text is as a cursor (nothing, unless it is an object of the
      right version). */
  datatype Codec<!P> = Codec(render: Cursor<P> -> seq<Byte>, parse: seq<Byte> -> Option<Cursor<P>>)

  /** How an API writes its tokens: the codec, the longest token it reads, whether padding is stripped, and
      the largest page. */
  datatype Scheme<!P> = Scheme(codec: Codec<P>, longest: nat, strip: bool, maxLimit: nat)

  /** Tokens of the assurance API are read up to 2048 characters, pages hold up to 100 items. */
  function AssuranceScheme<P>(codec: Codec<P>): Scheme<P> { Scheme(codec, 2048, true, 100) }

  /** Tokens of an execution view are read up to 4096 characters, pages hold up to 200 nodes. */
  function ExecutionScheme<P>(codec: Codec<P>): Scheme<P> { Scheme(codec, 4096, false, 200) }

  datatype PageRefusal = InvalidRequest | InvalidCursor | SnapshotChanged

  datatype Page<+T> = Page(items: seq<T>, next: Option<string>)

  /** The codec reads back the cursors that an API writes, whose keys have the API's own shape. */
  ghost predicate Faithful<P(!new)>(codec: Codec<P>, shape: Key -> bool) {
    forall c: Cursor<P> :: c.last.Some? && shape(c.last.value) ==>
      codec.render(c) != [] && codec.parse(codec.render(c)) == Some(c)
  }

  /** `[kind, id]` */
  predicate ItemShape(k: Key) { |k| == 2 && k[0].Text? && k[1].Text? }

  /** `[at_ms, node_id]` */
  predicate NodeShape(k: Key) { |k| == 2 && k[0].Num? && k[1].Text? }

  function Token<P>(scheme: Scheme<P>, cursor: Cursor<P>): string {
    var text := EncodeBytes(scheme.codec.render(cursor));
    if scheme.strip then Stripped(text) else text
  }

  function ReadToken<P>(scheme: Scheme<P>, token: string): Option<Cursor<P>> {
    if token == "" || |token| > scheme.longest then None
    else
      match DecodeText(if scheme.strip then Padded(token) else token)
      case None => None
      case Some(text) => scheme.codec.parse(text)
  }

  /** A token is read back as its cursor, unless it is too long. */
  lemma TokenRead<P(!new)>(scheme: Scheme<P>, cursor: Cursor<P>, shape: Key -> bool)
    requires Faithful(scheme.codec, shape) && cursor.last.Some? && shape(cursor.last.value)
    ensures ReadToken(scheme, Token(scheme, cursor)) ==
              if |Token(scheme, cursor)| <= scheme.longest then Some(cursor) else None
  {
    var text := scheme.codec.render(cursor);
    Decoded64(text);
    StrippedDecoded(text);
    StrippedPadded(text);
  }

  function Beyond<T>(key: T -> Key, last: Key): T -> bool { x => KeyLt(last, key(x)) }

  /** The items after the cursor. */
  function Rest<T>(ordered: seq<T>, key: T -> Key, last: Option<Key>): seq<T> {
    if last.None? then ordered else Filter(ordered, Beyond(key, last.value))
  }

  /** Where a page starts: the last key shown, or a refusal of the token. */
  function Start<P(==)>(scheme: Scheme<P>, token: Option<string>, pin: P): Result<Option<Key>, PageRefusal> {
    if token.None? then Success(None)
    else
      match ReadToken(scheme, token.value)
      case None => Failure(InvalidCursor)
      case Some(cursor) =>
        if cursor.pin != pin then Failure(SnapshotChanged)
        else if cursor.last.None? then Failure(InvalidCursor)
        else Success(cursor.last)
  }

  function Head<T>(rest: seq<T>, limit: nat): seq<T> { if |rest| <= limit then rest else rest[..limit] }

  function NextToken<T, P>(scheme: Scheme<P>, pin: P, key: T -> Key, page: seq<T>): string
    requires page != []
  {
    Token(scheme, Cursor(pin, Some(key(page[|page| - 1]))))
  }

  datatype Item = Item(kind: string, id: string, content: string)

  /** `(item["kind"], item["id"])` */
  function ItemKey(i: Item): Key { [Text(i.kind), Text(i.id)] }

  datatype Node = Node(id: string, at: Option<int>, content: string)

  /** `(n["at_ms"] or 0, n["node_id"])` */
  function NodeKey(n: Node): Key { [Num(if n.at.Some? then n.at.value else 0), Text(n.id)] }

  /** `_page`: there is more when the rest is longer than the page. */
  function AssurancePage<P(==)>(items: seq<Item>, limit: int, token: Option<string>, pin: P, codec: Codec<P>)
    : Result<Page<Item>, PageRefusal>
  {
    var scheme := AssuranceScheme(codec);
    if !(1 <= limit <= scheme.maxLimit) then Failure(InvalidRequest)
    else
      match Start(scheme, token, pin)
      case Failure(why) => Failure(why)
      case Success(last) =>
        var rest := Rest(Sort(items, ItemKey), ItemKey, last);
        var page := Head(rest, limit);
        Success(Page(page, if |rest| > limit then Some(NextToken(scheme, pin, ItemKey, page)) else None))
  }

  /** The page of an execution view: it is complete when it is empty or ends with the last node. */
  function ExecutionPage<P(==)>(nodes: seq<Node>, limit: int, token: Option<string>, pin: P, codec: Codec<P>)
    : Result<Page<Node>, PageRefusal>
  {
    var scheme := ExecutionScheme(codec);
    if !(1 <= limit <= scheme.maxLimit) then Failure(InvalidRequest)
    else
      match Start(scheme, token, pin)
      case Failure(why) => Failure(why)
      case Success(last) =>
        var ordered := Sort(nodes, NodeKey);
        var page := Head(Rest(ordered, NodeKey, last), limit);
        var complete := page == [] || page[|page| - 1] == ordered[|ordered| - 1];
        Success(Page(page, if complete then None else Some(NextToken(scheme, pin, NodeKey, page))))
  }

  /** Items are listed by kind, and by id within a kind. */
  lemma ItemOrder(a: Item, b: Item)
    ensures KeyLe(ItemKey(a), ItemKey(b)) <==> if a.kind != b.kind then TextLe(a.kind, b.kind) else TextLe(a.id, b.id)
  {
    PairOrder(Text(a.kind), Text(a.id), Text(b.kind), Text(b.id));
  }

  /** Nodes are listed by time, a missing one counting as 0, and by id at one time. */
  lemma NodeOrder(a: Node, b: Node)
    ensures var (s, t) := (if a.at == None then 0 else a.at.value, if b.at == None then 0 else b.at.value);
      KeyLe(NodeKey(a), NodeKey(b)) <==> s < t || (s == t && TextLe(a.id, b.id))
  {
    var (s, t) := (if a.at == None then 0 else a.at.value, if b.at == None then 0 else b.at.value);
    PairOrder(Num(s), Text(a.id), Num(t), Text(b.id));
  }

  /** The requests that are refused before anything is read, whatever the snapshot. */
  lemma RequestsRefused<P>(
    items: seq<Item>, nodes: seq<Node>, limit: int, token: Option<string>, pin: P, codec: Codec<P>)
    ensures AssurancePage(items, limit, token, pin, codec) == Failure(InvalidRequest) <==> limit < 1 || limit > 100
    ensures ExecutionPage(nodes, limit, token, pin, codec) == Failure(InvalidRequest) <==> limit < 1 || limit > 200
    ensures 1 <= limit <= 100 && token.Some? && (token.value == "" || |token.value| > 2048) ==>
      AssurancePage(items, limit, token, pin, codec) == Failure(InvalidCursor)
    ensures 1 <= limit <= 200 && token.Some? && (token.value == "" || |token.value| > 4096) ==>
      ExecutionPage(nodes, limit, token, pin, codec) == Failure(InvalidCursor)
  {
  }

  // ------------------------------------------------------------------------------ the simple whole

  lemma {:induction false} FilterShorter<T>(s: seq<T>, p: T -> bool, x: T)
    requires x in s && !p(x)
    ensures |Filter(s, p)| < |s|
  {
    if s[0] != x {
      FilterShorter(s[1..], p, x);
    }
  }

  /** All the pages from a rest on. */
  function Pages<T>(rest: seq<T>, key: T -> Key, limit: nat): seq<seq<T>>
    requires limit >= 1
    decreases |rest|
  {
    if |rest| <= limit then [rest]
    else
      var last := key(rest[limit - 1]);
      FilterShorter(rest, Beyond(key, last), rest[limit - 1]);
      [rest[..limit]] + Pages(Filter(rest, Beyond(key, last)), key, limit)
  }

  /** No two items with equal keys stand on either side of a page boundary. */
  ghost predicate Untied<T>(s: seq<T>, key: T -> Key, limit: nat)
    requires limit >= 1
    decreases |s|
  {
    |s| > limit ==> key(s[limit - 1]) != key(s[limit]) && Untied(s[limit..], key, limit)
  }

  lemma {:induction false} BeyondSuffix<T>(s: seq<T>, key: T -> Key, n: nat)
    requires Sorted(s, key) && 0 < n < |s|
    ensures key(s[n - 1]) != key(s[n]) ==> Filter(s, Beyond(key, key(s[n - 1]))) == s[n..]
    ensures key(s[n - 1]) == key(s[n]) ==> |Filter(s, Beyond(key, key(s[n - 1])))| < |s| - n
  {
    var p := Beyond(key, key(s[n - 1]));
    assert s == s[..n] + s[n..];
    FilterConcat(s[..n], s[n..], p);
    forall x | x in s[..n] ensures !p(x) {
      var i :| 0 <= i < n && s[i] == x;
      KeyLeTotal(key(x), key(s[n - 1]));
    }
    FilterNone(s[..n], p);
    assert [] + Filter(s[n..], p) == Filter(s[n..], p);
    if key(s[n - 1]) == key(s[n]) {
      assert s[n] == s[n..][0];
      FilterShorter(s[n..], p, s[n]);
    } else {
      forall x | x in s[n..] ensures p(x) {
        var i :| n <= i < |s| && s[i] == x;
        if key(x) == key(s[n - 1]) { KeyLeTotal(key(s[n]), key(x)); }
      }
      FilterAll(s[n..], p);
    }
  }

  lemma SortedFilter<T>(s: seq<T>, key: T -> Key, p: T -> bool)
    requires Sorted(s, key)
    ensures Sorted(Filter(s, p), key)
  {
    SortOfSorted(s, key);
    SortFilter(s, key, p);
    SortSorted(Filter(s, p), key);
  }

  lemma SplitPages<T>(rest: seq<T>, key: T -> Key, limit: nat)
    requires limit >= 1
    ensures Joined(Pages(rest, key, limit)) ==
              if |rest| <= limit then rest
              else rest[..limit] + Joined(Pages(Filter(rest, Beyond(key, key(rest[limit - 1]))), key, limit))
  {
    if |rest| <= limit {
      FlatMapOne(rest, Whole);
    } else {
      var more := Pages(Filter(rest, Beyond(key, key(rest[limit - 1]))), key, limit);
      assert ([rest[..limit]] + more)[1..] == more;
    }
  }

  lemma {:induction false} PagesHoldNoMore<T>(rest: seq<T>, key: T -> Key, limit: nat)
    requires limit >= 1 && Sorted(rest, key)
    ensures |Joined(Pages(rest, key, limit))| <= |rest|
    decreases |rest|
  {
    SplitPages(rest, key, limit);
    if |rest| > limit {
      var p := Beyond(key, key(rest[limit - 1]));
      BeyondSuffix(rest, key, limit);
      FilterShorter(rest, p, rest[limit - 1]);
      SortedFilter(rest, key, p);
      PagesHoldNoMore(Filter(rest, p), key, limit);
    }
  }

  /** The pages make up the rest exactly when no tie stands across a page boundary; a tied item is lost. */
  lemma {:induction false} PagesJoined<T>(rest: seq<T>, key: T -> Key, limit: nat)
    requires limit >= 1 && Sorted(rest, key)
    ensures Joined(Pages(rest, key, limit)) == rest <==> Untied(rest, key, limit)
    decreases |rest|
  {
    SplitPages(rest, key, limit);
    if |rest| > limit {
      var p := Beyond(key, key(rest[limit - 1]));
      BeyondSuffix(rest, key, limit);
      FilterShorter(rest, p, rest[limit - 1]);
      SortedFilter(rest, key, p);
      if key(rest[limit - 1]) == key(rest[limit]) {
        PagesHoldNoMore(Filter(rest, p), key, limit);
      } else {
        PagesJoined(rest[limit..], key, limit);
        assert rest == rest[..limit] + rest[limit..];
      }
    }
  }

  lemma {:induction false} DistinctUntied<T>(s: seq<T>, key: T -> Key, limit: nat)
    requires limit >= 1 && DistinctKeys(s, key)
    ensures Untied(s, key, limit)
    decreases |s|
  {
    if |s| > limit {
      forall i, j | 0 <= i < j < |s[limit..]| ensures key(s[limit..][i]) != key(s[limit..][j]) {
        assert s[limit..][i] == s[limit + i] && s[limit..][j] == s[limit + j];
      }
      DistinctUntied(s[limit..], key, limit);
    }
  }

  // ------------------------------------------------------------------------------- following tokens

  type Reader<!T> = Option<string> -> Result<Page<T>, PageRefusal>

  /** A caller that reads a page and follows its token, for at most `calls` pages. */
  function Follow<T>(read: Reader<T>, token: Option<string>, calls: nat): Option<seq<seq<T>>>
    decreases calls
  {
    if calls == 0 then None
    else
      match read(token)
      case Failure(_) => None
      case Success(page) =>
        if page.next.None? then Some([page.items])
        else
          match Follow(read, page.next, calls - 1)
          case None => None
          case Some(more) => Some([page.items] + more)
  }

  /** What a page is, wherever it starts and however its token is written. */
  function PageOf<T>(rest: seq<T>, key: T -> Key, limit: nat, write: Key -> string): Page<T>
    requires limit >= 1
  {
    var page := Head(rest, limit);
    Page(page, if |rest| > limit then Some(write(key(page[|page| - 1]))) else None)
  }

  type Starter = Option<string> -> Result<Option<Key>, PageRefusal>

  /** What is left from each cursor on. */
  type Rests<!T> = Option<Key> -> seq<T>

  function RestsOf<T>(ordered: seq<T>, key: T -> Key): Rests<T> { last => Rest(ordered, key, last) }

  ghost predicate ReadsFrom<T>(
    read: Reader<T>, rests: Rests<T>, key: T -> Key, limit: nat, start: Starter, write: Key -> string,
    token: Option<string>)
    requires limit >= 1
  {
    match start(token)
    case Failure(why) => read(token) == Failure(why)
    case Success(last) => read(token) == Success(PageOf(rests(last), key, limit, write))
  }

  ghost predicate StartsAfter(start: Starter, write: Key -> string, fits: Key -> bool, k: Key) {
    start(Some(write(k))) == if fits(k) then Success(Some(k)) else Failure(InvalidCursor)
  }

  function Writer<P>(scheme: Scheme<P>, pin: P): Key -> string { k => Token(scheme, Cursor(pin, Some(k))) }

  function StartOf<P(==)>(scheme: Scheme<P>, pin: P): Starter { token => Start(scheme, token, pin) }

  /** The token of a key is short enough to be read. */
  function Fitting<P>(scheme: Scheme<P>, pin: P): Key -> bool {
    k => |Token(scheme, Cursor(pin, Some(k)))| <= scheme.longest
  }

  /** The token at the end of every page but the last fits. */
  ghost predicate BoundariesFit<T>(pages: seq<seq<T>>, key: T -> Key, fits: Key -> bool) {
    forall i :: 0 <= i < |pages| - 1 ==> pages[i] != [] && fits(key(pages[i][|pages[i]| - 1]))
  }

  lemma BoundariesSplit<T>(page: seq<T>, more: seq<seq<T>>, key: T -> Key, fits: Key -> bool)
    requires page != [] && more != []
    ensures BoundariesFit([page] + more, key, fits) <==> fits(key(page[|page| - 1])) && BoundariesFit(more, key, fits)
  {
    var pages := [page] + more;
    if BoundariesFit(pages, key, fits) {
      assert pages[0] == page;
      forall i | 0 <= i < |more| - 1 ensures more[i] != [] && fits(key(more[i][|more[i]| - 1])) {
        assert pages[i + 1] == more[i];
      }
    }
  }

  /** A token is good for the snapshot it was made in, and refused in every other. */
  lemma TokenPinned<P(!new)>(scheme: Scheme<P>, pin: P, last: Key, now: P, shape: Key -> bool)
    requires Faithful(scheme.codec, shape) && shape(last)
    ensures var token := Token(scheme, Cursor(pin, Some(last)));
      Start(scheme, Some(token), now) ==
        if |token| > scheme.longest then Failure(InvalidCursor)
        else if now != pin then Failure(SnapshotChanged)
        else Success(Some(last))
  {
    TokenRead(scheme, Cursor(pin, Some(last)), shape);
  }

  lemma RestOfRest<T>(ordered: seq<T>, key: T -> Key, last: Option<Key>, x: T)
    requires x in Rest(ordered, key, last)
    ensures Filter(Rest(ordered, key, last), Beyond(key, key(x))) == Rest(ordered, key, Some(key(x)))
  {
    if last.Some? {
      FilterMember(ordered, Beyond(key, last.value), x);
      forall y | KeyLt(key(x), key(y)) ensures KeyLt(last.value, key(y)) {
        KeyLeTransitive(last.value, key(x), key(y));
        if last.value == key(y) { KeyLeTotal(key(x), key(y)); }
      }
      FilterFilter(ordered, Beyond(key, last.value), Beyond(key, key(x)), Beyond(key, key(x)));
    }
  }

  /** The first page, given what following its token gives. */
  lemma FollowStep<T>(read: Reader<T>, token: Option<string>, calls: nat, page: Page<T>)
    requires read(token) == Success(page) && page.next.Some?
    ensures Follow(read, token, calls + 1) ==
              match Follow(read, page.next, calls)
              case None => None
              case Some(more) => Some([page.items] + more)
  {
  }

  lemma FollowRefused<T>(read: Reader<T>, token: Option<string>, calls: nat)
    requires read(token).Failure?
    ensures Follow(read, token, calls) == None
  {
  }

  lemma PagesUnfolded<T>(rest: seq<T>, key: T -> Key, limit: nat)
    requires 1 <= limit < |rest|
    ensures var more := Pages(Filter(rest, Beyond(key, key(rest[limit - 1]))), key, limit);
      Pages(rest, key, limit) == [rest[..limit]] + more && more != []
  {
    FilterShorter(rest, Beyond(key, key(rest[limit - 1])), rest[limit - 1]);
  }

  type Fitness<!T> = seq<seq<T>> -> bool

  /** What is asked of all page boundaries is asked of the first and of the others. */
  ghost predicate AsksInTurn<T>(ok: Fitness<T>, key: T -> Key, fits: Key -> bool, page: seq<T>, more: seq<seq<T>>) {
    page != [] && more != [] ==> (ok([page] + more) <==> fits(key(page[|page| - 1])) && ok(more))
  }

  /** The pages from a cursor on: the only one, or the first and those from its last key on. */
  ghost predicate Advances<T>(
    rests: Rests<T>, pages: Option<Key> -> seq<seq<T>>, key: T -> Key, limit: nat, start: Starter,
    write: Key -> string, fits: Key -> bool, ok: Fitness<T>, last: Option<Key>)
    requires limit >= 1
  {
    var rest := rests(last);
    if |rest| <= limit then pages(last) == [rest] && ok([rest])
    else
      var k := key(rest[limit - 1]);
      && |rests(Some(k))| < |rest| && pages(Some(k)) != [] && pages(last) == [rest[..limit]] + pages(Some(k))
      && AsksInTurn(ok, key, fits, rest[..limit], pages(Some(k))) && StartsAfter(start, write, fits, k)
  }

  /** Following ends with all the pages when every page-boundary token fits, and is refused otherwise. */
  lemma {:induction false} FollowReads<T>(
    read: Reader<T>, rests: Rests<T>, pages: Option<Key> -> seq<seq<T>>, key: T -> Key, limit: nat, start: Starter,
    write: Key -> string, fits: Key -> bool, ok: Fitness<T>, token: Option<string>, last: Option<Key>, calls: nat)
    requires limit >= 1 && start(token) == Success(last) && calls > |rests(last)|
    requires forall token :: ReadsFrom(read, rests, key, limit, start, write, token)
    requires forall last :: Advances(rests, pages, key, limit, start, write, fits, ok, last)
    ensures Follow(read, token, calls) == if ok(pages(last)) then Some(pages(last)) else None
    decreases calls
  {
    var rest := rests(last);
    assert ReadsFrom(read, rests, key, limit, start, write, token);
    assert Advances(rests, pages, key, limit, start, write, fits, ok, last);
    if |rest| > limit {
      var k := key(rest[limit - 1]);
      FollowStep(read, token, calls - 1, PageOf(rest, key, limit, write));
      if fits(k) {
        FollowReads(read, rests, pages, key, limit, start, write, fits, ok, Some(write(k)), Some(k), calls - 1);
      } else {
        assert ReadsFrom(read, rests, key, limit, start, write, Some(write(k)));
        FollowRefused(read, Some(write(k)), calls - 1);
      }
    }
  }

  /** The pages from a rest on: the first, and those from the rest after it. */
  lemma PagesFrom<T>(ordered: seq<T>, key: T -> Key, last: Option<Key>, limit: nat)
    requires 1 <= limit < |Rest(ordered, key, last)|
    ensures var rest := Rest(ordered, key, last);
      var x := rest[limit - 1];
      var rest' := Rest(ordered, key, Some(key(x)));
      && x in ordered && |rest'| < |rest| && Pages(rest', key, limit) != []
      && Pages(rest, key, limit) == [rest[..limit]] + Pages(rest', key, limit)
  {
    var rest := Rest(ordered, key, last);
    var x := rest[limit - 1];
    InOrdered(ordered, key, last, x);
    RestOfRest(ordered, key, last, x);
    FilterShorter(rest, Beyond(key, key(x)), x);
    PagesUnfolded(rest, key, limit);
  }

  ghost function AllFit<T>(key: T -> Key, fits: Key -> bool): Fitness<T> { pages => BoundariesFit(pages, key, fits) }

  function PagesOf<T>(ordered: seq<T>, key: T -> Key, limit: nat): Option<Key> -> seq<seq<T>>
    requires limit >= 1
  {
    last => Pages(Rest(ordered, key, last), key, limit)
  }

  lemma PagesAdvance<T, P(!new)>(
    ordered: seq<T>, key: T -> Key, limit: nat, pin: P, scheme: Scheme<P>, shape: Key -> bool, last: Option<Key>)
    requires limit >= 1 && Faithful(scheme.codec, shape) && forall x :: x in ordered ==> shape(key(x))
    ensures var fits := Fitting(scheme, pin);
      Advances(RestsOf(ordered, key), PagesOf(ordered, key, limit), key, limit, StartOf(scheme, pin),
               Writer(scheme, pin), fits, AllFit(key, fits), last)
  {
    var rest := Rest(ordered, key, last);
    if |rest| > limit {
      var k := key(rest[limit - 1]);
      PagesFrom(ordered, key, last, limit);
      TokenPinned(scheme, pin, k, pin, shape);
      BoundariesSplit(rest[..limit], Pages(Rest(ordered, key, Some(k)), key, limit), key, Fitting(scheme, pin));
    }
  }

  lemma FollowSnapshot<T, P(!new)>(
    read: Reader<T>, ordered: seq<T>, key: T -> Key, limit: nat, pin: P, scheme: Scheme<P>, shape: Key -> bool)
    requires limit >= 1 && Faithful(scheme.codec, shape) && forall x :: x in ordered ==> shape(key(x))
    requires forall token ::
        ReadsFrom(read, RestsOf(ordered, key), key, limit, StartOf(scheme, pin), Writer(scheme, pin), token)
    ensures var pages := Pages(ordered, key, limit);
      Follow(read, None, |ordered| + 1) ==
        if BoundariesFit(pages, key, Fitting(scheme, pin)) then Some(pages) else None
  {
    var (start, write, fits) := (StartOf(scheme, pin), Writer(scheme, pin), Fitting(scheme, pin));
    var (rests, pages) := (RestsOf(ordered, key), PagesOf(ordered, key, limit));
    forall last ensures Advances(rests, pages, key, limit, start, write, fits, AllFit(key, fits), last) {
      PagesAdvance(ordered, key, limit, pin, scheme, shape, last);
    }
    FollowReads(read, rests, pages, key, limit, start, write, fits, AllFit(key, fits), None, None, |ordered| + 1);
  }

  lemma InOrdered<T>(ordered: seq<T>, key: T -> Key, last: Option<Key>, x: T)
    requires x in Rest(ordered, key, last)
    ensures x in ordered
  {
    if last.Some? {
      FilterMember(ordered, Beyond(key, last.value), x);
    }
  }

  function AssuranceReader<P(==)>(items: seq<Item>, limit: int, pin: P, codec: Codec<P>): Reader<Item> {
    token => AssurancePage(items, limit, token, pin, codec)
  }

  function AssurancePages(items: seq<Item>, limit: nat): seq<seq<Item>>
    requires limit >= 1
  {
    Pages(Sort(items, ItemKey), ItemKey, limit)
  }

  lemma AssuranceReads<P(!new)>(items: seq<Item>, limit: nat, pin: P, codec: Codec<P>)
    requires 1 <= limit <= 100
    ensures forall token ::
        ReadsFrom(AssuranceReader(items, limit, pin, codec), RestsOf(Sort(items, ItemKey), ItemKey), ItemKey, limit,
                  StartOf(AssuranceScheme(codec), pin), Writer(AssuranceScheme(codec), pin), token)
  {
  }

  lemma AssuranceJoined(items: seq<Item>, limit: nat)
    requires limit >= 1
    ensures var (pages, ordered) := (AssurancePages(items, limit), Sort(items, ItemKey));
      && (Joined(pages) == ordered <==> Untied(ordered, ItemKey, limit))
      && (DistinctKeys(items, ItemKey) ==> Joined(pages) == ordered)
  {
    var ordered := Sort(items, ItemKey);
    SortElements(items, ItemKey);
    SortSorted(items, ItemKey);
    PagesJoined(ordered, ItemKey, limit);
    if DistinctKeys(items, ItemKey) {
      DistinctKeysReorder(items, ordered, ItemKey);
      DistinctUntied(ordered, ItemKey, limit);
    }
  }

  /** Paging exactness. Over an unchanged snapshot, following the tokens ends, within one page more than there
      are items, exactly when the token at every page boundary is short enough to be read. The pages make up
      the sorted items exactly when no tie stands across a page boundary; so always for distinct keys. */
  lemma PagingExact<P(!new)>(items: seq<Item>, limit: nat, pin: P, codec: Codec<P>)
    requires Faithful(codec, ItemShape) && 1 <= limit <= 100
    ensures var pages := AssurancePages(items, limit);
      Follow(AssuranceReader(items, limit, pin, codec), None, |items| + 1) ==
        if BoundariesFit(pages, ItemKey, Fitting(AssuranceScheme(codec), pin)) then Some(pages) else None
    ensures var (pages, ordered) := (AssurancePages(items, limit), Sort(items, ItemKey));
      && (Joined(pages) == ordered <==> Untied(ordered, ItemKey, limit))
      && (DistinctKeys(items, ItemKey) ==> Joined(pages) == ordered)
  {
    AssuranceReads(items, limit, pin, codec);
    FollowSnapshot(AssuranceReader(items, limit, pin, codec), Sort(items, ItemKey), ItemKey, limit, pin,
                   AssuranceScheme(codec), ItemShape);
    AssuranceJoined(items, limit);
  }

  // -------------------------------------------------------------------------------- execution views

  datatype Edge = Edge(source: string, target: string, kind: string)

  function IdOf(n: Node): string { n.id }

  function LeavesFrom(page: seq<Node>): Edge -> bool { (e: Edge) => e.source in Map(page, IdOf) }

  /** The edges that go with a page. */
  function EdgesOn(page: seq<Node>, edges: seq<Edge>): seq<Edge> { Filter(edges, LeavesFrom(page)) }

  function ExecutionReader<P(==)>(nodes: seq<Node>, limit: int, pin: P, codec: Codec<P>): Reader<Node> {
    token => ExecutionPage(nodes, limit, token, pin, codec)
  }

  ghost predicate DistinctIds(nodes: seq<Node>) { Distinct(Map(nodes, IdOf)) }

  lemma IdsMakeKeys(nodes: seq<Node>)
    requires DistinctIds(nodes)
    ensures DistinctKeys(nodes, NodeKey)
  {
    forall i, j | 0 <= i < j < |nodes| ensures NodeKey(nodes[i]) != NodeKey(nodes[j]) {
      assert Map(nodes, IdOf)[i] != Map(nodes, IdOf)[j];
      assert NodeKey(nodes[i])[1] != NodeKey(nodes[j])[1];
    }
  }

  lemma FilterEnds<T>(s: seq<T>, p: T -> bool)
    requires s != [] && p(s[|s| - 1])
    ensures Filter(s, p) != [] && Filter(s, p)[|Filter(s, p)| - 1] == s[|s| - 1]
  {
    var (n, end) := (|s| - 1, s[|s| - 1]);
    assert s == s[..n] + [end];
    FilterConcat(s[..n], [end], p);
    assert [end][1..] == [];
  }

  lemma LtLe(a: Key, b: Key, c: Key)
    requires KeyLt(a, b) && KeyLe(b, c)
    ensures KeyLt(a, c)
  {
    KeyLeTransitive(a, b, c);
    if a == c { KeyLeTotal(b, c); }
  }

  /** What lies after the cursor includes the end of the whole. */
  lemma EndBeyond<T>(ordered: seq<T>, key: T -> Key, last: Key)
    requires Sorted(ordered, key) && Filter(ordered, Beyond(key, last)) != []
    ensures ordered != [] && Beyond(key, last)(ordered[|ordered| - 1])
  {
    var x := Filter(ordered, Beyond(key, last))[0];
    FilterMember(ordered, Beyond(key, last), x);
    var i :| 0 <= i < |ordered| && ordered[i] == x;
    if i < |ordered| - 1 {
      LtLe(last, key(x), key(ordered[|ordered| - 1]));
    }
  }

  /** The rest ends where the whole ends. */
  lemma RestEnds<T>(ordered: seq<T>, key: T -> Key, last: Option<Key>)
    requires Sorted(ordered, key) && DistinctKeys(ordered, key) && Rest(ordered, key, last) != []
    ensures var rest := Rest(ordered, key, last);
      ordered != [] && rest[|rest| - 1] == ordered[|ordered| - 1] && DistinctKeys(rest, key)
  {
    if last.Some? {
      EndBeyond(ordered, key, last.value);
      FilterEnds(ordered, Beyond(key, last.value));
      DistinctFilter(ordered, key, Beyond(key, last.value));
    }
  }

  lemma {:induction false} DistinctFilter<T>(s: seq<T>, key: T -> Key, p: T -> bool)
    requires DistinctKeys(s, key)
    ensures DistinctKeys(Filter(s, p), key)
  {
    if s != [] {
      forall i, j | 0 <= i < j < |s[1..]| ensures key(s[1..][i]) != key(s[1..][j]) {
        assert s[1..][i] == s[i + 1] && s[1..][j] == s[j + 1];
      }
      DistinctFilter(s[1..], key, p);
      forall x | x in Filter(s[1..], p) ensures key(x) != key(s[0]) {
        FilterMember(s[1..], p, x);
        var i :| 0 <= i < |s[1..]| && s[1..][i] == x;
        assert x == s[i + 1];
      }
    }
  }

  /** "Ends with the last node" says the same as "nothing is left". */
  lemma CompleteIff<T>(ordered: seq<T>, key: T -> Key, last: Option<Key>, limit: nat)
    requires limit >= 1 && Sorted(ordered, key) && DistinctKeys(ordered, key)
    ensures var (rest, page) := (Rest(ordered, key, last), Head(Rest(ordered, key, last), limit));
      page == [] || page[|page| - 1] == ordered[|ordered| - 1] <==> |rest| <= limit
  {
    var rest := Rest(ordered, key, last);
    if rest != [] {
      RestEnds(ordered, key, last);
      if |rest| > limit {
        assert key(rest[limit - 1]) != key(rest[|rest| - 1]);
      }
    }
  }

  lemma EdgesTwo(page: seq<Node>, rest: seq<Node>, edges: seq<Edge>)
    requires DistinctIds(page + rest)
    ensures multiset(EdgesOn(page + rest, edges)) == multiset(EdgesOn(page, edges)) + multiset(EdgesOn(rest, edges))
    ensures DistinctIds(rest)
  {
    MapConcat(page, rest, IdOf);
    var (a, b) := (Map(page, IdOf), Map(rest, IdOf));
    DistinctParts(a, b);
    FilterSplit(edges, LeavesFrom(page), LeavesFrom(rest), LeavesFrom(page + rest));
  }

  lemma DistinctParts<T>(a: seq<T>, b: seq<T>)
    requires Distinct(a + b)
    ensures Distinct(b) && forall x :: x in a ==> x !in b
  {
    forall i, j | 0 <= i < j < |b| ensures b[i] != b[j] {
      assert (a + b)[|a| + i] == b[i] && (a + b)[|a| + j] == b[j];
    }
    forall x | x in a ensures x !in b {
      var i :| 0 <= i < |a| && a[i] == x;
      forall j | 0 <= j < |b| ensures b[j] != x {
        assert (a + b)[i] == a[i] && (a + b)[|a| + j] == b[j];
      }
    }
  }

  lemma {:induction false} EdgesSplit(pages: seq<seq<Node>>, edges: seq<Edge>)
    requires DistinctIds(Joined(pages))
    ensures multiset(FlatMap(pages, EdgesWith(edges))) == multiset(EdgesOn(Joined(pages), edges))
  {
    if pages == [] {
      FilterNone(edges, LeavesFrom([]));
    } else {
      EdgesTwo(pages[0], Joined(pages[1..]), edges);
      EdgesSplit(pages[1..], edges);
    }
  }

  function EdgesWith(edges: seq<Edge>): seq<Node> -> seq<Edge> { page => EdgesOn(page, edges) }

  lemma ExecutionReadsFrom<P(!new)>(
    nodes: seq<Node>, limit: nat, pin: P, codec: Codec<P>, token: Option<string>, last: Option<Key>)
    requires 1 <= limit <= 200 && DistinctKeys(Sort(nodes, NodeKey), NodeKey)
    requires Start(ExecutionScheme(codec), token, pin) == Success(last)
    ensures ExecutionPage(nodes, limit, token, pin, codec) ==
              Success(PageOf(Rest(Sort(nodes, NodeKey), NodeKey, last), NodeKey, limit,
                             Writer(ExecutionScheme(codec), pin)))
  {
    SortSorted(nodes, NodeKey);
    CompleteIff(Sort(nodes, NodeKey), NodeKey, last, limit);
  }

  lemma ExecutionReads<P(!new)>(nodes: seq<Node>, limit: nat, pin: P, codec: Codec<P>)
    requires 1 <= limit <= 200 && DistinctKeys(Sort(nodes, NodeKey), NodeKey)
    ensures forall token ::
        ReadsFrom(ExecutionReader(nodes, limit, pin, codec), RestsOf(Sort(nodes, NodeKey), NodeKey), NodeKey, limit,
                  StartOf(ExecutionScheme(codec), pin), Writer(ExecutionScheme(codec), pin), token)
  {
    var (rests, read) := (RestsOf(Sort(nodes, NodeKey), NodeKey), ExecutionReader(nodes, limit, pin, codec));
    var scheme := ExecutionScheme(codec);
    forall token ensures ReadsFrom(read, rests, NodeKey, limit, StartOf(scheme, pin), Writer(scheme, pin), token) {
      var start := Start(scheme, token, pin);
      if start.Success? {
        ExecutionReadsFrom(nodes, limit, pin, codec, token, start.value);
      }
    }
  }

  /** Following the tokens of an execution view ends exactly when the token at every page boundary is short
      enough to be read. The pages then hold every node once, in order, and every edge that leaves a node
      exactly as often as the view does. */
  lemma ExecutionExact<P(!new)>(nodes: seq<Node>, edges: seq<Edge>, limit: nat, pin: P, codec: Codec<P>)
    requires Faithful(codec, NodeShape) && 1 <= limit <= 200 && DistinctIds(nodes)
    ensures var pages := Pages(Sort(nodes, NodeKey), NodeKey, limit);
      && (Follow(ExecutionReader(nodes, limit, pin, codec), None, |nodes| + 1) ==
            if BoundariesFit(pages, NodeKey, Fitting(ExecutionScheme(codec), pin)) then Some(pages) else None)
      && Joined(pages) == Sort(nodes, NodeKey)
      && multiset(FlatMap(pages, EdgesWith(edges))) == multiset(EdgesOn(nodes, edges))
  {
    var (ordered, read) := (Sort(nodes, NodeKey), ExecutionReader(nodes, limit, pin, codec));
    SortElements(nodes, NodeKey);
    SortSorted(nodes, NodeKey);
    IdsMakeKeys(nodes);
    DistinctKeysReorder(nodes, ordered, NodeKey);
    ExecutionReads(nodes, limit, pin, codec);
    FollowSnapshot(read, ordered, NodeKey, limit, pin, ExecutionScheme(codec), NodeShape);
    PagesJoined(ordered, NodeKey, limit);
    DistinctUntied(ordered, NodeKey, limit);
    OrderedEdges(nodes, edges, Pages(ordered, NodeKey, limit));
  }

  lemma OrderedEdges(nodes: seq<Node>, edges: seq<Edge>, pages: seq<seq<Node>>)
    requires DistinctIds(nodes) && Joined(pages) == Sort(nodes, NodeKey)
    ensures multiset(FlatMap(pages, EdgesWith(edges))) == multiset(EdgesOn(nodes, edges))
  {
    var ordered := Sort(nodes, NodeKey);
    SortElements(nodes, NodeKey);
    MapReorder(nodes, ordered, IdOf);
    RepeatsDistinct(Map(nodes, IdOf));
    RepeatsDistinct(Map(ordered, IdOf));
    RepeatsReorder(Map(nodes, IdOf), Map(ordered, IdOf));
    EdgesSplit(pages, edges);
    SameMembers(Map(nodes, IdOf), Map(ordered, IdOf));
    FilterAgrees(edges, LeavesFrom(nodes), LeavesFrom(ordered));
  }

  lemma TiedPages<T>(ordered: seq<T>, key: T -> Key, fits: Key -> bool)
    requires |ordered| == 2 && key(ordered[0]) == key(ordered[1]) && fits(key(ordered[0]))
    ensures !Untied(ordered, key, 1) && BoundariesFit(Pages(ordered, key, 1), key, fits)
  {
    var p := Beyond(key, key(ordered[0]));
    PagesUnfolded(ordered, key, 1);
    FilterShorter(ordered, p, ordered[0]);
    BoundariesSplit(ordered[..1], [Filter(ordered, p)], key, fits);
  }

  /** Two items with one key, one on each side of a page boundary: the second is never shown. */
  lemma TieLost<P(!new)>(a: Item, b: Item, pin: P, codec: Codec<P>)
    requires Faithful(codec, ItemShape) && Fitting(AssuranceScheme(codec), pin)(ItemKey(a)) && ItemKey(a) == ItemKey(b)
    ensures var pages := Follow(AssuranceReader([a, b], 1, pin, codec), None, 3);
      pages.Some? && Joined(pages.value) != Sort([a, b], ItemKey)
  {
    PagingExact([a, b], 1, pin, codec);
    var ordered := Sort([a, b], ItemKey);
    SortMembers([a, b], ItemKey);
    assert ordered[0] in ordered && ordered[1] in ordered;
    TiedPages(ordered, ItemKey, Fitting(AssuranceScheme(codec), pin));
  }

  lemma BareLongEnough(n: nat)
    requires n >= 1537
    ensures BareLength(n) > 2048
  {
  }

  /** Between two pages stands an item whose id alone makes the token too long: the first page is answered with
      a token that is refused, and the second item is never shown. */
  lemma LongTokenStops<P(!new)>(a: Item, b: Item, pin: P, codec: Codec<P>)
    requires Faithful(codec, ItemShape) && KeyLt(ItemKey(a), ItemKey(b))
    requires |codec.render(Cursor(pin, Some(ItemKey(a))))| >= |a.id| >= 1537
    ensures var read := AssuranceReader([a, b], 1, pin, codec);
      && read(None).Success? && read(None).value.items == [a] && read(None).value.next.Some?
      && read(read(None).value.next) == Failure(InvalidCursor)
      && Follow(read, None, 3) == None
  {
    var (scheme, read) := (AssuranceScheme(codec), AssuranceReader([a, b], 1, pin, codec));
    LongToken(scheme, pin, ItemKey(a));
    KeyLeTotal(ItemKey(a), ItemKey(b));
    assert [a, b][1..] == [b];
    SortOne(b, ItemKey);
    assert Sort([a, b], ItemKey) == [a, b];
    TokenPinned(scheme, pin, ItemKey(a), pin, ItemShape);
    assert [a, b][..1] == [a];
    FollowStep(read, None, 2, read(None).value);
    FollowRefused(read, read(None).value.next, 2);
  }

  lemma LongToken<P>(scheme: Scheme<P>, pin: P, k: Key)
    requires scheme.strip && |scheme.codec.render(Cursor(pin, Some(k)))| >= 1537
    ensures |Token(scheme, Cursor(pin, Some(k)))| > 2048
  {
    var text := scheme.codec.render(Cursor(pin, Some(k)));
    BareLongEnough(|text|);
    StrippedPadded(text);
    BarePadded(text);
  }
}
