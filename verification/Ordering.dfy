/** Python's orderings of strings, integers and tuples, and the stable sort built on them.

    Every `sorted(items, key=...)` of the orchestrator is `Sort(items, key)` here, with the
    tuple that the key lambda builds written as a `Key`.
 */
module Ordering {
  import opened Sequences

  datatype Atom = Num(n: int) | Text(t: string)

  type Key = seq<Atom>

  /** Lexicographic order of strings by code point. */
  predicate TextLe(a: string, b: string) {
    a == [] || (b != [] && (a[0] < b[0] || (a[0] == b[0] && TextLe(a[1..], b[1..]))))
  }

  predicate AtomLe(a: Atom, b: Atom) {
    match (a, b)
    case (Num(x), Num(y)) => x <= y
    case (Text(x), Text(y)) => TextLe(x, y)
    case (Num(_), Text(_)) => true
    case (Text(_), Num(_)) => false
  }

  /** Lexicographic order of tuples. */
  predicate KeyLe(a: Key, b: Key) {
    a == [] || (b != [] && if a[0] == b[0] then KeyLe(a[1..], b[1..]) else AtomLe(a[0], b[0]))
  }

  predicate KeyLt(a: Key, b: Key) {
    KeyLe(a, b) && a != b
  }

  lemma {:induction false} TextLeTotal(a: string, b: string)
    ensures TextLe(a, b) || TextLe(b, a)
    ensures TextLe(a, b) && TextLe(b, a) ==> a == b
  {
    if a != [] && b != [] && a[0] == b[0] {
      TextLeTotal(a[1..], b[1..]);
      assert a == [a[0]] + a[1..] && b == [b[0]] + b[1..];
    }
  }

  lemma {:induction false} TextLeTransitive(a: string, b: string, c: string)
    requires TextLe(a, b) && TextLe(b, c)
    ensures TextLe(a, c)
  {
    if a != [] && b != [] && c != [] && a[0] == b[0] == c[0] {
      TextLeTransitive(a[1..], b[1..], c[1..]);
    }
  }

  lemma AtomLeTotal(a: Atom, b: Atom)
    ensures AtomLe(a, b) || AtomLe(b, a)
    ensures AtomLe(a, b) && AtomLe(b, a) ==> a == b
  {
    if a.Text? && b.Text? {
      TextLeTotal(a.t, b.t);
    }
  }

  lemma AtomLeTransitive(a: Atom, b: Atom, c: Atom)
    requires AtomLe(a, b) && AtomLe(b, c)
    ensures AtomLe(a, c)
  {
    if a.Text? && b.Text? && c.Text? {
      TextLeTransitive(a.t, b.t, c.t);
    }
  }

  /** Tuples of strings and integers are totally ordered, with equality only for equal tuples. */
  lemma {:induction false} KeyLeTotal(a: Key, b: Key)
    ensures KeyLe(a, b) || KeyLe(b, a)
    ensures KeyLe(a, b) && KeyLe(b, a) ==> a == b
  {
    if a != [] && b != [] {
      AtomLeTotal(a[0], b[0]);
      if a[0] == b[0] {
        KeyLeTotal(a[1..], b[1..]);
        assert a == [a[0]] + a[1..] && b == [b[0]] + b[1..];
      }
    }
  }

  lemma {:induction false} KeyLeTransitive(a: Key, b: Key, c: Key)
    requires KeyLe(a, b) && KeyLe(b, c)
    ensures KeyLe(a, c)
  {
    if a != [] && b != [] && c != [] {
      if a[0] == b[0] == c[0] {
        KeyLeTransitive(a[1..], b[1..], c[1..]);
      } else {
        AtomLeTotal(a[0], b[0]);
        AtomLeTotal(b[0], c[0]);
        if a[0] != b[0] && b[0] != c[0] {
          AtomLeTransitive(a[0], b[0], c[0]);
        }
        AtomLeTotal(a[0], c[0]);
      }
    }
  }

  /** The texts agree up to `k`, where the first has the smaller code point. */
  predicate SmallerAt(a: string, b: string, k: nat) {
    k < |a| && k < |b| && a[..k] == b[..k] && (a[k] as int) < (b[k] as int)
  }

  /** Two texts are in order exactly when the first begins the second, or has the smaller code point where they
      first differ. */
  lemma {:induction false} TextOrderIff(a: string, b: string)
    ensures TextLe(a, b) <==> a <= b || exists k: nat :: SmallerAt(a, b, k)
  {
    if a != [] && b != [] {
      if a[0] == b[0] {
        TextOrderIff(a[1..], b[1..]);
        assert a == [a[0]] + a[1..] && b == [b[0]] + b[1..];
        if k: nat :| SmallerAt(a[1..], b[1..], k) {
          assert a[..k + 1] == [a[0]] + a[1..][..k] && b[..k + 1] == [b[0]] + b[1..][..k];
          assert SmallerAt(a, b, k + 1);
        }
        if k: nat :| SmallerAt(a, b, k) {
          assert a[1..][..k - 1] == a[..k][1..] && b[1..][..k - 1] == b[..k][1..];
          assert SmallerAt(a[1..], b[1..], k - 1);
        }
      } else {
        assert a[0] < b[0] ==> SmallerAt(a, b, 0);
        if k: nat :| SmallerAt(a, b, k) {
          assert k > 0 ==> a[..k][0] == b[..k][0];
        }
      }
    }
  }

  /** Two pairs are in order when their first components are, or these are equal and the second ones are. */
  lemma PairOrder(a: Atom, x: Atom, b: Atom, y: Atom)
    ensures KeyLe([a, x], [b, y]) <==> if a != b then AtomLe(a, b) else AtomLe(x, y)
  {
    AtomLeTotal(x, y);
    assert [x][1..] == [] && [y][1..] == [];
    assert KeyLe([x], [y]) <==> AtomLe(x, y);
    assert [a, x][1..] == [x] && [b, y][1..] == [y];
  }

  /** The same for triples. */
  lemma TripleOrder(a: Atom, x: Atom, u: Atom, b: Atom, y: Atom, v: Atom)
    ensures KeyLe([a, x, u], [b, y, v]) <==>
              if a != b then AtomLe(a, b) else if x != y then AtomLe(x, y) else AtomLe(u, v)
  {
    assert [a, x, u][1..] == [x, u] && [b, y, v][1..] == [y, v];
    PairOrder(x, u, y, v);
  }

  // ------------------------------------------------------------------ the stable sort

  function Insert<T>(x: T, s: seq<T>, key: T -> Key): (r: seq<T>)
    ensures |r| == |s| + 1
  {
    if s == [] || KeyLe(key(x), key(s[0])) then [x] + s
    else [s[0]] + Insert(x, s[1..], key)
  }

  function Sort<T>(s: seq<T>, key: T -> Key): (r: seq<T>)
    ensures |r| == |s|
  {
    if s == [] then [] else Insert(s[0], Sort(s[1..], key), key)
  }

  ghost predicate Sorted<T>(s: seq<T>, key: T -> Key) {
    forall i, j :: 0 <= i < j < |s| ==> KeyLe(key(s[i]), key(s[j]))
  }

  ghost predicate StrictlySorted<T>(s: seq<T>, key: T -> Key) {
    forall i, j :: 0 <= i < j < |s| ==> KeyLt(key(s[i]), key(s[j]))
  }

  /** The elements that tie on one key, in the order they stand. */
  function OfKey<T>(s: seq<T>, key: T -> Key, k: Key): seq<T> {
    if s == [] then []
    else if key(s[0]) == k then [s[0]] + OfKey(s[1..], key, k)
    else OfKey(s[1..], key, k)
  }

  lemma {:induction false} InsertElements<T>(x: T, s: seq<T>, key: T -> Key)
    ensures multiset(Insert(x, s, key)) == multiset([x]) + multiset(s)
  {
    if s == [] || KeyLe(key(x), key(s[0])) {
    } else {
      InsertElements(x, s[1..], key);
      assert s == [s[0]] + s[1..];
    }
  }

  /** Sorting loses nothing and invents nothing. */
  lemma {:induction false} SortElements<T>(s: seq<T>, key: T -> Key)
    ensures multiset(Sort(s, key)) == multiset(s)
  {
    if s != [] {
      SortElements(s[1..], key);
      InsertElements(s[0], Sort(s[1..], key), key);
      assert s == [s[0]] + s[1..];
    }
  }

  lemma SortMembers<T>(s: seq<T>, key: T -> Key)
    ensures forall x :: x in Sort(s, key) <==> x in s
  {
    SortElements(s, key);
    forall x ensures x in Sort(s, key) <==> x in s {
      assert x in multiset(Sort(s, key)) <==> x in multiset(s);
    }
  }

  lemma SortedMember<T>(s: seq<T>, key: T -> Key, x: T)
    requires x in Sort(s, key)
    ensures x in s
  {
    SortElements(s, key);
    assert x in multiset(s);
  }

  lemma {:induction false} InsertSorted<T>(x: T, s: seq<T>, key: T -> Key)
    requires Sorted(s, key)
    ensures Sorted(Insert(x, s, key), key)
  {
    var r := Insert(x, s, key);
    if s == [] {
    } else if KeyLe(key(x), key(s[0])) {
      forall j | 0 <= j < |s| ensures KeyLe(key(x), key(s[j])) {
        if j > 0 { KeyLeTransitive(key(x), key(s[0]), key(s[j])); }
      }
    } else {
      KeyLeTotal(key(x), key(s[0]));
      InsertSorted(x, s[1..], key);
      var t := Insert(x, s[1..], key);
      forall j | 0 <= j < |t| ensures KeyLe(key(s[0]), key(t[j])) {
        InsertElements(x, s[1..], key);
        assert t[j] in multiset(t);
        assert t[j] == x || t[j] in s[1..];
      }
    }
  }

  lemma {:induction false} SortSorted<T>(s: seq<T>, key: T -> Key)
    ensures Sorted(Sort(s, key), key)
  {
    if s != [] {
      SortSorted(s[1..], key);
      InsertSorted(s[0], Sort(s[1..], key), key);
    }
  }

  lemma {:induction false} InsertOfKey<T>(x: T, s: seq<T>, key: T -> Key, k: Key)
    ensures OfKey(Insert(x, s, key), key, k) == if key(x) == k then [x] + OfKey(s, key, k) else OfKey(s, key, k)
  {
    if s == [] || KeyLe(key(x), key(s[0])) {
      assert ([x] + s)[1..] == s;
    } else {
      KeyLeTotal(key(x), key(s[0]));
      InsertOfKey(x, s[1..], key, k);
      var t := Insert(x, s[1..], key);
      assert ([s[0]] + t)[1..] == t;
    }
  }

  /** Stability: elements with one key keep the order in which they came. */
  lemma {:induction false} SortStable<T>(s: seq<T>, key: T -> Key, k: Key)
    ensures OfKey(Sort(s, key), key, k) == OfKey(s, key, k)
  {
    if s != [] {
      SortStable(s[1..], key, k);
      InsertOfKey(s[0], Sort(s[1..], key), key, k);
    }
  }

  lemma {:induction false} OfKeyMember<T>(s: seq<T>, key: T -> Key, k: Key, x: T)
    ensures x in OfKey(s, key, k) <==> x in s && key(x) == k
  {
    if s != [] {
      OfKeyMember(s[1..], key, k, x);
    }
  }

  /** A sorted sequence is determined by its tie classes. */
  lemma {:induction false} SortedDetermined<T>(s: seq<T>, t: seq<T>, key: T -> Key)
    requires Sorted(s, key) && Sorted(t, key)
    requires forall k :: OfKey(s, key, k) == OfKey(t, key, k)
    ensures s == t
  {
    forall x ensures x in s <==> x in t {
      OfKeyMember(s, key, key(x), x);
      OfKeyMember(t, key, key(x), x);
    }
    assert s == [] <==> t == [] by {
      assert s != [] ==> s[0] in t;
      assert t != [] ==> t[0] in s;
    }
    if s == [] {
      return;
    }
    var a, b := key(s[0]), key(t[0]);
    assert s[0] in t && t[0] in s;
    KeyLeTotal(a, b);
    assert a == b;
    assert OfKey(s, key, a)[0] == s[0] && OfKey(t, key, a)[0] == t[0];
    forall k ensures OfKey(s[1..], key, k) == OfKey(t[1..], key, k) {
      assert OfKey(s, key, k) == OfKey(t, key, k);
      if k == a {
        assert OfKey(s[1..], key, k) == OfKey(s, key, k)[1..];
        assert OfKey(t[1..], key, k) == OfKey(t, key, k)[1..];
      }
    }
    SortedDetermined(s[1..], t[1..], key);
    assert s == [s[0]] + s[1..] && t == [t[0]] + t[1..];
  }

  /** Two arrivals whose tie classes agree sort to the same sequence. */
  lemma SortDetermined<T>(s: seq<T>, t: seq<T>, key: T -> Key)
    requires forall k :: OfKey(s, key, k) == OfKey(t, key, k)
    ensures Sort(s, key) == Sort(t, key)
  {
    SortSorted(s, key);
    SortSorted(t, key);
    forall k ensures OfKey(Sort(s, key), key, k) == OfKey(Sort(t, key), key, k) {
      SortStable(s, key, k);
      SortStable(t, key, k);
    }
    SortedDetermined(Sort(s, key), Sort(t, key), key);
  }

  ghost predicate DistinctKeys<T>(s: seq<T>, key: T -> Key) {
    forall i, j :: 0 <= i < j < |s| ==> key(s[i]) != key(s[j])
  }

  lemma {:induction false} OfKeyAbsent<T>(s: seq<T>, key: T -> Key, k: Key)
    requires forall x :: x in s ==> key(x) != k
    ensures OfKey(s, key, k) == []
  {
    if s != [] {
      OfKeyAbsent(s[1..], key, k);
    }
  }

  lemma {:induction false} OfKeyUnique<T>(s: seq<T>, key: T -> Key, x: T)
    requires DistinctKeys(s, key) && x in s
    ensures OfKey(s, key, key(x)) == [x]
  {
    if s[0] == x {
      forall y | y in s[1..] ensures key(y) != key(x) {
        var j :| 0 <= j < |s[1..]| && s[1..][j] == y;
        assert s[j + 1] == y;
      }
      OfKeyAbsent(s[1..], key, key(x));
    } else {
      var j :| 0 <= j < |s| && s[j] == x;
      assert s[1..][j - 1] == x;
      OfKeyUnique(s[1..], key, x);
    }
  }

  /** With distinct keys the sorted sequence does not depend on the order of arrival. */
  lemma SortCanonical<T>(s: seq<T>, t: seq<T>, key: T -> Key)
    requires multiset(s) == multiset(t)
    requires DistinctKeys(s, key) && DistinctKeys(t, key)
    ensures Sort(s, key) == Sort(t, key)
  {
    forall k ensures OfKey(s, key, k) == OfKey(t, key, k) {
      if x :| x in s && key(x) == k {
        assert x in multiset(s);
        assert x in t;
        OfKeyUnique(s, key, x);
        OfKeyUnique(t, key, x);
      } else {
        forall x | x in t ensures key(x) != k {
          assert x in multiset(t);
          assert x in s;
        }
        OfKeyAbsent(s, key, k);
        OfKeyAbsent(t, key, k);
      }
    }
    SortDetermined(s, t, key);
  }

  lemma {:induction false} InsertFilter<T>(x: T, s: seq<T>, key: T -> Key, p: T -> bool)
    requires Sorted(s, key)
    ensures Filter(Insert(x, s, key), p) == if p(x) then Insert(x, Filter(s, p), key) else Filter(s, p)
  {
    if s == [] {
    } else if KeyLe(key(x), key(s[0])) {
      assert ([x] + s)[1..] == s;
      if p(x) && Filter(s, p) != [] {
        var y := Filter(s, p)[0];
        FilterMember(s, p, y);
        var j :| 0 <= j < |s| && s[j] == y;
        if j > 0 { KeyLeTransitive(key(x), key(s[0]), key(s[j])); }
      }
    } else {
      var t := Insert(x, s[1..], key);
      assert ([s[0]] + t)[1..] == t;
      InsertFilter(x, s[1..], key, p);
      if p(s[0]) {
        assert Filter(s, p)[1..] == Filter(s[1..], p);
      }
    }
  }

  /** Selecting before or after a stable sort is the same. */
  lemma {:induction false} SortFilter<T>(s: seq<T>, key: T -> Key, p: T -> bool)
    ensures Filter(Sort(s, key), p) == Sort(Filter(s, p), key)
  {
    if s != [] {
      SortFilter(s[1..], key, p);
      SortSorted(s[1..], key);
      InsertFilter(s[0], Sort(s[1..], key), key, p);
      if p(s[0]) {
        assert Filter(s, p) == [s[0]] + Filter(s[1..], p);
        assert Filter(s, p)[1..] == Filter(s[1..], p);
      }
    }
  }

  lemma {:induction false} OfKeyConcat<T>(s: seq<T>, t: seq<T>, key: T -> Key, k: Key)
    ensures OfKey(s + t, key, k) == OfKey(s, key, k) + OfKey(t, key, k)
  {
    if s == [] {
      assert s + t == t;
    } else {
      OfKeyConcat(s[1..], t, key, k);
      assert (s + t)[1..] == s[1..] + t;
    }
  }

  ghost predicate Identifies<T>(s: seq<T>, key: T -> Key) {
    forall i, j :: 0 <= i < |s| && 0 <= j < |s| && key(s[i]) == key(s[j]) ==> s[i] == s[j]
  }

  lemma IdentifiesReorder<T>(s: seq<T>, t: seq<T>, key: T -> Key)
    requires Identifies(s, key) && SameElements(s, t)
    ensures Identifies(t, key)
  {
    SameMembers(s, t);
    forall i, j | 0 <= i < |t| && 0 <= j < |t| && key(t[i]) == key(t[j]) ensures t[i] == t[j] {
      assert t[i] in s && t[j] in s;
    }
  }

  /** When the key identifies the element, the sorted sequence depends on the elements alone. */
  lemma SortIdentified<T>(s: seq<T>, t: seq<T>, key: T -> Key)
    requires SameElements(s, t)
    requires Identifies(s, key)
    ensures Sort(s, key) == Sort(t, key)
  {
    SortElements(s, key);
    SortElements(t, key);
    IdentifiesReorder(s, Sort(s, key), key);
    SortSorted(s, key);
    SortSorted(t, key);
    SortedIdentified(Sort(s, key), Sort(t, key), key);
  }

  lemma SameFirst<T>(s: seq<T>, t: seq<T>, key: T -> Key)
    requires Sorted(s, key) && Sorted(t, key) && SameElements(s, t) && Identifies(s, key) && s != []
    ensures t != [] && s[0] == t[0] && SameElements(s[1..], t[1..])
  {
    SameMembers(s, t);
    assert s[0] in t && t[0] in s;
    KeyLeTotal(key(s[0]), key(t[0]));
    assert s[0] == t[0];
    assert s == [s[0]] + s[1..] && t == [t[0]] + t[1..];
    assert multiset(s[1..]) == multiset(s) - multiset([s[0]]);
    assert multiset(t[1..]) == multiset(t) - multiset([t[0]]);
  }

  lemma {:induction false} SortedIdentified<T>(s: seq<T>, t: seq<T>, key: T -> Key)
    requires Sorted(s, key) && Sorted(t, key) && SameElements(s, t)
    requires Identifies(s, key)
    ensures s == t
  {
    if s == [] {
      SameMembers(s, t);
    } else {
      SameFirst(s, t, key);
      SortedIdentified(s[1..], t[1..], key);
    }
  }

  ghost predicate OrderKept<T, U>(s: seq<T>, f: T -> U, key: T -> Key, key': U -> Key) {
    forall x, y :: x in s && y in s ==> (KeyLe(key(x), key(y)) <==> KeyLe(key'(f(x)), key'(f(y))))
  }

  lemma {:induction false} InsertMap<T, U>(x: T, s: seq<T>, f: T -> U, key: T -> Key, key': U -> Key)
    requires OrderKept([x] + s, f, key, key')
    ensures Map(Insert(x, s, key), f) == Insert(f(x), Map(s, f), key')
  {
    if s != [] {
      assert x in [x] + s && s[0] in [x] + s;
      if KeyLe(key(x), key(s[0])) {
      } else {
        forall y | y in [x] + s[1..] ensures y in [x] + s {
          assert y == x || y in s[1..];
        }
        InsertMap(x, s[1..], f, key, key');
        assert Map(s, f)[1..] == Map(s[1..], f);
        MapConcat([s[0]], Insert(x, s[1..], key), f);
      }
    }
  }

  /** Sorting commutes with a map that keeps the order of the keys. */
  lemma {:induction false} SortMap<T, U>(s: seq<T>, f: T -> U, key: T -> Key, key': U -> Key)
    requires OrderKept(s, f, key, key')
    ensures Map(Sort(s, key), f) == Sort(Map(s, f), key')
  {
    if s != [] {
      SortMap(s[1..], f, key, key');
      var rest := Sort(s[1..], key);
      forall y | y in [s[0]] + rest ensures y in s {
        if y != s[0] {
          SortedMember(s[1..], key, y);
        }
      }
      InsertMap(s[0], Sort(s[1..], key), f, key, key');
      assert Map(s, f)[1..] == Map(s[1..], f);
    }
  }

  lemma SortOne<T>(x: T, key: T -> Key)
    ensures Sort([x], key) == [x]
  {
    assert [x][1..] == [];
  }

  lemma StrictlySortedDistinct<T>(s: seq<T>, key: T -> Key)
    requires StrictlySorted(s, key)
    ensures DistinctKeys(s, key)
  {
  }

  lemma DistinctKeysReorder<T>(s: seq<T>, t: seq<T>, key: T -> Key)
    requires DistinctKeys(s, key) && SameElements(s, t)
    ensures DistinctKeys(t, key)
  {
    MapReorder(s, t, key);
    var (a, b) := (Map(s, key), Map(t, key));
    assert Distinct(a);
    RepeatsDistinct(a);
    RepeatsReorder(a, b);
    RepeatsDistinct(b);
    forall i, j | 0 <= i < j < |t| ensures key(t[i]) != key(t[j]) {
      assert b[i] != b[j];
    }
  }

  lemma {:induction false} SortOfSorted<T>(s: seq<T>, key: T -> Key)
    requires Sorted(s, key)
    ensures Sort(s, key) == s
  {
    if s != [] {
      SortOfSorted(s[1..], key);
    }
  }
}
