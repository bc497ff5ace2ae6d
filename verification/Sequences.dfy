/** Comprehensions over sequences, and how they behave under concatenation and reordering. */
module Sequences {

  datatype Option<+T> = None | Some(value: T) {
    predicate IsFailure() { None? }
    function PropagateFailure<U>(): Option<U> requires None? { None }
    function Extract(): T requires Some? { value }
  }

  datatype Result<+T, +E> = Success(value: T) | Failure(error: E)

  function Map<T, U>(s: seq<T>, f: T -> U): (r: seq<U>)
    ensures |r| == |s|
    ensures forall i :: 0 <= i < |s| ==> r[i] == f(s[i])
  {
    if s == [] then [] else [f(s[0])] + Map(s[1..], f)
  }

  function Filter<T>(s: seq<T>, p: T -> bool): (r: seq<T>)
    ensures |r| <= |s|
  {
    if s == [] then []
    else if p(s[0]) then [s[0]] + Filter(s[1..], p)
    else Filter(s[1..], p)
  }

  /** `[y for x in s if (y := f(x)) is not None]`. */
  function Collect<T, U>(s: seq<T>, f: T -> Option<U>): (r: seq<U>)
    ensures |r| <= |s|
  {
    if s == [] then []
    else if f(s[0]).Some? then [f(s[0]).value] + Collect(s[1..], f)
    else Collect(s[1..], f)
  }

  /** `[y for x in s for y in f(x)]`. */
  function FlatMap<T, U>(s: seq<T>, f: T -> seq<U>): seq<U> {
    if s == [] then [] else f(s[0]) + FlatMap(s[1..], f)
  }

  function Whole<T>(s: seq<T>): seq<T> { s }

  /** The sequences one after the other. */
  function Joined<T>(ss: seq<seq<T>>): seq<T> { FlatMap(ss, Whole) }

  lemma FlatMapOne<T, U>(x: T, f: T -> seq<U>)
    ensures FlatMap([x], f) == f(x)
  {
    assert [x][1..] == [];
  }

  function IndexOf<T(==)>(s: seq<T>, x: T): (i: nat)
    ensures i <= |s|
    ensures x in s <==> i < |s|
    ensures i < |s| ==> s[i] == x
    ensures forall j :: 0 <= j < i ==> s[j] != x
  {
    if s == [] || s[0] == x then 0 else 1 + IndexOf(s[1..], x)
  }

  /** `len(set(s)) != len(s)`. */
  predicate Repeats<T(==)>(s: seq<T>) {
    s != [] && (s[0] in s[1..] || Repeats(s[1..]))
  }

  ghost predicate Distinct<T>(s: seq<T>) {
    forall i, j :: 0 <= i < j < |s| ==> s[i] != s[j]
  }

  ghost predicate SameElements<T>(s: seq<T>, t: seq<T>) {
    multiset(s) == multiset(t)
  }

  function Without<T>(s: seq<T>, i: nat): seq<T>
    requires i < |s|
  {
    s[..i] + s[i + 1..]
  }

  lemma TakeOne<T>(s: seq<T>, i: nat)
    requires i < |s|
    ensures s[..i + 1] == s[..i] + [s[i]]
  {
  }

  lemma TakeAll<T>(s: seq<T>)
    ensures s[..|s|] == s
  {
  }

  lemma WithoutElements<T>(s: seq<T>, i: nat)
    requires i < |s|
    ensures multiset(s) == multiset([s[i]]) + multiset(Without(s, i))
  {
    assert s == s[..i] + [s[i]] + s[i + 1..];
  }

  /** The first element of one arrangement, found in the other. */
  lemma Locate<T>(s: seq<T>, t: seq<T>) returns (i: nat)
    requires s != [] && SameElements(s, t)
    ensures i < |t| && t[i] == s[0]
    ensures SameElements(s[1..], Without(t, i))
  {
    assert s[0] in multiset(t);
    i :| 0 <= i < |t| && t[i] == s[0];
    WithoutElements(t, i);
    assert s == [s[0]] + s[1..];
    assert multiset(s[1..]) == multiset(s) - multiset([s[0]]);
    assert multiset(Without(t, i)) == multiset(t) - multiset([t[i]]);
  }

  lemma SameMembers<T>(s: seq<T>, t: seq<T>)
    requires SameElements(s, t)
    ensures |s| == |t|
    ensures forall x :: x in s <==> x in t
  {
    assert |multiset(s)| == |s| && |multiset(t)| == |t|;
    forall x ensures x in s <==> x in t {
      assert x in multiset(s) <==> x in multiset(t);
    }
  }

  // --------------------------------------------------------------------- concatenation

  lemma {:induction false} MapConcat<T, U>(s: seq<T>, t: seq<T>, f: T -> U)
    ensures Map(s + t, f) == Map(s, f) + Map(t, f)
  {
  }

  lemma MapTakeOne<T, U>(s: seq<T>, i: nat, f: T -> U)
    requires i < |s|
    ensures Map(s[..i + 1], f) == Map(s[..i], f) + [f(s[i])]
  {
  }

  lemma Assoc<T>(a: seq<T>, b: seq<T>, c: seq<T>)
    ensures a + (b + c) == a + b + c
  {
  }

  lemma {:induction false} FilterConcat<T>(s: seq<T>, t: seq<T>, p: T -> bool)
    ensures Filter(s + t, p) == Filter(s, p) + Filter(t, p)
  {
    if s == [] {
      assert s + t == t;
    } else {
      FilterConcat(s[1..], t, p);
      assert (s + t)[1..] == s[1..] + t;
      if p(s[0]) { Assoc([s[0]], Filter(s[1..], p), Filter(t, p)); }
    }
  }

  lemma {:induction false} CollectConcat<T, U>(s: seq<T>, t: seq<T>, f: T -> Option<U>)
    ensures Collect(s + t, f) == Collect(s, f) + Collect(t, f)
  {
    if s == [] {
      assert s + t == t;
    } else {
      CollectConcat(s[1..], t, f);
      assert (s + t)[1..] == s[1..] + t;
      if f(s[0]).Some? { Assoc([f(s[0]).value], Collect(s[1..], f), Collect(t, f)); }
    }
  }

  lemma CollectTakeOne<T, U>(s: seq<T>, i: nat, f: T -> Option<U>)
    requires i < |s|
    ensures Collect(s[..i + 1], f) ==
              if f(s[i]).Some? then Collect(s[..i], f) + [f(s[i]).value] else Collect(s[..i], f)
  {
    TakeOne(s, i);
    CollectConcat(s[..i], [s[i]], f);
    assert [s[i]][1..] == [];
  }

  lemma {:induction false} FlatMapConcat<T, U>(s: seq<T>, t: seq<T>, f: T -> seq<U>)
    ensures FlatMap(s + t, f) == FlatMap(s, f) + FlatMap(t, f)
  {
    if s == [] {
      assert s + t == t;
    } else {
      FlatMapConcat(s[1..], t, f);
      assert (s + t)[1..] == s[1..] + t;
      Assoc(f(s[0]), FlatMap(s[1..], f), FlatMap(t, f));
    }
  }

  lemma FlatMapTakeOne<T, U>(s: seq<T>, i: nat, f: T -> seq<U>)
    requires i < |s|
    ensures FlatMap(s[..i + 1], f) == FlatMap(s[..i], f) + f(s[i])
  {
    TakeOne(s, i);
    FlatMapConcat(s[..i], [s[i]], f);
    assert [s[i]][1..] == [];
  }

  // ------------------------------------------------------------------------- membership

  lemma {:induction false} FilterMember<T>(s: seq<T>, p: T -> bool, x: T)
    ensures x in Filter(s, p) <==> x in s && p(x)
  {
    if s != [] {
      FilterMember(s[1..], p, x);
    }
  }

  lemma {:induction false} CollectMember<T, U>(s: seq<T>, f: T -> Option<U>, y: U)
    ensures y in Collect(s, f) <==> exists x :: x in s && f(x) == Some(y)
  {
    if s != [] {
      CollectMember(s[1..], f, y);
      assert s == [s[0]] + s[1..];
    }
  }

  lemma {:induction false} FlatMapMember<T, U>(s: seq<T>, f: T -> seq<U>, y: U)
    ensures y in FlatMap(s, f) <==> exists x :: x in s && y in f(x)
  {
    if s != [] {
      FlatMapMember(s[1..], f, y);
      assert s == [s[0]] + s[1..];
    }
  }

  // --------------------------------------------------------------- selection and agreement

  lemma {:induction false} CollectEmpty<T, U>(s: seq<T>, f: T -> Option<U>)
    ensures Collect(s, f) == [] <==> forall x :: x in s ==> f(x).None?
  {
    if s != [] {
      CollectEmpty(s[1..], f);
      assert s == [s[0]] + s[1..];
    }
  }

  lemma {:induction false} FilterSplit<T>(s: seq<T>, a: T -> bool, b: T -> bool, either: T -> bool)
    requires forall x :: x in s ==> (either(x) <==> a(x) || b(x)) && !(a(x) && b(x))
    ensures multiset(Filter(s, either)) == multiset(Filter(s, a)) + multiset(Filter(s, b))
  {
    if s != [] {
      FilterSplit(s[1..], a, b, either);
    }
  }

  lemma {:induction false} FilterAll<T>(s: seq<T>, p: T -> bool)
    requires forall x :: x in s ==> p(x)
    ensures Filter(s, p) == s
  {
    if s != [] {
      FilterAll(s[1..], p);
    }
  }

  lemma {:induction false} FilterFilter<T>(s: seq<T>, p: T -> bool, p': T -> bool, both: T -> bool)
    requires forall x :: x in s ==> (both(x) <==> p(x) && p'(x))
    ensures Filter(Filter(s, p), p') == Filter(s, both)
  {
    if s != [] {
      FilterFilter(s[1..], p, p', both);
      if p(s[0]) {
        assert Filter(s, p)[1..] == Filter(s[1..], p);
      }
    }
  }

  /** Results gathered over two sources agree when they agree element by element. */
  lemma {:induction false} FlatMapAgrees<T, U>(s: seq<T>, f: T -> seq<U>, g: T -> seq<U>)
    requires forall x :: x in s ==> f(x) == g(x)
    ensures FlatMap(s, f) == FlatMap(s, g)
  {
    if s != [] {
      FlatMapAgrees(s[1..], f, g);
    }
  }

  lemma {:induction false} CollectAgrees<T, U>(s: seq<T>, f: T -> Option<U>, g: T -> Option<U>)
    requires forall x :: x in s ==> f(x) == g(x)
    ensures Collect(s, f) == Collect(s, g)
  {
    if s != [] {
      CollectAgrees(s[1..], f, g);
    }
  }

  lemma {:induction false} FilterNone<T>(s: seq<T>, p: T -> bool)
    requires forall x :: x in s ==> !p(x)
    ensures Filter(s, p) == []
  {
    if s != [] {
      FilterNone(s[1..], p);
    }
  }

  lemma {:induction false} FilterAgrees<T>(s: seq<T>, p: T -> bool, p': T -> bool)
    requires forall x :: x in s ==> (p(x) <==> p'(x))
    ensures Filter(s, p) == Filter(s, p')
  {
    if s != [] {
      FilterAgrees(s[1..], p, p');
    }
  }

  lemma {:induction false} FlatMapArranged<T, U>(s: seq<T>, f: T -> seq<U>, g: T -> seq<U>)
    requires forall x :: x in s ==> SameElements(f(x), g(x))
    ensures SameElements(FlatMap(s, f), FlatMap(s, g))
  {
    if s != [] {
      FlatMapArranged(s[1..], f, g);
    }
  }

  lemma {:induction false} CollectAll<T, U>(s: seq<T>, f: T -> Option<U>)
    ensures |Collect(s, f)| == |s| <==> forall x :: x in s ==> f(x).Some?
    ensures |Collect(s, f)| == |s| ==> forall i :: 0 <= i < |s| ==> f(s[i]) == Some(Collect(s, f)[i])
  {
    if s != [] {
      CollectAll(s[1..], f);
    }
  }

  // ------------------------------------------------------------------------------- sums

  function Sum<T>(s: seq<T>, f: T -> nat): nat {
    if s == [] then 0 else f(s[0]) + Sum(s[1..], f)
  }

  lemma {:induction false} SumConcat<T>(s: seq<T>, t: seq<T>, f: T -> nat)
    ensures Sum(s + t, f) == Sum(s, f) + Sum(t, f)
  {
    if s == [] {
      assert s + t == t;
    } else {
      SumConcat(s[1..], t, f);
      assert (s + t)[1..] == s[1..] + t;
    }
  }

  lemma SumOne<T>(x: T, f: T -> nat)
    ensures Sum([x], f) == f(x)
  {
    assert [x][1..] == [];
  }

  lemma {:induction false} SumBelow<T>(s: seq<T>, f: T -> nat, g: T -> nat)
    requires forall x :: x in s ==> f(x) <= g(x)
    ensures Sum(s, f) <= Sum(s, g)
    ensures Sum(s, f) == Sum(s, g) <==> forall x :: x in s ==> f(x) == g(x)
  {
    if s != [] {
      SumBelow(s[1..], f, g);
      assert s == [s[0]] + s[1..];
    }
  }

  lemma {:induction false} SumCollect<T, U>(s: seq<T>, f: T -> Option<U>, g: U -> nat, each: T -> nat)
    requires forall x :: x in s ==> each(x) == if f(x).Some? then g(f(x).value) else 0
    ensures Sum(Collect(s, f), g) == Sum(s, each)
  {
    if s != [] {
      SumCollect(s[1..], f, g, each);
    }
  }

  // ------------------------------------------------------------------------- reordering

  lemma {:induction false} FilterReorder<T>(s: seq<T>, t: seq<T>, p: T -> bool)
    requires SameElements(s, t)
    ensures SameElements(Filter(s, p), Filter(t, p))
  {
    if s == [] {
      SameMembers(s, t);
    } else {
      var i := Locate(s, t);
      FilterReorder(s[1..], Without(t, i), p);
      assert t == t[..i] + ([t[i]] + t[i + 1..]);
      FilterConcat(t[..i], [t[i]] + t[i + 1..], p);
      FilterConcat(t[..i], t[i + 1..], p);
      assert ([t[i]] + t[i + 1..])[1..] == t[i + 1..];
    }
  }

  lemma {:induction false} CollectReorder<T, U>(s: seq<T>, t: seq<T>, f: T -> Option<U>)
    requires SameElements(s, t)
    ensures SameElements(Collect(s, f), Collect(t, f))
  {
    if s == [] {
      SameMembers(s, t);
    } else {
      var i := Locate(s, t);
      CollectReorder(s[1..], Without(t, i), f);
      assert t == t[..i] + ([t[i]] + t[i + 1..]);
      CollectConcat(t[..i], [t[i]] + t[i + 1..], f);
      CollectConcat(t[..i], t[i + 1..], f);
      assert ([t[i]] + t[i + 1..])[1..] == t[i + 1..];
    }
  }

  lemma {:induction false} FlatMapReorder<T, U>(s: seq<T>, t: seq<T>, f: T -> seq<U>)
    requires SameElements(s, t)
    ensures SameElements(FlatMap(s, f), FlatMap(t, f))
  {
    if s == [] {
      SameMembers(s, t);
    } else {
      var i := Locate(s, t);
      FlatMapReorder(s[1..], Without(t, i), f);
      assert t == t[..i] + ([t[i]] + t[i + 1..]);
      FlatMapConcat(t[..i], [t[i]] + t[i + 1..], f);
      FlatMapConcat(t[..i], t[i + 1..], f);
      assert ([t[i]] + t[i + 1..])[1..] == t[i + 1..];
    }
  }

  function Single<T, U>(f: T -> U): T -> seq<U> { x => [f(x)] }

  lemma {:induction false} MapFlat<T, U>(s: seq<T>, f: T -> U)
    ensures Map(s, f) == FlatMap(s, Single(f))
  {
    if s != [] {
      MapFlat(s[1..], f);
    }
  }

  lemma MapReorder<T, U>(s: seq<T>, t: seq<T>, f: T -> U)
    requires SameElements(s, t)
    ensures SameElements(Map(s, f), Map(t, f))
  {
    MapFlat(s, f);
    MapFlat(t, f);
    FlatMapReorder(s, t, Single(f));
  }

  // ------------------------------------------------------------------------ repetition

  lemma {:induction false} RepeatsCount<T>(s: seq<T>)
    ensures !Repeats(s) <==> forall x :: multiset(s)[x] <= 1
  {
    if s != [] {
      RepeatsCount(s[1..]);
      assert s == [s[0]] + s[1..];
      assert multiset(s) == multiset([s[0]]) + multiset(s[1..]);
      if s[0] in s[1..] {
        assert s[0] in multiset(s[1..]);
        assert multiset(s)[s[0]] == multiset([s[0]])[s[0]] + multiset(s[1..])[s[0]];
      } else {
        assert multiset(s[1..])[s[0]] == 0;
        if !Repeats(s) {
          forall x ensures multiset(s)[x] <= 1 {
            assert multiset(s)[x] == multiset([s[0]])[x] + multiset(s[1..])[x];
          }
        } else {
          var x :| multiset(s[1..])[x] > 1;
          assert multiset(s)[x] > 1;
        }
      }
    }
  }

  /** Repetition does not depend on the arrangement. */
  lemma RepeatsReorder<T>(s: seq<T>, t: seq<T>)
    requires SameElements(s, t)
    ensures Repeats(s) <==> Repeats(t)
  {
    RepeatsCount(s);
    RepeatsCount(t);
  }

  lemma {:induction false} RepeatsDistinct<T>(s: seq<T>)
    ensures !Repeats(s) <==> Distinct(s)
  {
    if s != [] {
      RepeatsDistinct(s[1..]);
      if !Repeats(s) {
        forall i, j | 0 <= i < j < |s| ensures s[i] != s[j] {
          assert s[j] == s[1..][j - 1];
          if i > 0 { assert s[i] == s[1..][i - 1]; }
        }
      } else if s[0] in s[1..] {
        var j :| 0 <= j < |s[1..]| && s[1..][j] == s[0];
        assert s[j + 1] == s[0];
      } else {
        var i, j :| 0 <= i < j < |s[1..]| && s[1..][i] == s[1..][j];
        assert s[i + 1] == s[j + 1];
      }
    }
  }

  lemma {:induction false} RepeatsParts<T>(a: seq<T>, b: seq<T>)
    requires !Repeats(a + b)
    ensures !Repeats(a) && !Repeats(b)
  {
    if a == [] {
      assert a + b == b;
    } else {
      assert (a + b)[1..] == a[1..] + b;
      RepeatsParts(a[1..], b);
    }
  }

  /** Where nothing repeats over all parts, nothing repeats in one of them. */
  lemma {:induction false} RepeatsInPart<T, U, V>(s: seq<T>, part: T -> seq<U>, f: U -> V, x: T)
    requires !Repeats(Map(FlatMap(s, part), f)) && x in s
    ensures !Repeats(Map(part(x), f))
  {
    MapConcat(part(s[0]), FlatMap(s[1..], part), f);
    RepeatsParts(Map(part(s[0]), f), Map(FlatMap(s[1..], part), f));
    if s[0] != x {
      RepeatsInPart(s[1..], part, f, x);
    }
  }

  /** Elements with one image are one element, where no image repeats. */
  lemma {:induction false} OneOfAnImage<T, U>(s: seq<T>, f: T -> U, p: T -> bool, y: U)
    requires !Repeats(Map(s, f)) && forall x :: x in s && p(x) ==> f(x) == y
    ensures |Filter(s, p)| <= 1
  {
    if s != [] {
      assert Map(s, f)[1..] == Map(s[1..], f);
      OneOfAnImage(s[1..], f, p, y);
      if p(s[0]) && Filter(s[1..], p) != [] {
        var x := Filter(s[1..], p)[0];
        FilterMember(s[1..], p, x);
      }
    }
  }
}
