/** The stable sort behind `Array.prototype.sort`, for a comparator that is a total preorder. */
module Sorting {
  /** `below(a, b)` is "the comparator does not put b first". */
  ghost predicate TotalPreorder<T(!new)>(below: (T, T) -> bool) {
    && (forall a, b :: below(a, b) || below(b, a))
    && (forall a, b, c :: below(a, b) && below(b, c) ==> below(a, c))
  }

  ghost predicate Sorted<T>(s: seq<T>, below: (T, T) -> bool) {
    forall i, j :: 0 <= i < j < |s| ==> below(s[i], s[j])
  }

  function Insert<T>(x: T, s: seq<T>, below: (T, T) -> bool): (r: seq<T>)
    ensures multiset(r) == multiset{x} + multiset(s)
  {
    if s == [] || below(x, s[0]) then [x] + s
    else
      assert s == [s[0]] + s[1..];
      [s[0]] + Insert(x, s[1..], below)
  }

  function Sort<T>(s: seq<T>, below: (T, T) -> bool): (r: seq<T>)
    ensures multiset(r) == multiset(s)
  {
    if s == [] then []
    else
      assert s == [s[0]] + s[1..];
      Insert(s[0], Sort(s[1..], below), below)
  }

  lemma {:induction false} InsertSorts<T(!new)>(x: T, s: seq<T>, below: (T, T) -> bool)
    requires TotalPreorder(below) && Sorted(s, below)
    ensures Sorted(Insert(x, s, below), below)
  {
    if s != [] && !below(x, s[0]) {
      InsertSorts(x, s[1..], below);
      var rest := Insert(x, s[1..], below);
      forall y | y in rest ensures below(s[0], y) {
        assert y in multiset(rest);
        assert y == x || y in s[1..];
      }
    }
  }

  lemma {:induction false} SortSorts<T(!new)>(s: seq<T>, below: (T, T) -> bool)
    requires TotalPreorder(below)
    ensures Sorted(Sort(s, below), below)
  {
    if s != [] {
      SortSorts(s[1..], below);
      InsertSorts(s[0], Sort(s[1..], below), below);
    }
  }

  /** The elements that the order cannot tell from `x`, in their order. */
  function Tied<T>(s: seq<T>, x: T, below: (T, T) -> bool): seq<T> {
    if s == [] then []
    else (if below(x, s[0]) && below(s[0], x) then [s[0]] else []) + Tied(s[1..], x, below)
  }

  lemma TiedStep<T>(e: T, s: seq<T>, x: T, below: (T, T) -> bool)
    ensures Tied([e] + s, x, below) == (if below(x, e) && below(e, x) then [e] else []) + Tied(s, x, below)
  {
    assert ([e] + s)[1..] == s;
  }

  lemma {:induction false} InsertKeepsTies<T(!new)>(e: T, s: seq<T>, x: T, below: (T, T) -> bool)
    requires TotalPreorder(below)
    ensures Tied(Insert(e, s, below), x, below) == Tied([e] + s, x, below)
  {
    if s != [] && !below(e, s[0]) {
      InsertKeepsTies(e, s[1..], x, below);
      assert !(below(e, x) && below(x, s[0]));
      hide TotalPreorder;
      TiedStep(e, s, x, below);
      TiedStep(e, s[1..], x, below);
      TiedStep(s[0], Insert(e, s[1..], below), x, below);
    }
  }

  /** The sort is stable: tied elements keep the order they came in. */
  lemma {:induction false} SortIsStable<T(!new)>(s: seq<T>, x: T, below: (T, T) -> bool)
    requires TotalPreorder(below)
    ensures Tied(Sort(s, below), x, below) == Tied(s, x, below)
  {
    if s != [] {
      SortIsStable(s[1..], x, below);
      InsertKeepsTies(s[0], Sort(s[1..], below), x, below);
      assert ([s[0]] + Sort(s[1..], below))[1..] == Sort(s[1..], below);
    }
  }

  /** Two tied elements of a sequence are two places of the list of those tied with them. */
  lemma {:induction false} PlacesAmongTied<T>(s: seq<T>, x: T, below: (T, T) -> bool, i: nat, j: nat) returns (k: nat, l: nat)
    requires i < j < |s|
    requires below(x, s[i]) && below(s[i], x) && below(x, s[j]) && below(s[j], x)
    ensures k < l < |Tied(s, x, below)| && Tied(s, x, below)[k] == s[i] && Tied(s, x, below)[l] == s[j]
  {
    var first := if below(x, s[0]) && below(s[0], x) then 1 else 0;
    if i > 0 {
      k, l := PlacesAmongTied(s[1..], x, below, i - 1, j - 1);
      k, l := k + first, l + first;
    } else {
      l := PlaceAmongTied(s[1..], x, below, j - 1);
      k, l := 0, l + 1;
    }
  }

  lemma {:induction false} PlaceAmongTied<T>(s: seq<T>, x: T, below: (T, T) -> bool, j: nat) returns (l: nat)
    requires j < |s| && below(x, s[j]) && below(s[j], x)
    ensures l < |Tied(s, x, below)| && Tied(s, x, below)[l] == s[j]
  {
    if j == 0 { return 0; }
    l := PlaceAmongTied(s[1..], x, below, j - 1);
    if below(x, s[0]) && below(s[0], x) { l := l + 1; }
  }

  /** And the other way round. */
  lemma {:induction false} PlacesOfTied<T>(s: seq<T>, x: T, below: (T, T) -> bool, k: nat, l: nat) returns (p: nat, q: nat)
    requires k < l < |Tied(s, x, below)|
    ensures p < q < |s| && s[p] == Tied(s, x, below)[k] && s[q] == Tied(s, x, below)[l]
  {
    if !(below(x, s[0]) && below(s[0], x)) {
      p, q := PlacesOfTied(s[1..], x, below, k, l);
      p, q := p + 1, q + 1;
    } else if k > 0 {
      p, q := PlacesOfTied(s[1..], x, below, k - 1, l - 1);
      p, q := p + 1, q + 1;
    } else {
      q := PlaceOfTied(s[1..], x, below, l - 1);
      p, q := 0, q + 1;
    }
  }

  lemma {:induction false} PlaceOfTied<T>(s: seq<T>, x: T, below: (T, T) -> bool, l: nat) returns (q: nat)
    requires l < |Tied(s, x, below)|
    ensures q < |s| && s[q] == Tied(s, x, below)[l]
  {
    if !(below(x, s[0]) && below(s[0], x)) {
      q := PlaceOfTied(s[1..], x, below, l);
      q := q + 1;
    } else if l == 0 {
      q := 0;
    } else {
      q := PlaceOfTied(s[1..], x, below, l - 1);
      q := q + 1;
    }
  }

  /** Two elements the order cannot tell apart come out of the sort in the order they went in. */
  lemma TiesKeepPlaces<T(!new)>(s: seq<T>, below: (T, T) -> bool, i: nat, j: nat) returns (p: nat, q: nat)
    requires TotalPreorder(below) && i < j < |Sort(s, below)|
    requires below(Sort(s, below)[i], Sort(s, below)[j]) && below(Sort(s, below)[j], Sort(s, below)[i])
    ensures p < q < |s| && s[p] == Sort(s, below)[i] && s[q] == Sort(s, below)[j]
  {
    var r := Sort(s, below);
    SortIsStable(s, r[i], below);
    var k, l := PlacesAmongTied(r, r[i], below, i, j);
    p, q := PlacesOfTied(s, r[i], below, k, l);
  }

  lemma HeadIsLeast<T>(s: seq<T>, x: T, below: (T, T) -> bool)
    requires Sorted(s, below) && x in s && below(x, x)
    ensures below(s[0], x)
  {
    var i :| 0 <= i < |s| && s[i] == x;
    assert i > 0 ==> below(s[0], s[i]);
  }

  lemma SameElements<T>(a: seq<T>, b: seq<T>)
    requires multiset(a) == multiset(b)
    ensures |a| == |b| && forall x :: x in a <==> x in b
    ensures a != [] && b != [] && a[0] == b[0] ==> multiset(a[1..]) == multiset(b[1..])
  {
    assert |a| == |multiset(a)| == |multiset(b)| == |b|;
    forall x ensures x in a <==> x in b {
      assert x in multiset(a) <==> x in multiset(b);
    }
    if a != [] && b != [] && a[0] == b[0] {
      assert a == [a[0]] + a[1..] && b == [b[0]] + b[1..];
      assert multiset(a[1..]) == multiset(a) - multiset{a[0]};
    }
  }

  /** Without ties a sorted arrangement is the only one. */
  lemma {:induction false} SortedIsUnique<T(!new)>(a: seq<T>, b: seq<T>, below: (T, T) -> bool)
    requires Sorted(a, below) && Sorted(b, below) && multiset(a) == multiset(b)
    requires forall x, y :: x in a && y in a && below(x, y) && below(y, x) ==> x == y
    requires forall x :: x in a ==> below(x, x)
    ensures a == b
  {
    SameElements(a, b);
    if a != [] {
      assert a[0] in b && b[0] in a;
      HeadIsLeast(a, b[0], below);
      HeadIsLeast(b, a[0], below);
      SortedIsUnique(a[1..], b[1..], below);
      assert a == [a[0]] + a[1..] && b == [b[0]] + b[1..];
    }
  }
}
