/** Lists without duplicates in a strict total order: there is exactly one for each set. */
module SortedLists {

  /** `less` orders these elements strictly and totally. */
  ghost predicate Orders<T(!new)>(less: (T, T) -> bool, elements: set<T>) {
    && (forall a :: a in elements ==> !less(a, a))
    && (forall a, b :: a in elements && b in elements && a != b ==> less(a, b) || less(b, a))
    && (forall a, b, c :: a in elements && b in elements && c in elements && less(a, b) && less(b, c) ==> less(a, c))
  }

  ghost predicate Ascending<T>(s: seq<T>, less: (T, T) -> bool) {
    forall i, j :: 0 <= i < j < |s| ==> less(s[i], s[j])
  }

  ghost function Elements<T>(s: seq<T>): set<T> {
    set x | x in s
  }

  /** s is the list of these elements. */
  ghost predicate Lists<T>(s: seq<T>, elements: set<T>, less: (T, T) -> bool) {
    Ascending(s, less) && Elements(s) == elements
  }

  method Insert<T(==, !new)>(s: seq<T>, x: T, less: (T, T) -> bool) returns (r: seq<T>)
    requires Ascending(s, less) && Orders(less, Elements(s) + {x})
    ensures Lists(r, Elements(s) + {x}, less)
  {
    var i := 0;
    while i < |s| && less(s[i], x)
      invariant 0 <= i <= |s|
      invariant forall j :: 0 <= j < i ==> less(s[j], x)
    {
      i := i + 1;
    }
    if i < |s| && s[i] == x {
      assert Elements(s) + {x} == Elements(s);
      return s;
    }
    InsertAt(s, x, i, less);
    return s[..i] + [x] + s[i..];
  }

  /** Where everything is after an insertion. */
  lemma Inserted<T>(s: seq<T>, x: T, i: nat)
    requires i <= |s|
    ensures var r := s[..i] + [x] + s[i..];
            && |r| == |s| + 1 && r[i] == x
            && (forall k :: 0 <= k < i ==> r[k] == s[k])
            && (forall k :: i < k < |r| ==> r[k] == s[k - 1])
  {
  }

  lemma InsertedElements<T>(s: seq<T>, x: T, i: nat)
    requires i <= |s|
    ensures Elements(s[..i] + [x] + s[i..]) == Elements(s) + {x}
  {
    assert s == s[..i] + s[i..];
  }

  lemma InsertAt<T(!new)>(s: seq<T>, x: T, i: nat, less: (T, T) -> bool)
    requires Ascending(s, less) && Orders(less, Elements(s) + {x})
    requires i <= |s| && (forall j :: 0 <= j < i ==> less(s[j], x)) && (i < |s| ==> s[i] != x && !less(s[i], x))
    ensures Lists(s[..i] + [x] + s[i..], Elements(s) + {x}, less)
  {
    InsertedElements(s, x, i);
    LessThanTheRest(s, x, i, less);
    AscendingInserted(s, x, i, less);
  }

  lemma LessThanTheRest<T(!new)>(s: seq<T>, x: T, i: nat, less: (T, T) -> bool)
    requires Ascending(s, less) && Orders(less, Elements(s) + {x})
    requires i <= |s| && (i < |s| ==> s[i] != x && !less(s[i], x))
    ensures forall k :: i <= k < |s| ==> less(x, s[k])
  {
    forall k | i <= k < |s| ensures less(x, s[k]) {
      assert s[i] in Elements(s) && s[k] in Elements(s);
      assert less(x, s[i]);
    }
  }

  lemma AscendingInserted<T(!new)>(s: seq<T>, x: T, i: nat, less: (T, T) -> bool)
    requires Ascending(s, less) && i <= |s|
    requires (forall j :: 0 <= j < i ==> less(s[j], x)) && (forall k :: i <= k < |s| ==> less(x, s[k]))
    ensures Ascending(s[..i] + [x] + s[i..], less)
  {
    var r := s[..i] + [x] + s[i..];
    Inserted(s, x, i);
    forall j, k | 0 <= j < k < |r| ensures less(r[j], r[k]) {
      if k < i {
        assert less(s[j], s[k]);
      } else if j > i {
        assert less(s[j - 1], s[k - 1]);
      } else if j < i && k > i {
        assert less(s[j], s[k - 1]);
      }
    }
  }

  /** Two ascending lists of the same elements are the same list. */
  lemma {:induction false} OnlyOneList<T(!new)>(r: seq<T>, q: seq<T>, less: (T, T) -> bool)
    requires Ascending(r, less) && Ascending(q, less) && Elements(r) == Elements(q) && Orders(less, Elements(r))
    ensures r == q
    decreases |r|
  {
    if q != [] {
      assert q[0] in Elements(q);
    }
    if r == [] {
    } else {
      assert r[0] in Elements(q) && q != [];
      assert q[0] in Elements(r);
      FirstIsLeast(r, less);
      FirstIsLeast(q, less);
      assert r[0] == q[0];
      RestOf(r, less);
      RestOf(q, less);
      OnlyOneList(r[1..], q[1..], less);
      assert r == [r[0]] + r[1..] && q == [q[0]] + q[1..];
    }
  }

  lemma FirstIsLeast<T(!new)>(s: seq<T>, less: (T, T) -> bool)
    requires s != [] && Ascending(s, less) && Orders(less, Elements(s))
    ensures forall x :: x in Elements(s) && x != s[0] ==> less(s[0], x) && !less(x, s[0])
  {
    forall x | x in Elements(s) && x != s[0] ensures less(s[0], x) && !less(x, s[0]) {
      var i :| 0 <= i < |s| && s[i] == x;
      assert s[0] in Elements(s);
    }
  }

  lemma RestOf<T(!new)>(s: seq<T>, less: (T, T) -> bool)
    requires s != [] && Ascending(s, less) && Orders(less, Elements(s))
    ensures Ascending(s[1..], less) && Elements(s[1..]) == Elements(s) - {s[0]}
  {
    forall x | x in s[1..] ensures x != s[0] {
      var i :| 0 <= i < |s[1..]| && s[1..][i] == x;
      assert less(s[0], s[i + 1]);
      assert s[0] in Elements(s);
    }
    assert s == [s[0]] + s[1..];
  }

  /** An ascending list has no duplicates. */
  lemma AscendingIsDistinct<T(!new)>(s: seq<T>, less: (T, T) -> bool)
    requires Ascending(s, less) && Orders(less, Elements(s))
    ensures forall i, j :: 0 <= i < j < |s| ==> s[i] != s[j]
  {
    forall i, j | 0 <= i < j < |s| ensures s[i] != s[j] {
      assert less(s[i], s[j]) && s[i] in Elements(s);
    }
  }

  // ----- strings -----

  /** The byte order of strings. */
  predicate Before(a: string, b: string) {
    if b == "" then false
    else if a == "" then true
    else a[0] < b[0] || (a[0] == b[0] && Before(a[1..], b[1..]))
  }

  lemma {:induction false} BeforeIsIrreflexive(a: string)
    ensures !Before(a, a)
  {
    if a != "" {
      BeforeIsIrreflexive(a[1..]);
    }
  }

  lemma {:induction false} BeforeIsTotal(a: string, b: string)
    ensures a != b ==> Before(a, b) || Before(b, a)
  {
    if a != "" && b != "" && a[0] == b[0] {
      BeforeIsTotal(a[1..], b[1..]);
      assert a == [a[0]] + a[1..] && b == [b[0]] + b[1..];
    }
  }

  lemma {:induction false} BeforeIsTransitive(a: string, b: string, c: string)
    requires Before(a, b) && Before(b, c)
    ensures Before(a, c)
  {
    if a != "" && a[0] == b[0] == c[0] {
      BeforeIsTransitive(a[1..], b[1..], c[1..]);
    }
  }

  lemma BeforeOrders(elements: set<string>)
    ensures Orders(Before, elements)
  {
    forall a | a in elements ensures !Before(a, a) {
      BeforeIsIrreflexive(a);
    }
    forall a, b | a in elements && b in elements && a != b ensures Before(a, b) || Before(b, a) {
      BeforeIsTotal(a, b);
    }
    forall a, b, c | a in elements && b in elements && c in elements && Before(a, b) && Before(b, c) ensures Before(a, c) {
      BeforeIsTransitive(a, b, c);
    }
  }

  method SortStrings(strings: set<string>) returns (r: seq<string>)
    ensures Lists(r, strings, Before)
  {
    r := [];
    var left := strings;
    while left != {}
      invariant left <= strings && Lists(r, strings - left, Before)
      decreases left
    {
      var x :| x in left;
      BeforeOrders(Elements(r) + {x});
      r := Insert(r, x, Before);
      left := left - {x};
      assert Elements(r) == strings - left;
    }
  }
}
