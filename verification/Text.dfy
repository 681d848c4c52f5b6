/** Strings and sorting: the parts of Go's `strings` and `sort` packages that the
    policy engine leans on, with the facts its compilers need. */
module Text {

  datatype Option<+T> = None | Some(value: T)

  predicate HasSuffix(s: string, t: string) {
    |t| <= |s| && s[|s| - |t|..] == t
  }

  predicate HasPrefix(s: string, t: string) {
    t <= s
  }

  /** Two suffixes of one string are comparable: the shorter is a suffix of the longer. */
  lemma SuffixesComparable(s: string, t: string, u: string)
    requires HasSuffix(s, t) && HasSuffix(s, u) && |t| <= |u|
    ensures HasSuffix(u, t)
  {
    assert u[|u| - |t|..] == s[|s| - |u|..][|u| - |t|..] == s[|s| - |t|..];
  }

  lemma SuffixTransitive(s: string, t: string, u: string)
    requires HasSuffix(s, t) && HasSuffix(t, u)
    ensures HasSuffix(s, u)
  {
    assert s[|s| - |u|..] == s[|s| - |t|..][|t| - |u|..];
  }

  /** Appending one text to both sides neither creates nor destroys a suffix. */
  lemma SuffixAppend(s: string, t: string, tail: string)
    ensures HasSuffix(s + tail, t + tail) <==> HasSuffix(s, t)
  {
    if |t| <= |s| {
      assert (s + tail)[|s + tail| - |t + tail|..] == s[|s| - |t|..] + tail;
      if s[|s| - |t|..] + tail == t + tail {
        assert s[|s| - |t|..] == (s[|s| - |t|..] + tail)[..|t|] == (t + tail)[..|t|] == t;
      }
    }
  }

  /** Cutting a text at j and then at i, in either order, gives the same three pieces. */
  lemma TwoCuts(s: string, j: nat, i: nat)
    requires j <= i <= |s|
    ensures s[..i][..j] == s[..j] && s[..i][j..] == s[j..][..i - j] && s[j..][i - j..] == s[i..]
  {
  }

  // ---- Lexicographic order -------------------------------------------------

  /** Go's string comparison: lexicographic, a proper prefix comes first. */
  predicate Less(a: string, b: string) {
    exists i :: 0 <= i <= |a| && LessAt(a, b, i)
  }

  /** The strings agree up to `i`, and there `a` ends first or has the smaller character. */
  predicate LessAt(a: string, b: string, i: nat) {
    i <= |a| && i < |b| && a[..i] == b[..i] && (i < |a| ==> a[i] < b[i])
  }

  lemma {:induction false} LessIrreflexive(a: string)
    ensures !Less(a, a)
  {
  }

  lemma {:induction false} LessTransitive(a: string, b: string, c: string)
    requires Less(a, b) && Less(b, c)
    ensures Less(a, c)
  {
    var i :| 0 <= i <= |a| && LessAt(a, b, i);
    var j :| 0 <= j <= |b| && LessAt(b, c, j);
    var k := if i <= j then i else j;
    assert a[..k] == a[..i][..k] == b[..j][..k] == c[..k];
    assert LessAt(a, c, k);
  }

  lemma {:induction false} LessConnected(a: string, b: string)
    requires a != b
    ensures Less(a, b) || Less(b, a)
  {
    var i := FirstDifference(a, b, 0);
    assert LessAt(a, b, i) || LessAt(b, a, i);
  }

  lemma FirstDifference(a: string, b: string, from: nat) returns (i: nat)
    requires a != b && from <= |a| && from <= |b| && a[..from] == b[..from]
    ensures i <= |a| && i <= |b| && a[..i] == b[..i] && (i < |a| || i < |b|) && (i < |a| && i < |b| ==> a[i] != b[i])
    decreases |a| - from
  {
    assert a[..|a|] == a && b[..|b|] == b;
    if from < |a| && from < |b| && a[from] == b[from] { i := FirstDifference(a, b, from + 1); } else { i := from; }
  }

  // ---- Sorting by a strict order -------------------------------------------

  ghost predicate Transitive<T(!new)>(less: (T, T) -> bool) {
    forall x, y, z :: less(x, y) && less(y, z) ==> less(x, z)
  }

  ghost predicate Irreflexive<T(!new)>(less: (T, T) -> bool) {
    forall x :: !less(x, x)
  }

  /** Distinct members of `s` are always ordered one way or the other. */
  ghost predicate ConnectedOn<T(!new)>(less: (T, T) -> bool, s: set<T>) {
    forall x, y :: x in s && y in s && x != y ==> less(x, y) || less(y, x)
  }

  ghost predicate Ascending<T>(s: seq<T>, less: (T, T) -> bool) {
    forall i, j :: 0 <= i < j < |s| ==> less(s[i], s[j])
  }

  function Elements<T>(s: seq<T>): set<T> {
    set x | x in s
  }

  function Insert<T>(x: T, s: seq<T>, less: (T, T) -> bool): (r: seq<T>)
    ensures multiset(r) == multiset(s) + multiset{x}
  {
    if s == [] || less(x, s[0]) then
      [x] + s
    else
      assert s == [s[0]] + s[1..];
      [s[0]] + Insert(x, s[1..], less)
  }

  /** Stands for sort.Strings and sort.Slice; the theorems below pin its result down
      wherever the order is strict on the elements, so the algorithm does not matter. */
  function Sort<T>(s: seq<T>, less: (T, T) -> bool): (r: seq<T>)
    ensures multiset(r) == multiset(s)
  {
    if s == [] then [] else
      assert s == [s[0]] + s[1..];
      Insert(s[0], Sort(s[1..], less), less)
  }

  lemma {:induction false} InsertAscending<T(!new)>(x: T, s: seq<T>, less: (T, T) -> bool)
    requires Transitive(less) && Ascending(s, less) && x !in s
    requires ConnectedOn(less, Elements(s) + {x})
    ensures Ascending(Insert(x, s, less), less)
    ensures Elements(Insert(x, s, less)) == Elements(s) + {x}
  {
    var r := Insert(x, s, less);
    forall y ensures y in r <==> y in s || y == x {
      assert y in r <==> y in multiset(r);
      assert y in s <==> y in multiset(s);
    }
    if s == [] {
    } else if less(x, s[0]) {
      forall j | 1 <= j < |r| ensures less(r[0], r[j]) {
        assert j > 1 ==> less(s[0], s[j - 1]);
      }
    } else {
      InsertAscending(x, s[1..], less);
      var t := Insert(x, s[1..], less);
      assert r == [s[0]] + t;
      assert less(s[0], x) by { assert s[0] in Elements(s); }
      forall j | 0 <= j < |t| ensures less(s[0], t[j]) {
        assert t[j] in Elements(t);
        if t[j] != x {
          assert t[j] in s[1..];
        }
      }
    }
  }

  ghost predicate Distinct<T>(s: seq<T>) {
    forall i, j :: 0 <= i < j < |s| ==> s[i] != s[j]
  }

  lemma {:induction false} SortAscending<T(!new)>(s: seq<T>, less: (T, T) -> bool)
    requires Transitive(less) && Distinct(s) && ConnectedOn(less, Elements(s))
    ensures Ascending(Sort(s, less), less)
    ensures Elements(Sort(s, less)) == Elements(s)
  {
    if s == [] {
    } else {
      HeadTail(s);
      SortAscending(s[1..], less);
      InsertAscending(s[0], Sort(s[1..], less), less);
    }
  }

  lemma HeadTail<T>(s: seq<T>)
    requires s != []
    ensures Elements(s) == Elements(s[1..]) + {s[0]}
    ensures Distinct(s) ==> Distinct(s[1..]) && s[0] !in Elements(s[1..])
  {
    assert s == [s[0]] + s[1..];
  }

  /** A strictly ascending sequence is determined by its elements. This is what makes the
      compilers' output independent of Go's random map iteration order. */
  lemma {:induction false} AscendingUnique<T(!new)>(a: seq<T>, b: seq<T>, less: (T, T) -> bool)
    requires Transitive(less) && Irreflexive(less)
    requires Ascending(a, less) && Ascending(b, less) && Elements(a) == Elements(b)
    ensures a == b
  {
    if a == [] || b == [] {
      NoElements(a);
      NoElements(b);
    } else {
      assert a[0] in Elements(b) && b[0] in Elements(a);
      assert a[0] == b[0];
      TailElements(a, less);
      TailElements(b, less);
      AscendingUnique(a[1..], b[1..], less);
      assert a == [a[0]] + a[1..] && b == [b[0]] + b[1..];
    }
  }

  lemma NoElements<T>(a: seq<T>)
    ensures Elements(a) == {} <==> a == []
  {
    if a != [] { assert a[0] in Elements(a); }
  }

  lemma TailElements<T(!new)>(a: seq<T>, less: (T, T) -> bool)
    requires a != [] && Irreflexive(less) && Ascending(a, less)
    ensures Elements(a[1..]) == Elements(a) - {a[0]}
  {
    assert a == [a[0]] + a[1..];
  }

  lemma AscendingDistinct<T(!new)>(a: seq<T>, less: (T, T) -> bool)
    requires Irreflexive(less) && Ascending(a, less)
    ensures Distinct(a)
  {
  }

  lemma StringOrder(s: set<string>)
    ensures Transitive(Less) && Irreflexive(Less) && ConnectedOn(Less, s)
  {
    forall x, y, z | Less(x, y) && Less(y, z) ensures Less(x, z) { LessTransitive(x, y, z); }
    forall x ensures !Less(x, x) { LessIrreflexive(x); }
    forall x, y | x in s && y in s && x != y ensures Less(x, y) || Less(y, x) { LessConnected(x, y); }
  }

  /** The ascending listing of a finite set of strings. */
  ghost function Listing(s: set<string>): (r: seq<string>)
    ensures Ascending(r, Less) && Elements(r) == s
  {
    if s == {} then [] else
      var x :| x in s;
      var r := Listing(s - {x});
      StringOrder(s);
      assert x !in Elements(r);
      InsertAscending(x, r, Less);
      Insert(x, r, Less)
  }

  lemma {:induction false} ListingUnique(s: set<string>, r: seq<string>)
    requires Ascending(r, Less) && Elements(r) == s
    ensures r == Listing(s)
  {
    StringOrder(s);
    AscendingUnique(r, Listing(s), Less);
  }

  /** Copies a set out in arbitrary order, as ranging over a Go map does, then sorts it. */
  method Sorted<T(!new,==)>(s: set<T>, less: (T, T) -> bool) returns (r: seq<T>)
    requires Transitive(less) && ConnectedOn(less, s)
    ensures Ascending(r, less) && Elements(r) == s
  {
    var todo, acc := s, [];
    while todo != {}
      invariant todo <= s && Distinct(acc) && Elements(acc) == s - todo
      decreases |todo|
    {
      var x :| x in todo;
      assert x !in Elements(acc);
      assert Elements(acc + [x]) == Elements(acc) + {x};
      acc, todo := acc + [x], todo - {x};
    }
    assert Elements(acc) == s;
    SortAscending(acc, less);
    r := Sort(acc, less);
  }

  method SortedStrings(s: set<string>) returns (r: seq<string>)
    ensures r == Listing(s)
  {
    StringOrder(s);
    r := Sorted(s, Less);
    ListingUnique(s, r);
  }
}
