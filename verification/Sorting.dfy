/** Sorted listings of string sets, as `sorted(set)` yields them: ascending by
    code point, without repetition. */
module Sorting {

  predicate Less(a: string, b: string) {
    if b == [] then false
    else if a == [] then true
    else a[0] < b[0] || (a[0] == b[0] && Less(a[1..], b[1..]))
  }

  lemma {:induction false} LessIsTotal(a: string, b: string)
    ensures a == b || Less(a, b) || Less(b, a)
    ensures !(Less(a, b) && Less(b, a)) && !Less(a, a)
  {
    if a != [] && b != [] {
      LessIsTotal(a[1..], b[1..]);
      assert a[0] == b[0] && a[1..] == b[1..] ==> a == [a[0]] + a[1..] == [b[0]] + b[1..] == b;
    }
    if a != [] {
      LessIrreflexive(a);
    }
  }

  lemma {:induction false} LessIrreflexive(a: string)
    ensures !Less(a, a)
  {
    if a != [] {
      LessIrreflexive(a[1..]);
    }
  }

  lemma {:induction false} LessIsTransitive(a: string, b: string, c: string)
    requires Less(a, b) && Less(b, c)
    ensures Less(a, c)
  {
    if a != [] && a[0] == b[0] == c[0] {
      LessIsTransitive(a[1..], b[1..], c[1..]);
    }
  }

  ghost predicate Ascending(xs: seq<string>) {
    forall i, j :: 0 <= i < j < |xs| ==> Less(xs[i], xs[j])
  }

  /** `xs` lists exactly the members of `s`, ascending. */
  ghost predicate Lists(xs: seq<string>, s: set<string>) {
    Ascending(xs) && forall x :: x in xs <==> x in s
  }

  lemma {:induction false} ListingIsUnique(xs: seq<string>, ys: seq<string>, s: set<string>)
    requires Lists(xs, s) && Lists(ys, s)
    ensures xs == ys
  {
    if xs == [] {
      ListingLength(xs, s);
      ListingLength(ys, s);
    } else {
      assert xs[0] in ys;
      SameFirst(xs, ys, s);
      DropFirst(xs, s);
      DropFirst(ys, s);
      ListingIsUnique(xs[1..], ys[1..], s - {xs[0]});
      assert xs == [xs[0]] + xs[1..] && ys == [ys[0]] + ys[1..];
    }
  }

  lemma SameFirst(xs: seq<string>, ys: seq<string>, s: set<string>)
    requires Lists(xs, s) && Lists(ys, s) && xs != [] && ys != []
    ensures xs[0] == ys[0]
  {
    assert xs[0] in ys && ys[0] in xs;
    var i :| 0 <= i < |ys| && ys[i] == xs[0];
    var j :| 0 <= j < |xs| && xs[j] == ys[0];
    LessIsTotal(xs[0], ys[0]);
  }

  lemma DropFirst(xs: seq<string>, s: set<string>)
    requires Lists(xs, s) && xs != []
    ensures Lists(xs[1..], s - {xs[0]})
  {
    var rest := xs[1..];
    forall x ensures x in rest <==> x in s - {xs[0]} {
      if x in rest {
        var i :| 0 <= i < |rest| && rest[i] == x;
        assert xs[i + 1] == x && Less(xs[0], x);
        LessIrreflexive(x);
      }
    }
  }

  function Insert(x: string, xs: seq<string>): seq<string> {
    if xs == [] then [x]
    else if x == xs[0] then xs
    else if Less(x, xs[0]) then [x] + xs
    else [xs[0]] + Insert(x, xs[1..])
  }

  lemma Member(xs: seq<string>, y: string) returns (i: nat)
    requires y in xs
    ensures i < |xs| && xs[i] == y
  {
    i :| 0 <= i < |xs| && xs[i] == y;
  }

  lemma Prepend(x: string, xs: seq<string>, s: set<string>)
    requires Lists(xs, s) && forall y :: y in xs ==> Less(x, y)
    ensures Lists([x] + xs, s + {x})
  {
    var all := [x] + xs;
    forall i, j | 0 <= i < j < |all| ensures Less(all[i], all[j]) {
      assert all[j] == xs[j - 1];
    }
  }

  lemma {:induction false} InsertLists(x: string, xs: seq<string>, s: set<string>)
    requires Lists(xs, s)
    ensures Lists(Insert(x, xs), s + {x})
  {
    if xs == [] || x == xs[0] {
      assert s + {x} == if xs == [] then {x} else s;
    } else if Less(x, xs[0]) {
      forall y | y in xs ensures Less(x, y) {
        var i := Member(xs, y);
        if i > 0 {
          LessIsTransitive(x, xs[0], y);
        }
      }
      Prepend(x, xs, s);
    } else {
      var head, rest := xs[0], xs[1..];
      LessIsTotal(x, head);
      DropFirst(xs, s);
      InsertLists(x, rest, s - {head});
      forall y | y in Insert(x, rest) ensures Less(head, y) {
        if y != x {
          var i := Member(rest, y);
          assert xs[i + 1] == y;
        }
      }
      Prepend(head, Insert(x, rest), s - {head} + {x});
      assert s + {x} == s - {head} + {x} + {head};
    }
  }

  /** The listing of the members of a sequence. */
  function Sorted(xs: seq<string>): (r: seq<string>)
  {
    if xs == [] then [] else Insert(xs[|xs| - 1], Sorted(xs[..|xs| - 1]))
  }

  lemma {:induction false} SortedLists(xs: seq<string>)
    ensures Lists(Sorted(xs), set x | x in xs)
  {
    if xs != [] {
      var n := |xs| - 1;
      SortedLists(xs[..n]);
      InsertLists(xs[n], Sorted(xs[..n]), set x | x in xs[..n]);
      assert (set x | x in xs) == (set x | x in xs[..n]) + {xs[n]};
    }
  }

  lemma ListingIsSorted(xs: seq<string>, s: set<string>)
    requires Lists(xs, s)
    ensures Sorted(xs) == xs
  {
    SortedLists(xs);
    assert (set x | x in xs) == s;
    ListingIsUnique(xs, Sorted(xs), s);
  }

  /** Sorting a set: take its members in any order. */
  method SortSet(s: set<string>) returns (r: seq<string>)
    ensures Lists(r, s)
  {
    r := [];
    var rest := s;
    while rest != {}
      invariant rest <= s && Lists(r, s - rest)
      decreases |rest|
    {
      var x :| x in rest;
      InsertLists(x, r, s - rest);
      assert s - rest + {x} == s - (rest - {x});
      r := Insert(x, r);
      rest := rest - {x};
    }
    assert s - rest == s;
  }

  lemma {:induction false} ListingLength(xs: seq<string>, s: set<string>)
    requires Lists(xs, s)
    ensures |xs| == |s|
  {
    if xs == [] {
      assert s == {};
    } else {
      DropFirst(xs, s);
      assert xs[0] in s;
      ListingLength(xs[1..], s - {xs[0]});
    }
  }
}
