/** The order std::sort gives to the files of one directory. */
module FileNames {
  import opened Types

  function FileName(k: Key): string {
    k.id + ".json"
  }

  predicate Leq(a: string, b: string) {
    a == "" || (b != "" && (a[0] < b[0] || (a[0] == b[0] && Leq(a[1..], b[1..]))))
  }

  /** Where two texts part. */
  predicate PartAt(a: string, b: string, i: nat) {
    i < |a| && i < |b| && a[..i] == b[..i] && a[i] != b[i]
  }

  /** The order of std::string: by the first character that differs, and a text before its continuations. */
  lemma {:induction false} LeqIsLexicographic(a: string, b: string, i: nat)
    ensures PartAt(a, b, i) ==> (Leq(a, b) <==> a[i] < b[i])
    ensures a <= b ==> Leq(a, b)
    ensures b < a ==> !Leq(a, b)
    decreases |a|
  {
    if a != "" && b != "" && a[0] == b[0] {
      if i > 0 && PartAt(a, b, i) {
        assert a[..i] == [a[0]] + a[1..][..i - 1] && b[..i] == [b[0]] + b[1..][..i - 1];
      }
      LeqIsLexicographic(a[1..], b[1..], if i > 0 then i - 1 else 0);
      assert a <= b ==> a[1..] <= b[1..];
      assert b < a ==> b[1..] < a[1..];
    }
  }

  lemma LeqTotal(a: string, b: string)
    ensures Leq(a, b) || Leq(b, a)
  {
  }

  lemma {:induction false} LeqTransitive(a: string, b: string, c: string)
    requires Leq(a, b) && Leq(b, c)
    ensures Leq(a, c)
    decreases |a|
  {
    if a != "" && a[0] == b[0] && b[0] == c[0] {
      LeqTransitive(a[1..], b[1..], c[1..]);
    }
  }

  predicate Sorted<T>(xs: seq<T>, name: T -> string) {
    forall i, j :: 0 <= i <= j < |xs| ==> Leq(name(xs[i]), name(xs[j]))
  }

  lemma {:induction false} LeqReflexive(a: string)
    ensures Leq(a, a)
    decreases |a|
  {
    if a != "" {
      LeqReflexive(a[1..]);
    }
  }

  lemma {:induction false} FirstExists<T(!new)>(s: set<T>, name: T -> string) returns (first: T)
    requires s != {}
    ensures first in s && forall x :: x in s ==> Leq(name(first), name(x))
    decreases |s|
  {
    var x :| x in s;
    LeqReflexive(name(x));
    if s == {x} {
      first := x;
    } else {
      assert s - {x} != {};
      var rest := FirstExists(s - {x}, name);
      LeqTotal(name(x), name(rest));
      if Leq(name(x), name(rest)) {
        first := x;
        forall y | y in s
          ensures Leq(name(first), name(y))
        {
          if y != x {
            LeqTransitive(name(x), name(rest), name(y));
          }
        }
      } else {
        first := rest;
      }
    }
  }

  /** A directory listing: every file of the set once, in file-name order. */
  method SortedListing<T(==,!new)>(files: set<T>, name: T -> string) returns (listing: seq<T>)
    ensures forall x :: x in listing <==> x in files
    ensures forall i, j :: 0 <= i < j < |listing| ==> listing[i] != listing[j]
    ensures Sorted(listing, name)
  {
    listing := [];
    var rest := files;
    while rest != {}
      invariant rest <= files
      invariant forall x :: x in listing <==> x in files - rest
      invariant forall i, j :: 0 <= i < j < |listing| ==> listing[i] != listing[j]
      invariant Sorted(listing, name)
      invariant forall i, x :: 0 <= i < |listing| && x in rest ==> Leq(name(listing[i]), name(x))
      decreases rest
    {
      ghost var first := FirstExists(rest, name);
      var x :| x in rest && forall y :: y in rest ==> Leq(name(x), name(y));
      LeqReflexive(name(x));
      assert x !in listing;
      listing := listing + [x];
      rest := rest - {x};
    }
  }
}
