/** Facts about sequences that several modules need. */
module Sequences {
  lemma {:induction false} Regroup<T>(x: seq<T>, y: seq<T>, z: seq<T>)
    ensures x + (y + z) == x + y + z
  {
  }

  /** Two sequences that are equal up to and after their first separator have equal parts. */
  lemma {:induction false} SplitAtFirst<T>(a: seq<T>, x: seq<T>, b: seq<T>, y: seq<T>, sep: T)
    requires sep !in a && sep !in b && a + [sep] + x == b + [sep] + y
    ensures a == b && x == y
  {
    var s := a + [sep] + x;
    assert s[|a|] == sep && s[|b|] == sep;
    assert forall i :: 0 <= i < |a| ==> s[i] != sep;
    assert forall i :: 0 <= i < |b| ==> s[i] != sep;
    assert a == s[..|a|] && b == s[..|b|];
    assert x == s[|a| + 1..] && y == s[|b| + 1..];
  }

  /** Two sequences that are equal up to and after their last separator have equal parts. */
  lemma {:induction false} SplitAtLast<T>(a: seq<T>, x: seq<T>, b: seq<T>, y: seq<T>, sep: T)
    requires sep !in x && sep !in y && a + [sep] + x == b + [sep] + y
    ensures a == b && x == y
  {
    var s := a + [sep] + x;
    assert s[|a|] == sep && s[|b|] == sep;
    assert forall i :: |a| < i < |s| ==> s[i] == x[i - |a| - 1];
    assert forall i :: |b| < i < |s| ==> s[i] == y[i - |b| - 1];
    assert a == s[..|a|] && b == s[..|b|];
    assert x == s[|a| + 1..] && y == s[|b| + 1..];
  }

  /** The parts of `s` between its separators: one more than there are separators. */
  ghost function Fields<T>(s: seq<T>, sep: T): (fields: seq<seq<T>>)
    ensures fields != []
  {
    if s == [] then [[]]
    else
      var rest := Fields(s[1..], sep);
      if s[0] == sep then [[]] + rest else [[s[0]] + rest[0]] + rest[1..]
  }

  /** What comes before the first separator is the first field. */
  lemma {:induction false} FirstField<T>(a: seq<T>, x: seq<T>, sep: T)
    requires sep !in a
    ensures Fields(a + [sep] + x, sep) == [a] + Fields(x, sep)
  {
    var s := a + [sep] + x;
    if a == [] {
      assert s[1..] == x;
    } else {
      assert s[1..] == a[1..] + [sep] + x && s[0] == a[0];
      FirstField(a[1..], x, sep);
      assert [a[0]] + a[1..] == a;
    }
  }

  lemma {:induction false} OnlyField<T>(a: seq<T>, sep: T)
    requires sep !in a
    ensures Fields(a, sep) == [a]
  {
    if a != [] {
      OnlyField(a[1..], sep);
      assert [a[0]] + a[1..] == a;
    }
  }

  /** Slices of slices, by absolute positions. */
  lemma {:induction false} SliceOfDrop<T>(s: seq<T>, p: nat, i: nat, j: nat)
    requires i <= j && p + j <= |s|
    ensures s[p..][i..j] == s[p + i..p + j] && s[p..][j..] == s[p + j..]
  {
  }

  lemma {:induction false} SliceOfSlice<T>(s: seq<T>, p: nat, q: nat, i: nat, j: nat)
    requires i <= j && p + j <= q <= |s|
    ensures s[p..q][i..j] == s[p + i..p + j] && s[p..q][j..] == s[p + j..q]
  {
    var a := s[p..q];
    forall k | 0 <= k < j - i
      ensures a[i..j][k] == s[p + i..p + j][k]
    {
      assert a[i..j][k] == a[i + k];
    }
    forall k | 0 <= k < q - p - j
      ensures a[j..][k] == s[p + j..q][k]
    {
      assert a[j..][k] == a[j + k];
    }
  }

  /** Inserting an element adds it to the multiset, wherever it goes. */
  lemma {:induction false} InsertedMultiset<T>(s: seq<T>, j: nat, x: T)
    requires j <= |s|
    ensures multiset(s[..j] + [x] + s[j..]) == multiset(s) + multiset{x}
  {
    assert s == s[..j] + s[j..];
  }

  /** An occurring element has some position; the rest has one occurrence less. */
  lemma {:induction false} TakeOut<T>(s: seq<T>, e: T) returns (x: seq<T>, y: seq<T>)
    requires e in multiset(s)
    ensures s == x + [e] + y && multiset(x + y) == multiset(s) - multiset{e}
  {
    assert e in s;
    var i :| 0 <= i < |s| && s[i] == e;
    x, y := s[..i], s[i + 1..];
    assert s == x + [e] + y;
  }
}
