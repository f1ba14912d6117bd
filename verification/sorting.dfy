/** The ordering that sort.Strings uses and the step that turns a Go map used
    as a set into a sorted slice. */
module Sorting {
  import opened ByteStrings

  lemma {:induction false} LexLessIrreflexive(a: ByteString)
    ensures !LexLess(a, a)
  {
    if a != [] {
      LexLessIrreflexive(a[1..]);
    }
  }

  lemma {:induction false} LexLessTransitive(a: ByteString, b: ByteString, c: ByteString)
    requires LexLess(a, b) && LexLess(b, c)
    ensures LexLess(a, c)
  {
    if a != [] && b != [] && c != [] && a[0] == b[0] == c[0] {
      LexLessTransitive(a[1..], b[1..], c[1..]);
    }
  }

  /** Any two different strings are ordered one way or the other. */
  lemma {:induction false} LexLessTotal(a: ByteString, b: ByteString)
    ensures a == b || LexLess(a, b) || LexLess(b, a)
  {
    if a != [] && b != [] && a[0] == b[0] {
      LexLessTotal(a[1..], b[1..]);
      if a[1..] == b[1..] {
        assert a == [a[0]] + a[1..] && b == [b[0]] + b[1..];
      }
    }
  }

  lemma LexLessAsymmetric(a: ByteString, b: ByteString)
    requires LexLess(a, b)
    ensures !LexLess(b, a)
  {
    if LexLess(b, a) {
      LexLessTransitive(a, b, a);
      LexLessIrreflexive(a);
    }
  }

  /** The elements of a sequence, as a set. */
  function Elems(s: seq<ByteString>): set<ByteString> {
    set x | x in s
  }

  lemma ElemsEmpty(s: seq<ByteString>)
    ensures Elems(s) == {} <==> s == []
  {
    if s != [] {
      assert s[0] in Elems(s);
    }
  }

  /** Sorted in Go's string order with no element repeated. */
  predicate StrictlyAscending(s: seq<ByteString>) {
    forall i, j :: 0 <= i < j < |s| ==> LexLess(s[i], s[j])
  }

  lemma StrictlyAscendingHasNoDuplicates(s: seq<ByteString>, i: int, j: int)
    requires StrictlyAscending(s)
    requires 0 <= i < j < |s|
    ensures s[i] != s[j]
  {
    LexLessIrreflexive(s[i]);
  }

  /** A sequence without repetitions has as many elements as its set. */
  lemma {:induction false} DistinctCardinality(s: seq<ByteString>)
    requires forall i, j :: 0 <= i < j < |s| ==> s[i] != s[j]
    ensures |Elems(s)| == |s|
  {
    if s != [] {
      var rest := s[1..];
      forall i, j | 0 <= i < j < |rest| ensures rest[i] != rest[j] {
        assert rest[i] == s[i + 1] && rest[j] == s[j + 1];
      }
      DistinctCardinality(rest);
      var e := Elems(rest);
      forall k | 0 <= k < |rest| ensures rest[k] != s[0] {
        assert rest[k] == s[k + 1];
      }
      assert s[0] !in e;
      assert s == [s[0]] + rest;
      assert Elems(s) == e + {s[0]};
    }
  }

  /** A strictly ascending sequence has as many elements as its set. */
  lemma AscendingCardinality(s: seq<ByteString>)
    requires StrictlyAscending(s)
    ensures |Elems(s)| == |s|
  {
    forall i, j | 0 <= i < j < |s| ensures s[i] != s[j] {
      StrictlyAscendingHasNoDuplicates(s, i, j);
    }
    DistinctCardinality(s);
  }

  /** Places `x` into a strictly ascending sequence that lacks it. */
  function Insert(s: seq<ByteString>, x: ByteString): (r: seq<ByteString>)
    requires StrictlyAscending(s) && x !in s
    ensures StrictlyAscending(r)
    ensures Elems(r) == Elems(s) + {x}
    ensures |r| == |s| + 1
  {
    if s == [] then [x]
    else if LexLess(s[0], x) then
      var rest := Insert(s[1..], x);
      assert forall k :: 0 <= k < |rest| ==> LexLess(s[0], rest[k]) by {
        forall k | 0 <= k < |rest| ensures LexLess(s[0], rest[k]) {
          assert rest[k] in Elems(s[1..]) + {x};
        }
      }
      assert Elems(s) == {s[0]} + Elems(s[1..]) by {
        assert s == [s[0]] + s[1..];
      }
      [s[0]] + rest
    else
      LexLessTotal(s[0], x);
      forall k | 0 <= k < |s| ensures LexLess(x, s[k]) {
        if k > 0 {
          LexLessTransitive(x, s[0], s[k]);
        }
      }
      [x] + s
  }

  /** Two strictly ascending sequences with the same elements are the same
      sequence: the sorted slice of a set does not depend on the order in which
      the set was enumerated. */
  lemma {:induction false} AscendingUnique(a: seq<ByteString>, b: seq<ByteString>)
    requires StrictlyAscending(a) && StrictlyAscending(b)
    requires Elems(a) == Elems(b)
    ensures a == b
  {
    ElemsEmpty(a);
    ElemsEmpty(b);
    if a != [] && b != [] {
      assert a[0] in Elems(b) && b[0] in Elems(a);
      if a[0] != b[0] {
        var i :| 0 <= i < |b| && b[i] == a[0];
        var j :| 0 <= j < |a| && a[j] == b[0];
        assert i > 0 && j > 0;
        LexLessAsymmetric(a[0], b[0]);
      }
      assert Elems(a[1..]) == Elems(b[1..]) by {
        assert a == [a[0]] + a[1..] && b == [b[0]] + b[1..];
        forall k | 0 <= k < |a| - 1 ensures a[1..][k] != a[0] {
          StrictlyAscendingHasNoDuplicates(a, 0, k + 1);
        }
        forall k | 0 <= k < |b| - 1 ensures b[1..][k] != b[0] {
          StrictlyAscendingHasNoDuplicates(b, 0, k + 1);
        }
        assert Elems(a) == {a[0]} + Elems(a[1..]) && a[0] !in Elems(a[1..]);
        assert Elems(b) == {b[0]} + Elems(b[1..]) && b[0] !in Elems(b[1..]);
        assert Elems(a[1..]) == Elems(a) - {a[0]};
      }
      AscendingUnique(a[1..], b[1..]);
    }
  }

  /** The slice that the program builds from a map used as a set: the keys,
      visited in the map's unspecified order, end up in ascending order.
      Appending every key and then calling sort.Strings yields the same
      sequence as inserting each key in place (AscendingUnique). */
  method SortedFromSet(keys: set<ByteString>) returns (sorted: seq<ByteString>)
    ensures StrictlyAscending(sorted)
    ensures Elems(sorted) == keys
    ensures |sorted| == |keys|
  {
    sorted := [];
    var rest := keys;
    while rest != {}
      invariant StrictlyAscending(sorted)
      invariant Elems(sorted) + rest == keys
      invariant Elems(sorted) !! rest
      invariant |sorted| + |rest| == |keys|
      decreases |rest|
    {
      var key :| key in rest;
      sorted := Insert(sorted, key);
      rest := rest - {key};
    }
  }
}
