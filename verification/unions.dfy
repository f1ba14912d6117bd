/** Accumulating into a Go map used as a set, one item at a time: after a loop
    over `items` that adds the members of `f(item)`, the map holds their union. */
module Unions {
  import opened ByteStrings

  /** The union of `f(y)` over the items, accumulated front to back. */
  function UnionOver(items: seq<ByteString>, f: ByteString -> set<ByteString>): set<ByteString> {
    if items == [] then {}
    else UnionOver(items[..|items| - 1], f) + f(items[|items| - 1])
  }

  /** One more item adds exactly its own contribution. */
  lemma UnionOverSnoc(items: seq<ByteString>, y: ByteString, f: ByteString -> set<ByteString>)
    ensures UnionOver(items + [y], f) == UnionOver(items, f) + f(y)
  {
    assert (items + [y])[..|items|] == items;
  }

  /** The prefix form of UnionOverSnoc, for loops that walk `items` by index. */
  lemma UnionOverPrefix(items: seq<ByteString>, i: int, f: ByteString -> set<ByteString>)
    requires 0 <= i < |items|
    ensures UnionOver(items[..i + 1], f) == UnionOver(items[..i], f) + f(items[i])
  {
    assert items[..i + 1][..i] == items[..i];
  }

  lemma UnionOverWhole(items: seq<ByteString>, f: ByteString -> set<ByteString>)
    ensures UnionOver(items[..|items|], f) == UnionOver(items, f)
  {
    assert items[..|items|] == items;
  }

  /** A value is in the union exactly when some item contributes it. */
  lemma {:induction false} UnionOverMembership(items: seq<ByteString>, f: ByteString -> set<ByteString>, x: ByteString)
    ensures x in UnionOver(items, f) <==> exists i :: 0 <= i < |items| && x in f(items[i])
  {
    if items != [] {
      var init := items[..|items| - 1];
      UnionOverMembership(init, f, x);
      if x in UnionOver(init, f) {
        var i :| 0 <= i < |init| && x in f(init[i]);
        assert items[i] == init[i];
      }
      if exists i :: 0 <= i < |items| && x in f(items[i]) {
        var i :| 0 <= i < |items| && x in f(items[i]);
        if i < |init| {
          assert init[i] == items[i];
        }
      }
    }
  }

  /** The union depends only on which items occur: not on their order, nor on
      repetitions. */
  lemma UnionOverSameItems(items1: seq<ByteString>, items2: seq<ByteString>, f: ByteString -> set<ByteString>)
    requires forall y :: y in items1 <==> y in items2
    ensures UnionOver(items1, f) == UnionOver(items2, f)
  {
    forall x | x in UnionOver(items1, f) ensures x in UnionOver(items2, f) {
      UnionOverMembership(items1, f, x);
      UnionOverMembership(items2, f, x);
      var i :| 0 <= i < |items1| && x in f(items1[i]);
      assert items1[i] in items2;
      var j :| 0 <= j < |items2| && items2[j] == items1[i];
    }
    forall x | x in UnionOver(items2, f) ensures x in UnionOver(items1, f) {
      UnionOverMembership(items1, f, x);
      UnionOverMembership(items2, f, x);
      var i :| 0 <= i < |items2| && x in f(items2[i]);
      assert items2[i] in items1;
      var j :| 0 <= j < |items1| && items1[j] == items2[i];
    }
  }
}
