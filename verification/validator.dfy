/** The hostname validator of the extractor: a length test on the whole name
    followed by a length test on every dot-separated label. There is no
    character-class test. */
module Validator {
  import opened ByteStrings

  /** Longest accepted name, in bytes, measured before the wildcard is stripped. */
  const MAX_NAME_LENGTH := 253
  /** Longest accepted label, in bytes. */
  const MAX_LABEL_LENGTH := 63

  predicate LabelsInBounds(labels: seq<ByteString>) {
    forall part :: part in labels ==> 1 <= |part| <= MAX_LABEL_LENGTH
  }

  /** isValidSubdomain: reject the empty name and names over 253 bytes; then
      strip one leading "*.", split on '.', and reject if any label is empty or
      longer than 63 bytes. */
  predicate IsValidSubdomain(subdomain: ByteString)
    ensures IsValidSubdomain(subdomain) ==> 1 <= |subdomain| <= MAX_NAME_LENGTH
  {
    if |subdomain| == 0 || |subdomain| > MAX_NAME_LENGTH then false
    else LabelsInBounds(Split(TrimPrefix(subdomain, WILDCARD), DOT))
  }

  /** A reference description of "every label is 1 to 63 bytes long" that does
      not split: the name is non-empty, neither starts nor ends with a dot, has
      no two adjacent dots, and every stretch of more than 63 bytes holds a dot. */
  ghost predicate WellFormedLabels(t: ByteString) {
    && t != [] && t[0] != DOT && t[|t| - 1] != DOT
    && (forall i, j :: 0 <= i < j < |t| && t[i] == DOT && t[j] == DOT ==> i + 1 < j)
    && (forall i, j :: 0 <= i < j <= |t| && j - i > MAX_LABEL_LENGTH ==> DOT in t[i..j])
  }

  /** The index of the first occurrence of `b` in `s`. */
  function FirstIndex(s: ByteString, b: Byte): (k: nat)
    requires b in s
    ensures k < |s| && s[k] == b && b !in s[..k]
  {
    if s[0] == b then 0
    else
      var k := FirstIndex(s[1..], b);
      assert s[..k + 1] == [s[0]] + s[1..][..k];
      k + 1
  }

  lemma WellFormedWithoutDot(t: ByteString)
    requires DOT !in t
    ensures WellFormedLabels(t) <==> 1 <= |t| <= MAX_LABEL_LENGTH
  {
    assert t[0..|t|] == t;
    assert forall i :: 0 <= i < |t| ==> t[i] != DOT;
  }

  /** The reference description decomposes at the first dot like Split does. */
  lemma WellFormedAtFirstDot(t: ByteString, k: nat)
    requires k < |t| && t[k] == DOT && DOT !in t[..k]
    ensures WellFormedLabels(t) <==> 1 <= k <= MAX_LABEL_LENGTH && WellFormedLabels(t[k + 1..])
  {
    var b := t[k + 1..];
    forall i | 0 <= i < k ensures t[i] != DOT {
      assert t[i] in t[..k];
    }
    if WellFormedLabels(t) {
      assert t[0..k] == t[..k];
      assert |t| - 1 != k;
      assert t[k + 1] == b[0];
      forall i, j | 0 <= i < j < |b| && b[i] == DOT && b[j] == DOT ensures i + 1 < j {
        assert t[i + k + 1] == DOT && t[j + k + 1] == DOT;
      }
      forall i, j | 0 <= i < j <= |b| && j - i > MAX_LABEL_LENGTH ensures DOT in b[i..j] {
        assert t[i + k + 1..j + k + 1] == b[i..j];
      }
    }
    if 1 <= k <= MAX_LABEL_LENGTH && WellFormedLabels(b) {
      assert t[|t| - 1] == b[|b| - 1];
      forall i, j | 0 <= i < j < |t| && t[i] == DOT && t[j] == DOT ensures i + 1 < j {
        if i == k {
          assert j != k + 1 by {
            assert b[0] != DOT;
          }
        } else {
          assert b[i - k - 1] == DOT && b[j - k - 1] == DOT;
        }
      }
      forall i, j | 0 <= i < j <= |t| && j - i > MAX_LABEL_LENGTH ensures DOT in t[i..j] {
        if i <= k {
          assert t[i..j][k - i] == DOT;
        } else {
          assert t[i..j] == b[i - k - 1..j - k - 1];
        }
      }
    }
  }

  lemma LabelsInBoundsCons(first: ByteString, rest: seq<ByteString>)
    ensures LabelsInBounds([first] + rest) <==> 1 <= |first| <= MAX_LABEL_LENGTH && LabelsInBounds(rest)
  {
    assert forall part :: part in [first] + rest <==> part == first || part in rest;
  }

  /** Every piece of the split is 1 to 63 bytes long exactly when the reference
      description holds. */
  lemma {:induction false} LabelsInBoundsIff(t: ByteString)
    ensures LabelsInBounds(Split(t, DOT)) <==> WellFormedLabels(t)
    decreases |t|
  {
    if DOT in t {
      var k := FirstIndex(t, DOT);
      SplitAtFirst(t, DOT, k);
      LabelsInBoundsIff(t[k + 1..]);
      WellFormedAtFirstDot(t, k);
      LabelsInBoundsCons(t[..k], Split(t[k + 1..], DOT));
    } else {
      SplitWithoutSeparator(t, DOT);
      WellFormedWithoutDot(t);
    }
  }

  /** The validator, stated without Split: the unstripped name is 1 to 253
      bytes and what remains after one "*." is stripped is well formed. */
  lemma ValidIff(s: ByteString)
    ensures IsValidSubdomain(s) <==>
              1 <= |s| <= MAX_NAME_LENGTH && WellFormedLabels(TrimPrefix(s, WILDCARD))
  {
    LabelsInBoundsIff(TrimPrefix(s, WILDCARD));
  }

  /** The length limit applies before the wildcard is stripped: "*." followed
      by a well-formed name is accepted only if that name has at most 251 bytes,
      although the name alone is accepted up to 253 bytes. */
  lemma WildcardCountsTowardLength(t: ByteString)
    requires WellFormedLabels(t)
    ensures IsValidSubdomain(WILDCARD + t) <==> |t| <= MAX_NAME_LENGTH - 2
    ensures !(WILDCARD <= t) ==> (IsValidSubdomain(t) <==> |t| <= MAX_NAME_LENGTH)
  {
    assert TrimPrefix(WILDCARD + t, WILDCARD) == t;
    ValidIff(WILDCARD + t);
    ValidIff(t);
  }

  /** A name ending in a dot is rejected; so is a bare "*.". */
  lemma TrailingDotRejected(s: ByteString)
    requires s != [] && s[|s| - 1] == DOT
    ensures !IsValidSubdomain(s)
  {
    ValidIff(s);
    var t := TrimPrefix(s, WILDCARD);
    if WILDCARD <= s && t != [] {
      assert t[|t| - 1] == s[|s| - 1];
    }
  }

  /** A name with two adjacent dots, an empty label, is rejected. */
  lemma DoubleDotRejected(s: ByteString, i: nat)
    requires i + 1 < |s| && s[i] == DOT && s[i + 1] == DOT
    ensures !IsValidSubdomain(s)
  {
    ValidIff(s);
    var t := TrimPrefix(s, WILDCARD);
    if WILDCARD <= s {
      assert s[0] == STAR;
      if i == 1 {
        assert t[0] == s[2];
      } else {
        assert i >= 2 && t[i - 2] == DOT && t[i - 1] == DOT;
      }
    } else {
      assert t[i] == DOT && t[i + 1] == DOT;
    }
  }

  /** A name holding more than 63 consecutive bytes without a dot is rejected. */
  lemma LongLabelRejected(s: ByteString, i: nat, j: nat)
    requires i < j <= |s| && j - i > MAX_LABEL_LENGTH && DOT !in s[i..j]
    ensures !IsValidSubdomain(s)
  {
    ValidIff(s);
    var t := TrimPrefix(s, WILDCARD);
    if WILDCARD <= s {
      assert s[1] == DOT;
      assert forall k :: i <= k < j ==> s[k] in s[i..j] by {
        forall k | i <= k < j ensures s[k] in s[i..j] {
          assert s[i..j][k - i] == s[k];
        }
      }
      assert i >= 2 ==> t[i - 2..j - 2] == s[i..j];
    } else {
      assert t[i..j] == s[i..j];
    }
  }

  /** A name of one label is accepted exactly when it has 1 to 63 bytes: a label
      of 63 bytes passes and one of 64 bytes fails. */
  lemma SingleLabelBounds(s: ByteString)
    requires DOT !in s
    ensures IsValidSubdomain(s) <==> 1 <= |s| <= MAX_LABEL_LENGTH
  {
    assert |s| >= 2 ==> s[1] in s;
    LabelsInBoundsIff(s);
    WellFormedWithoutDot(s);
  }
}
