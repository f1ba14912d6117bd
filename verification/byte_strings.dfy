/** Go strings as the program uses them: byte sequences, measured by `len` in
    bytes and compared byte by byte. The helpers here are the few functions of
    Go's `strings` package that the hostname pipeline calls (TrimSpace, ToLower,
    TrimPrefix, Split, Contains), restricted to their behaviour on ASCII. */
module ByteStrings {

  newtype Byte = b: int | 0 <= b < 256

  type ByteString = seq<Byte>

  const NEWLINE: Byte := 10
  const SPACE: Byte := 32
  const STAR: Byte := 42
  const DOT: Byte := 46

  /** The wildcard label that certificates put in front of a name: "*." */
  const WILDCARD: ByteString := [STAR, DOT]

  /** The ASCII white space that strings.TrimSpace removes: '\t', '\n', '\v', '\f', '\r' and ' '. */
  predicate IsSpace(b: Byte) {
    9 <= b <= 13 || b == SPACE
  }

  predicate IsUpper(b: Byte) {
    65 <= b <= 90
  }

  predicate IsLowerCase(s: ByteString) {
    forall i :: 0 <= i < |s| ==> !IsUpper(s[i])
  }

  /** strings.TrimLeft for white space: drops the leading white space of `s`. */
  function TrimLeftSpace(s: ByteString): (r: ByteString)
    ensures |r| <= |s|
  {
    if s != [] && IsSpace(s[0]) then TrimLeftSpace(s[1..]) else s
  }

  /** strings.TrimRight for white space: drops the trailing white space of `s`. */
  function TrimRightSpace(s: ByteString): (r: ByteString)
    ensures |r| <= |s|
  {
    if s != [] && IsSpace(s[|s| - 1]) then TrimRightSpace(s[..|s| - 1]) else s
  }

  /** strings.TrimSpace: removes leading and trailing white space. */
  function TrimSpace(s: ByteString): (r: ByteString)
    ensures |r| <= |s|
  {
    TrimRightSpace(TrimLeftSpace(s))
  }

  /** TrimLeftSpace keeps a suffix and drops only white space, up to the first other byte. */
  lemma {:induction false} TrimLeftSpaceSpec(s: ByteString)
    ensures var r := TrimLeftSpace(s);
      && r == s[|s| - |r|..]
      && (forall k :: 0 <= k < |s| - |r| ==> IsSpace(s[k]))
      && (r == [] || !IsSpace(r[0]))
  {
    if s != [] && IsSpace(s[0]) {
      TrimLeftSpaceSpec(s[1..]);
    }
  }

  /** TrimRightSpace keeps a prefix and drops only white space, back to the last other byte. */
  lemma {:induction false} TrimRightSpaceSpec(s: ByteString)
    ensures var r := TrimRightSpace(s);
      && r == s[..|r|]
      && (forall k :: |r| <= k < |s| ==> IsSpace(s[k]))
      && (r == [] || !IsSpace(r[|r| - 1]))
  {
    if s != [] && IsSpace(s[|s| - 1]) {
      TrimRightSpaceSpec(s[..|s| - 1]);
    }
  }

  /** What TrimSpace leaves: a slice of `s` that neither starts nor ends with
      white space and around which `s` holds only white space; nothing at all
      exactly when `s` is all white space; and `s` itself when `s` has no
      white space at either end. */
  lemma TrimSpaceSpec(s: ByteString)
    ensures var r := TrimSpace(s);
      && (r == [] || (!IsSpace(r[0]) && !IsSpace(r[|r| - 1])))
      && (r == [] <==> forall k :: 0 <= k < |s| ==> IsSpace(s[k]))
      && (s == [] || (!IsSpace(s[0]) && !IsSpace(s[|s| - 1])) ==> r == s)
      && exists i :: OccursAt(s, i, r) && (forall k :: 0 <= k < i ==> IsSpace(s[k])) &&
                     (forall k :: i + |r| <= k < |s| ==> IsSpace(s[k]))
  {
    var left := TrimLeftSpace(s);
    TrimLeftSpaceSpec(s);
    TrimRightSpaceSpec(left);
    var r := TrimRightSpace(left);
    assert TrimSpace(s) == r;
    var i := |s| - |left|;
    assert OccursAt(s, i, r);
    forall k | i + |r| <= k < |s| ensures IsSpace(s[k]) {
      assert s[k] == left[k - i];
    }
    if r != [] {
      assert r[0] == left[0];
    }
  }

  /** Trimming twice is trimming once. */
  lemma TrimSpaceIdempotent(s: ByteString)
    ensures TrimSpace(TrimSpace(s)) == TrimSpace(s)
  {
    TrimSpaceSpec(s);
    TrimSpaceSpec(TrimSpace(s));
  }

  function LowerByte(b: Byte): (r: Byte)
    ensures !IsUpper(r)
    ensures !IsUpper(b) ==> r == b
  {
    if IsUpper(b) then b + 32 else b
  }

  /** strings.ToLower on ASCII: each upper-case letter becomes its lower-case letter. */
  function ToLower(s: ByteString): (r: ByteString)
    ensures |r| == |s| && IsLowerCase(r)
    ensures forall i :: 0 <= i < |s| ==> r[i] == LowerByte(s[i])
  {
    if s == [] then [] else [LowerByte(s[0])] + ToLower(s[1..])
  }

  /** Lower-casing never turns white space into something else or back. */
  lemma LowerByteKeepsSpace(b: Byte)
    ensures IsSpace(LowerByte(b)) <==> IsSpace(b)
  {
  }

  /** Lower-casing a lower-case string changes nothing. */
  lemma ToLowerOfLowerCase(s: ByteString)
    requires IsLowerCase(s)
    ensures ToLower(s) == s
  {
  }

  /** strings.TrimPrefix: removes `prefix` once if `s` starts with it. */
  function TrimPrefix(s: ByteString, prefix: ByteString): (r: ByteString)
    ensures prefix <= s ==> s == prefix + r
    ensures !(prefix <= s) ==> r == s
  {
    if prefix <= s then s[|prefix|..] else s
  }

  /** `sub` occurs in `s` starting at index `i`. */
  predicate OccursAt(s: ByteString, i: int, sub: ByteString) {
    0 <= i <= |s| - |sub| && s[i..i + |sub|] == sub
  }

  /** strings.Contains: `sub` occurs in `s` as a contiguous slice. */
  predicate Contains(s: ByteString, sub: ByteString)
    ensures Contains(s, sub) ==> |sub| <= |s|
    ensures sub <= s ==> Contains(s, sub)
  {
    assert sub <= s ==> OccursAt(s, 0, sub);
    exists i :: 0 <= i <= |s| - |sub| && OccursAt(s, i, sub)
  }

  /** How often the byte `b` occurs in `s`. */
  function Count(s: ByteString, b: Byte): nat {
    if s == [] then 0 else (if s[0] == b then 1 else 0) + Count(s[1..], b)
  }

  /** strings.Join with a one-byte separator. */
  function Join(parts: seq<ByteString>, sep: Byte): ByteString {
    if parts == [] then []
    else if |parts| == 1 then parts[0]
    else parts[0] + [sep] + Join(parts[1..], sep)
  }

  /** strings.Split with a one-byte separator: the pieces of `s` between the
      occurrences of `sep`; the empty string gives one empty piece. Joining the
      pieces again gives back `s`. */
  function Split(s: ByteString, sep: Byte): (parts: seq<ByteString>)
    ensures |parts| == Count(s, sep) + 1
    ensures forall p :: p in parts ==> sep !in p
    ensures Join(parts, sep) == s
  {
    if s == [] then [[]]
    else
      var rest := Split(s[1..], sep);
      if s[0] == sep then
        assert s == [sep] + s[1..];
        [[]] + rest
      else
        var first := [s[0]] + rest[0];
        assert first[1..] == rest[0];
        assert Join([first] + rest[1..], sep) == s by {
          if |rest| == 1 {
          } else {
            assert ([first] + rest[1..])[1..] == rest[1..];
            assert Join(rest, sep) == rest[0] + [sep] + Join(rest[1..], sep);
          }
        }
        [first] + rest[1..]
  }

  /** When `s` has no separator, Split returns `s` as its only piece. */
  lemma {:induction false} SplitWithoutSeparator(s: ByteString, sep: Byte)
    requires sep !in s
    ensures Split(s, sep) == [s]
  {
    if s != [] {
      SplitWithoutSeparator(s[1..], sep);
      assert [s[0]] + s[1..] == s;
    }
  }

  /** Split peels off the piece before the first separator at index `k`. */
  lemma {:induction false} SplitAtFirst(s: ByteString, sep: Byte, k: nat)
    requires k < |s| && s[k] == sep && sep !in s[..k]
    ensures Split(s, sep) == [s[..k]] + Split(s[k + 1..], sep)
  {
    if k > 0 {
      assert s[0] in s[..k];
      assert s[1..][..k - 1] == s[1..k];
      SplitAtFirst(s[1..], sep, k - 1);
      assert s[1..][k..] == s[k + 1..];
      assert [s[0]] + s[1..k] == s[..k];
    }
  }

  /** Go's string comparison: bytewise lexicographic, a proper prefix first. */
  predicate LexLess(a: ByteString, b: ByteString)
    ensures a < b ==> LexLess(a, b)
  {
    if a == [] then b != []
    else if b == [] then false
    else a[0] < b[0] || (a[0] == b[0] && LexLess(a[1..], b[1..]))
  }
}
