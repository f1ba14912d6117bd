/** The subdomain extractor: from the "name value" fields of the certificate
    records returned for a domain, keep every regular-expression match that,
    once normalised, is a valid hostname containing the domain; return the
    distinct survivors in ascending order. */
module Extractor {
  import opened ByteStrings
  import opened Unions
  import opened Sorting
  import opened Validator

  /** The compiled pattern's FindAllString(line, -1): every non-overlapping
      match of the hostname pattern built from `domain`, left to right. The
      regular-expression engine is a library; the model takes it as given. */
  type Matcher = (ByteString, ByteString) -> seq<ByteString>

  /** TrimSpace, then ToLower, then strip one leading "*.". */
  function Normalize(m: ByteString): (r: ByteString)
    ensures IsLowerCase(r)
    ensures STAR !in m ==> STAR !in r
  {
    var trimmed := TrimSpace(m);
    var lowered := ToLower(trimmed);
    assert STAR !in m ==> STAR !in trimmed by {
      TrimSpaceSpec(m);
      var i :| OccursAt(m, i, trimmed);
      assert forall k :: 0 <= k < |trimmed| ==> trimmed[k] == m[i + k];
    }
    assert forall k :: 0 <= k < |lowered| ==> (lowered[k] == STAR <==> trimmed[k] == STAR);
    TrimPrefix(lowered, WILDCARD)
  }

  /** The filter a normalised match must pass to be kept. */
  predicate Keep(subdomain: ByteString, domain: ByteString)
    ensures Keep(subdomain, domain) ==> |domain| <= |subdomain| <= MAX_NAME_LENGTH
  {
    IsValidSubdomain(subdomain) && Contains(subdomain, domain)
  }

  /** What one match contributes: its normalised form, if that passes the filter. */
  function KeptSet(m: ByteString, domain: ByteString): set<ByteString> {
    var s := Normalize(m);
    if Keep(s, domain) then {s} else {}
  }

  function KeptMatch(domain: ByteString): ByteString -> set<ByteString> {
    m => KeptSet(m, domain)
  }

  /** What one line contributes: its kept matches. */
  function KeptFromLine(domain: ByteString, matcher: Matcher): ByteString -> set<ByteString> {
    line => UnionOver(matcher(line, domain), KeptMatch(domain))
  }

  /** What one name value contributes: the kept matches of its '\n'-separated lines. */
  function KeptFromNameValue(domain: ByteString, matcher: Matcher): ByteString -> set<ByteString> {
    nameValue => UnionOver(Split(nameValue, NEWLINE), KeptFromLine(domain, matcher))
  }

  /** The set the extractor builds from all name values. */
  function Extracted(domain: ByteString, nameValues: seq<ByteString>, matcher: Matcher): set<ByteString> {
    UnionOver(nameValues, KeptFromNameValue(domain, matcher))
  }

  /** `s` is the normalised k-th match on the j-th line of the i-th name value. */
  ghost predicate NormalizedMatchAt(domain: ByteString, nameValues: seq<ByteString>, matcher: Matcher,
                                    i: int, j: int, k: int, s: ByteString)
  {
    && 0 <= i < |nameValues|
    && 0 <= j < |Split(nameValues[i], NEWLINE)|
    && 0 <= k < |matcher(Split(nameValues[i], NEWLINE)[j], domain)|
    && Normalize(matcher(Split(nameValues[i], NEWLINE)[j], domain)[k]) == s
  }

  /** A line contributes exactly its normalised matches that pass the filter. */
  lemma KeptFromLineIff(domain: ByteString, matcher: Matcher, line: ByteString, s: ByteString)
    ensures s in KeptFromLine(domain, matcher)(line) <==>
              Keep(s, domain) && exists k :: 0 <= k < |matcher(line, domain)| && Normalize(matcher(line, domain)[k]) == s
  {
    var matches := matcher(line, domain);
    UnionOverMembership(matches, KeptMatch(domain), s);
    if s in KeptFromLine(domain, matcher)(line) {
      var k :| 0 <= k < |matches| && s in KeptMatch(domain)(matches[k]);
      assert s in KeptSet(matches[k], domain);
    }
    if Keep(s, domain) && exists k :: 0 <= k < |matches| && Normalize(matches[k]) == s {
      var k :| 0 <= k < |matches| && Normalize(matches[k]) == s;
      assert s in KeptSet(matches[k], domain);
      assert s in KeptMatch(domain)(matches[k]);
    }
  }

  /** Everything extracted is a normalised match that passes the filter. */
  lemma ExtractedOnlyKept(domain: ByteString, nameValues: seq<ByteString>, matcher: Matcher, s: ByteString)
    ensures s in Extracted(domain, nameValues, matcher) ==>
              Keep(s, domain) && exists i, j, k :: NormalizedMatchAt(domain, nameValues, matcher, i, j, k, s)
  {
    UnionOverMembership(nameValues, KeptFromNameValue(domain, matcher), s);
    if s in Extracted(domain, nameValues, matcher) {
      var i :| 0 <= i < |nameValues| && s in KeptFromNameValue(domain, matcher)(nameValues[i]);
      var lines := Split(nameValues[i], NEWLINE);
      UnionOverMembership(lines, KeptFromLine(domain, matcher), s);
      var j :| 0 <= j < |lines| && s in KeptFromLine(domain, matcher)(lines[j]);
      KeptFromLineIff(domain, matcher, lines[j], s);
      var k :| 0 <= k < |matcher(lines[j], domain)| && Normalize(matcher(lines[j], domain)[k]) == s;
      assert NormalizedMatchAt(domain, nameValues, matcher, i, j, k, s);
    }
  }

  /** Every normalised match that passes the filter is extracted. */
  lemma ExtractedAllKept(domain: ByteString, nameValues: seq<ByteString>, matcher: Matcher,
                         i: int, j: int, k: int, s: ByteString)
    requires Keep(s, domain) && NormalizedMatchAt(domain, nameValues, matcher, i, j, k, s)
    ensures s in Extracted(domain, nameValues, matcher)
  {
    var lines := Split(nameValues[i], NEWLINE);
    KeptFromLineIff(domain, matcher, lines[j], s);
    UnionOverMembership(lines, KeptFromLine(domain, matcher), s);
    assert s in KeptFromNameValue(domain, matcher)(nameValues[i]);
    UnionOverMembership(nameValues, KeptFromNameValue(domain, matcher), s);
  }

  /** Exactly the normalised matches that pass the filter are extracted:
      nothing else is added and nothing that passes is lost. */
  lemma ExtractedIff(domain: ByteString, nameValues: seq<ByteString>, matcher: Matcher, s: ByteString)
    ensures s in Extracted(domain, nameValues, matcher) <==>
              Keep(s, domain) && exists i, j, k :: NormalizedMatchAt(domain, nameValues, matcher, i, j, k, s)
  {
    ExtractedOnlyKept(domain, nameValues, matcher, s);
    if Keep(s, domain) && exists i, j, k :: NormalizedMatchAt(domain, nameValues, matcher, i, j, k, s) {
      var i, j, k :| NormalizedMatchAt(domain, nameValues, matcher, i, j, k, s);
      ExtractedAllKept(domain, nameValues, matcher, i, j, k, s);
    }
  }

  /** The extracted set depends only on which name values occur, not on their
      order or on repetitions among them. */
  lemma NameValueOrderIrrelevant(domain: ByteString, nameValues1: seq<ByteString>, nameValues2: seq<ByteString>, matcher: Matcher)
    requires forall nv :: nv in nameValues1 <==> nv in nameValues2
    ensures Extracted(domain, nameValues1, matcher) == Extracted(domain, nameValues2, matcher)
  {
    UnionOverSameItems(nameValues1, nameValues2, KeptFromNameValue(domain, matcher));
  }

  /** The regular expression of the program matches only letters, digits,
      hyphens and dots followed by the domain, so a match holds no '*' unless
      the domain does. */
  ghost predicate MatcherAvoidsStar(matcher: Matcher, domain: ByteString) {
    forall line, m :: m in matcher(line, domain) ==> STAR !in m
  }

  /** Every extracted name is lower case, passes the validator and contains the
      domain; when no match holds a '*', none of them starts with "*.". */
  lemma ExtractedAreSubdomains(domain: ByteString, nameValues: seq<ByteString>, matcher: Matcher, s: ByteString)
    ensures s in Extracted(domain, nameValues, matcher) ==>
              IsValidSubdomain(s) && Contains(s, domain) && IsLowerCase(s)
    ensures s in Extracted(domain, nameValues, matcher) && MatcherAvoidsStar(matcher, domain) ==>
              STAR !in s && !(WILDCARD <= s)
  {
    if s in Extracted(domain, nameValues, matcher) {
      ExtractedOnlyKept(domain, nameValues, matcher, s);
      var i, j, k :| NormalizedMatchAt(domain, nameValues, matcher, i, j, k, s);
      var m := matcher(Split(nameValues[i], NEWLINE)[j], domain)[k];
      if MatcherAvoidsStar(matcher, domain) {
        assert m in matcher(Split(nameValues[i], NEWLINE)[j], domain);
        assert |s| >= 2 ==> s[0] in s;
      }
    }
  }

  /** The innermost loop of extractSubdomains: normalise each match of one line
      and add those that pass the filter to the set. */
  method CollectMatches(domain: ByteString, matches: seq<ByteString>, subdomainSet: set<ByteString>)
    returns (result: set<ByteString>)
    ensures result == subdomainSet + UnionOver(matches, KeptMatch(domain))
  {
    result := subdomainSet;
    for k := 0 to |matches|
      invariant result == subdomainSet + UnionOver(matches[..k], KeptMatch(domain))
    {
      var subdomain := Normalize(matches[k]);
      if Keep(subdomain, domain) {
        result := result + {subdomain};
      }
      assert KeptMatch(domain)(matches[k]) == KeptSet(matches[k], domain);
      UnionOverPrefix(matches, k, KeptMatch(domain));
    }
    UnionOverWhole(matches, KeptMatch(domain));
  }

  /** The middle loop of extractSubdomains: split one name value on '\n' and
      collect the matches of every line. */
  method CollectNameValue(domain: ByteString, nameValue: ByteString, matcher: Matcher, subdomainSet: set<ByteString>)
    returns (result: set<ByteString>)
    ensures result == subdomainSet + KeptFromNameValue(domain, matcher)(nameValue)
  {
    var entries := Split(nameValue, NEWLINE);
    result := subdomainSet;
    for j := 0 to |entries|
      invariant result == subdomainSet + UnionOver(entries[..j], KeptFromLine(domain, matcher))
    {
      var matches := matcher(entries[j], domain);
      result := CollectMatches(domain, matches, result);
      UnionOverPrefix(entries, j, KeptFromLine(domain, matcher));
    }
    UnionOverWhole(entries, KeptFromLine(domain, matcher));
  }

  /** extractSubdomains: collect the kept normalised matches of every line of
      every name value into a set, then return the set's members in ascending
      order. */
  method ExtractSubdomains(domain: ByteString, nameValues: seq<ByteString>, matcher: Matcher)
    returns (subdomains: seq<ByteString>)
    ensures StrictlyAscending(subdomains)
    ensures Elems(subdomains) == Extracted(domain, nameValues, matcher)
  {
    var subdomainSet: set<ByteString> := {};
    for i := 0 to |nameValues|
      invariant subdomainSet == UnionOver(nameValues[..i], KeptFromNameValue(domain, matcher))
    {
      subdomainSet := CollectNameValue(domain, nameValues[i], matcher, subdomainSet);
      UnionOverPrefix(nameValues, i, KeptFromNameValue(domain, matcher));
    }
    UnionOverWhole(nameValues, KeptFromNameValue(domain, matcher));
    subdomains := SortedFromSet(subdomainSet);
  }
}
