/** The SubHunter object: one crt.sh query per domain, and a batch over a list
    of domains whose findings are merged, deduplicated and sorted. The HTTP
    client, the response body and the JSON decoder are parameters; so is the
    compiled pattern of the extractor. */
module Hunter {
  import opened ByteStrings
  import opened Unions
  import opened Sorting
  import opened Validator
  import opened Extractor

  datatype Option<T> = None | Some(value: T)

  /** What `client.Get(url)` gives back: a transport error, or a status code
      and a body that `io.ReadAll` either reads in full (Some) or fails on (None). */
  datatype HttpResult = GetFailed | Got(statusCode: int, body: Option<ByteString>)

  /** The outside world of one run: the HTTP GET, the JSON decoder that turns a
      body into the `name_value` fields of its records (None when the body is
      not a JSON array of records), and the hostname pattern. */
  datatype Services = Services(
    get: ByteString -> HttpResult,
    decode: ByteString -> Option<seq<ByteString>>,
    matcher: Matcher)

  /** Why queryAPI returned an error. */
  datatype QueryError = Transport | HttpStatus(code: int) | ReadBody | JsonDecode

  /** What queryAPI returns: the extracted names, or an error. */
  datatype QueryResult = Found(subdomains: seq<ByteString>) | QueryFailed(error: QueryError)

  /** What a query means: an error, or the set of names it finds. */
  datatype Answer = Fail(reason: QueryError) | Names(names: set<ByteString>)

  const HTTP_OK := 200

  /** The two constant parts of the query URL: "%." asks crt.sh for every name
      under the domain, and the reply is requested as JSON. */
  const URL_PREFIX: ByteString := // "https://crt.sh/?q=%."
    [104, 116, 116, 112, 115, 58, 47, 47, 99, 114, 116, 46, 115, 104, 47, 63, 113, 61, 37, 46]
  const URL_SUFFIX: ByteString := // "&output=json"
    [38, 111, 117, 116, 112, 117, 116, 61, 106, 115, 111, 110]

  /** The URL that queryAPI fetches for `domain` (inserted without escaping). */
  function QueryURL(domain: ByteString): (url: ByteString)
    ensures |url| == |URL_PREFIX| + |domain| + |URL_SUFFIX|
    ensures url[..|URL_PREFIX|] == URL_PREFIX
    ensures url[|URL_PREFIX|..|URL_PREFIX| + |domain|] == domain
    ensures url[|URL_PREFIX| + |domain|..] == URL_SUFFIX
  {
    URL_PREFIX + domain + URL_SUFFIX
  }

  /** The meaning of queryAPI for `domain`, error by error in the order the
      code checks them: transport, status other than 200, body read, JSON. */
  function Query(domain: ByteString, services: Services): Answer {
    match services.get(QueryURL(domain))
    case GetFailed => Fail(Transport)
    case Got(status, body) =>
      if status != HTTP_OK then Fail(HttpStatus(status))
      else if body.None? then Fail(ReadBody)
      else match services.decode(body.value)
        case None => Fail(JsonDecode)
        case Some(nameValues) => Names(Extracted(domain, nameValues, services.matcher))
  }

  /** processDomain's own clean-up of its argument: TrimSpace, then ToLower. */
  function NormalizeDomain(domain: ByteString): (d: ByteString)
    ensures |d| <= |domain| && IsLowerCase(d)
  {
    ToLower(TrimSpace(domain))
  }

  /** Cleaning up an already cleaned domain changes nothing, so a domain from
      the list, trimmed once when loaded, is queried as processDomain would
      query the raw line. */
  lemma NormalizeDomainIdempotent(domain: ByteString)
    ensures NormalizeDomain(NormalizeDomain(domain)) == NormalizeDomain(domain)
  {
    var t := TrimSpace(domain);
    var d := ToLower(t);
    TrimSpaceSpec(domain);
    if d != [] {
      LowerByteKeepsSpace(t[0]);
      LowerByteKeepsSpace(t[|t| - 1]);
    }
    TrimSpaceSpec(d);
    assert TrimSpace(d) == d;
    ToLowerOfLowerCase(d);
  }

  /** The names processDomain returns for `domain`, as a set: none for a blank
      domain or a failed query, the query's names otherwise. */
  function NamesFor(domain: ByteString, services: Services): set<ByteString> {
    var d := NormalizeDomain(domain);
    if d == [] then {}
    else match Query(d, services)
      case Fail(_) => {}
      case Names(names) => names
  }

  /** NamesFor as a function of the domain alone, for unions over a list. */
  function DomainNames(services: Services): ByteString -> set<ByteString> {
    domain => NamesFor(domain, services)
  }

  /** Every name found for a domain is a lower-case valid hostname that
      contains the cleaned-up domain. */
  lemma NamesForAreSubdomains(domain: ByteString, services: Services, s: ByteString)
    ensures s in NamesFor(domain, services) ==>
              IsValidSubdomain(s) && Contains(s, NormalizeDomain(domain)) && IsLowerCase(s)
  {
    if s in NamesFor(domain, services) {
      var d := NormalizeDomain(domain);
      var response := services.get(QueryURL(d));
      assert response.Got? && response.statusCode == HTTP_OK && response.body.Some?;
      var decoded := services.decode(response.body.value);
      assert decoded.Some? && Query(d, services).names == Extracted(d, decoded.value, services.matcher);
      ExtractedAreSubdomains(d, decoded.value, services.matcher, s);
    }
  }

  /** The domains that processDomain queries, in order: the cleaned-up domains
      that are not blank. */
  function Queried(domains: seq<ByteString>): seq<ByteString> {
    if domains == [] then []
    else
      var d := NormalizeDomain(domains[|domains| - 1]);
      Queried(domains[..|domains| - 1]) + if d == [] then [] else [d]
  }

  /** The domain list as the batch reads it: each line trimmed, blank lines
      skipped, order kept. */
  function CleanDomains(lines: seq<ByteString>): (domains: seq<ByteString>)
    ensures |domains| <= |lines|
  {
    if lines == [] then []
    else
      var d := TrimSpace(lines[|lines| - 1]);
      CleanDomains(lines[..|lines| - 1]) + if d == [] then [] else [d]
  }

  /** A domain is loaded exactly when some line trims to it and it is not blank. */
  lemma {:induction false} CleanDomainsIff(lines: seq<ByteString>, d: ByteString)
    ensures d in CleanDomains(lines) <==> d != [] && exists i :: 0 <= i < |lines| && TrimSpace(lines[i]) == d
  {
    if lines != [] {
      var init := lines[..|lines| - 1];
      CleanDomainsIff(init, d);
      if exists i :: 0 <= i < |init| && TrimSpace(init[i]) == d {
        var i :| 0 <= i < |init| && TrimSpace(init[i]) == d;
        assert lines[i] == init[i];
      }
      if exists i :: 0 <= i < |lines| && TrimSpace(lines[i]) == d {
        var i :| 0 <= i < |lines| && TrimSpace(lines[i]) == d;
        if i < |init| {
          assert init[i] == lines[i];
        }
      }
    }
  }

  /** Loading a file in two pieces loads the two lists one after the other. */
  lemma {:induction false} CleanDomainsAppend(a: seq<ByteString>, b: seq<ByteString>)
    ensures CleanDomains(a + b) == CleanDomains(a) + CleanDomains(b)
    decreases |b|
  {
    if b != [] {
      var init := b[..|b| - 1];
      assert (a + b)[..|a + b| - 1] == a + init;
      assert (a + b)[|a + b| - 1] == b[|b| - 1];
      CleanDomainsAppend(a, init);
    } else {
      assert a + b == a;
    }
  }

  /** Every loaded domain is trimmed and not blank. */
  lemma {:induction false} CleanDomainsTrimmed(lines: seq<ByteString>)
    ensures forall d :: d in CleanDomains(lines) ==> d != [] && TrimSpace(d) == d
  {
    if lines != [] {
      var init := lines[..|lines| - 1];
      CleanDomainsTrimmed(init);
      TrimSpaceIdempotent(lines[|lines| - 1]);
    }
  }

  /** processDomain queries one domain per call. */
  lemma QueriedSingle(domain: ByteString)
    ensures Queried([domain]) == if NormalizeDomain(domain) == [] then [] else [NormalizeDomain(domain)]
  {
    assert [domain][..0] == [];
  }

  lemma QueriedSnoc(domains: seq<ByteString>, domain: ByteString)
    ensures Queried(domains + [domain]) == Queried(domains) + Queried([domain])
  {
    assert (domains + [domain])[..|domains|] == domains;
    QueriedSingle(domain);
  }

  lemma QueriedPrefix(domains: seq<ByteString>, i: int)
    requires 0 <= i < |domains|
    ensures Queried(domains[..i + 1]) == Queried(domains[..i]) + Queried([domains[i]])
  {
    assert domains[..i + 1] == domains[..i] + [domains[i]];
    QueriedSnoc(domains[..i], domains[i]);
  }

  lemma AppendAssociative(a: seq<ByteString>, b: seq<ByteString>, c: seq<ByteString>)
    ensures (a + b) + c == a + (b + c)
  {
  }

  /** When no domain cleans up to nothing, every domain is queried. */
  lemma {:induction false} QueriedAll(domains: seq<ByteString>)
    requires forall d :: d in domains ==> NormalizeDomain(d) != []
    ensures Queried(domains) == seq(|domains|, i requires 0 <= i < |domains| => NormalizeDomain(domains[i]))
  {
    if domains != [] {
      var init := domains[..|domains| - 1];
      var last := domains[|domains| - 1];
      assert forall d :: d in init ==> d in domains;
      QueriedAll(init);
      assert last in domains;
      assert Queried(domains) == Queried(init) + [NormalizeDomain(last)];
      forall i | 0 <= i < |domains| ensures Queried(domains)[i] == NormalizeDomain(domains[i]) {
        if i < |init| {
          assert Queried(domains)[i] == Queried(init)[i];
          assert init[i] == domains[i];
        }
      }
    }
  }

  /** The batch never sends a blank domain and never skips a loaded one. */
  lemma CleanDomainsAreQueried(lines: seq<ByteString>)
    ensures forall d :: d in CleanDomains(lines) ==> NormalizeDomain(d) != []
    ensures Queried(CleanDomains(lines)) ==
              seq(|CleanDomains(lines)|, i requires 0 <= i < |CleanDomains(lines)| => NormalizeDomain(CleanDomains(lines)[i]))
  {
    CleanDomainsTrimmed(lines);
    QueriedAll(CleanDomains(lines));
  }

  /** The set the batch collects from the domains: the union of their names. */
  function Merged(domains: seq<ByteString>, services: Services): set<ByteString> {
    UnionOver(domains, DomainNames(services))
  }

  /** A name is in the batch result exactly when some domain of the list found it. */
  lemma MergedIff(domains: seq<ByteString>, services: Services, s: ByteString)
    ensures s in Merged(domains, services) <==> exists i :: 0 <= i < |domains| && s in NamesFor(domains[i], services)
  {
    UnionOverMembership(domains, DomainNames(services), s);
  }

  /** The merged set does not depend on the order in which the domains are
      processed, nor on repeated domains. */
  lemma MergedOrderIndependent(domains1: seq<ByteString>, domains2: seq<ByteString>, services: Services)
    requires forall d :: d in domains1 <==> d in domains2
    ensures Merged(domains1, services) == Merged(domains2, services)
  {
    UnionOverSameItems(domains1, domains2, DomainNames(services));
  }

  /** In particular, processing the domains in any permuted order merges the
      same set. */
  lemma MergedPermutation(domains1: seq<ByteString>, domains2: seq<ByteString>, services: Services)
    requires multiset(domains1) == multiset(domains2)
    ensures Merged(domains1, services) == Merged(domains2, services)
  {
    forall d ensures d in domains1 <==> d in domains2 {
      assert d in domains1 <==> d in multiset(domains1);
      assert d in domains2 <==> d in multiset(domains2);
    }
    MergedOrderIndependent(domains1, domains2, services);
  }

  /** How many names the domains find one by one, counted with repetitions. */
  function TotalNames(domains: seq<ByteString>, services: Services): nat {
    if domains == [] then 0
    else TotalNames(domains[..|domains| - 1], services) + |NamesFor(domains[|domains| - 1], services)|
  }

  lemma TotalNamesSnoc(domains: seq<ByteString>, domain: ByteString, services: Services)
    ensures TotalNames(domains + [domain], services) == TotalNames(domains, services) + |NamesFor(domain, services)|
  {
    assert (domains + [domain])[..|domains|] == domains;
  }

  lemma TotalNamesPrefix(domains: seq<ByteString>, i: int, services: Services)
    requires 0 <= i < |domains|
    ensures TotalNames(domains[..i + 1], services) == TotalNames(domains[..i], services) + |NamesFor(domains[i], services)|
  {
    assert domains[..i + 1] == domains[..i] + [domains[i]];
    TotalNamesSnoc(domains[..i], domains[i], services);
  }

  /** Deduplication can only shrink the count: the batch total is at most the
      sum of the per-domain totals. */
  lemma {:induction false} MergedBound(domains: seq<ByteString>, services: Services)
    ensures |Merged(domains, services)| <= TotalNames(domains, services)
  {
    if domains != [] {
      var init := domains[..|domains| - 1];
      MergedBound(init, services);
      assert Merged(domains, services) == Merged(init, services) + NamesFor(domains[|domains| - 1], services);
    }
  }

  /** Taking the element at `p` out of a sequence leaves the rest of its multiset. */
  lemma RemoveAt(s: seq<ByteString>, p: int)
    requires 0 <= p < |s|
    ensures multiset(s) == multiset(s[..p] + s[p + 1..]) + multiset{s[p]}
  {
    assert s == s[..p] + [s[p]] + s[p + 1..];
  }

  /** The file the batch reads: it cannot be opened, or it has these lines. */
  datatype DomainFile = Unreadable | Lines(lines: seq<ByteString>)

  /** The loop that records a domain's names in the map used as a set. */
  method AddAll(all: set<ByteString>, subs: seq<ByteString>) returns (merged: set<ByteString>)
    ensures merged == all + Elems(subs)
  {
    merged := all;
    for k := 0 to |subs|
      invariant merged == all + Elems(subs[..k])
    {
      merged := merged + {subs[k]};
      assert subs[..k + 1] == subs[..k] + [subs[k]];
    }
    assert subs[..|subs|] == subs;
  }

  class SubHunter {
    /** The number of names found: summed over single queries, replaced by the
        size of the merged result at the end of a batch. */
    var totalFound: int
    /** The cleaned-up domains sent to crt.sh so far, in order. */
    ghost var queries: seq<ByteString>

    constructor ()
      ensures totalFound == 0 && queries == []
    {
      totalFound := 0;
      queries := [];
    }

    /** queryAPI: one GET, one status check, one body read, one JSON decode,
        then the extractor. No retry, no wait between attempts. */
    method QueryAPI(domain: ByteString, services: Services) returns (r: QueryResult)
      ensures r.QueryFailed? <==> Query(domain, services).Fail?
      ensures r.QueryFailed? ==> r.error == Query(domain, services).reason
      ensures r.Found? ==> StrictlyAscending(r.subdomains) && Elems(r.subdomains) == Query(domain, services).names
    {
      var response := services.get(QueryURL(domain));
      if response.GetFailed? {
        return QueryFailed(Transport);
      }
      if response.statusCode != HTTP_OK {
        return QueryFailed(HttpStatus(response.statusCode));
      }
      if response.body.None? {
        return QueryFailed(ReadBody);
      }
      var results := services.decode(response.body.value);
      if results.None? {
        return QueryFailed(JsonDecode);
      }
      var subdomains := ExtractSubdomains(domain, results.value, services.matcher);
      return Found(subdomains);
    }

    /** processDomain: clean up the domain, skip it if blank, query it, add the
        number of names to the running total and return them; a failed query
        returns nothing and leaves the total alone. */
    method ProcessDomain(domain: ByteString, services: Services) returns (subdomains: seq<ByteString>)
      modifies this
      ensures StrictlyAscending(subdomains) && Elems(subdomains) == NamesFor(domain, services)
      ensures totalFound == old(totalFound) + |subdomains|
      ensures totalFound == old(totalFound) + |NamesFor(domain, services)|
      ensures queries == old(queries) + Queried([domain])
      ensures NormalizeDomain(domain) == [] ==> subdomains == [] && totalFound == old(totalFound) && queries == old(queries)
      ensures NormalizeDomain(domain) != [] && Query(NormalizeDomain(domain), services).Fail? ==>
                subdomains == [] && totalFound == old(totalFound)
      ensures NormalizeDomain(domain) != [] && Query(NormalizeDomain(domain), services).Names? ==>
                Elems(subdomains) == Query(NormalizeDomain(domain), services).names
    {
      QueriedSingle(domain);
      var d := ToLower(TrimSpace(domain));
      if d == [] {
        return [];
      }
      queries := queries + [d];
      var r := QueryAPI(d, services);
      if r.QueryFailed? {
        return [];
      }
      subdomains := r.subdomains;
      totalFound := totalFound + |subdomains|;
      AscendingCardinality(subdomains);
    }

    /** The loop that reads the domain file: trim every line and keep the
        lines that are not blank. */
    method LoadDomains(lines: seq<ByteString>) returns (domains: seq<ByteString>)
      ensures domains == CleanDomains(lines)
    {
      domains := [];
      for i := 0 to |lines|
        invariant domains == CleanDomains(lines[..i])
      {
        var domain := TrimSpace(lines[i]);
        if domain != [] {
          domains := domains + [domain];
        }
        assert lines[..i + 1][..i] == lines[..i];
      }
      assert lines[..|lines|] == lines;
    }

    /** The sequential branch of the batch: the domains one after the other. */
    method ProcessSequentially(domains: seq<ByteString>, services: Services) returns (all: set<ByteString>)
      modifies this
      ensures all == Merged(domains, services)
      ensures queries == old(queries) + Queried(domains)
      ensures totalFound == old(totalFound) + TotalNames(domains, services)
    {
      all := {};
      for i := 0 to |domains|
        invariant all == Merged(domains[..i], services)
        invariant queries == old(queries) + Queried(domains[..i])
        invariant totalFound == old(totalFound) + TotalNames(domains[..i], services)
      {
        var subs := ProcessDomain(domains[i], services);
        all := AddAll(all, subs);
        UnionOverPrefix(domains, i, DomainNames(services));
        TotalNamesPrefix(domains, i, services);
        QueriedPrefix(domains, i);
        AppendAssociative(old(queries), Queried(domains[..i]), Queried([domains[i]]));
      }
      UnionOverWhole(domains, DomainNames(services));
      assert domains[..|domains|] == domains;
    }

    /** The body of one goroutine of the concurrent branch: process the
        domain, then add its names to the shared set under the lock. */
    method RunWorker(domain: ByteString, services: Services, all: set<ByteString>) returns (merged: set<ByteString>)
      modifies this
      ensures merged == all + NamesFor(domain, services)
      ensures queries == old(queries) + Queried([domain])
      ensures totalFound == old(totalFound) + |NamesFor(domain, services)|
    {
      var subs := ProcessDomain(domain, services);
      merged := AddAll(all, subs);
    }

    /** The concurrent branch of the batch: one worker per domain, run in an
        order the scheduler picks. The loop takes any pending domain next; the
        merged set does not depend on the choice. */
    method ProcessConcurrently(domains: seq<ByteString>, services: Services) returns (all: set<ByteString>)
      modifies this
      ensures all == Merged(domains, services)
      ensures exists order :: multiset(order) == multiset(domains) && queries == old(queries) + Queried(order) &&
                              totalFound == old(totalFound) + TotalNames(order, services)
    {
      all := {};
      var pending := domains;
      ghost var done: seq<ByteString> := [];
      while pending != []
        invariant multiset(done) + multiset(pending) == multiset(domains)
        invariant all == Merged(done, services)
        invariant queries == old(queries) + Queried(done)
        invariant totalFound == old(totalFound) + TotalNames(done, services)
        decreases |pending|
      {
        var p :| 0 <= p < |pending|;
        var d := pending[p];
        all := RunWorker(d, services, all);
        UnionOverSnoc(done, d, DomainNames(services));
        TotalNamesSnoc(done, d, services);
        QueriedSnoc(done, d);
        AppendAssociative(old(queries), Queried(done), Queried([d]));
        RemoveAt(pending, p);
        done := done + [d];
        pending := pending[..p] + pending[p + 1..];
      }
      assert multiset(done) == multiset(domains);
      assert totalFound == old(totalFound) + TotalNames(done, services);
      MergedPermutation(done, domains, services);
    }

    /** processDomainsFromFile: read the domain list, process the domains
        (concurrently when asked and there is more than one), merge their
        names, sort them and make the total the size of the merged result. An
        unreadable file gives nothing and changes nothing. */
    method ProcessDomainsFromFile(file: DomainFile, concurrent: bool, services: Services) returns (result: seq<ByteString>)
      modifies this
      ensures file.Unreadable? ==> result == [] && totalFound == old(totalFound) && queries == old(queries)
      ensures file.Lines? ==> StrictlyAscending(result) && Elems(result) == Merged(CleanDomains(file.lines), services)
      ensures file.Lines? ==> totalFound == |result|
      ensures file.Lines? && !(concurrent && |CleanDomains(file.lines)| > 1) ==>
                queries == old(queries) + Queried(CleanDomains(file.lines))
      ensures file.Lines? ==>
                exists order :: multiset(order) == multiset(CleanDomains(file.lines)) && queries == old(queries) + Queried(order)
    {
      if file.Unreadable? {
        return [];
      }
      var domains := LoadDomains(file.lines);
      var all;
      if concurrent && |domains| > 1 {
        all := ProcessConcurrently(domains, services);
      } else {
        all := ProcessSequentially(domains, services);
        assert multiset(domains) == multiset(CleanDomains(file.lines)) && queries == old(queries) + Queried(domains);
      }
      result := SortedFromSet(all);
      totalFound := |result|;
    }
  }
}
