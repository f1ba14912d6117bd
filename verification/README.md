# SubHunter core in Dafny

SubHunter enumerates the subdomains of a domain from certificate transparency
logs. It asks crt.sh for every certificate issued under `%.<domain>`, and
pulls hostnames out of the `name_value` field of each record with a regular
expression. It then normalises and validates them, and returns the distinct
survivors in sorted order. Given a file of domains, it processes each domain
sequentially or with one goroutine per domain. It merges all findings into one
sorted, duplicate-free list and sets its running total to the size of that
list.

This project models that logic from `main.go` and proves its properties:

- `byte_strings.dfy` (`ByteStrings`): Go strings as byte sequences. It covers
  the few `strings` functions the pipeline calls (TrimSpace, ToLower,
  TrimPrefix, Split, Contains) and Go's bytewise string order.
- `sorting.dfy` (`Sorting`): the order used by `sort.Strings`, and the step
  that turns a map used as a set into a sorted slice. Strictly ascending
  sequences are unique for their set of elements.
- `validator.dfy` (`Validator`): `isValidSubdomain` as a predicate. It is
  proved equal to a reference description that does not split: no empty
  label, no label over 63 bytes, and a length limit of 253 bytes.
- `unions.dfy` (`Unions`): the union accumulated by a loop that inserts into
  a map used as a set. It covers membership and independence from order and
  repetition.
- `extractor.dfy` (`Extractor`): `extractSubdomains`, with its three nested
  loops. The regular expression is a parameter, `Matcher`.
- `hunter.dfy` (`Hunter`): the `SubHunter` object, as a class with its
  `totalFound` field:
  - `queryAPI`, with the HTTP GET, the body read and the JSON decoder as
    parameters;
  - `processDomain`;
  - the loop that loads the domain list;
  - both branches of the batch, with the final merge, sort and overwrite of
    `totalFound`.

  A ghost field `queries` records the domains sent to crt.sh, so the contracts
  can say which queries were made.

The concurrent branch is a loop that takes any pending domain next. Each step
runs the body of one goroutine (`RunWorker`): process the domain, then add its
names to the shared set. The contract holds for every order the loop can
choose, so it holds for every schedule of the goroutines.

`queryAPI` (main.go:147-179) makes one GET, checks for status 200, reads the
body and decodes the JSON. It fails on the first error and has no retry,
backoff or HTML-body check.

## Model

| member | source | states |
|---|---|---|
| ByteStrings.TrimSpace | main.go:128 | The result is never longer than the input. TrimSpaceSpec states what is kept. |
| ByteStrings.TrimSpaceSpec | main.go:128 | TrimSpace leaves a contiguous slice of its input that starts and ends with non-space bytes. Every byte before and after that slice is white space. It leaves nothing exactly when the input is all white space, and leaves the input unchanged when neither end is white space. |
| ByteStrings.TrimSpaceIdempotent | main.go:223 | Trimming an already trimmed line changes nothing. |
| ByteStrings.ToLower | main.go:128 | The result has the input's length, has no upper-case byte, and lowers each byte in place. |
| ByteStrings.TrimPrefix | main.go:129 | When the prefix is present, the input is the prefix followed by the result; otherwise the result is the input. |
| ByteStrings.Split | main.go:109 | There is one more piece than there are separators. No piece holds the separator. Joining the pieces with the separator gives back the input. |
| ByteStrings.SplitAtFirst | main.go:109 | Split peels off exactly the bytes before the first separator. |
| ByteStrings.SplitWithoutSeparator | main.go:124 | A string without the separator splits into itself alone. |
| ByteStrings.Contains | main.go:131 | A string contains only substrings no longer than itself, and contains each of its prefixes. |
| ByteStrings.LexLess | main.go:142 | A proper prefix sorts before the longer string. |
| Sorting.LexLessTransitive | main.go:142 | Go's bytewise string order is transitive. |
| Sorting.LexLessTotal | main.go:142 | Any two different strings are ordered one way or the other. |
| Sorting.LexLessIrreflexive | main.go:142 | No string sorts before itself. |
| Sorting.Insert | main.go:138-142 | Inserting a new key into a strictly ascending sequence keeps it strictly ascending, adds exactly that key, and grows it by one. |
| Sorting.AscendingUnique | main.go:142 | Two strictly ascending sequences with the same elements are equal. The sorted slice of a map's keys does not depend on the map's iteration order. |
| Sorting.AscendingCardinality | main.go:279 | A strictly ascending sequence has as many entries as distinct elements, so `len(result)` counts distinct names. |
| Sorting.SortedFromSet | main.go:273-277 | The keys of a map used as a set become a strictly ascending sequence holding exactly those keys, one entry per key. |
| Validator.IsValidSubdomain | main.go:103-117 | An accepted name is 1 to 253 bytes long. ValidIff gives the full characterisation. |
| Validator.LabelsInBoundsIff | main.go:109-114 | Every piece of the split on '.' is 1 to 63 bytes long exactly when the string is non-empty, does not start or end with a dot, has no two adjacent dots, and has no run of more than 63 bytes without a dot. |
| Validator.ValidIff | main.go:103-117 | A name is valid exactly when its unstripped length is 1 to 253 bytes and what remains after one leading "*." is stripped is well formed in that sense. |
| Validator.WildcardCountsTowardLength | main.go:104-108 | The length test comes before the wildcard is stripped. "*." followed by a well-formed name is accepted only up to 251 bytes of name, but the name alone is accepted up to 253 bytes. |
| Validator.TrailingDotRejected | main.go:108-113 | A name ending in a dot is rejected, and so is a bare "*.". |
| Validator.DoubleDotRejected | main.go:109-113 | A name holding two adjacent dots is rejected, wherever they are. |
| Validator.LongLabelRejected | main.go:110-113 | A name holding more than 63 consecutive bytes without a dot is rejected. |
| Validator.SingleLabelBounds | main.go:104-116 | A dot-free name is accepted exactly when it has 1 to 63 bytes. |
| Unions.UnionOverPrefix | main.go:123-136 | One more loop iteration adds exactly that item's contribution to the set. |
| Unions.UnionOverMembership | main.go:120-136 | A value is in the accumulated set exactly when some item contributes it. |
| Unions.UnionOverSameItems | main.go:235-271 | The accumulated set depends only on which items occur, not on their order or repetitions. |
| Extractor.Normalize | main.go:128-129 | A normalised match is lower case and holds no '*' unless the match did. |
| Extractor.Keep | main.go:131 | A kept name is no longer than 253 bytes and at least as long as the domain it contains. |
| Extractor.KeptFromLineIff | main.go:126-133 | A line contributes exactly its normalised matches that pass the validator and contain the domain. |
| Extractor.ExtractedOnlyKept | main.go:123-135 | Every extracted name is the normalised form of some match, on some line, of some name value, and passes the filter. |
| Extractor.ExtractedAllKept | main.go:123-135 | Every normalised match that passes the filter is extracted. |
| Extractor.ExtractedIff | main.go:123-135 | Both directions together: a name is extracted exactly when it is a normalised match that passes the validator and contains the domain. |
| Extractor.NameValueOrderIrrelevant | main.go:123-132 | Permuting or repeating the name values leaves the extracted set unchanged. |
| Extractor.ExtractedAreSubdomains | main.go:128-132 | Every extracted name is lower case, passes the validator and contains the domain. When no match holds '*', no extracted name has a '*' or a leading "*.". |
| Extractor.CollectMatches | main.go:127-134 | The innermost loop adds to the set exactly the kept normalised matches of one line. |
| Extractor.CollectNameValue | main.go:124-135 | The middle loop adds exactly the kept matches of every '\n'-separated line of one name value. |
| Extractor.ExtractSubdomains | main.go:119-145 | The result is strictly ascending, so it is sorted and has no duplicates. Its elements are exactly the extracted set. |
| Hunter.QueryURL | main.go:148 | The URL is the crt.sh prefix with "%.", then the domain unescaped, then "&output=json", and nothing else. |
| Hunter.Query | main.go:147-179 | The meaning of one query: the first error met, in the code's order (transport, status other than 200, body read, JSON decode), or the extracted names of the decoded name values. It has no contract of its own. QueryAPI is proved to agree with it, and NamesForAreSubdomains states what its names are. |
| Hunter.SubHunter.QueryAPI | main.go:147-179 | The errors come in the code's order: transport, status other than 200, body read, JSON decode. The first one met is returned. Otherwise the result is the extractor's strictly ascending list of the decoded name values' names. |
| Hunter.NormalizeDomain | main.go:182 | The cleaned domain is lower case and no longer than the raw one. |
| Hunter.NormalizeDomainIdempotent | main.go:182 | Trimming and lower-casing an already cleaned domain changes nothing. |
| Hunter.NamesForAreSubdomains | main.go:181-191 | Every name processDomain returns is a lower-case valid hostname containing the cleaned domain. |
| Hunter.CleanDomains | main.go:222-227 | The loaded list is never longer than the file. CleanDomainsIff and CleanDomainsTrimmed state what it holds. |
| Hunter.CleanDomainsIff | main.go:222-227 | A domain is loaded exactly when it is non-blank and some line trims to it. |
| Hunter.CleanDomainsAppend | main.go:222-227 | Loading two runs of lines loads their domains one after the other, in order. |
| Hunter.CleanDomainsTrimmed | main.go:223-225 | Every loaded domain is non-blank and already trimmed. |
| Hunter.QueriedAll | main.go:182-187 | When no domain cleans up to nothing, processDomain queries every one of them: the i-th query is the i-th domain, trimmed and lower-cased. |
| Hunter.CleanDomainsAreQueried | main.go:223-225 | No loaded domain cleans up to nothing, so the i-th query of a pass over the loaded list is the i-th loaded domain, lower-cased. |
| Hunter.MergedIff | main.go:263-270 | A name is in the batch's set exactly when some domain of the list returned it. |
| Hunter.MergedOrderIndependent | main.go:238-261 | The merged set does not depend on the order in which the domains are processed, nor on repeated domains. |
| Hunter.MergedPermutation | main.go:238-261 | Processing the domains in any permuted order merges the same set. |
| Hunter.MergedBound | main.go:279 | The final total is at most the sum of the per-domain counts: deduplication only shrinks it. |
| Hunter.AddAll | main.go:267-269 | The map-insertion loop adds exactly the given names to the set. |
| Hunter.SubHunter.constructor | main.go:54-63 | A new SubHunter has found nothing and queried nothing. |
| Hunter.SubHunter.ProcessDomain | main.go:181-210 | Returns a strictly ascending list whose elements are the domain's names, and adds exactly its length, the number of the domain's names, to `totalFound`. A blank domain makes no query and changes nothing. A failed query returns nothing and leaves `totalFound` unchanged. A successful query returns exactly the query's names. |
| Hunter.SubHunter.LoadDomains | main.go:220-227 | The loaded list is the lines trimmed, with blank lines skipped, in order. |
| Hunter.SubHunter.ProcessSequentially | main.go:263-270 | The set is the union of every domain's names, and the domains are queried in list order. `totalFound` grows by the sum of the per-domain counts. |
| Hunter.SubHunter.RunWorker | main.go:244-258 | One goroutine adds exactly its domain's names to the shared set, makes that domain's query and adds the domain's count to `totalFound`. |
| Hunter.SubHunter.ProcessConcurrently | main.go:238-261 | For any order the scheduler picks, the set is the union of every domain's names. The queries made are the domains' queries in some permutation of the list, and `totalFound` grows by the sum of the per-domain counts in that order. |
| Hunter.SubHunter.ProcessDomainsFromFile | main.go:212-281 | An unreadable file gives nothing and changes nothing. Otherwise the result is strictly ascending and holds exactly the union of the loaded domains' names. `totalFound` is overwritten with the result's length. Every loaded domain is queried once: in list order in the sequential branch, in some order otherwise. |

## Left out

- The network: `client.Get`, the status code, `io.ReadAll` and the HTTP client's timeout are a parameter, `Services.get`. The model keeps the order in which the code checks their errors. A GET gives the same answer every time it is made for a URL.
- JSON decoding (`json.Unmarshal` into `[]CRTResponse`, and the copy of each `NameValue` field) is a parameter, `Services.decode`, that returns the name values or fails.
- The regular expression (`regexp.MustCompile` with the quoted domain, and `FindAllString`) is a parameter, `Matcher`. What the pattern can match is not modelled.
- Extractor.ExtractedAreSubdomains: "no leading "*."" is proved only under `MatcherAvoidsStar`, that no match holds a '*'. The real pattern satisfies this for any domain without '*', but the pattern is not modelled. A match such as "*.*.a.example.com" would otherwise keep one "*.".
- Goroutines, the semaphore that bounds them to `concurrency`, the `WaitGroup` and the mutexes: the concurrent branch is modelled as one whole worker at a time, in any order. Interleavings inside a worker are not modelled. The `concurrency`, `timeout` and `silent` fields are therefore not modelled.
- Hunter.SubHunter.ProcessConcurrently: the model assumes `concurrency` is at least 1. With `-c 0` the semaphore channel (main.go:239) is unbuffered, every goroutine blocks on its send (main.go:246), and `wg.Wait` (main.go:261) never returns. A negative value makes `make` panic.
- Opening and scanning the file: the file is either unreadable or its lines, as `bufio.Scanner` yields them. The scanner's token size limit is not modelled.
- Logging, `printResult`, `printSummary`, the banner, colours, timestamps, elapsed time and `saveToFile`: console and file output. Because of this the `showResults` parameter of `processDomain` is not modelled either.
- Flag parsing and `main`: command-line plumbing.
- TrimSpace and ToLower are modelled on ASCII bytes. Unicode white space and non-ASCII case mapping are left out.
- Sorting.SortedFromSet: the code appends the keys in map order and then calls `sort.Strings`. The model inserts each key in its place instead. The result is the same sequence, because `AscendingUnique` shows that only one strictly ascending sequence has a given set of elements. The algorithm of `sort.Strings` is not modelled.
