# twistythreat: the classification and routing core, in Dafny

twistythreat screens typosquat permutations of a brand's domains. `main`
reads a list of domains, expands each with the permutation tool
(dnstwist), starts one reputation lookup (VirusTotal) per expanded
candidate, and routes every lookup result to a per-status output file,
with a condensed record for each suspicious domain. This project models
the deterministic decisions inside that pipeline as total functions over
strings and sequences:

- `Text` — ASCII lower-casing and substring search, the two string
  primitives the classifier uses (`strings.ToLower`, `strings.Contains`).
- `Domain` — the candidate record, the status names, and `DomainStatus`,
  the result every lookup emits. Its `status` stays a string, as in the
  source, because the router switches on the string.
- `ThreatIntelligence` — `CheckThreatIntelligence`: the body of the HTTP
  response (or the transport error) is an input; `Classify` chooses
  suspicious / unregistered / registered, and `Check` builds the result.
  The policy is also written as an ordered rule table (`Rules`,
  `FirstMatch`), and the two are proved equal.
- `Dns` — `CheckDNSRecords`: the answer section of the A-record exchange
  (or the exchange error) is an input; the first A record decides.
- `Orchestrator` — the dispatch loop of `main`: the permutation tool's
  output per input line is an input (`Expansion`), and a task is the
  candidate domain handed to a lookup.
- `Report` — the two record formats written to the output files, with a
  reader for each that recovers a single record. An output file is the
  concatenation of its records and cannot always be split back into them:
  data containing a blank line followed by record-like lines writes the
  same text as two results (`Report.FileSplitAmbiguous`).
- `Sink` — the routing loop of `main`: a left fold over the results in
  arrival order that appends formatted records to four outputs, or faults
  at the first result whose status has no writer.
- `Pipeline` — the pieces composed, with the end-to-end scenarios.

Concurrency is abstracted: the results of the lookups are a sequence in
any order. When no lookup failed, `Sink.RouteOrderIrrelevant` shows that
every arrival order gives each output the same records, as a multiset;
within an output, records still follow arrival order. When a lookup
failed, the order does matter: `Sink.FaultDependsOnOrder` shows that a
routable result read before the failed one is written, and one read after
it is not.

Behaviour of the code worth stating plainly:
- A result with status `error` has no case in the routing switch, so the
  writer stays nil and the write at `cmd/twistythreat/main.go:223` faults.
  The model returns `Fault` with the records written so far; errors are
  not routed to any output and the loop does not carry on.
- `main` dispatches only the reputation lookup, one per expanded
  candidate. The DNS check is modelled on its own; nothing dispatches it.
  No WHOIS classification or sanitisation takes place.
- A non-200 reputation response is not an error: its body is classified
  like any other. Only a transport error yields `error`.
- `pkg/domain/dns.go` stores its text in a field `WhoisData`, but
  `DomainStatus` (`pkg/domain/domain.go:32-44`) declares no such field, so
  the package as written does not compile. The evident intent, storing the
  text as the result's analysis data, is what the model does: `WhoisData`
  is modelled as `analysisData`.

## Model

| member | source | states |
|---|---|---|
| Text.ToLower | pkg/domain/threat_intelligence.go:66-68 | lower-casing keeps the length and maps each character to its small letter when it is an ASCII capital, leaving every other character alone |
| Text.ToLowerIdempotent | pkg/domain/threat_intelligence.go:66-68 | lower-casing an already lower-cased body changes nothing |
| Text.Contains | pkg/domain/threat_intelligence.go:66-68 | the empty pattern occurs in every text and a pattern longer than the text never does; `Text.ContainsIff` characterises it as "occurs at some offset" |
| Text.ContainsIff | pkg/domain/threat_intelligence.go:66-68 | the substring test holds exactly when the pattern occurs at some offset of the text (both directions) |
| Text.ContainsToLower | pkg/domain/threat_intelligence.go:66-68 | an occurrence of a pattern survives lower-casing of both text and pattern, so a match in any letter case is found in the lower-cased body |
| ThreatIntelligence.FirstMatch | pkg/domain/threat_intelligence.go:63-70 | an ordered rule table yields the verdict of the first rule whose pattern occurs, and the default when none occurs |
| ThreatIntelligence.Classify | pkg/domain/threat_intelligence.go:65-70 | the reputation classifier never answers `error` |
| ThreatIntelligence.ClassifyByRules | pkg/domain/threat_intelligence.go:63-70 | the chain of tests equals the rule table malicious, phishing (suspicious), not found, no match (unregistered) applied to the lower-cased body with default registered |
| ThreatIntelligence.ClassifySuspicious | pkg/domain/threat_intelligence.go:66-67 | a body containing "malicious" or "phishing" in any letter case is suspicious |
| ThreatIntelligence.ClassifyUnregistered | pkg/domain/threat_intelligence.go:68-69 | a body with no suspicious marker that contains "not found" or "no match" in any letter case is unregistered |
| ThreatIntelligence.ClassifyRegistered | pkg/domain/threat_intelligence.go:63-70 | a body is registered exactly when none of the four patterns occurs in its lower-cased form |
| ThreatIntelligence.ClassifyPrecedence | pkg/domain/threat_intelligence.go:66-70 | a body carrying both a suspicious and an unregistered marker is suspicious, never unregistered |
| ThreatIntelligence.ClassifyCaseInsensitive | pkg/domain/threat_intelligence.go:66-68 | classification depends only on the lower-cased body |
| ThreatIntelligence.Check | pkg/domain/threat_intelligence.go:53-72 | the one result emitted carries the input domain; its status is `error` exactly on a transport error, with data "Error checking threat intelligence: " plus the error text; on success the data is the raw body and the status is the classifier's |
| Dns.ARecordData | pkg/domain/dns.go:24 | the text stored for a registered domain ends with the first A record's address and never equals the text stored when no A record is found; `Dns.Check` places it |
| Dns.FirstAddress | pkg/domain/dns.go:22-25 | the scan finds no address exactly when no answer is an A record, and otherwise the address of the first A record in answer order |
| Dns.Check | pkg/domain/dns.go:16-28 | the one result emitted carries the input domain; an exchange error gives `error` with "Error checking DNS records: " plus the error text; otherwise `registered` exactly when some answer is an A record, with the first A record's address in the data, and `unregistered` with "No A records found" otherwise, including for an empty answer section |
| Dns.OtherAnswersIgnored | pkg/domain/dns.go:22-23 | inserting a non-A answer anywhere in the answer section leaves the result unchanged |
| Dns.LaterAnswersIgnored | pkg/domain/dns.go:22-25 | once the answers contain an A record, answers appended after them leave the result unchanged |
| Orchestrator.Dispatch | cmd/twistythreat/main.go:155-168 | the dispatch loop starts exactly the reference task list, and as many tasks as there are entries over the successful expansions |
| Orchestrator.TasksAppend | cmd/twistythreat/main.go:155-168 | dispatching a concatenated input list dispatches the tasks of each part, in order |
| Orchestrator.FailedExpansionSkipped | cmd/twistythreat/main.go:157-161 | a failed expansion contributes no task and the lines after it are still dispatched |
| Orchestrator.TaskCount | cmd/twistythreat/main.go:155-168 | the number of tasks is the sum of the expansion lengths over the lines whose expansion succeeded |
| Orchestrator.TaskMembership | cmd/twistythreat/main.go:164-166 | a domain is dispatched exactly when some successful expansion has an entry with that name |
| Orchestrator.Enrich | cmd/twistythreat/main.go:164-166 | when every lookup returns, task `i` yields one result, for its own domain; it is an error exactly when response `i` failed, carrying the error prefix and text, and otherwise carries the body and the classifier's status for it |
| Sink.WriterFor | cmd/twistythreat/main.go:212-220 | the switch picks the registered, unregistered or suspicious writer exactly for the status of that name, and no writer for `error` |
| Sink.Write | cmd/twistythreat/main.go:211-223 | a registered or unregistered result appends one full record to its own output only; a suspicious one appends one full record to the suspicious output and one condensed record to the condensed output; any other status has no writer and faults |
| Sink.RouteFrom | cmd/twistythreat/main.go:210-227 | continuing from what was already written, the loop completes exactly when every remaining status has a writer, and a fault reports a result whose status has no writer; `Sink.RouteFromAll` and `Sink.RouteFromFault` give the records written |
| Sink.Route | cmd/twistythreat/main.go:210-227 | the loop over everything read completes exactly when every status has a writer, and a fault reports a result whose status has no writer; `Sink.RouteCharacterization` relates its outputs to the reference `Expected` |
| Sink.RouteSingle | cmd/twistythreat/main.go:217-223 | a single suspicious result leaves exactly one full and one condensed record and nothing in the other outputs |
| Sink.RouteCharacterization | cmd/twistythreat/main.go:210-227 | the loop completes exactly when every status has a writer, and then each output holds the records of the results with its status in arrival order; otherwise it faults at the first result without a writer, after the records of the results before it |
| Sink.RoutedCounts | cmd/twistythreat/main.go:210-227 | on completion each output holds one record per result of its status, the condensed output one per suspicious result, and the three outputs together one per result |
| Sink.RouteOrderIrrelevant | cmd/twistythreat/main.go:210-227 | for results whose statuses all have writers, every arrival order writes the same multiset of records to each output |
| Sink.FaultDependsOnOrder | cmd/twistythreat/main.go:210-227 | with one routable and one unroutable result, reading the routable one first writes its records before the fault, and reading it second writes nothing, so the outputs differ |
| Report.FullRecord | cmd/twistythreat/main.go:223 | every full record opens with the domain label and closes with a blank line; `Report.FullRecordRoundTrip` and `Report.FullRecordParsed` show the format is unambiguous |
| Report.FullRecordRoundTrip | cmd/twistythreat/main.go:223 | the record "Domain: d\nStatus: s\nData:\na\n\n" of a result whose domain and status have no line break reads back to that result, data included |
| Report.FullRecordParsed | cmd/twistythreat/main.go:223 | whatever the full-record reader accepts is exactly the full record of the result it returns |
| Report.CondensedRecord | cmd/twistythreat/main.go:219 | every condensed record opens with the domain label and closes with a blank line; `Report.CondensedRecordRoundTrip` and `Report.CondensedRecordParsed` show the format is unambiguous |
| Report.CondensedRecordRoundTrip | cmd/twistythreat/main.go:219 | the record "Domain: d\nVirusTotal Link: https://www.virustotal.com/gui/domain/d\nDetermination: s\n\n" reads back to its domain and determination when neither has a line break |
| Report.CondensedRecordParsed | cmd/twistythreat/main.go:219 | whatever the condensed-record reader accepts is exactly the condensed record of the domain and determination it returns, with the same domain in the first line and in the link |
| Report.FileSplitAmbiguous | cmd/twistythreat/main.go:223 | a result whose data ends in a blank line and a second result's record (less its closing blank line) writes exactly the text of the two records in turn |
| Sink.OutputsReadBack | cmd/twistythreat/main.go:210-227 | after a completed routing, taken one record at a time, every record of the registered, unregistered and suspicious outputs reads back to a result with that status, and every condensed record to the domain of a suspicious result |
| Pipeline.LookupRoutable | cmd/twistythreat/main.go:212-223 | a reputation result has a writer exactly when its lookup did not fail at the transport |
| Pipeline.RoutingCompletesIffNoLookupFailed | cmd/twistythreat/main.go:210-227 | when every lookup returns, in any arrival order, the routing loop completes exactly when no reputation lookup failed |
| Pipeline.SingleExpansionScenario | cmd/twistythreat/main.go:155-168 | an input line expanded to one candidate dispatches exactly that candidate |
| Pipeline.SuspiciousScenario | cmd/twistythreat/main.go:217-223 | a body mentioning "malicious" for examp1e.com yields one suspicious record and one condensed record and nothing else |
| Pipeline.UnreachableScenario | cmd/twistythreat/main.go:210-227 | two transport failures leave the suspicious and condensed outputs empty and fault the loop at the first error result |

## Left out

- Goroutines, the WaitGroup and the closing of the results channel
  (`cmd/twistythreat/main.go:152-174`): concurrency is replaced by a
  sequence of results in arbitrary order. The channel's capacity of
  `len(domains)` rather than the task count is a liveness detail and is
  not modelled.
- `runDnstwist` (`cmd/twistythreat/main.go:83-97`): process execution and
  JSON decoding; its outcome per input line is the input
  `Expansion.output`.
- `LoadDomains` (`pkg/domain/domain.go:47-59`): file I/O and JSON
  decoding.
- Reading the domain list, creating, writing and flushing the output
  files, and `sendFileToHTTPEndpoint`: file and HTTP I/O. Each output is
  modelled as its sequence of records; a failed write or flush is not
  modelled.
- The HTTP request, `dns.Exchange` and `pkg/domain/whois.go`: network
  clients. Their outcomes are the `Result` inputs of the two `Check`
  functions. `io.ReadAll`'s ignored error means the body is whatever was
  read; the model takes that text as given.
- `pkg/utils/config.go` and the API key: environment loading and global
  configuration.
- Text.ToLower: folds ASCII capitals only, not the Unicode case mapping of
  `strings.ToLower`. The two differ on letters whose small form is ASCII:
  Go maps U+0130 (capital I with dot above) to `i` and U+212A (Kelvin
  sign) to `k`, so the program finds "malicious" in "MAL\u0130CIOUS" and
  reports `suspicious`, where the model reports `registered`.
- Every lookup is assumed to return. `http.DefaultClient` has no timeout,
  so `Do` (`pkg/domain/threat_intelligence.go:53`) or `io.ReadAll` (:60)
  can block forever. Then `wg.Wait()` (`cmd/twistythreat/main.go:172`)
  never returns and `close(results)` (:173) never runs, so the routing
  loop (:210) blocks after reading the other results and no deferred flush
  writes out the buffered records. The model's results are the outcomes of
  lookups that returned; `Orchestrator.Enrich` and
  `Pipeline.RoutingCompletesIffNoLookupFailed` hold only for such runs.
- ThreatIntelligence.Check: the error of `http.NewRequest` is discarded at
  `pkg/domain/threat_intelligence.go:50`. For a domain the URL parser
  rejects (a control character, or a bad escape such as `a%zz.com`) the
  request is nil and adding the header panics, so the goroutine emits no
  result and the process dies. The model assumes the request is built and
  emits one result for every domain, as do `Orchestrator.Enrich` and the
  routing lemmas that consume its results.
- Dns.Check: the address is its textual form as a string; the formatting
  of a `net.IP` is not modelled.
- The record readers in `Report` are not part of the program; they exist
  to state that each record format is unambiguous. A domain containing a
  line break would make a record unreadable and is excluded there.
- What happens after the fault of the nil writer (the panic unwinding and
  the deferred flushes) is not modelled beyond returning the records
  written before the fault.
