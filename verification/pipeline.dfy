/** `main` end to end, with concurrency abstracted away: the dispatched
    tasks are looked up, their results arrive in any order, and the
    routing loop consumes them. */
module Pipeline {
  import opened Wrappers
  import opened Text
  import opened Domain
  import ThreatIntelligence
  import opened Orchestrator
  import opened Report
  import opened Sink

  /** A successful reputation lookup always yields a status the routing
      switch has a writer for; a failed one never does. */
  lemma LookupRoutable(domain: string, response: Result<string, string>)
    ensures Routable(ThreatIntelligence.Check(domain, response)) <==> response.Success?
  {
    if response.Success? {
      var s := ThreatIntelligence.Classify(response.value);
      assert WriterFor(s.Name()).Some? by {
        match s
        case Registered =>
        case Unregistered =>
        case Suspicious =>
      }
    }
  }

  lemma MultisetRoutable(xs: seq<DomainStatus>, ys: seq<DomainStatus>)
    requires multiset(xs) == multiset(ys)
    ensures AllRoutable(xs) <==> AllRoutable(ys)
  {
    if AllRoutable(xs) {
      forall j | 0 <= j < |ys|
        ensures Routable(ys[j])
      {
        assert ys[j] in multiset(xs);
      }
    }
    if AllRoutable(ys) {
      forall j | 0 <= j < |xs|
        ensures Routable(xs[j])
      {
        assert xs[j] in multiset(ys);
      }
    }
  }

  /** Whatever order the results arrive in, the routing loop completes
      exactly when every lookup succeeded: a single transport error makes
      it write through the nil writer. */
  lemma RoutingCompletesIffNoLookupFailed(
    tasks: seq<string>, responses: seq<Result<string, string>>, arrival: seq<DomainStatus>)
    requires |responses| == |tasks|
    requires multiset(arrival) == multiset(Enrich(tasks, responses))
    ensures Route(arrival).Done? <==> forall i :: 0 <= i < |responses| ==> responses[i].Success?
  {
    var results := Enrich(tasks, responses);
    RouteCharacterization(arrival);
    MultisetRoutable(arrival, results);
    forall i | 0 <= i < |responses|
      ensures Routable(results[i]) <==> responses[i].Success?
    {
      LookupRoutable(tasks[i], responses[i]);
    }
  }

  /** One input line expanded to the single candidate "examp1e.com"
      dispatches exactly one lookup, for that candidate. */
  lemma SingleExpansionScenario()
    ensures Tasks([Expansion("example.com", Success([Candidate("replacement", "examp1e.com", [], [])]))])
              == ["examp1e.com"]
  {
    var e := Expansion("example.com", Success([Candidate("replacement", "examp1e.com", [], [])]));
    assert [e][1..] == [];
    assert Names([Candidate("replacement", "examp1e.com", [], [])]) == ["examp1e.com"];
  }

  /** The lookup for "examp1e.com" returns a body mentioning "malicious":
      exactly one suspicious record and one condensed record, with the
      fixed link template, are written, and nothing else. */
  lemma SuspiciousScenario(body: string)
    requires Contains(ToLower(body), "malicious")
    ensures Route(Enrich(["examp1e.com"], [Success(body)])) == Done(Outputs(
              [],
              [],
              [FullRecord(DomainStatus("examp1e.com", "suspicious", body))],
              [CondensedRecord(DomainStatus("examp1e.com", "suspicious", body))]))
  {
    var r := DomainStatus("examp1e.com", "suspicious", body);
    assert ThreatIntelligence.Check("examp1e.com", Success(body)) == r;
    assert Enrich(["examp1e.com"], [Success(body)]) == [r];
    RouteSingle(r);
  }

  /** Two lookups that both fail at the transport: neither the suspicious
      nor the condensed output receives a record, and the routing loop
      faults at the first error result it reads. */
  lemma UnreachableScenario(d1: string, d2: string, e1: string, e2: string)
    ensures Route(Enrich([d1, d2], [Failure(e1), Failure(e2)]))
              == Fault(NoOutput, ThreatIntelligence.Check(d1, Failure(e1)))
    ensures Route(Enrich([d1, d2], [Failure(e1), Failure(e2)])).out.suspicious == []
    ensures Route(Enrich([d1, d2], [Failure(e1), Failure(e2)])).out.condensed == []
  {
    var results := Enrich([d1, d2], [Failure(e1), Failure(e2)]);
    assert results[0] == ThreatIntelligence.Check(d1, Failure(e1));
    assert !Routable(results[0]);
  }
}
