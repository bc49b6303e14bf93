/** The reputation-service lookup: the response of the HTTP call is an input,
    and what is modelled is how its body is turned into a status and how the
    emitted result is built. */
module ThreatIntelligence {
  import opened Wrappers
  import opened Text
  import opened Domain

  const ErrorPrefix := "Error checking threat intelligence: "

  /** A classification rule: if `pattern` occurs in the lower-cased body,
      the verdict is `verdict`. */
  datatype Rule = Rule(pattern: string, verdict: Status)

  /** The classification policy written as data: the rules in the order
      they are tried. */
  const Rules: seq<Rule> := [
    Rule("malicious", Suspicious),
    Rule("phishing", Suspicious),
    Rule("not found", Unregistered),
    Rule("no match", Unregistered)
  ]

  predicate Fires(rule: Rule, text: string) {
    Contains(text, rule.pattern)
  }

  /** The verdict of the first rule that fires on `text`, or `default` when
      none does. */
  function FirstMatch(rules: seq<Rule>, text: string, default: Status): (r: Status)
    ensures (forall i :: 0 <= i < |rules| ==> !Fires(rules[i], text)) ==> r == default
    ensures forall i :: 0 <= i < |rules| && Fires(rules[i], text) ==>
              (forall j :: 0 <= j < i ==> !Fires(rules[j], text)) ==> r == rules[i].verdict
  {
    if |rules| == 0 then default
    else if Fires(rules[0], text) then rules[0].verdict
    else
      var r := FirstMatch(rules[1..], text, default);
      assert forall i :: 1 <= i < |rules| ==> rules[i] == rules[1..][i - 1];
      r
  }

  /** The status chosen for a response body: "suspicious" markers are
      tested before "unregistered" markers, and "registered" is the
      default. Only ASCII letters are folded. */
  function Classify(body: string): (r: Status)
    ensures r != Error
  {
    var lower := ToLower(body);
    if Contains(lower, "malicious") || Contains(lower, "phishing") then Suspicious
    else if Contains(lower, "not found") || Contains(lower, "no match") then Unregistered
    else Registered
  }

  /** The chain of tests is exactly the ordered rule table applied to the
      lower-cased body. */
  lemma {:induction false} ClassifyByRules(body: string)
    ensures Classify(body) == FirstMatch(Rules, ToLower(body), Registered)
  {
    var lower := ToLower(body);
    var r := FirstMatch(Rules, lower, Registered);
    if Fires(Rules[0], lower) {
      assert r == Rules[0].verdict;
    } else if Fires(Rules[1], lower) {
      assert r == Rules[1].verdict;
    } else if Fires(Rules[2], lower) {
      assert r == Rules[2].verdict;
    } else if Fires(Rules[3], lower) {
      assert r == Rules[3].verdict;
    } else {
      assert forall j :: 0 <= j < |Rules| ==> !Fires(Rules[j], lower);
    }
  }

  predicate IsSuspiciousMarker(p: string) {
    p == "malicious" || p == "phishing"
  }

  predicate IsUnregisteredMarker(p: string) {
    p == "not found" || p == "no match"
  }

  /** A body containing "malicious" or "phishing", in any letter case, is
      suspicious. */
  lemma {:induction false} ClassifySuspicious(body: string, p: string)
    requires Contains(body, p) && IsSuspiciousMarker(ToLower(p))
    ensures Classify(body) == Suspicious
  {
    ContainsToLower(body, p);
  }

  /** A body with no suspicious marker that contains "not found" or
      "no match", in any letter case, is unregistered. */
  lemma {:induction false} ClassifyUnregistered(body: string, p: string)
    requires Contains(body, p) && IsUnregisteredMarker(ToLower(p))
    requires !Contains(ToLower(body), "malicious") && !Contains(ToLower(body), "phishing")
    ensures Classify(body) == Unregistered
  {
    ContainsToLower(body, p);
  }

  /** A body is registered exactly when none of the four patterns occurs in
      it, in any letter case. */
  lemma {:induction false} ClassifyRegistered(body: string)
    ensures Classify(body) == Registered <==>
      forall i :: 0 <= i < |Rules| ==> !Contains(ToLower(body), Rules[i].pattern)
  {
    var lower := ToLower(body);
    if Classify(body) != Registered {
      if Contains(lower, "malicious") || Contains(lower, "phishing") {
        assert Contains(lower, Rules[0].pattern) || Contains(lower, Rules[1].pattern);
      } else {
        assert Contains(lower, Rules[2].pattern) || Contains(lower, Rules[3].pattern);
      }
    }
  }

  /** Precedence: a body carrying both a suspicious and an unregistered
      marker, in any letter case, is suspicious and never unregistered. */
  lemma {:induction false} ClassifyPrecedence(body: string, p: string, q: string)
    requires Contains(body, p) && IsSuspiciousMarker(ToLower(p))
    requires Contains(body, q) && IsUnregisteredMarker(ToLower(q))
    ensures Classify(body) == Suspicious && Classify(body) != Unregistered
  {
    ClassifySuspicious(body, p);
  }

  /** Classification depends only on the lower-cased body. */
  lemma {:induction false} ClassifyCaseInsensitive(body: string)
    ensures Classify(ToLower(body)) == Classify(body)
  {
    ToLowerIdempotent(body);
  }

  /** The result `CheckThreatIntelligence` emits for `domain`, given the
      outcome of the HTTP request: the body read from the response, or the
      transport error. */
  function Check(domain: string, response: Result<string, string>): (r: DomainStatus)
    ensures r.domain == domain
    ensures r.status == "error" <==> response.Failure?
    ensures response.Failure? ==> r.analysisData == ErrorPrefix + response.error
    ensures response.Success? ==>
      r.analysisData == response.value && r.status == Classify(response.value).Name()
  {
    match response
    case Failure(e) => DomainStatus(domain, Error.Name(), ErrorPrefix + e)
    case Success(body) => DomainStatus(domain, Classify(body).Name(), body)
  }
}
