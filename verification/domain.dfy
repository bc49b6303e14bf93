/** The records shared by the lookups and the pipeline: the permutation
    tool's candidate record and the status a lookup reports for a domain. */
module Domain {

  /** One record of the permutation tool's JSON output. The two address
      lists are optional in the JSON and read as empty when absent. */
  datatype Candidate = Candidate(
    fuzzer: string,
    domain: string,
    dnsA: seq<string>,
    dnsAAAA: seq<string>)

  /** The outcomes a lookup decides between. */
  datatype Status = Registered | Unregistered | Suspicious | Error {

    /** The string a lookup stores in `DomainStatus.status`. */
    function Name(): (r: string)
      ensures |r| > 0
    {
      match this
      case Registered => "registered"
      case Unregistered => "unregistered"
      case Suspicious => "suspicious"
      case Error => "error"
    }
  }

  /** Distinct statuses have distinct names, so the routing switch on the
      name sees exactly the status the lookup decided. */
  lemma NameInjective(a: Status, b: Status)
    requires a.Name() == b.Name()
    ensures a == b
  {
  }

  /** The result a lookup emits. `status` is a plain string, as in the
      source: the router switches on it and has no case for some values. */
  datatype DomainStatus = DomainStatus(
    domain: string,
    status: string,
    analysisData: string)
}
