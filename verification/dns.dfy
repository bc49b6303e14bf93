/** The DNS lookup: the answer section returned by the A-record exchange is
    an input, and what is modelled is the scan for the first A record and
    the three-way outcome. */
module Dns {
  import opened Wrappers
  import opened Domain

  const ErrorPrefix := "Error checking DNS records: "
  const NoARecords := "No A records found"

  /** One resource record of the answer section: an A record with its
      address in textual form, or any other record type. */
  datatype Answer = A(addr: string) | Other(rrType: string)

  /** `answers[k]` is the first A record of the answer section. */
  predicate FirstAAt(answers: seq<Answer>, k: int) {
    0 <= k < |answers| && answers[k].A? && forall j :: 0 <= j < k ==> !answers[j].A?
  }

  predicate HasA(answers: seq<Answer>) {
    exists i :: 0 <= i < |answers| && answers[i].A?
  }

  /** The address of the first A record, scanning in answer order. */
  function FirstAddress(answers: seq<Answer>): (r: Option<string>)
    ensures r.None? <==> !HasA(answers)
    ensures forall k :: FirstAAt(answers, k) ==> r == Some(answers[k].addr)
  {
    if |answers| == 0 then None
    else if answers[0].A? then Some(answers[0].addr)
    else
      var r := FirstAddress(answers[1..]);
      assert forall k :: FirstAAt(answers, k) ==> FirstAAt(answers[1..], k - 1);
      assert HasA(answers[1..]) ==> HasA(answers);
      r
  }

  /** The text stored for a registered domain. It ends with the address
      and is never the text stored when no A record is found, so the two
      outcomes of a successful exchange are told apart by their data too. */
  function ARecordData(domain: string, addr: string): (s: string)
    ensures |addr| <= |s| && s[|s| - |addr|..] == addr
    ensures s != NoARecords
  {
    var s := "A record for " + domain + ": " + addr;
    assert s[0] == 'A' != NoARecords[0];
    s
  }

  /** The result `CheckDNSRecords` emits for `domain`, given the outcome of
      the exchange: the answer section, or the exchange error. */
  function Check(domain: string, exchange: Result<seq<Answer>, string>): (r: DomainStatus)
    ensures r.domain == domain
    ensures exchange.Failure? <==> r.status == "error"
    ensures exchange.Failure? ==> r.analysisData == ErrorPrefix + exchange.error
    ensures exchange.Success? ==> (r.status == "registered" <==> HasA(exchange.value))
    ensures exchange.Success? ==> (r.status == "unregistered" <==> !HasA(exchange.value))
    ensures exchange.Success? && !HasA(exchange.value) ==> r.analysisData == NoARecords
    ensures forall k :: exchange.Success? && FirstAAt(exchange.value, k) ==>
              r.analysisData == ARecordData(domain, exchange.value[k].addr)
  {
    match exchange
    case Failure(e) => DomainStatus(domain, Error.Name(), ErrorPrefix + e)
    case Success(answers) =>
      match FirstAddress(answers)
      case Some(addr) => DomainStatus(domain, Registered.Name(), ARecordData(domain, addr))
      case None => DomainStatus(domain, Unregistered.Name(), NoARecords)
  }

  /** A non-A record never changes the first address found. */
  lemma {:induction false} FirstAddressSkipsOther(xs: seq<Answer>, o: Answer, ys: seq<Answer>)
    requires !o.A?
    ensures FirstAddress(xs + [o] + ys) == FirstAddress(xs + ys)
  {
    if |xs| == 0 {
      assert xs + [o] + ys == [o] + ys;
      assert xs + ys == ys;
      assert ([o] + ys)[0] == o;
      assert ([o] + ys)[1..] == ys;
    } else {
      FirstAddressSkipsOther(xs[1..], o, ys);
      assert (xs + [o] + ys)[1..] == xs[1..] + [o] + ys;
      assert (xs + ys)[1..] == xs[1..] + ys;
    }
  }

  /** Non-A answers are skipped: inserting one anywhere in the answer
      section leaves the emitted result unchanged. */
  lemma OtherAnswersIgnored(domain: string, xs: seq<Answer>, rrType: string, ys: seq<Answer>)
    ensures Check(domain, Success(xs + [Other(rrType)] + ys)) == Check(domain, Success(xs + ys))
  {
    FirstAddressSkipsOther(xs, Other(rrType), ys);
  }

  /** Once an A record has been seen, nothing after it matters. */
  lemma {:induction false} FirstAddressIgnoresSuffix(xs: seq<Answer>, ys: seq<Answer>)
    requires HasA(xs)
    ensures FirstAddress(xs + ys) == FirstAddress(xs)
  {
    if xs[0].A? {
      assert (xs + ys)[0] == xs[0];
    } else {
      var i :| 0 <= i < |xs| && xs[i].A?;
      assert xs[1..][i - 1].A?;
      FirstAddressIgnoresSuffix(xs[1..], ys);
      assert (xs + ys)[1..] == xs[1..] + ys;
    }
  }

  /** The reported address is that of the first A record: answers after it
      leave the emitted result unchanged. */
  lemma LaterAnswersIgnored(domain: string, xs: seq<Answer>, ys: seq<Answer>)
    requires HasA(xs)
    ensures Check(domain, Success(xs + ys)) == Check(domain, Success(xs))
  {
    FirstAddressIgnoresSuffix(xs, ys);
  }
}
