/** The routing half of `main`: each result read from the results channel
    is written, as a formatted record, to the output its status selects,
    and a suspicious result also gets a condensed record. Each output is
    the sequence of records written to it; the file holds their
    concatenation. */
module Sink {
  import opened Wrappers
  import opened Domain
  import opened Report

  /** The four outputs, as the records written to each so far. */
  datatype Outputs = Outputs(
    registered: seq<string>,
    unregistered: seq<string>,
    suspicious: seq<string>,
    condensed: seq<string>)

  const NoOutput := Outputs([], [], [], [])

  /** Appends the records of `b` after those of `a`, output by output. */
  function Concat(a: Outputs, b: Outputs): Outputs {
    Outputs(a.registered + b.registered, a.unregistered + b.unregistered,
            a.suspicious + b.suspicious, a.condensed + b.condensed)
  }

  /** The writers the routing switch can pick. */
  datatype Writer = RegisteredWriter | UnregisteredWriter | SuspiciousWriter

  /** The writer the switch picks for a status; `None` is the writer left
      nil by a status the switch has no case for. */
  function WriterFor(status: string): (w: Option<Writer>)
    ensures w == Some(RegisteredWriter) <==> status == Registered.Name()
    ensures w == Some(UnregisteredWriter) <==> status == Unregistered.Name()
    ensures w == Some(SuspiciousWriter) <==> status == Suspicious.Name()
    ensures status == Error.Name() ==> w.None?
  {
    if status == "registered" then Some(RegisteredWriter)
    else if status == "unregistered" then Some(UnregisteredWriter)
    else if status == "suspicious" then Some(SuspiciousWriter)
    else None
  }

  /** Whether the routing switch has a writer for the result's status. */
  predicate Routable(r: DomainStatus) {
    WriterFor(r.status).Some?
  }

  predicate AllRoutable(results: seq<DomainStatus>) {
    forall i :: 0 <= i < |results| ==> Routable(results[i])
  }

  /** One iteration of the routing loop. `None` is the fault of writing
      through the nil writer. */
  function Write(out: Outputs, r: DomainStatus): (w: Option<Outputs>)
    ensures w.None? <==> !Routable(r)
    ensures r.status == "registered" ==>
      w == Some(out.(registered := out.registered + [FullRecord(r)]))
    ensures r.status == "unregistered" ==>
      w == Some(out.(unregistered := out.unregistered + [FullRecord(r)]))
    ensures r.status == "suspicious" ==>
      w == Some(out.(suspicious := out.suspicious + [FullRecord(r)],
                     condensed := out.condensed + [CondensedRecord(r)]))
  {
    match WriterFor(r.status)
    case None => None
    case Some(RegisteredWriter) => Some(out.(registered := out.registered + [FullRecord(r)]))
    case Some(UnregisteredWriter) => Some(out.(unregistered := out.unregistered + [FullRecord(r)]))
    case Some(SuspiciousWriter) =>
      Some(out.(suspicious := out.suspicious + [FullRecord(r)],
                condensed := out.condensed + [CondensedRecord(r)]))
  }

  /** How the routing loop ends: every result written, or a fault at the
      first result whose status has no writer, with what was written
      before it. */
  datatype Outcome = Done(out: Outputs) | Fault(out: Outputs, unroutable: DomainStatus)

  /** The routing loop, continuing from the outputs written so far. */
  function RouteFrom(out: Outputs, results: seq<DomainStatus>): (o: Outcome)
    ensures o.Done? <==> AllRoutable(results)
    ensures o.Fault? ==> !Routable(o.unroutable)
    decreases |results|
  {
    if |results| == 0 then Done(out)
    else match Write(out, results[0])
      case None => Fault(out, results[0])
      case Some(next) => RouteFrom(next, results[1..])
  }

  /** The routing loop over everything read from the results channel. */
  function Route(results: seq<DomainStatus>): (o: Outcome)
    ensures o.Done? <==> AllRoutable(results)
    ensures o.Fault? ==> !Routable(o.unroutable)
  {
    RouteFrom(NoOutput, results)
  }

  /** Reference definition: `format` applied to each result with the given
      status, in arrival order. */
  function Records(results: seq<DomainStatus>, status: string, format: DomainStatus -> string): seq<string> {
    if |results| == 0 then []
    else (if results[0].status == status then [format(results[0])] else [])
         + Records(results[1..], status, format)
  }

  /** Reference definition of what routing writes: each output holds the
      records of the results with its status, and the condensed output
      those of the suspicious results. */
  function Expected(results: seq<DomainStatus>): Outputs {
    Outputs(
      Records(results, "registered", FullRecord),
      Records(results, "unregistered", FullRecord),
      Records(results, "suspicious", FullRecord),
      Records(results, "suspicious", CondensedRecord))
  }

  lemma {:induction false} RecordsAppend(xs: seq<DomainStatus>, ys: seq<DomainStatus>, status: string, format: DomainStatus -> string)
    ensures Records(xs + ys, status, format) == Records(xs, status, format) + Records(ys, status, format)
  {
    if |xs| == 0 {
      assert xs + ys == ys;
    } else {
      assert (xs + ys)[0] == xs[0];
      assert (xs + ys)[1..] == xs[1..] + ys;
      RecordsAppend(xs[1..], ys, status, format);
    }
  }

  lemma ExpectedAppend(xs: seq<DomainStatus>, ys: seq<DomainStatus>)
    ensures Expected(xs + ys) == Concat(Expected(xs), Expected(ys))
  {
    RecordsAppend(xs, ys, "registered", FullRecord);
    RecordsAppend(xs, ys, "unregistered", FullRecord);
    RecordsAppend(xs, ys, "suspicious", FullRecord);
    RecordsAppend(xs, ys, "suspicious", CondensedRecord);
  }

  lemma RecordsSingle(r: DomainStatus, status: string, format: DomainStatus -> string)
    ensures Records([r], status, format) == if r.status == status then [format(r)] else []
  {
    assert [r][1..] == [];
  }

  /** Writing one routable result appends exactly its expected records. */
  lemma WriteExpected(out: Outputs, r: DomainStatus)
    requires Routable(r)
    ensures Write(out, r) == Some(Concat(out, Expected([r])))
  {
    RecordsSingle(r, "registered", FullRecord);
    RecordsSingle(r, "unregistered", FullRecord);
    RecordsSingle(r, "suspicious", FullRecord);
    RecordsSingle(r, "suspicious", CondensedRecord);
    if r.status == "registered" {
      assert Expected([r]) == Outputs([FullRecord(r)], [], [], []);
      assert out.unregistered + [] == out.unregistered;
      assert out.suspicious + [] == out.suspicious;
      assert out.condensed + [] == out.condensed;
    } else if r.status == "unregistered" {
      assert Expected([r]) == Outputs([], [FullRecord(r)], [], []);
      assert out.registered + [] == out.registered;
      assert out.suspicious + [] == out.suspicious;
      assert out.condensed + [] == out.condensed;
    } else {
      assert r.status == "suspicious";
      assert Expected([r]) == Outputs([], [], [FullRecord(r)], [CondensedRecord(r)]);
      assert out.registered + [] == out.registered;
      assert out.unregistered + [] == out.unregistered;
    }
  }

  lemma ConcatAssoc(a: Outputs, b: Outputs, c: Outputs)
    ensures Concat(Concat(a, b), c) == Concat(a, Concat(b, c))
  {
  }

  /** Routing a routable result and then the rest is routing both. */
  lemma RouteFromCons(out: Outputs, results: seq<DomainStatus>)
    requires |results| > 0 && Routable(results[0])
    ensures RouteFrom(out, results) == RouteFrom(Concat(out, Expected([results[0]])), results[1..])
  {
    WriteExpected(out, results[0]);
  }

  /** From `out`, a loop over routable results writes exactly their
      expected records after those already written. */
  lemma {:induction false} RouteFromAll(out: Outputs, results: seq<DomainStatus>)
    requires AllRoutable(results)
    ensures RouteFrom(out, results) == Done(Concat(out, Expected(results)))
    decreases |results|
  {
    if |results| == 0 {
      assert Concat(out, Expected(results)) == out;
    } else {
      var r, rest := results[0], results[1..];
      assert results == [r] + rest;
      calc {
        RouteFrom(out, results);
        { RouteFromCons(out, results); }
        RouteFrom(Concat(out, Expected([r])), rest);
        { RouteFromAll(Concat(out, Expected([r])), rest); }
        Done(Concat(Concat(out, Expected([r])), Expected(rest)));
        { ConcatAssoc(out, Expected([r]), Expected(rest)); }
        Done(Concat(out, Concat(Expected([r]), Expected(rest))));
        { ExpectedAppend([r], rest); }
        Done(Concat(out, Expected(results)));
      }
    }
  }

  /** From `out`, a loop that meets an unroutable result at `k` faults
      there, after writing the expected records of the results before it. */
  lemma {:induction false} RouteFromFault(out: Outputs, results: seq<DomainStatus>, k: nat)
    requires k < |results| && !Routable(results[k]) && AllRoutable(results[..k])
    ensures RouteFrom(out, results) == Fault(Concat(out, Expected(results[..k])), results[k])
    decreases k
  {
    if k == 0 {
      assert Concat(out, Expected(results[..0])) == out;
    } else {
      var r, rest := results[0], results[1..];
      assert results[..k][0] == r;
      assert results[..k] == [r] + rest[..k - 1];
      var before, prefix := rest[..k - 1], results[..k];
      forall j | 0 <= j < k - 1
        ensures Routable(before[j])
      {
        assert before[j] == prefix[j + 1];
      }
      calc {
        RouteFrom(out, results);
        { RouteFromCons(out, results); }
        RouteFrom(Concat(out, Expected([r])), rest);
        { RouteFromFault(Concat(out, Expected([r])), rest, k - 1); }
        Fault(Concat(Concat(out, Expected([r])), Expected(rest[..k - 1])), rest[k - 1]);
        { ConcatAssoc(out, Expected([r]), Expected(rest[..k - 1])); }
        Fault(Concat(out, Concat(Expected([r]), Expected(rest[..k - 1]))), results[k]);
        { ExpectedAppend([r], rest[..k - 1]); }
        Fault(Concat(out, Expected(results[..k])), results[k]);
      }
    }
  }

  /** A single result with a writer is routed to exactly its outputs. */
  lemma RouteSingle(r: DomainStatus)
    requires Routable(r)
    ensures Route([r]) == Done(Concat(NoOutput, Expected([r])))
    ensures r.status == "suspicious" ==>
      Route([r]) == Done(Outputs([], [], [FullRecord(r)], [CondensedRecord(r)]))
  {
    WriteExpected(NoOutput, r);
    assert [r][1..] == [];
    assert Route([r]) == RouteFrom(Concat(NoOutput, Expected([r])), []);
  }

  /** The position of the first result whose status has no writer. */
  predicate FirstUnroutable(results: seq<DomainStatus>, k: int) {
    0 <= k < |results| && !Routable(results[k]) && AllRoutable(results[..k])
  }

  lemma {:induction false} FirstUnroutableExists(results: seq<DomainStatus>)
    requires !AllRoutable(results)
    ensures exists k :: FirstUnroutable(results, k)
  {
    var k := 0;
    while k < |results| && Routable(results[k])
      invariant 0 <= k <= |results|
      invariant forall j :: 0 <= j < k ==> Routable(results[j])
      decreases |results| - k
    {
      k := k + 1;
    }
    assert FirstUnroutable(results, k);
  }

  /** Routing, characterised against the reference: when every status has a
      writer, each output receives exactly its expected records; otherwise
      the loop faults at the first result without a writer, after writing
      the expected records of the results before it. */
  lemma RouteCharacterization(results: seq<DomainStatus>)
    ensures Route(results).Done? <==> AllRoutable(results)
    ensures AllRoutable(results) ==> Route(results) == Done(Expected(results))
    ensures forall k :: FirstUnroutable(results, k) ==>
              Route(results) == Fault(Expected(results[..k]), results[k])
  {
    if AllRoutable(results) {
      RouteFromAll(NoOutput, results);
      assert Concat(NoOutput, Expected(results)) == Expected(results);
    } else {
      FirstUnroutableExists(results);
      var k :| FirstUnroutable(results, k);
      RouteFromFault(NoOutput, results, k);
      assert Concat(NoOutput, Expected(results[..k])) == Expected(results[..k]);
      forall k' | FirstUnroutable(results, k')
        ensures Route(results) == Fault(Expected(results[..k']), results[k'])
      {
        assert k' == k;
      }
    }
  }

  /** Arrival order matters once a result has no writer: a routable result
      read before the unroutable one is written before the fault, and the
      same result read after it is never written. */
  lemma FaultDependsOnOrder(ok: DomainStatus, bad: DomainStatus)
    requires Routable(ok) && !Routable(bad)
    ensures Route([ok, bad]) == Fault(Expected([ok]), bad)
    ensures Route([bad, ok]) == Fault(NoOutput, bad)
    ensures Route([ok, bad]).out != Route([bad, ok]).out
  {
    assert [ok, bad][..1] == [ok];
    assert FirstUnroutable([ok, bad], 1);
    assert FirstUnroutable([bad, ok], 0);
    RouteCharacterization([ok, bad]);
    RouteCharacterization([bad, ok]);
    assert Expected([bad, ok][..0]) == NoOutput;
    RecordsSingle(ok, ok.status, FullRecord);
  }

  /** The statuses of the results, in arrival order. */
  function Statuses(results: seq<DomainStatus>): (r: seq<string>)
    ensures |r| == |results|
    ensures forall i :: 0 <= i < |results| ==> r[i] == results[i].status
  {
    seq(|results|, i requires 0 <= i < |results| => results[i].status)
  }

  lemma StatusesCons(results: seq<DomainStatus>)
    requires |results| > 0
    ensures Statuses(results) == [results[0].status] + Statuses(results[1..])
  {
  }

  /** Records carries one record per result with the given status. */
  lemma {:induction false} RecordsCount(results: seq<DomainStatus>, status: string, format: DomainStatus -> string)
    ensures |Records(results, status, format)| == multiset(Statuses(results))[status]
  {
    if |results| > 0 {
      RecordsCount(results[1..], status, format);
      StatusesCons(results);
    }
  }

  /** Results whose statuses all have a writer are split between the three
      statuses with nothing left over. */
  lemma {:induction false} PartitionCount(results: seq<DomainStatus>)
    requires AllRoutable(results)
    ensures multiset(Statuses(results))["registered"] + multiset(Statuses(results))["unregistered"]
            + multiset(Statuses(results))["suspicious"] == |results|
  {
    if |results| > 0 {
      var st := results[0].status;
      PartitionCount(results[1..]);
      StatusesCons(results);
      var m, n := multiset(Statuses(results)), multiset(Statuses(results[1..]));
      assert m == multiset{st} + n;
      assert Routable(results[0]);
      assert st == "registered" || st == "unregistered" || st == "suspicious";
    }
  }

  /** When every status has a writer, each result is written to exactly one
      of the three outputs, each output receives one record per result with
      its status, and the condensed output receives one record per
      suspicious result. */
  lemma RoutedCounts(results: seq<DomainStatus>)
    requires AllRoutable(results)
    ensures Route(results).Done?
    ensures |Route(results).out.registered| == multiset(Statuses(results))["registered"]
    ensures |Route(results).out.unregistered| == multiset(Statuses(results))["unregistered"]
    ensures |Route(results).out.suspicious| == multiset(Statuses(results))["suspicious"]
    ensures |Route(results).out.condensed| == multiset(Statuses(results))["suspicious"]
    ensures |Route(results).out.registered| + |Route(results).out.unregistered|
            + |Route(results).out.suspicious| == |results|
  {
    RouteCharacterization(results);
    RecordsCount(results, "registered", FullRecord);
    RecordsCount(results, "unregistered", FullRecord);
    RecordsCount(results, "suspicious", FullRecord);
    RecordsCount(results, "suspicious", CondensedRecord);
    PartitionCount(results);
  }

  /** Taking out the result at `k`. */
  function Without(ys: seq<DomainStatus>, k: nat): seq<DomainStatus>
    requires k < |ys|
  {
    ys[..k] + ys[k + 1..]
  }

  lemma WithoutMultiset(ys: seq<DomainStatus>, k: nat)
    requires k < |ys|
    ensures multiset(ys) == multiset(Without(ys, k)) + multiset{ys[k]}
  {
    assert ys == ys[..k] + [ys[k]] + ys[k + 1..];
  }

  lemma RecordsWithout(ys: seq<DomainStatus>, k: nat, status: string, format: DomainStatus -> string)
    requires k < |ys|
    ensures multiset(Records(ys, status, format))
            == multiset(Records(Without(ys, k), status, format)) + multiset(Records([ys[k]], status, format))
  {
    var left, right := ys[..k], ys[k + 1..];
    assert ys == left + ([ys[k]] + right);
    RecordsAppend(left, [ys[k]] + right, status, format);
    RecordsAppend([ys[k]], right, status, format);
    RecordsAppend(left, right, status, format);
  }

  /** The records selected from a sequence of results depend only on which
      results arrived, not on the order they arrived in. */
  lemma {:induction false} RecordsPermutation(xs: seq<DomainStatus>, ys: seq<DomainStatus>, status: string, format: DomainStatus -> string)
    requires multiset(xs) == multiset(ys)
    ensures multiset(Records(xs, status, format)) == multiset(Records(ys, status, format))
    decreases |xs|
  {
    if |xs| == 0 {
      assert |ys| == |multiset(ys)|;
    } else {
      var x, rest := xs[0], xs[1..];
      assert xs == [x] + rest;
      assert x in multiset(ys);
      var k :| 0 <= k < |ys| && ys[k] == x;
      WithoutMultiset(ys, k);
      assert multiset(xs) == multiset(rest) + multiset{x};
      var m, n := multiset(rest), multiset(Without(ys, k));
      assert m + multiset{x} == n + multiset{x};
      assert forall e :: m[e] == n[e] by {
        forall e
          ensures m[e] == n[e]
        {
          assert (m + multiset{x})[e] == (n + multiset{x})[e];
        }
      }
      assert m == n;
      RecordsPermutation(rest, Without(ys, k), status, format);
      RecordsAppend([x], rest, status, format);
      RecordsWithout(ys, k, status, format);
    }
  }

  /** The results arrive in completion order. When every status has a
      writer, every arrival order routes without a fault and writes the
      same records to each output, in some order. */
  lemma RouteOrderIrrelevant(xs: seq<DomainStatus>, ys: seq<DomainStatus>)
    requires multiset(xs) == multiset(ys)
    requires AllRoutable(xs)
    ensures Route(xs).Done? && Route(ys).Done?
    ensures multiset(Route(ys).out.registered) == multiset(Route(xs).out.registered)
    ensures multiset(Route(ys).out.unregistered) == multiset(Route(xs).out.unregistered)
    ensures multiset(Route(ys).out.suspicious) == multiset(Route(xs).out.suspicious)
    ensures multiset(Route(ys).out.condensed) == multiset(Route(xs).out.condensed)
  {
    forall j | 0 <= j < |ys|
      ensures Routable(ys[j])
    {
      assert ys[j] in multiset(xs);
    }
    RouteCharacterization(xs);
    RouteCharacterization(ys);
    RecordsPermutation(xs, ys, "registered", FullRecord);
    RecordsPermutation(xs, ys, "unregistered", FullRecord);
    RecordsPermutation(xs, ys, "suspicious", FullRecord);
    RecordsPermutation(xs, ys, "suspicious", CondensedRecord);
  }

  /** A record is in the selection exactly when it is the record of some
      result with the selected status. */
  lemma {:induction false} RecordsMembership(results: seq<DomainStatus>, status: string, format: DomainStatus -> string, x: string)
    ensures x in Records(results, status, format) <==>
      exists i :: 0 <= i < |results| && results[i].status == status && format(results[i]) == x
  {
    if |results| > 0 {
      RecordsMembership(results[1..], status, format, x);
      if x in Records(results[1..], status, format) {
        var i :| 0 <= i < |results[1..]| && results[1..][i].status == status && format(results[1..][i]) == x;
        assert results[i + 1] == results[1..][i];
      }
      if exists i :: 0 <= i < |results| && results[i].status == status && format(results[i]) == x {
        var i :| 0 <= i < |results| && results[i].status == status && format(results[i]) == x;
        if i > 0 {
          assert results[1..][i - 1] == results[i];
        }
      }
    }
  }

  /** Every record in a full output reads back to a result of that output's
      status, provided no domain contains a line break. */
  lemma FullOutputReadsBack(results: seq<DomainStatus>, status: string, x: string)
    requires status == "registered" || status == "unregistered" || status == "suspicious"
    requires forall i :: 0 <= i < |results| ==> '\n' !in results[i].domain
    requires x in Records(results, status, FullRecord)
    ensures ParseFullRecord(x).Some?
    ensures ParseFullRecord(x).value in results && ParseFullRecord(x).value.status == status
  {
    RecordsMembership(results, status, FullRecord, x);
    var i :| 0 <= i < |results| && results[i].status == status && FullRecord(results[i]) == x;
    assert '\n' !in results[i].status;
    FullRecordRoundTrip(results[i]);
  }

  /** When routing completes and no domain contains a line break, each
      record written reads back: every record of the registered, unregistered
      and suspicious outputs is the record of a result with that status,
      and every condensed record names the domain of a suspicious result.
      This is about the records one by one; the text of a file need not
      split back into them (`Report.FileSplitAmbiguous`). */
  lemma OutputsReadBack(results: seq<DomainStatus>)
    requires AllRoutable(results)
    requires forall i :: 0 <= i < |results| ==> '\n' !in results[i].domain
    ensures forall x :: x in Route(results).out.registered ==>
      ParseFullRecord(x).Some? && ParseFullRecord(x).value in results && ParseFullRecord(x).value.status == "registered"
    ensures forall x :: x in Route(results).out.unregistered ==>
      ParseFullRecord(x).Some? && ParseFullRecord(x).value in results && ParseFullRecord(x).value.status == "unregistered"
    ensures forall x :: x in Route(results).out.suspicious ==>
      ParseFullRecord(x).Some? && ParseFullRecord(x).value in results && ParseFullRecord(x).value.status == "suspicious"
    ensures forall x :: x in Route(results).out.condensed ==>
      exists i :: 0 <= i < |results| && results[i].status == "suspicious" &&
        ParseCondensedRecord(x) == Some((results[i].domain, "suspicious"))
  {
    RouteCharacterization(results);
    forall x | x in Route(results).out.registered
      ensures ParseFullRecord(x).Some? && ParseFullRecord(x).value in results && ParseFullRecord(x).value.status == "registered"
    {
      FullOutputReadsBack(results, "registered", x);
    }
    forall x | x in Route(results).out.unregistered
      ensures ParseFullRecord(x).Some? && ParseFullRecord(x).value in results && ParseFullRecord(x).value.status == "unregistered"
    {
      FullOutputReadsBack(results, "unregistered", x);
    }
    forall x | x in Route(results).out.suspicious
      ensures ParseFullRecord(x).Some? && ParseFullRecord(x).value in results && ParseFullRecord(x).value.status == "suspicious"
    {
      FullOutputReadsBack(results, "suspicious", x);
    }
    forall x | x in Route(results).out.condensed
      ensures exists i :: 0 <= i < |results| && results[i].status == "suspicious" &&
                         ParseCondensedRecord(x) == Some((results[i].domain, "suspicious"))
    {
      RecordsMembership(results, "suspicious", CondensedRecord, x);
      var i :| 0 <= i < |results| && results[i].status == "suspicious" && CondensedRecord(results[i]) == x;
      CondensedRecordRoundTrip(results[i]);
    }
  }
}
