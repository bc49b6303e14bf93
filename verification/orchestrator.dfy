/** The dispatch half of `main`: every input line is expanded by the
    permutation tool, and one reputation lookup is started per expanded
    entry. Goroutines are abstracted away: a dispatched task is the domain
    name handed to `CheckThreatIntelligence`, and the lookups' results are
    a sequence in any order. */
module Orchestrator {
  import opened Wrappers
  import opened Domain
  import ThreatIntelligence

  /** One line of the input list together with what the permutation tool
      produced for it: the decoded candidates, or the error text. */
  datatype Expansion = Expansion(input: string, output: Result<seq<Candidate>, string>)

  /** The domain names of the candidates, in order. */
  function Names(entries: seq<Candidate>): (r: seq<string>)
    ensures |r| == |entries|
    ensures forall i :: 0 <= i < |entries| ==> r[i] == entries[i].domain
  {
    seq(|entries|, i requires 0 <= i < |entries| => entries[i].domain)
  }

  /** The tasks one input line contributes: one per expanded entry when the
      expansion succeeded, none when it failed. */
  function Contribution(e: Expansion): seq<string> {
    match e.output
    case Failure(_) => []
    case Success(entries) => Names(entries)
  }

  /** Reference definition: the contributions of the input lines, in order. */
  function Tasks(inputs: seq<Expansion>): seq<string> {
    if |inputs| == 0 then [] else Contribution(inputs[0]) + Tasks(inputs[1..])
  }

  /** The number of entries over the lines whose expansion succeeded. */
  function ExpandedCount(inputs: seq<Expansion>): nat {
    if |inputs| == 0 then 0
    else (if inputs[0].output.Success? then |inputs[0].output.value| else 0) + ExpandedCount(inputs[1..])
  }

  /** Dispatch distributes over concatenation of the input list: what one
      line contributes does not depend on the lines before or after it. */
  lemma {:induction false} TasksAppend(xs: seq<Expansion>, ys: seq<Expansion>)
    ensures Tasks(xs + ys) == Tasks(xs) + Tasks(ys)
  {
    if |xs| == 0 {
      assert xs + ys == ys;
    } else {
      assert (xs + ys)[0] == xs[0];
      assert (xs + ys)[1..] == xs[1..] + ys;
      calc {
        Tasks(xs + ys);
        Contribution(xs[0]) + Tasks(xs[1..] + ys);
        { TasksAppend(xs[1..], ys); }
        Contribution(xs[0]) + (Tasks(xs[1..]) + Tasks(ys));
      }
    }
  }

  /** A failed expansion contributes no task and does not stop the lines
      after it from being dispatched. */
  lemma FailedExpansionSkipped(xs: seq<Expansion>, e: Expansion, ys: seq<Expansion>)
    requires e.output.Failure?
    ensures Tasks(xs + [e] + ys) == Tasks(xs) + Tasks(ys)
  {
    TasksAppend(xs + [e], ys);
    TasksAppend(xs, [e]);
  }

  /** The number of tasks is the sum of the expansion lengths over the
      lines whose expansion succeeded. */
  lemma {:induction false} TaskCount(inputs: seq<Expansion>)
    ensures |Tasks(inputs)| == ExpandedCount(inputs)
  {
    if |inputs| > 0 {
      TaskCount(inputs[1..]);
    }
  }

  /** A domain is dispatched exactly when some successful expansion has an
      entry with that name. */
  lemma {:induction false} TaskMembership(inputs: seq<Expansion>, d: string)
    ensures d in Tasks(inputs) <==>
      exists i, j :: 0 <= i < |inputs| && inputs[i].output.Success? &&
        0 <= j < |inputs[i].output.value| && inputs[i].output.value[j].domain == d
  {
    if |inputs| > 0 {
      TaskMembership(inputs[1..], d);
      var rest := inputs[1..];
      if d in Tasks(inputs) {
        if d in Contribution(inputs[0]) {
          var j :| 0 <= j < |Contribution(inputs[0])| && Contribution(inputs[0])[j] == d;
          assert inputs[0].output.value[j].domain == d;
        } else {
          var i, j :| 0 <= i < |rest| && rest[i].output.Success? &&
            0 <= j < |rest[i].output.value| && rest[i].output.value[j].domain == d;
          assert inputs[i + 1] == rest[i];
        }
      }
      if exists i, j :: 0 <= i < |inputs| && inputs[i].output.Success? &&
           0 <= j < |inputs[i].output.value| && inputs[i].output.value[j].domain == d {
        var i, j :| 0 <= i < |inputs| && inputs[i].output.Success? &&
          0 <= j < |inputs[i].output.value| && inputs[i].output.value[j].domain == d;
        if i == 0 {
          assert Contribution(inputs[0])[j] == d;
        } else {
          assert rest[i - 1] == inputs[i];
        }
      }
    }
  }

  /** Dispatching one more input line appends its contribution. */
  lemma TasksStep(inputs: seq<Expansion>, n: nat)
    requires n < |inputs|
    ensures Tasks(inputs[..n + 1]) == Tasks(inputs[..n]) + Contribution(inputs[n])
  {
    assert inputs[..n + 1] == inputs[..n] + [inputs[n]];
    TasksAppend(inputs[..n], [inputs[n]]);
    assert [inputs[n]][1..] == [];
  }

  /** The dispatch loop of `main`: for each input line, skip it when its
      expansion failed, otherwise start one lookup per expanded entry. */
  method Dispatch(inputs: seq<Expansion>) returns (tasks: seq<string>)
    ensures tasks == Tasks(inputs)
    ensures |tasks| == ExpandedCount(inputs)
  {
    tasks := [];
    for n := 0 to |inputs|
      invariant tasks == Tasks(inputs[..n])
    {
      TasksStep(inputs, n);
      match inputs[n].output {
        case Failure(_) =>
        case Success(entries) =>
          ghost var before := tasks;
          ghost var names := Names(entries);
          for m := 0 to |entries|
            invariant tasks == before + names[..m]
          {
            assert names[..m + 1] == names[..m] + [entries[m].domain];
            tasks := tasks + [entries[m].domain];
          }
          assert names[..|entries|] == names;
      }
    }
    assert inputs[..|inputs|] == inputs;
    TaskCount(inputs);
  }

  /** The fan-out of the dispatched goroutines: task `i` runs the
      reputation lookup for its domain with response `i`, and emits one
      result, for its own domain, that is an error exactly when its
      response failed. */
  function Enrich(tasks: seq<string>, responses: seq<Result<string, string>>): (results: seq<DomainStatus>)
    requires |responses| == |tasks|
    ensures |results| == |tasks|
    ensures forall i :: 0 <= i < |tasks| ==> results[i].domain == tasks[i]
    ensures forall i :: 0 <= i < |tasks| ==>
      (results[i].status == Error.Name() <==> responses[i].Failure?)
    ensures forall i :: 0 <= i < |tasks| && responses[i].Failure? ==>
      results[i].analysisData == ThreatIntelligence.ErrorPrefix + responses[i].error
    ensures forall i :: 0 <= i < |tasks| && responses[i].Success? ==>
      results[i].analysisData == responses[i].value &&
      results[i].status == ThreatIntelligence.Classify(responses[i].value).Name()
  {
    seq(|tasks|, i requires 0 <= i < |tasks| => ThreatIntelligence.Check(tasks[i], responses[i]))
  }
}
