/** The execution history of workflows, trimmed per workflow (internal/cmd/scheduler_execute_workflow.go). */
module History {
  import opened Seqs

  const HISTORY_LIMIT: nat := 10

  /** `outcome` holds everything but the identity: times, phase, message and step results. */
  datatype Execution = Execution(id: string, workflowName: string, outcome: string)

  /** The executions of one workflow, in order. */
  function Of(list: seq<Execution>, workflow: string): seq<Execution> {
    if list == [] then []
    else
      var last := list[|list| - 1];
      Of(list[..|list| - 1], workflow) + (if last.workflowName == workflow then [last] else [])
  }

  lemma {:induction false} OfAppend(a: seq<Execution>, b: seq<Execution>, workflow: string)
    ensures Of(a + b, workflow) == Of(a, workflow) + Of(b, workflow)
  {
    if b == [] {
      assert a + b == a;
    } else {
      assert (a + b)[..|a + b| - 1] == a + b[..|b| - 1];
      OfAppend(a, b[..|b| - 1], workflow);
    }
  }

  lemma {:induction false} OfSelection(list: seq<Execution>, workflow: string, other: string)
    requires forall e :: e in list ==> e.workflowName == workflow
    ensures Of(list, other) == if other == workflow then list else []
  {
    if list != [] {
      assert list == list[..|list| - 1] + [list[|list| - 1]];
      OfSelection(list[..|list| - 1], workflow, other);
    }
  }

  /** Each workflow keeps exactly its newest executions, in order, whatever order the workflows come in. */
  ghost predicate IsTrimmed(result: seq<Execution>, list: seq<Execution>) {
    forall w :: Of(result, w) == LastN(Of(list, w), HISTORY_LIMIT)
  }

  /** executionsByWorkflow */
  type Groups = map<string, seq<Execution>>

  ghost predicate Grouped(groups: Groups, list: seq<Execution>) {
    forall w :: (if w in groups then groups[w] else []) == Of(list, w)
  }

  class SchedulerStatus {
    var workflowExecutions: seq<Execution>

    constructor ()
      ensures workflowExecutions == []
    {
      workflowExecutions := [];
    }

    method GroupByWorkflow() returns (groups: Groups)
      ensures Grouped(groups, workflowExecutions)
    {
      groups := map[];
      for i := 0 to |workflowExecutions|
        invariant Grouped(groups, workflowExecutions[..i])
      {
        var exec := workflowExecutions[i];
        assert workflowExecutions[..i + 1][..i] == workflowExecutions[..i];
        groups := groups[exec.workflowName :=
          (if exec.workflowName in groups then groups[exec.workflowName] else []) + [exec]];
      }
      assert workflowExecutions[..|workflowExecutions|] == workflowExecutions;
    }

    method UpdateWorkflowExecutionStatus(exec: Execution)
      modifies this
      ensures IsTrimmed(workflowExecutions, old(workflowExecutions) + [exec])
    {
      workflowExecutions := workflowExecutions + [exec];
      var groups := GroupByWorkflow();
      var all := JoinTrimmed(groups, workflowExecutions);
      workflowExecutions := all;
    }

    /** The loop over the map of groups, in whatever order it yields them. */
    static method JoinTrimmed(groups: Groups, ghost list: seq<Execution>) returns (all: seq<Execution>)
      requires Grouped(groups, list)
      ensures IsTrimmed(all, list)
    {
      hide Of;
      all := [];
      var rest := groups.Keys;
      NothingJoinedYet(groups, list);
      while rest != {}
        invariant rest <= groups.Keys && JoinedButFor(all, list, rest)
      {
        var workflow :| workflow in rest;
        var executions := groups[workflow];
        if |executions| > HISTORY_LIMIT {
          executions := executions[|executions| - HISTORY_LIMIT..];
        }
        assert groups[workflow] == Of(list, workflow);
        OneMoreGroup(all, list, rest, workflow);
        all := all + executions;
        rest := rest - {workflow};
      }
    }
  }

  ghost predicate JoinedButFor(all: seq<Execution>, list: seq<Execution>, rest: set<string>) {
    forall w :: Of(all, w) == if w in rest then [] else LastN(Of(list, w), HISTORY_LIMIT)
  }

  lemma NothingJoinedYet(groups: Groups, list: seq<Execution>)
    requires Grouped(groups, list)
    ensures JoinedButFor([], list, groups.Keys)
  {
  }

  lemma OneMoreGroup(all: seq<Execution>, list: seq<Execution>, rest: set<string>, workflow: string)
    requires JoinedButFor(all, list, rest) && workflow in rest
    ensures JoinedButFor(all + LastN(Of(list, workflow), HISTORY_LIMIT), list, rest - {workflow})
  {
    var group := LastN(Of(list, workflow), HISTORY_LIMIT);
    OfMembers(list, workflow);
    assert forall e :: e in group ==> e in Of(list, workflow);
    forall w ensures Of(all + group, w) == if w in rest - {workflow} then [] else LastN(Of(list, w), HISTORY_LIMIT) {
      OfAppend(all, group, w);
      OfSelection(group, workflow, w);
      assert Of(all, w) == if w in rest then [] else LastN(Of(list, w), HISTORY_LIMIT);
    }
  }

  lemma {:induction false} OfMembers(list: seq<Execution>, workflow: string)
    ensures forall e :: e in Of(list, workflow) ==> e.workflowName == workflow
  {
    if list != [] {
      OfMembers(list[..|list| - 1], workflow);
    }
  }

  // ----- Runs of updates -----

  /** `states` are the histories that the updates with `execs` may leave behind, one after another. */
  ghost predicate IsRun(states: seq<seq<Execution>>, execs: seq<Execution>) {
    |states| == |execs| + 1 && forall i :: 0 <= i < |execs| ==> IsTrimmed(states[i + 1], states[i] + [execs[i]])
  }

  /** After any run of updates each workflow has exactly its ten newest executions. */
  lemma {:induction false} RunKeepsTheNewest(states: seq<seq<Execution>>, execs: seq<Execution>, n: nat)
    requires IsRun(states, execs) && 0 < n <= |execs|
    ensures forall w :: Of(states[n], w) == LastN(Of(states[0] + execs[..n], w), 10)
  {
    var last := execs[n - 1];
    assert IsTrimmed(states[n - 1 + 1], states[n - 1] + [last]);
    assert execs[..n] == execs[..n - 1] + [last];
    assert states[0] + execs[..n] == states[0] + execs[..n - 1] + [last];
    if n == 1 {
      assert states[0] + [last] == states[0] + execs[..1];
    } else {
      RunKeepsTheNewest(states, execs, n - 1);
      assert IsTrimmed(states[n - 1], states[0] + execs[..n - 1]);
      forall w ensures Of(states[n], w) == LastN(Of(states[0] + execs[..n], w), HISTORY_LIMIT) {
        OfAppend(states[n - 1], [last], w);
        OfAppend(states[0] + execs[..n - 1], [last], w);
        LastNOfTrimmedPrefix(Of(states[0] + execs[..n - 1], w), Of([last], w), HISTORY_LIMIT);
      }
    }
  }

  lemma {:induction false} OfCounts(list: seq<Execution>, e: Execution)
    ensures multiset(list)[e] == multiset(Of(list, e.workflowName))[e]
  {
    if list != [] {
      var before, last := list[..|list| - 1], list[|list| - 1];
      OfCounts(before, e);
      assert list == before + [last];
    }
  }

  /**
   Trimming keeps only executions that were there, no more often; no workflow exceeds its limit, and
   one within it loses nothing.
   */
  lemma TrimmedIsBounded(result: seq<Execution>, list: seq<Execution>)
    requires IsTrimmed(result, list)
    ensures multiset(result) <= multiset(list)
    ensures forall w :: |Of(result, w)| <= 10
    ensures forall w :: |Of(list, w)| <= 10 ==> Of(result, w) == Of(list, w)
  {
    hide Of;
    forall e ensures multiset(result)[e] <= multiset(list)[e] {
      var all := Of(list, e.workflowName);
      var kept := LastN(all, HISTORY_LIMIT);
      OfCounts(result, e);
      OfCounts(list, e);
      assert all == all[..|all| - |kept|] + kept;
      assert Of(result, e.workflowName) == kept;
    }
  }
}
