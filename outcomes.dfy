/**
 * External commands and how a run ends.
 *
 * Nothing here runs a process: the outcome of every external command comes from
 * an oracle, `outcomes`, in the order the commands are issued. The i-th command
 * issued succeeds unless `outcomes` holds `false` at index i.
 */
module Outcomes {
  /** How a stage, a dump or a whole run ends. */
  datatype Outcome =
    | Succeeded   // the function returns True
    | Failed      // the function returns False (or None, which the caller treats as False)
    | Aborted     // an exception or `quit` leaves the function

  /** The i-th external command issued succeeds (a command past the end of the oracle succeeds). */
  predicate Succeeds(outcomes: seq<bool>, i: nat)
  {
    i >= |outcomes| || outcomes[i]
  }

  /**
   * The commands of `plan` were run in order until the first one that failed:
   * `issued` is what ran and `ok` says whether all of `plan` ran and succeeded.
   */
  predicate FailFastRun<C(==)>(plan: seq<C>, outcomes: seq<bool>, ok: bool, issued: seq<C>)
  {
    && issued <= plan
    && (forall k :: 0 <= k < |issued| - 1 ==> Succeeds(outcomes, k))
    && (ok <==> issued == plan && forall k :: 0 <= k < |plan| ==> Succeeds(outcomes, k))
    && (!ok ==> |issued| > 0 && !Succeeds(outcomes, |issued| - 1))
  }

  /** A fail-fast run is determined by its plan and the oracle: no two different results fit. */
  lemma FailFastRunUnique<C>(plan: seq<C>, outcomes: seq<bool>, ok1: bool, issued1: seq<C>, ok2: bool, issued2: seq<C>)
    requires FailFastRun(plan, outcomes, ok1, issued1)
    requires FailFastRun(plan, outcomes, ok2, issued2)
    ensures ok1 == ok2 && issued1 == issued2
  {
  }

  /** Once every issued command has succeeded and the plan is exhausted, the run succeeded. */
  lemma FailFastCompleted<C>(plan: seq<C>, outcomes: seq<bool>)
    requires forall k :: 0 <= k < |plan| ==> Succeeds(outcomes, k)
    ensures FailFastRun(plan, outcomes, true, plan)
  {
  }

  /** A run that stops at the first failing command of its plan. */
  lemma FailFastStopped<C>(plan: seq<C>, outcomes: seq<bool>, issued: seq<C>)
    requires issued <= plan && |issued| > 0
    requires forall k :: 0 <= k < |issued| - 1 ==> Succeeds(outcomes, k)
    requires !Succeeds(outcomes, |issued| - 1)
    ensures FailFastRun(plan, outcomes, false, issued)
  {
  }
}
