/**
 * The dual cron scheduler (`get_next_schedule` and the selection step of
 * `schedule_backup`). Cron evaluation and the clock are left to the caller: each
 * cron expression contributes its delay in seconds until its next occurrence, and
 * each computation of a next schedule reads the clock once (`now`).
 */
module Scheduler {
  import opened Wrappers

  /** The least of a non-empty list of delays. */
  function Min(delays: seq<nat>): (m: nat)
    requires |delays| > 0
    ensures m in delays
    ensures forall i :: 0 <= i < |delays| ==> m <= delays[i]
  {
    if |delays| == 1 then delays[0]
    else
      var rest := Min(delays[1..]);
      if delays[0] <= rest then delays[0] else rest
  }

  /**
   * `get_next_schedule`: `now` plus the smallest delay. With no cron at all the
   * running minimum keeps its start value -1, one second before `now`.
   */
  method NextSchedule(now: int, delays: seq<nat>) returns (next: int)
    ensures |delays| == 0 ==> next == now - 1
    ensures |delays| > 0 ==> next == now + Min(delays)
  {
    var delay: int := -1;
    for i := 0 to |delays|
      invariant i == 0 ==> delay == -1
      invariant i > 0 ==> delay in delays[..i]
      invariant i > 0 ==> forall j :: 0 <= j < i ==> delay <= delays[j]
    {
      var cronDelay := delays[i];
      if delay < 0 || cronDelay < delay {
        delay := cronDelay;
      }
    }
    if |delays| > 0 {
      assert delays[..|delays|] == delays;
      MinIsLeast(delays, delay);
    }
    next := now + delay;
  }

  /** A member of the list that no member undercuts is the minimum. */
  lemma MinIsLeast(delays: seq<nat>, d: int)
    requires d in delays && forall j :: 0 <= j < |delays| ==> d <= delays[j]
    ensures d == Min(delays)
  {
  }

  /** What the next wake-up does. */
  datatype Job =
    | PruneOnly                  // `prune_repository()`
    | FullBackup(prune: bool)    // `run_backup(prunecron is None)`

  /** The time `NextSchedule` yields, as a value. */
  function Earliest(now: int, delays: seq<nat>): int
  {
    if |delays| == 0 then now - 1 else now + Min(delays)
  }

  /**
   * One pass of the `schedule_backup` loop up to the wait: the next backup time,
   * and when a prune schedule exists, the next prune time, each computed from its
   * own clock reading. A prune-only run is chosen exactly when the prune time is
   * strictly earlier; a backup run prunes itself exactly when there is no prune
   * schedule.
   */
  method NextRun(backupCron: seq<nat>, pruneCron: Option<seq<nat>>, nowBackup: int, nowPrune: int)
    returns (at: int, job: Job)
    ensures job == PruneOnly <==>
      pruneCron.Some? && Earliest(nowPrune, pruneCron.value) < Earliest(nowBackup, backupCron)
    ensures job.PruneOnly? ==> at == Earliest(nowPrune, pruneCron.value)
    ensures job.FullBackup? ==> at == Earliest(nowBackup, backupCron) && job.prune == pruneCron.None?
    ensures at <= Earliest(nowBackup, backupCron)
    ensures pruneCron.Some? ==> at <= Earliest(nowPrune, pruneCron.value)
  {
    var nextSchedule := NextSchedule(nowBackup, backupCron);
    var nextIsPrune := false;
    if pruneCron.Some? {
      var nextPrune := NextSchedule(nowPrune, pruneCron.value);
      if nextPrune < nextSchedule {
        nextSchedule := nextPrune;
        nextIsPrune := true;
      }
    }
    at := nextSchedule;
    job := if nextIsPrune then PruneOnly else FullBackup(pruneCron.None?);
  }
}
