/**
 * The record worker of `hse/carla_connector.py`: it takes jobs from the
 * record queue one at a time, asks the scene-graph generator for the graph
 * of the job's frame and saves it into the job's folder. Any exception in
 * one job is reported and the worker goes on with the next; the queue's
 * `task_done` is called for every job taken. Whether the generation of a
 * job succeeds is a parameter.
 */
module RecordWorker {
  import opened CarlaConnector

  /** The jobs whose graph was generated and saved, in queue order. */
  function SavedJobs(queue: seq<Job>, ok: seq<bool>): (r: seq<Job>)
    requires |ok| == |queue|
    ensures |r| <= |queue|
    decreases |queue|
  {
    if |queue| == 0 then []
    else (if ok[0] then [queue[0]] else []) + SavedJobs(queue[1..], ok[1..])
  }

  /** The frames of the jobs that failed, in queue order. */
  function FailedFrames(queue: seq<Job>, ok: seq<bool>): (r: seq<int>)
    requires |ok| == |queue|
    decreases |queue|
  {
    if |queue| == 0 then []
    else (if ok[0] then [] else [queue[0].frame]) + FailedFrames(queue[1..], ok[1..])
  }

  lemma {:induction false} SplitLast(queue: seq<Job>, ok: seq<bool>)
    requires |ok| == |queue| && |queue| > 0
    ensures var n := |queue| - 1;
            && SavedJobs(queue, ok) == SavedJobs(queue[..n], ok[..n]) + (if ok[n] then [queue[n]] else [])
            && FailedFrames(queue, ok) == FailedFrames(queue[..n], ok[..n]) + (if ok[n] then [] else [queue[n].frame])
    decreases |queue|
  {
    var n := |queue| - 1;
    if n > 0 {
      SplitLast(queue[1..], ok[1..]);
      assert queue[1..][..n - 1] == queue[..n][1..];
      assert ok[1..][..n - 1] == ok[..n][1..];
    } else {
      assert queue[..n] == [] && ok[..n] == [];
    }
  }

  /**
   * The worker loop over the jobs taken from the queue. Every job is taken
   * once and in order; a failing job does not stop the later ones; each
   * saved graph goes to the folder of its own job; `task_done` runs once per
   * job.
   */
  method ProcessJobs(queue: seq<Job>, ok: seq<bool>) returns (saved: seq<Job>, failed: seq<int>, taskDone: nat)
    requires |ok| == |queue|
    ensures taskDone == |queue|
    ensures saved == SavedJobs(queue, ok)
    ensures failed == FailedFrames(queue, ok)
    ensures |saved| + |failed| == |queue|
  {
    saved, failed, taskDone := [], [], 0;
    var i := 0;
    while i < |queue|
      invariant 0 <= i <= |queue|
      invariant taskDone == i
      invariant saved == SavedJobs(queue[..i], ok[..i])
      invariant failed == FailedFrames(queue[..i], ok[..i])
      invariant |saved| + |failed| == i
    {
      SplitLast(queue[..i + 1], ok[..i + 1]);
      assert queue[..i + 1][..i] == queue[..i] && ok[..i + 1][..i] == ok[..i];
      if ok[i] {
        saved := saved + [queue[i]];
      } else {
        failed := failed + [queue[i].frame];
      }
      taskDone := taskDone + 1;
      i := i + 1;
    }
    assert queue[..i] == queue && ok[..i] == ok;
  }

  /** A job is saved exactly when its generation succeeded. */
  lemma {:induction false} SavedIff(queue: seq<Job>, ok: seq<bool>, j: Job)
    requires |ok| == |queue|
    ensures j in SavedJobs(queue, ok) <==> exists k :: 0 <= k < |queue| && queue[k] == j && ok[k]
    decreases |queue|
  {
    if |queue| > 0 {
      SavedIff(queue[1..], ok[1..], j);
      if j in SavedJobs(queue, ok) && j !in SavedJobs(queue[1..], ok[1..]) {
        assert queue[0] == j && ok[0];
      }
      if exists k :: 0 <= k < |queue| && queue[k] == j && ok[k] {
        var k :| 0 <= k < |queue| && queue[k] == j && ok[k];
        if k > 0 {
          assert queue[1..][k - 1] == j && ok[1..][k - 1];
        }
      }
      if exists k :: 0 <= k < |queue| - 1 && queue[1..][k] == j && ok[1..][k] {
        var k :| 0 <= k < |queue| - 1 && queue[1..][k] == j && ok[1..][k];
        assert queue[k + 1] == j && ok[k + 1];
      }
    }
  }
}
