/**
 * Runs of the connector: the UI slots and the iterations of the connector
 * thread as one sequence of events, applied in order. A run ends at the
 * first event that raises. The properties here hold for every run: at most
 * one scene-graph generator, job queue equal to the jobs announced, enqueue
 * times spaced by at least `Settings.SggInterval`, round-robin spawn points.
 */
module ConnectorRuns {
  import opened Wrappers
  import opened OrderedMap
  import Json
  import Settings
  import DataManager
  import opened CarlaConnector

  /** One thing that happens to the connector. */
  datatype Event =
    | SelectModel(model: string)                           // `set_vehicle_model`
    | RequestSpawn                                         // `spawn_vehicle`
    | SelectCamera(id: string)                             // `set_camera_position`
    | StartRec(today: string)                              // `start_recording`
    | StopRec                                              // `stop_recording`
    | AttemptConnect(attempt: Attempt, blueprints: seq<string>)  // `connect` and the thread's connection attempt
    | CloseConnection                                      // `disconnect`
    | Shutdown                                             // `shutdown`
    | Iterate(input: TickInput)                            // one pass of the thread's loop

  function Pure(p: (Connector, seq<Effect>)): Outcome {
    Outcome(p.0, p.1, true)
  }

  /**
   * One event. An iteration ticks only while the loop runs with a client; a
   * running loop whose client was cleared exits instead. `shutdown`
   * disconnects and stops the loop; a thread still waiting for `connect()`
   * keeps waiting, and connects when it comes, only to leave the loop at once.
   */
  function Step(c: Connector, e: Event): (r: Outcome)
    ensures e.Iterate? && c.phase == Running && !c.connected ==> r == Outcome(c.(phase := Stopped), [], true)
    ensures e.Iterate? && c.phase != Running ==> r == Outcome(c, [], true)
  {
    match e
    case SelectModel(m) => Pure(SetVehicleModel(c, m))
    case RequestSpawn => Outcome(SpawnVehicle(c), [], true)
    case SelectCamera(id) => Pure(SetCameraPosition(c, id))
    case StartRec(today) => StartRecording(c, today)
    case StopRec => StopRecording(c)
    case AttemptConnect(a, bps) => Pure(Connect(c, a, bps))
    case CloseConnection => Pure(Disconnect(c))
    case Shutdown =>
      var (c1, e1) := Disconnect(c);
      Outcome(c1.(running := false, phase := if c.phase == Waiting then Waiting else Stopped), e1, true)
    case Iterate(inp) =>
      if c.phase != Running then Outcome(c, [], true)
      else if !c.connected then Outcome(c.(phase := Stopped), [], true)
      else Tick(c, inp)
  }

  /** The events in order; the first one that raises ends the run. */
  function Run(c: Connector, es: seq<Event>): Outcome
    decreases |es|
  {
    if |es| == 0 then Outcome(c, [], true)
    else
      var o := Step(c, es[0]);
      if !o.ok then o
      else
        var rest := Run(o.c, es[1..]);
        Outcome(rest.c, o.log + rest.log, rest.ok)
  }

  lemma CameraLog(c: Connector, id: string)
    ensures Quiet(c, Pure(SetCameraPosition(c, id)))
  {
    var (c1, e) := SetCameraPosition(c, id);
    if id in Settings.CameraKeys {
      ShortLog(ApplyCamera(c1).value);
      ShortLog([CameraSelected(id)]);
      LogConcat([CameraSelected(id)], ApplyCamera(c1).value);
    }
  }

  lemma ConnectLog(c: Connector, a: Attempt, bps: seq<string>)
    ensures Quiet(c, Pure(Connect(c, a, bps)))
  {
    var log := Connect(c, a, bps).1;
    assert forall e :: e in log ==> e.ConnectionResult? || e.BlueprintsLoaded? || e.ModelSelected? || e.CameraSelected?;
    SignalsOnly(log);
  }

  /** Every event keeps the accounting of generators, jobs and capture times. */
  lemma StepAccounted(c: Connector, e: Event)
    ensures Accounted(c, Step(c, e))
  {
    match e
    case SelectCamera(id) => CameraStepAccounted(c, id);
    case AttemptConnect(a, bps) => ConnectStepAccounted(c, a, bps);
    case Iterate(inp) => IterateAccounted(c, inp);
    case StartRec(today) => StartStepAccounted(c, today);
    case StopRec => StopStepAccounted(c);
    case _ => SettingsStepAccounted(c, e);
  }

  lemma CameraStepAccounted(c: Connector, id: string)
    ensures Accounted(c, Step(c, SelectCamera(id)))
  {
    CameraLog(c, id);
  }

  lemma ConnectStepAccounted(c: Connector, a: Attempt, bps: seq<string>)
    ensures Accounted(c, Step(c, AttemptConnect(a, bps)))
  {
    ConnectLog(c, a, bps);
  }

  lemma StartStepAccounted(c: Connector, today: string)
    ensures Accounted(c, Step(c, StartRec(today)))
  {
    assert Step(c, StartRec(today)) == StartRecording(c, today);
    StartQuiet(c, today);
    QuietAccounted(c, StartRecording(c, today));
  }

  lemma StopStepAccounted(c: Connector)
    ensures Accounted(c, Step(c, StopRec))
  {
    ShortLog(StopRecording(c).log);
  }

  lemma IterateAccounted(c: Connector, inp: TickInput)
    ensures Accounted(c, Step(c, Iterate(inp)))
  {
    var r := Step(c, Iterate(inp));
    if c.phase == Running && c.connected {
      assert r == Tick(c, inp);
      TickAccounted(c, inp);
    } else {
      assert r.log == [] && r.c.jobs == c.jobs && r.c.lastCapture == c.lastCapture && r.c.generator == c.generator;
      ShortLog(r.log);
      QuietAccounted(c, r);
    }
  }

  /**
   * After `shutdown` the loop never runs again: no event brings the thread
   * back into the tick loop, whatever connection attempt follows.
   */
  lemma ShutdownIsFinal(c: Connector, e: Event)
    requires !c.running && c.phase != Running
    ensures !Step(c, e).c.running && Step(c, e).c.phase != Running
  {
    match e
    case StartRec(today) => assert Step(c, e) == StartRecording(c, today);
    case AttemptConnect(a, bps) => assert Step(c, e) == Pure(Connect(c, a, bps));
    case Iterate(inp) =>
    case _ =>
  }

  /**
   * `shutdown` does not release a thread waiting for `connect()`: a later
   * successful attempt still stores the client and announces the connection,
   * and only then the loop exits without a tick.
   */
  lemma ShutdownThenConnect(c: Connector, bps: seq<string>)
    requires c.phase == Waiting
    requires !DataManager.Get(c.data, "camera_selected", Json.Null).Arr? && !DataManager.Get(c.data, "camera_selected", Json.Null).Obj?
    ensures var r := Run(c, [Shutdown, AttemptConnect(Established, bps)]);
            && r.ok && r.c.connected && r.c.sggLoaded && r.c.phase == Stopped
            && |r.log| >= 2 && r.log[..2] == [ConnectionResult(false), ConnectionResult(true)]
  {
    var es := [Shutdown, AttemptConnect(Established, bps)];
    var o := Step(c, Shutdown);
    assert o.c.phase == Waiting && !o.c.running && o.c.data == c.data;
    var o2 := Step(o.c, AttemptConnect(Established, bps));
    assert o2.ok && o2.c.connected && o2.c.sggLoaded && o2.c.phase == Stopped;
    assert o2.log[0] == ConnectionResult(true);
    assert es[1..] == [AttemptConnect(Established, bps)];
    assert Run(o.c, es[1..]) == Outcome(o2.c, o2.log + [], true);
    assert Run(c, es) == Outcome(o2.c, o.log + o2.log + [], true);
  }

  /** Model choice, spawn requests, disconnecting and shutting down enqueue nothing and create no generator. */
  lemma SettingsStepAccounted(c: Connector, e: Event)
    requires e.SelectModel? || e.RequestSpawn? || e.CloseConnection? || e.Shutdown?
    ensures Accounted(c, Step(c, e))
  {
    ShortLog(Step(c, e).log);
  }

  /** With a fixed map every event only appends vehicles and keeps the spawn invariants. */
  lemma StepKeepsSpawnInvariants(c: Connector, e: Event, points: nat)
    requires e.Iterate? ==> e.input.points == points
    requires RoundRobin(c, points) && IdsFresh(c)
    ensures RoundRobin(Step(c, e).c, points) && IdsFresh(Step(c, e).c)
  {
    match e
    case Iterate(inp) =>
      if c.phase == Running && c.connected {
        TickKeepsSpawnInvariants(c, inp);
      }
    case _ => SettingsKeepSpawned(c, e);
  }

  /** Every event other than a tick leaves the spawned list and the id counter alone. */
  lemma SettingsKeepSpawned(c: Connector, e: Event)
    requires !e.Iterate?
    ensures Step(c, e).c.spawned == c.spawned && Step(c, e).c.nextId == c.nextId
  {
    match e
    case SelectModel(m) =>
    case RequestSpawn =>
    case SelectCamera(id) => assert SetCameraPosition(c, id).0.spawned == c.spawned;
    case StartRec(today) =>
    case StopRec =>
    case AttemptConnect(a, bps) => assert Connect(c, a, bps).0.spawned == c.spawned;
    case CloseConnection =>
    case Shutdown =>
  }

  /** Generators appear only with their effect: the final generator bit counts them. */
  lemma {:induction false} RunGenerators(c: Connector, es: seq<Event>)
    ensures GenBit(Run(c, es).c.generator) == GenBit(c.generator) + GenCount(Run(c, es).log)
    decreases |es|
  {
    if |es| > 0 {
      var o := Step(c, es[0]);
      StepAccounted(c, es[0]);
      if o.ok {
        RunGenerators(o.c, es[1..]);
        LogConcat(o.log, Run(o.c, es[1..]).log);
      }
    }
  }

  /** From a fresh connector, whatever happens, at most one generator is ever created. */
  lemma GeneratorAtMostOnce(data: DataManager.State, es: seq<Event>)
    ensures GenCount(Run(Init(data), es).log) <= 1
  {
    RunGenerators(Init(data), es);
  }

  /** The queue of `r` is that of `c` followed by the jobs `r` announces. */
  predicate JobsGrow(c: Connector, r: Outcome) {
    r.c.jobs == c.jobs + Jobs(r.log)
  }

  lemma JobsChain(c: Connector, o: Outcome, rest: Outcome)
    requires JobsGrow(c, o) && JobsGrow(o.c, rest)
    ensures JobsGrow(c, Outcome(rest.c, o.log + rest.log, rest.ok))
  {
    LogConcat(o.log, rest.log);
  }

  /** The record queue holds exactly the jobs announced, in order. */
  lemma {:induction false} RunJobs(c: Connector, es: seq<Event>)
    ensures JobsGrow(c, Run(c, es))
    decreases |es|
  {
    if |es| > 0 {
      var o := Step(c, es[0]);
      StepAccounted(c, es[0]);
      assert JobsGrow(c, o);
      if o.ok {
        RunJobs(o.c, es[1..]);
        JobsChain(c, o, Run(o.c, es[1..]));
      }
    }
  }

  /** Enqueue times after `start`, each at least `SggInterval` after the one before and after `start`. */
  predicate SpacedFrom(start: real, ts: seq<real>) {
    && (forall k :: 0 <= k < |ts| ==> start + Settings.SggInterval <= ts[k])
    && (forall i, j :: 0 <= i < j < |ts| ==> ts[i] + Settings.SggInterval <= ts[j])
  }

  /** Spaced stretches join when the second starts after every time of the first. */
  lemma SpacedJoin(start: real, mid: real, fin: real, a: seq<real>, b: seq<real>)
    requires SpacedFrom(start, a) && SpacedFrom(mid, b)
    requires start <= mid <= fin
    requires forall k :: 0 <= k < |a| ==> a[k] <= mid
    requires forall k :: 0 <= k < |b| ==> b[k] <= fin
    ensures SpacedFrom(start, a + b)
    ensures forall k :: 0 <= k < |a + b| ==> (a + b)[k] <= fin
  {
    var ts := a + b;
    forall i, j | 0 <= i < j < |ts| ensures ts[i] + Settings.SggInterval <= ts[j] {
      if j >= |a| {
        assert ts[j] == b[j - |a|];
        if i >= |a| { assert ts[i] == b[i - |a|]; }
      }
    }
    forall k | 0 <= k < |ts| ensures start + Settings.SggInterval <= ts[k] && ts[k] <= fin {
      if k >= |a| { assert ts[k] == b[k - |a|]; }
    }
  }

  /** One accounted step is a spaced stretch ending at its capture time. */
  lemma StepSpaced(c: Connector, o: Outcome)
    requires Accounted(c, o)
    ensures SpacedFrom(c.lastCapture, EnqTimes(o.log))
    ensures forall k :: 0 <= k < |EnqTimes(o.log)| ==> EnqTimes(o.log)[k] <= o.c.lastCapture
  {
  }

  /**
   * The enqueue throttle over a run: every enqueue is at least `SggInterval`
   * after the capture time the run started with and after every earlier
   * enqueue, and none is later than the final capture time.
   */
  lemma {:induction false} RunSpacing(c: Connector, es: seq<Event>)
    ensures SpacedFrom(c.lastCapture, EnqTimes(Run(c, es).log))
    ensures c.lastCapture <= Run(c, es).c.lastCapture
    ensures forall k :: 0 <= k < |EnqTimes(Run(c, es).log)| ==> EnqTimes(Run(c, es).log)[k] <= Run(c, es).c.lastCapture
    decreases |es|
  {
    if |es| > 0 {
      var o := Step(c, es[0]);
      StepAccounted(c, es[0]);
      StepSpaced(c, o);
      if o.ok {
        var rest := Run(o.c, es[1..]);
        RunSpacing(o.c, es[1..]);
        LogConcat(o.log, rest.log);
        SpacedJoin(c.lastCapture, o.c.lastCapture, rest.c.lastCapture, EnqTimes(o.log), EnqTimes(rest.log));
      }
    }
  }

  /** Consecutive enqueues of any run from a fresh connector are at least `SggInterval` apart. */
  lemma EnqueuesSpaced(data: DataManager.State, es: seq<Event>, i: nat)
    requires i + 1 < |EnqTimes(Run(Init(data), es).log)|
    ensures EnqTimes(Run(Init(data), es).log)[i] + Settings.SggInterval <= EnqTimes(Run(Init(data), es).log)[i + 1]
  {
    RunSpacing(Init(data), es);
  }

  /**
   * On a map with `points` spawn points the k-th vehicle of a run stands on
   * spawn point `k % points`, and actor ids are distinct and increasing.
   */
  lemma {:induction false} RunRoundRobin(c: Connector, es: seq<Event>, points: nat)
    requires forall k :: 0 <= k < |es| && es[k].Iterate? ==> es[k].input.points == points
    requires RoundRobin(c, points) && IdsFresh(c)
    ensures RoundRobin(Run(c, es).c, points) && IdsFresh(Run(c, es).c)
    decreases |es|
  {
    if |es| > 0 {
      StepKeepsSpawnInvariants(c, es[0], points);
      var o := Step(c, es[0]);
      if o.ok {
        RunRoundRobin(o.c, es[1..], points);
      }
    }
  }

  /** A fresh connector satisfies the spawn invariants for every map. */
  lemma InitRoundRobin(data: DataManager.State, es: seq<Event>, points: nat)
    requires points > 0
    requires forall k :: 0 <= k < |es| && es[k].Iterate? ==> es[k].input.points == points
    ensures RoundRobin(Run(Init(data), es).c, points) && IdsFresh(Run(Init(data), es).c)
  {
    RunRoundRobin(Init(data), es, points);
  }

  // ---------------------------------------------------------------------
  // the rising-edge history of one function

  /**
   * The number of rising edges one function produces over successive ticks,
   * given its mapped value at each tick and the previous value it starts
   * from. A `None` value is skipped: it neither fires nor becomes the
   * previous value.
   */
  function EdgeCount(prev: real, vals: seq<Option<real>>): nat
    decreases |vals|
  {
    if |vals| == 0 then 0
    else if vals[0].None? then EdgeCount(prev, vals[1..])
    else GenBit(Pressed(prev, vals[0].value)) + EdgeCount(vals[0].value, vals[1..])
  }

  /** The bound values of a history, in order. */
  function Bound(vals: seq<Option<real>>): (r: seq<Option<real>>)
    ensures forall k :: 0 <= k < |r| ==> r[k].Some?
    decreases |vals|
  {
    if |vals| == 0 then [] else (if vals[0].Some? then [vals[0]] else []) + Bound(vals[1..])
  }

  /** `None` ticks are invisible to the edge rule. */
  lemma {:induction false} NoneTicksInvisible(prev: real, vals: seq<Option<real>>)
    ensures EdgeCount(prev, vals) == EdgeCount(prev, Bound(vals))
    decreases |vals|
  {
    if |vals| > 0 {
      NoneTicksInvisible(if vals[0].Some? then vals[0].value else prev, vals[1..]);
      if vals[0].Some? {
        var b := [vals[0]] + Bound(vals[1..]);
        assert b[0] == vals[0] && b[1..] == Bound(vals[1..]);
      } else {
        assert Bound(vals) == Bound(vals[1..]);
      }
    }
  }

  /**
   * Holding a value above 0.5 fires exactly once, on the first tick, if the
   * previous value was at most 0.5, and never otherwise.
   */
  lemma {:induction false} HeldFiresOnce(prev: real, vals: seq<Option<real>>)
    requires forall k :: 0 <= k < |vals| ==> vals[k].Some? && vals[k].value > 0.5
    ensures EdgeCount(prev, vals) == (if |vals| > 0 && prev <= 0.5 then 1 else 0)
    decreases |vals|
  {
    if |vals| > 0 {
      HeldFiresOnce(vals[0].value, vals[1..]);
    }
  }

  /**
   * The connector follows this history: after a completed tick a function
   * with a bound value has that value as its previous one, and a function
   * with `None` or no item keeps its previous one.
   */
  lemma TickHistory(c: Connector, cc: OMap<string, Option<real>>, points: nat, today: string, f: string)
    requires |c.spawned| > 0 && DistinctKeys(cc)
    requires ProcessControl(c, Some(cc), points, today).ok
    ensures Get(cc, f).Some? && Get(cc, f).value.Some? ==>
              Prev(ProcessControl(c, Some(cc), points, today).c.last, f) == Get(cc, f).value.value
    ensures Get(cc, f).None? || Get(cc, f).value.None? ==>
              Prev(ProcessControl(c, Some(cc), points, today).c.last, f) == Prev(c.last, f)
  {
    if Get(cc, f).Some? {
      var j :| 0 <= j < |cc| && cc[j] == (f, Get(cc, f).value);
      if Get(cc, f).value.None? {
        forall k | 0 <= k < |cc| ensures cc[k].0 != f || cc[k].1.None? {
          if cc[k].0 == f { assert k == j; }
        }
        ControlLoopKeeps(c, cc, 0, points, today, f);
      } else {
        ControlLoopStores(c, cc, 0, points, today, j);
      }
    } else {
      ControlLoopKeeps(c, cc, 0, points, today, f);
    }
  }
}
