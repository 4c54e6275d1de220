/**
 * `hse/carla_connector.py`: the bridge between the console and the CARLA
 * simulator. After a one-time connection the connector thread runs a
 * synchronous loop; every iteration (a tick) handles one pending spawn
 * command, turns the mapped controller values into one-shot actions and
 * vehicle control, places the spectator camera, and, while recording,
 * enqueues a scene-graph job at most every `Settings.SggInterval` seconds.
 *
 * The connector is an immutable record and every operation returns the
 * new record together with the effects it has on the outside world (CARLA
 * calls and Qt signals) in order. Values the simulator, the controller
 * manager or the clock supply are parameters: the number of spawn points of
 * the map, the mapped control values, the current time, the generator's frame
 * counter and today's date. Actors are opaque ids handed out in spawn order.
 * An operation that raises returns the state reached so far with `ok` false.
 */
module CarlaConnector {
  import opened Wrappers
  import opened OrderedMap
  import opened Json
  import Settings
  import DataManager

  /** A spawned vehicle: its actor id, the spawn point index used, and its blueprint. */
  datatype Actor = Actor(id: nat, spawnPoint: nat, model: string)

  /** A record job: the generator's frame number, the ego actor id and the target folder. */
  datatype Job = Job(frame: int, ego: nat, folder: DataManager.Path)

  /**
   * The arguments of one `VehicleControl`. A throttle, brake or steering value
   * is `0.0` when the function is missing from the mapped values and is passed
   * on as `None` when it is present but unbound.
   */
  datatype Control = Control(throttle: Option<real>, brake: Option<real>, steer: Option<real>, reverse: bool)

  /** What the connector does to the outside world. */
  datatype Effect =
    | ApplyControl(actor: nat, control: Control)   // `apply_control` on a vehicle
    | PlaceCamera(actor: nat, preset: string)      // spectator moved to a preset relative to a vehicle
    | CameraSelected(key: string)                  // `camera_position_selected` signal
    | ModelSelected(model: string)                 // `vehicle_model_selected` signal
    | BlueprintsLoaded(ids: seq<string>)           // `blueprints_loaded` signal
    | RecordingStatus(active: bool)                // `recording_status` signal
    | GeneratorCreated                             // the scene-graph generator is instantiated
    | Enqueued(time: real, job: Job)               // a job is put into the record queue at that time
    | ConnectionResult(ok: bool)                   // `connection_result` signal

  /** Where the connector thread is: waiting for `connect()`, in the tick loop, or finished. */
  datatype Phase = Waiting | Running | Stopped

  /**
   * The connector's fields. `model` and `camera` are `None` while the source's
   * attributes `_vehicle_model` and `_camera_selected` have never been assigned.
   */
  datatype Connector = Connector(
    phase: Phase,
    running: bool,                // `_running`: cleared by `shutdown`
    connected: bool,              // `_client` is set
    sggLoaded: bool,              // `_SGGClass` is set
    spawned: seq<Actor>,          // `_spawned_vehicles`
    commands: seq<string>,        // `_command_queue`, oldest first
    last: OMap<string, real>,     // `_last_control_values`
    model: Option<string>,        // `_vehicle_model`
    camera: Option<string>,       // `_camera_selected`
    recording: bool,              // `_recording_active`
    folder: Option<DataManager.Path>,  // `_record_base_folder`
    generator: bool,              // `_sgg` is set
    lastCapture: real,            // `_last_sgg_time`
    jobs: seq<Job>,               // `_record_queue`, oldest first
    data: DataManager.State,
    nextId: nat)                  // the id the simulator gives the next actor

  /** The result of an operation that may raise: the state reached and the effects so far. */
  datatype Outcome = Outcome(c: Connector, log: seq<Effect>, ok: bool)

  function LastActor(c: Connector): Actor
    requires |c.spawned| > 0
  {
    c.spawned[|c.spawned| - 1]
  }

  function GenBit(b: bool): nat {
    if b then 1 else 0
  }

  // ---------------------------------------------------------------------
  // reading an effect log

  /** The number of generators created. */
  function GenCount(log: seq<Effect>): nat {
    if |log| == 0 then 0 else GenBit(log[0].GeneratorCreated?) + GenCount(log[1..])
  }

  /** The times at which jobs were enqueued, in order. */
  function EnqTimes(log: seq<Effect>): seq<real> {
    if |log| == 0 then [] else (if log[0].Enqueued? then [log[0].time] else []) + EnqTimes(log[1..])
  }

  /** The jobs enqueued, in order. */
  function Jobs(log: seq<Effect>): seq<Job> {
    if |log| == 0 then [] else (if log[0].Enqueued? then [log[0].job] else []) + Jobs(log[1..])
  }

  /** The controls applied, in order. */
  function Applied(log: seq<Effect>): seq<Effect> {
    if |log| == 0 then [] else (if log[0].ApplyControl? then [log[0]] else []) + Applied(log[1..])
  }

  lemma {:induction false} LogConcat(a: seq<Effect>, b: seq<Effect>)
    ensures GenCount(a + b) == GenCount(a) + GenCount(b)
    ensures EnqTimes(a + b) == EnqTimes(a) + EnqTimes(b)
    ensures Jobs(a + b) == Jobs(a) + Jobs(b)
    ensures Applied(a + b) == Applied(a) + Applied(b)
  {
    if |a| > 0 {
      assert (a + b)[1..] == a[1..] + b;
      LogConcat(a[1..], b);
    } else {
      assert a + b == b;
    }
  }

  /**
   * What every operation except the capture step keeps: no job is enqueued,
   * the capture time is untouched, and a generator appears only together
   * with a `GeneratorCreated` effect.
   */
  predicate Quiet(c: Connector, r: Outcome) {
    && r.c.jobs == c.jobs && r.c.lastCapture == c.lastCapture
    && EnqTimes(r.log) == [] && Jobs(r.log) == []
    && GenBit(r.c.generator) == GenBit(c.generator) + GenCount(r.log)
  }

  /** `Quiet` composes along a sequence of operations. */
  lemma QuietChain(c: Connector, o1: Outcome, o2: Outcome)
    requires Quiet(c, o1) && Quiet(o1.c, o2)
    ensures Quiet(c, Outcome(o2.c, o1.log + o2.log, o2.ok))
  {
    LogConcat(o1.log, o2.log);
  }

  // ---------------------------------------------------------------------
  // construction, connection, UI slots

  /** `_last_control_values`: every function of the stored control table at 0.0. */
  function InitialLast(data: DataManager.State): (r: OMap<string, real>)
    ensures forall i :: 0 <= i < |r| ==> r[i].1 == 0.0
  {
    match DataManager.Get(data, "controls", Obj([]))
    case Obj(fields) => seq(|fields|, i requires 0 <= i < |fields| => (fields[i].0, 0.0))
    case _ => []
  }

  /** `__init__`: nothing connected, spawned, queued or recording; the last capture at time 0. */
  function Init(data: DataManager.State): (c: Connector)
    ensures c.phase == Waiting && c.running && !c.connected && !c.sggLoaded && !c.generator
    ensures !c.recording && c.folder.None? && c.spawned == [] && c.commands == [] && c.jobs == []
    ensures c.model.None? && c.camera.None?
    ensures c.lastCapture == 0.0 && c.data == data
    ensures forall f :: f in Keys(c.last) ==> Get(c.last, f) == Some(0.0)
  {
    var last := InitialLast(data);
    assert forall f :: f in Keys(last) ==> Get(last, f) == Some(0.0) by {
      forall f | f in Keys(last) ensures Get(last, f) == Some(0.0) {
        assert (f, Get(last, f).value) in last;
      }
    }
    Connector(Waiting, true, false, false, [], [], last, None, None, false, None, false, 0.0, [], data, 0)
  }

  /**
   * `_load_and_select_blueprints` and `_auto_select_camera`: announce the
   * blueprints, then re-select the saved model if the simulator offers it and
   * the saved camera if it is a preset, announcing each one selected. The
   * preset test looks the saved camera up in a dict, so a JSON list or object
   * there raises (`TypeError`) after the model step.
   */
  function Reselect(c: Connector, blueprints: seq<string>): (r: Outcome)
    ensures var k := DataManager.Get(c.data, "camera_selected", Null);
            r.ok <==> !(k.Arr? || k.Obj?)
    ensures r.c == c.(model := r.c.model, camera := r.c.camera)
    ensures var m := DataManager.Get(c.data, "model", Null);
            r.c.model == (if m.Str? && m.s in blueprints then Some(m.s) else c.model)
    ensures var k := DataManager.Get(c.data, "camera_selected", Null);
            r.c.camera == (if r.ok && k.Str? && k.s in Settings.CameraKeys then Some(k.s) else c.camera)
    ensures var m := DataManager.Get(c.data, "model", Null);
            var k := DataManager.Get(c.data, "camera_selected", Null);
            r.log == [BlueprintsLoaded(blueprints)] + (if m.Str? && m.s in blueprints then [ModelSelected(m.s)] else [])
                     + (if r.ok && k.Str? && k.s in Settings.CameraKeys then [CameraSelected(k.s)] else [])
  {
    var m := DataManager.Get(c.data, "model", Null);
    var k := DataManager.Get(c.data, "camera_selected", Null);
    var offered := m.Str? && m.s in blueprints;
    var c1 := if offered then c.(model := Some(m.s)) else c;
    var e1: seq<Effect> := if offered then [ModelSelected(m.s)] else [];
    if k.Arr? || k.Obj? then Outcome(c1, [BlueprintsLoaded(blueprints)] + e1, false)
    else
      var preset := k.Str? && k.s in Settings.CameraKeys;
      Outcome(if preset then c1.(camera := Some(k.s)) else c1,
              [BlueprintsLoaded(blueprints)] + e1 + (if preset then [CameraSelected(k.s)] else []), true)
  }

  /**
   * Re-selecting is idempotent: once the saved choices have been applied, a
   * second pass over the same blueprints selects the same model and camera.
   */
  lemma ReselectIdempotent(c: Connector, blueprints: seq<string>)
    ensures var r := Reselect(c, blueprints);
            r.ok ==> Reselect(r.c, blueprints).c == r.c && Reselect(r.c, blueprints).log == r.log
  {
  }

  /**
   * How the attempt of `_initialize_connection` ends: refused before the
   * client is stored, failing only at the scene-graph import, or complete.
   */
  datatype Attempt = Refused | GeneratorMissing | Established

  /**
   * `_run` after `connect()`: one connection attempt, made only while the
   * thread is still waiting. A refused attempt ends the thread. Once the client
   * is stored, success is announced and model and camera are re-selected; a
   * raise there or a failing scene-graph import then announces failure and
   * ends the thread with the client still set. Otherwise the tick loop
   * starts, unless `shutdown` came first: then the loop exits at once.
   */
  function Connect(c: Connector, attempt: Attempt, blueprints: seq<string>): (r: (Connector, seq<Effect>))
    ensures c.phase != Waiting ==> r == (c, [])
    ensures c.phase == Waiting && attempt == Refused ==>
              r.0 == c.(phase := Stopped) && r.1 == [ConnectionResult(false)]
    ensures c.phase == Waiting && attempt != Refused ==>
              var o := Reselect(c, blueprints);
              var fails := attempt == GeneratorMissing || !o.ok;
              && r.0.connected && r.0.(phase := c.phase, connected := c.connected, sggLoaded := c.sggLoaded) == o.c
              && r.0.phase != Waiting
              && (r.0.phase == Running <==> !fails && c.running)
              && (r.0.sggLoaded <==> !fails || c.sggLoaded)
              && r.1 == [ConnectionResult(true)] + o.log + (if fails then [ConnectionResult(false)] else [])
  {
    if c.phase != Waiting then (c, [])
    else if attempt == Refused then (c.(phase := Stopped), [ConnectionResult(false)])
    else
      var o := Reselect(c.(connected := true), blueprints);
      if attempt == GeneratorMissing || !o.ok then
        (o.c.(phase := Stopped), [ConnectionResult(true)] + o.log + [ConnectionResult(false)])
      else
        (o.c.(phase := if c.running then Running else Stopped, sggLoaded := true), [ConnectionResult(true)] + o.log)
  }

  /** `disconnect`: only the client handle is cleared; the tick loop ends at its next check. */
  function Disconnect(c: Connector): (r: (Connector, seq<Effect>))
    ensures !r.0.connected && r.0.(connected := c.connected) == c
    ensures r.1 == [ConnectionResult(false)]
  {
    (c.(connected := false), [ConnectionResult(false)])
  }

  /** `set_vehicle_model`: select, persist and announce a blueprint. */
  function SetVehicleModel(c: Connector, model: string): (r: (Connector, seq<Effect>))
    ensures r.0.model == Some(model)
    ensures DataManager.Get(r.0.data, "model", Null) == Str(model)
    ensures forall k :: k != "model" ==> DataManager.Get(r.0.data, k, Null) == DataManager.Get(c.data, k, Null)
    ensures r.0.(model := c.model, data := c.data) == c
    ensures r.1 == [ModelSelected(model)]
  {
    DataManager.SetThenGet(c.data, "model", Str(model), Null);
    forall k | k != "model"
      ensures DataManager.Get(DataManager.Set(c.data, "model", Str(model)), k, Null) == DataManager.Get(c.data, k, Null)
    {
      DataManager.SetKeepsOthers(c.data, "model", Str(model), k, Null);
    }
    (c.(model := Some(model), data := DataManager.Set(c.data, "model", Str(model))), [ModelSelected(model)])
  }

  /** `spawn_vehicle`: queue a "spawn" command for the connector thread. */
  function SpawnVehicle(c: Connector): (r: Connector)
    ensures r.commands == c.commands + ["spawn"]
    ensures r.(commands := c.commands) == c
  {
    c.(commands := c.commands + ["spawn"])
  }

  // ---------------------------------------------------------------------
  // spawning

  /**
   * `_process_spawn`: take the oldest command, if any. A "spawn" command with a
   * non-empty model and a non-empty spawn point list spawns one vehicle at
   * spawn point `len(spawned) % len(spawn_points)`; any other command, and a
   * spawn with an empty model or no spawn points, is dropped. A spawn before
   * any model was ever selected raises (the attribute does not exist yet),
   * after the command has been taken.
   */
  function ProcessSpawn(c: Connector, points: nat): (r: Outcome)
    ensures r.log == []
    ensures |c.commands| == 0 ==> r == Outcome(c, [], true)
    ensures |c.commands| > 0 ==> r.c.commands == c.commands[1..]
    ensures !r.ok <==> |c.commands| > 0 && c.commands[0] == "spawn" && c.model.None?
    ensures var fires := |c.commands| > 0 && c.commands[0] == "spawn" && c.model.Some? && |c.model.value| > 0 && points > 0;
            && (fires ==> r.c.spawned == c.spawned + [Actor(c.nextId, |c.spawned| % points, c.model.value)]
                          && r.c.nextId == c.nextId + 1)
            && (!fires ==> r.c.spawned == c.spawned && r.c.nextId == c.nextId)
    ensures r.c.(commands := c.commands, spawned := c.spawned, nextId := c.nextId) == c
  {
    if |c.commands| == 0 then Outcome(c, [], true)
    else
      var c1 := c.(commands := c.commands[1..]);
      if c.commands[0] != "spawn" then Outcome(c1, [], true)
      else if c.model.None? then Outcome(c1, [], false)
      else if |c.model.value| == 0 || points == 0 then Outcome(c1, [], true)
      else Outcome(c1.(spawned := c.spawned + [Actor(c.nextId, |c.spawned| % points, c.model.value)],
                       nextId := c.nextId + 1), [], true)
  }

  /** With a fixed map, the k-th vehicle stands on spawn point `k % points`. */
  predicate RoundRobin(c: Connector, points: nat) {
    points > 0 && forall k :: 0 <= k < |c.spawned| ==> c.spawned[k].spawnPoint == k % points
  }

  /** Actor ids are handed out in increasing order, all below `nextId`. */
  predicate IdsFresh(c: Connector) {
    (forall k :: 0 <= k < |c.spawned| ==> c.spawned[k].id < c.nextId)
    && forall i, j :: 0 <= i < j < |c.spawned| ==> c.spawned[i].id < c.spawned[j].id
  }

  /** Vehicles are only ever appended. */
  predicate Extends(c: Connector, r: Connector) {
    |r.spawned| >= |c.spawned| && r.spawned[..|c.spawned|] == c.spawned
  }

  /** Spawning only appends, and keeps the round-robin placement and the distinct, increasing actor ids. */
  lemma ProcessSpawnKeepsInvariants(c: Connector, points: nat)
    ensures Extends(c, ProcessSpawn(c, points).c)
    ensures RoundRobin(c, points) && IdsFresh(c) ==>
              RoundRobin(ProcessSpawn(c, points).c, points) && IdsFresh(ProcessSpawn(c, points).c)
  {
    assert ProcessSpawn(c, points).c.spawned[..|c.spawned|] == c.spawned;
  }

  // ---------------------------------------------------------------------
  // controller input

  /** The rising-edge rule: above 0.5 now, at most 0.5 at the previous reading. */
  predicate Pressed(prev: real, val: real) {
    val > 0.5 && prev <= 0.5
  }

  /** `_last_control_values.get(func, 0.0)`: the recorded value, 0.0 before the first one. */
  function Prev(last: OMap<string, real>, func: string): (r: real)
    ensures func !in Keys(last) ==> r == 0.0
    ensures func in Keys(last) ==> Get(last, func) == Some(r)
  {
    Get(last, func).GetOr(0.0)
  }

  /** `list.index` on a list known to contain the element. */
  function IndexOf(xs: seq<string>, x: string): (i: nat)
    requires x in xs
    ensures i < |xs| && xs[i] == x
    ensures forall k :: 0 <= k < i ==> xs[k] != x
  {
    if xs[0] == x then 0 else 1 + IndexOf(xs[1..], x)
  }

  /** The position of the selected camera in the preset order; unset or unknown counts as 0. */
  function CameraIndex(camera: Option<string>): (i: nat)
    ensures i < |Settings.CameraKeys|
    ensures camera.Some? && camera.value in Settings.CameraKeys ==> Settings.CameraKeys[i] == camera.value
    ensures !(camera.Some? && camera.value in Settings.CameraKeys) ==> i == 0
  {
    if camera.Some? && camera.value in Settings.CameraKeys then IndexOf(Settings.CameraKeys, camera.value) else 0
  }

  /** The preset after the selected one, cyclically. */
  function NextCamera(camera: Option<string>): (k: string)
    ensures k in Settings.CameraKeys
  {
    Settings.CameraKeys[(CameraIndex(camera) + 1) % |Settings.CameraKeys|]
  }

  /** The preset cycle "free" -> "cockpit" -> "bird" -> "free"; an unset or unknown camera counts as "free". */
  lemma NextCameraCycle(camera: Option<string>)
    ensures camera == Some("free") ==> NextCamera(camera) == "cockpit"
    ensures camera == Some("cockpit") ==> NextCamera(camera) == "bird"
    ensures camera == Some("bird") ==> NextCamera(camera) == "free"
    ensures !(camera.Some? && camera.value in Settings.CameraKeys) ==> NextCamera(camera) == "cockpit"
  {
    if camera.Some? && camera.value in Settings.CameraKeys {
      var i := CameraIndex(camera);
      assert Settings.CameraKeys[i] == camera.value;
      if i == 0 { assert camera.value == "free"; }
      else if i == 1 { assert camera.value == "cockpit"; }
      else { assert camera.value == "bird"; }
    }
  }

  /** A `cam_switch` press: select, persist and announce the next preset. */
  function CycleCamera(c: Connector): (r: (Connector, seq<Effect>))
    ensures r.0.camera == Some(NextCamera(c.camera))
    ensures DataManager.Get(r.0.data, "camera_selected", Null) == Str(NextCamera(c.camera))
    ensures r.1 == [CameraSelected(NextCamera(c.camera))]
    ensures r.0.(camera := c.camera, data := c.data) == c
  {
    var k := NextCamera(c.camera);
    DataManager.SetThenGet(c.data, "camera_selected", Str(k), Null);
    (c.(camera := Some(k), data := DataManager.Set(c.data, "camera_selected", Str(k))), [CameraSelected(k)])
  }

  /** Three presses of `cam_switch` return to a known preset; an unset or unknown camera goes to "cockpit" first. */
  lemma CameraCycleReturns(c: Connector)
    ensures c.camera.Some? && c.camera.value in Settings.CameraKeys ==>
              CycleCamera(CycleCamera(CycleCamera(c).0).0).0.camera == c.camera
    ensures c.camera.Some? && c.camera.value in Settings.CameraKeys ==> CycleCamera(c).0.camera != c.camera
    ensures !(c.camera.Some? && c.camera.value in Settings.CameraKeys) ==>
              CycleCamera(c).0.camera == Some("cockpit")
  {
    var c1 := CycleCamera(c).0;
    var c2 := CycleCamera(c1).0;
    NextCameraCycle(c.camera);
    NextCameraCycle(c1.camera);
    NextCameraCycle(c2.camera);
  }

  // ---------------------------------------------------------------------
  // recording

  /**
   * `start_recording`: take the next record folder, create the generator if
   * there is none yet, and switch recording on. It raises when the record
   * counter is not a number (nothing changes) and when a generator is needed but
   * the generator class was never loaded (the folder and the counter are
   * already taken).
   */
  function StartRecording(c: Connector, today: string): (r: Outcome)
    ensures var next := DataManager.NextRecordFolder(c.data, today);
            && (r.ok <==> next.Success? && (c.generator || c.sggLoaded))
            && (next.Failure? ==> r.c == c && r.log == [])
            && (next.Success? ==> r.c.data == next.value.0 && r.c.folder == Some(next.value.1))
    ensures r.ok ==> r.c.recording && r.c.generator
    ensures r.ok ==> r.log == (if c.generator then [] else [GeneratorCreated]) + [RecordingStatus(true)]
    ensures !r.ok ==> r.log == [] && r.c.recording == c.recording && r.c.generator == c.generator
    ensures r.c.(data := c.data, folder := c.folder, generator := c.generator, recording := c.recording) == c
  {
    var next := DataManager.NextRecordFolder(c.data, today);
    if next.Failure? then Outcome(c, [], false)
    else
      var c1 := c.(data := next.value.0, folder := Some(next.value.1));
      if !c1.generator && !c1.sggLoaded then Outcome(c1, [], false)
      else
        var created: seq<Effect> := if c1.generator then [] else [GeneratorCreated];
        Outcome(c1.(generator := true, recording := true), created + [RecordingStatus(true)], true)
  }

  /** `stop_recording`: recording off and the folder cleared; the generator is kept. */
  function StopRecording(c: Connector): (r: Outcome)
    ensures r.ok && !r.c.recording && r.c.folder.None?
    ensures r.log == [RecordingStatus(false)]
    ensures r.c.(recording := c.recording, folder := c.folder) == c
  {
    Outcome(c.(recording := false, folder := None), [RecordingStatus(false)], true)
  }

  /** A `record` press: stop when recording, start otherwise. */
  function ToggleRecording(c: Connector, today: string): (r: Outcome)
    ensures r.ok ==> r.c.recording == !c.recording
    ensures c.recording ==> r.ok && r.c.folder.None?
    ensures !c.recording && r.ok ==> r.c.generator && r.c.folder.Some?
    ensures !c.recording && !c.generator && !c.sggLoaded ==> !r.ok
  {
    if c.recording then StopRecording(c) else StartRecording(c, today)
  }

  /** A log of at most two effects, none of them an enqueue or a control. */
  lemma ShortLog(log: seq<Effect>)
    requires |log| <= 2 && forall k :: 0 <= k < |log| ==> !log[k].Enqueued? && !log[k].ApplyControl?
    ensures EnqTimes(log) == [] && Jobs(log) == [] && Applied(log) == []
    ensures GenCount(log) == (if |log| > 0 && log[0].GeneratorCreated? then 1 else 0)
                             + (if |log| > 1 && log[1].GeneratorCreated? then 1 else 0)
  {
    if |log| > 0 {
      if |log| > 1 {
        assert log[1..][1..] == [];
      }
      assert |log[1..]| <= 1;
    }
  }

  /** A log without generator or enqueue effects. */
  lemma {:induction false} SignalsOnly(log: seq<Effect>)
    requires forall e :: e in log ==> !e.Enqueued? && !e.GeneratorCreated?
    ensures GenCount(log) == 0 && EnqTimes(log) == [] && Jobs(log) == []
    decreases |log|
  {
    if |log| > 0 {
      assert log[0] in log;
      SignalsOnly(log[1..]);
    }
  }

  /** Starting or stopping a recording enqueues nothing and announces every generator it creates. */
  lemma ToggleQuiet(c: Connector, today: string)
    ensures Quiet(c, ToggleRecording(c, today))
    ensures Applied(ToggleRecording(c, today).log) == []
  {
    if c.recording {
      ShortLog(StopRecording(c).log);
    } else {
      StartQuiet(c, today);
    }
  }

  /** Starting a recording enqueues nothing and announces the generator when it creates one. */
  lemma StartQuiet(c: Connector, today: string)
    ensures Quiet(c, StartRecording(c, today))
    ensures Applied(StartRecording(c, today).log) == []
  {
    var r := StartRecording(c, today);
    assert r.c.jobs == c.jobs && r.c.lastCapture == c.lastCapture;
    if !r.ok {
      assert r.log == [] && r.c.generator == c.generator;
    } else if c.generator {
      assert r.log == [RecordingStatus(true)];
      ShortLog([RecordingStatus(true)]);
    } else {
      assert r.log == [GeneratorCreated, RecordingStatus(true)];
      ShortLog([GeneratorCreated, RecordingStatus(true)]);
    }
  }

  /** The generator is created at most once: starting again reuses it. */
  lemma GeneratorCreatedOnce(c: Connector, today: string)
    requires c.generator
    ensures GenCount(StartRecording(c, today).log) == 0
    ensures StartRecording(c, today).c.generator
  {
  }

  // ---------------------------------------------------------------------
  // the reverse flag (see Findings)

  /**
   * `current_controls.get("reverse", 0.0) > 0.5` as written: `None` when the
   * comparison raises, which it does when "reverse" is present but unbound.
   */
  function ReverseAsWritten(cc: OMap<string, Option<real>>): (r: Option<bool>)
    ensures r.None? <==> Get(cc, "reverse") == Some(None)
  {
    match Get(cc, "reverse")
    case None => Some(0.0 > 0.5)
    case Some(v) => if v.None? then None else Some(v.value > 0.5)
  }

  /** The mapped-value vector of an unbound reverse function (the default configuration) makes the comparison raise. */
  lemma ReverseAsWrittenRaises()
    ensures ReverseAsWritten([("throttle", Some(0.3)), ("reverse", None)]).None?
  {
    assert Get([("throttle", Some(0.3)), ("reverse", None)], "reverse") == Some(None);
  }

  /** The reverse flag as evidently intended: an unbound reverse function means "not reversing". */
  function ReverseFlag(cc: OMap<string, Option<real>>): (r: bool)
    ensures r <==> Get(cc, "reverse").Some? && Get(cc, "reverse").value.Some? && Get(cc, "reverse").value.value > 0.5
  {
    var v := Get(cc, "reverse");
    v.Some? && v.value.Some? && v.value.value > 0.5
  }

  /** Wherever the written comparison does not raise, the corrected flag agrees with it. */
  lemma ReverseFlagAgrees(cc: OMap<string, Option<real>>)
    ensures ReverseAsWritten(cc).Some? ==> ReverseAsWritten(cc).value == ReverseFlag(cc)
    ensures ReverseAsWritten(cc).None? ==> !ReverseFlag(cc)
  {
  }

  /** `current_controls.get(key, 0.0)`. */
  function Axis(cc: OMap<string, Option<real>>, key: string): (r: Option<real>)
    ensures key !in Keys(cc) ==> r == Some(0.0)
    ensures key in Keys(cc) ==> Some(r) == Get(cc, key)
  {
    Get(cc, key).GetOr(Some(0.0))
  }

  /**
   * The `VehicleControl` built from the mapped values. Its reverse flag is
   * the corrected one, which is what the written comparison yields wherever
   * that comparison does not raise; an item whose comparison raises applies
   * no control at all.
   */
  function ControlOf(cc: OMap<string, Option<real>>): (r: Control)
    ensures r.throttle == Axis(cc, "throttle") && r.brake == Axis(cc, "brake") && r.steer == Axis(cc, "steering")
    ensures ReverseAsWritten(cc).Some? ==> r.reverse == ReverseAsWritten(cc).value
    ensures ReverseAsWritten(cc).None? ==> !r.reverse
  {
    ReverseFlagAgrees(cc);
    Control(Axis(cc, "throttle"), Axis(cc, "brake"), Axis(cc, "steering"), ReverseFlag(cc))
  }

  /**
   * The one-shot action of an item on a rising edge: `cam_switch` cycles the
   * camera, `respawn` queues a spawn command and processes the queue at once,
   * `record` toggles recording. Any other function, or no edge, does nothing.
   */
  function Action(c: Connector, func: string, pressed: bool, points: nat, today: string): (r: Outcome)
    ensures r.c.last == c.last
    ensures !pressed || func !in ["cam_switch", "respawn", "record"] ==> r == Outcome(c, [], true)
    ensures pressed && func == "cam_switch" ==> r == Outcome(CycleCamera(c).0, CycleCamera(c).1, true)
    ensures pressed && func == "respawn" ==> r == ProcessSpawn(SpawnVehicle(c), points)
    ensures pressed && func == "record" ==> r == ToggleRecording(c, today)
  {
    if !pressed then Outcome(c, [], true)
    else if func == "cam_switch" then Outcome(CycleCamera(c).0, CycleCamera(c).1, true)
    else if func == "respawn" then ProcessSpawn(SpawnVehicle(c), points)
    else if func == "record" then ToggleRecording(c, today)
    else Outcome(c, [], true)
  }

  /** `r` only appends vehicles to `c` and, on a map with `points` spawn points, keeps the spawn invariants. */
  predicate Spawns(c: Connector, r: Connector, points: nat) {
    Extends(c, r) && (RoundRobin(c, points) && IdsFresh(c) ==> RoundRobin(r, points) && IdsFresh(r))
  }

  /** An action enqueues nothing and applies no control. */
  lemma ActionQuiet(c: Connector, func: string, pressed: bool, points: nat, today: string)
    ensures Quiet(c, Action(c, func, pressed, points, today))
    ensures Applied(Action(c, func, pressed, points, today).log) == []
  {
    if pressed && func == "cam_switch" {
      CycleQuiet(c);
    } else if pressed && func == "respawn" {
      RespawnQuiet(c, points);
    } else if pressed && func == "record" {
      ToggleQuiet(c, today);
    }
  }

  lemma CycleQuiet(c: Connector)
    ensures Quiet(c, Outcome(CycleCamera(c).0, CycleCamera(c).1, true))
    ensures Applied(CycleCamera(c).1) == []
  {
    ShortLog(CycleCamera(c).1);
  }

  lemma RespawnQuiet(c: Connector, points: nat)
    ensures Quiet(c, ProcessSpawn(SpawnVehicle(c), points))
    ensures Applied(ProcessSpawn(SpawnVehicle(c), points).log) == []
  {
    var c1 := SpawnVehicle(c);
    var r := ProcessSpawn(c1, points);
    assert r.c.jobs == c1.jobs == c.jobs;
    assert r.c.lastCapture == c.lastCapture && r.c.generator == c.generator;
  }

  /** An action only appends vehicles. */
  lemma ActionSpawns(c: Connector, func: string, pressed: bool, points: nat, today: string)
    ensures Spawns(c, Action(c, func, pressed, points, today).c, points)
  {
    var r := Action(c, func, pressed, points, today);
    if pressed && func == "respawn" {
      ProcessSpawnKeepsInvariants(SpawnVehicle(c), points);
    } else {
      assert r.c.spawned == c.spawned;
      assert r.c.spawned[..|c.spawned|] == c.spawned;
    }
  }

  /**
   * One non-`None` item of the mapped values, as written: its action on a
   * rising edge, the new previous value, then the reverse comparison and the
   * control sent to the newest vehicle (the control block sits inside the
   * loop, so it runs once per item). When "reverse" is present but unbound
   * the comparison raises after the value was recorded and before any
   * control is applied.
   */
  function HandleItem(c: Connector, cc: OMap<string, Option<real>>, func: string, val: real,
                      points: nat, today: string): (r: Outcome)
    requires |c.spawned| > 0
  {
    var o := Action(c, func, Pressed(Prev(c.last, func), val), points, today);
    ActionSpawns(c, func, Pressed(Prev(c.last, func), val), points, today);
    if !o.ok then o
    else
      var c1 := o.c.(last := Put(o.c.last, func, val));
      if ReverseAsWritten(cc).None? then Outcome(c1, o.log, false)
      else Outcome(c1, o.log + [ApplyControl(LastActor(c1).id, ControlOf(cc))], true)
  }

  /**
   * The item as evidently intended: an unbound reverse function means "not
   * reversing", so only the item's action can make it raise.
   */
  function HandleItemCorrected(c: Connector, cc: OMap<string, Option<real>>, func: string, val: real,
                               points: nat, today: string): (r: Outcome)
    requires |c.spawned| > 0
    ensures |r.c.spawned| >= |c.spawned|
    ensures var o := Action(c, func, Pressed(Prev(c.last, func), val), points, today);
            && (r.ok <==> o.ok)
            && (!o.ok ==> r == o)
            && (o.ok ==> r.c == o.c.(last := Put(c.last, func, val))
                         && r.log == o.log + [ApplyControl(LastActor(o.c).id, ControlOf(cc))])
  {
    var o := Action(c, func, Pressed(Prev(c.last, func), val), points, today);
    ActionSpawns(c, func, Pressed(Prev(c.last, func), val), points, today);
    if !o.ok then o
    else
      var c1 := o.c.(last := Put(o.c.last, func, val));
      Outcome(c1, o.log + [ApplyControl(LastActor(c1).id, ControlOf(cc))], true)
  }

  /**
   * The written item and the corrected one agree wherever the reverse
   * comparison does not raise; where it raises, the written item ends in the
   * corrected item's state without its control.
   */
  lemma HandleItemCorrectedAgrees(c: Connector, cc: OMap<string, Option<real>>, func: string, val: real,
                                  points: nat, today: string)
    requires |c.spawned| > 0
    ensures ReverseAsWritten(cc).Some? ==>
              HandleItem(c, cc, func, val, points, today) == HandleItemCorrected(c, cc, func, val, points, today)
    ensures ReverseAsWritten(cc).None? ==>
              var r := HandleItem(c, cc, func, val, points, today);
              var q := HandleItemCorrected(c, cc, func, val, points, today);
              && !r.ok && r.c == q.c
              && (q.ok ==> q.log == r.log + [ApplyControl(LastActor(q.c).id, ControlOf(cc))])
  {
  }

  /** An item enqueues nothing and only appends vehicles. */
  lemma HandleItemQuiet(c: Connector, cc: OMap<string, Option<real>>, func: string, val: real,
                        points: nat, today: string)
    requires |c.spawned| > 0
    ensures Quiet(c, HandleItem(c, cc, func, val, points, today))
    ensures Spawns(c, HandleItem(c, cc, func, val, points, today).c, points)
  {
    var p := Pressed(Prev(c.last, func), val);
    var o := Action(c, func, p, points, today);
    ActionQuiet(c, func, p, points, today);
    ActionSpawns(c, func, p, points, today);
    if o.ok {
      var c1 := o.c.(last := Put(o.c.last, func, val));
      var e := ApplyControl(LastActor(c1).id, ControlOf(cc));
      QuietRecordControl(c, o, c1, e, points);
    }
  }

  /** Recording a value and appending a control keep an outcome quiet and append-only. */
  lemma QuietRecordControl(c: Connector, o: Outcome, c1: Connector, e: Effect, points: nat)
    requires Quiet(c, o) && Spawns(c, o.c, points)
    requires c1 == o.c.(last := c1.last) && e.ApplyControl?
    ensures Quiet(c, Outcome(c1, o.log, false)) && Spawns(c, c1, points)
    ensures Quiet(c, Outcome(c1, o.log + [e], true))
  {
    LogConcat(o.log, [e]);
    SignalsOnly([e]);
  }

  /**
   * An item raises exactly when its action raises or the reverse comparison
   * raises. Unless the action raised it records its value as the previous
   * one; unless it raised at all it applies exactly one control, to the
   * newest vehicle, and otherwise none.
   */
  lemma HandleItemControl(c: Connector, cc: OMap<string, Option<real>>, func: string, val: real,
                          points: nat, today: string)
    requires |c.spawned| > 0
    ensures var r := HandleItem(c, cc, func, val, points, today);
            var o := Action(c, func, Pressed(Prev(c.last, func), val), points, today);
            && (r.ok <==> o.ok && ReverseAsWritten(cc).Some?)
            && (o.ok ==> r.c.last == Put(c.last, func, val))
            && (r.ok ==> Applied(r.log) == [ApplyControl(LastActor(r.c).id, ControlOf(cc))])
            && (!r.ok ==> Applied(r.log) == [])
  {
    var p := Pressed(Prev(c.last, func), val);
    var o := Action(c, func, p, points, today);
    ActionQuiet(c, func, p, points, today);
    ActionSpawns(c, func, p, points, today);
    if o.ok && ReverseAsWritten(cc).Some? {
      var c1 := o.c.(last := Put(o.c.last, func, val));
      var e := ApplyControl(LastActor(c1).id, ControlOf(cc));
      LogConcat(o.log, [e]);
      assert [e][1..] == [];
      assert Applied([e]) == [e];
    }
  }

  /**
   * The edge rule for one item. Without a rising edge the item only records
   * its value, and it raises exactly when the reverse comparison does. On an
   * edge `cam_switch` moves to the next preset; `record` flips the recording
   * flag unless the item raises; `respawn` with an empty queue consumes its
   * own command at once and spawns a vehicle when a model and spawn points
   * exist, and raises when no model was ever selected.
   */
  lemma HandleItemEdges(c: Connector, cc: OMap<string, Option<real>>, func: string, val: real,
                        points: nat, today: string)
    requires |c.spawned| > 0
    ensures var r := HandleItem(c, cc, func, val, points, today);
            var pressed := Pressed(Prev(c.last, func), val);
            var revOk := ReverseAsWritten(cc).Some?;
            && (!pressed ==> (r.ok <==> revOk) && r.c == c.(last := Put(c.last, func, val)))
            && (pressed && func == "cam_switch" ==> (r.ok <==> revOk) && r.c.camera == Some(NextCamera(c.camera)))
            && (pressed && func == "record" && r.ok ==> r.c.recording == !c.recording)
            && (pressed && func == "respawn" && c.commands == [] ==>
                  && r.c.commands == []
                  && (r.ok <==> c.model.Some? && revOk)
                  && (c.model.Some? && |c.model.value| > 0 && points > 0 ==> |r.c.spawned| == |c.spawned| + 1)
                  && (c.model.Some? && (|c.model.value| == 0 || points == 0) ==> r.c.spawned == c.spawned))
  {
    var pressed := Pressed(Prev(c.last, func), val);
    if !pressed {
      ItemNoEdge(c, cc, func, val, points, today);
    } else if func == "cam_switch" {
      ItemCamSwitch(c, cc, func, val, points, today);
    } else if func == "respawn" && c.commands == [] {
      ItemRespawn(c, cc, func, val, points, today);
    }
  }

  /** An item without an edge, as in `HandleItemEdges`. */
  lemma ItemNoEdge(c: Connector, cc: OMap<string, Option<real>>, func: string, val: real,
                   points: nat, today: string)
    requires |c.spawned| > 0
    requires !Pressed(Prev(c.last, func), val)
    ensures var r := HandleItem(c, cc, func, val, points, today);
            (r.ok <==> ReverseAsWritten(cc).Some?) && r.c == c.(last := Put(c.last, func, val))
  {
  }

  /** A `cam_switch` edge, as in `HandleItemEdges`. */
  lemma ItemCamSwitch(c: Connector, cc: OMap<string, Option<real>>, func: string, val: real,
                      points: nat, today: string)
    requires |c.spawned| > 0
    requires Pressed(Prev(c.last, func), val) && func == "cam_switch"
    ensures var r := HandleItem(c, cc, func, val, points, today);
            (r.ok <==> ReverseAsWritten(cc).Some?) && r.c.camera == Some(NextCamera(c.camera))
  {
  }

  /** A `respawn` edge with an empty queue, as in `HandleItemEdges`. */
  lemma ItemRespawn(c: Connector, cc: OMap<string, Option<real>>, func: string, val: real,
                    points: nat, today: string)
    requires |c.spawned| > 0
    requires Pressed(Prev(c.last, func), val) && func == "respawn" && c.commands == []
    ensures var r := HandleItem(c, cc, func, val, points, today);
            && r.c.commands == []
            && (r.ok <==> c.model.Some? && ReverseAsWritten(cc).Some?)
            && (c.model.Some? && |c.model.value| > 0 && points > 0 ==> |r.c.spawned| == |c.spawned| + 1)
            && (c.model.Some? && (|c.model.value| == 0 || points == 0) ==> r.c.spawned == c.spawned)
  {
    assert ([] + ["spawn"])[1..] == [];
  }

  /** The number of bound (non-`None`) items of the mapped values from index `i` on. */
  function NonNone(cc: OMap<string, Option<real>>, i: nat): nat
    requires i <= |cc|
    decreases |cc| - i
  {
    if i == |cc| then 0 else (if cc[i].1.Some? then 1 else 0) + NonNone(cc, i + 1)
  }

  /** The loop of `_process_control` from item `i` on; `None` items are skipped entirely. */
  function ControlLoop(c: Connector, cc: OMap<string, Option<real>>, i: nat, points: nat, today: string): (r: Outcome)
    requires |c.spawned| > 0
    requires i <= |cc|
    decreases |cc| - i
  {
    if i == |cc| then Outcome(c, [], true)
    else if cc[i].1.None? then ControlLoop(c, cc, i + 1, points, today)
    else
      var o := HandleItem(c, cc, cc[i].0, cc[i].1.value, points, today);
      if !o.ok then o
      else
        assert |o.c.spawned| > 0 by { HandleItemQuiet(c, cc, cc[i].0, cc[i].1.value, points, today); }
        var rest := ControlLoop(o.c, cc, i + 1, points, today);
        Outcome(rest.c, o.log + rest.log, rest.ok)
  }

  /** Every control of a log carries `ctl`; when `to` is given, every control goes to that actor. */
  predicate ControlsAre(log: seq<Effect>, ctl: Control, to: Option<nat>) {
    forall k :: 0 <= k < |Applied(log)| ==>
      Applied(log)[k].ApplyControl? && Applied(log)[k].control == ctl
      && (to.Some? ==> Applied(log)[k].actor == to.value)
  }

  lemma ControlsAreConcat(a: seq<Effect>, b: seq<Effect>, ctl: Control, to: Option<nat>)
    requires ControlsAre(a, ctl, to) && ControlsAre(b, ctl, to)
    ensures ControlsAre(a + b, ctl, to)
  {
    LogConcat(a, b);
    var s := Applied(a + b);
    forall k | 0 <= k < |s|
      ensures s[k].ApplyControl? && s[k].control == ctl && (to.Some? ==> s[k].actor == to.value)
    {
      if k >= |Applied(a)| {
        assert s[k] == Applied(b)[k - |Applied(a)|];
      }
    }
  }

  /** The control loop enqueues nothing, and creates a generator only with its effect. */
  lemma {:induction false} ControlLoopQuiet(c: Connector, cc: OMap<string, Option<real>>, i: nat, points: nat, today: string)
    requires |c.spawned| > 0
    requires i <= |cc|
    ensures Quiet(c, ControlLoop(c, cc, i, points, today))
    decreases |cc| - i
  {
    if i < |cc| {
      if cc[i].1.None? {
        ControlLoopQuiet(c, cc, i + 1, points, today);
      } else {
        var o := HandleItem(c, cc, cc[i].0, cc[i].1.value, points, today);
        HandleItemQuiet(c, cc, cc[i].0, cc[i].1.value, points, today);
        if o.ok {
          ControlLoopQuiet(o.c, cc, i + 1, points, today);
          QuietChain(c, o, ControlLoop(o.c, cc, i + 1, points, today));
        }
      }
    }
  }

  /** The control loop only appends vehicles and keeps the spawn invariants. */
  lemma {:induction false} ControlLoopSpawns(c: Connector, cc: OMap<string, Option<real>>, i: nat, points: nat, today: string)
    requires |c.spawned| > 0
    requires i <= |cc|
    ensures Extends(c, ControlLoop(c, cc, i, points, today).c)
    ensures RoundRobin(c, points) && IdsFresh(c) ==>
              RoundRobin(ControlLoop(c, cc, i, points, today).c, points) && IdsFresh(ControlLoop(c, cc, i, points, today).c)
    decreases |cc| - i
  {
    var r := ControlLoop(c, cc, i, points, today);
    if i == |cc| {
      assert r.c.spawned[..|c.spawned|] == c.spawned;
    } else if cc[i].1.None? {
      ControlLoopSpawns(c, cc, i + 1, points, today);
    } else {
      var o := HandleItem(c, cc, cc[i].0, cc[i].1.value, points, today);
      HandleItemQuiet(c, cc, cc[i].0, cc[i].1.value, points, today);
      if o.ok {
        var rest := ControlLoop(o.c, cc, i + 1, points, today);
        ControlLoopSpawns(o.c, cc, i + 1, points, today);
        assert rest.c.spawned[..|c.spawned|] == rest.c.spawned[..|o.c.spawned|][..|c.spawned|];
      }
    }
  }

  /** Unless an action raised, the control loop applies exactly one control per bound item. */
  lemma {:induction false} ControlLoopCount(c: Connector, cc: OMap<string, Option<real>>, i: nat, points: nat, today: string)
    requires |c.spawned| > 0
    requires i <= |cc|
    ensures ControlLoop(c, cc, i, points, today).ok ==>
              |Applied(ControlLoop(c, cc, i, points, today).log)| == NonNone(cc, i)
    decreases |cc| - i
  {
    if i < |cc| {
      if cc[i].1.None? {
        ControlLoopCount(c, cc, i + 1, points, today);
      } else {
        var o := HandleItem(c, cc, cc[i].0, cc[i].1.value, points, today);
        HandleItemControl(c, cc, cc[i].0, cc[i].1.value, points, today);
        ControlLoopStep(c, cc, i, points, today);
        if o.ok {
          var rest := ControlLoop(o.c, cc, i + 1, points, today);
          ControlLoopCount(o.c, cc, i + 1, points, today);
          LogConcat(o.log, rest.log);
          assert |Applied(o.log)| == 1;
        }
      }
    }
  }

  /** One bound item of the loop: a raise ends it, otherwise the rest of the loop follows. */
  lemma ControlLoopStep(c: Connector, cc: OMap<string, Option<real>>, i: nat, points: nat, today: string)
    requires |c.spawned| > 0
    requires i < |cc| && cc[i].1.Some?
    ensures var o := HandleItem(c, cc, cc[i].0, cc[i].1.value, points, today);
            && (!o.ok ==> ControlLoop(c, cc, i, points, today) == o)
            && (o.ok ==> |o.c.spawned| > 0 && Extends(c, o.c))
            && (o.ok ==> var rest := ControlLoop(o.c, cc, i + 1, points, today);
                         ControlLoop(c, cc, i, points, today) == Outcome(rest.c, o.log + rest.log, rest.ok))
  {
    HandleItemQuiet(c, cc, cc[i].0, cc[i].1.value, points, today);
  }

  /** Every control the loop applies is the one built from the whole table. */
  lemma {:induction false} ControlLoopTargets(c: Connector, cc: OMap<string, Option<real>>, i: nat, points: nat, today: string)
    requires |c.spawned| > 0
    requires i <= |cc|
    ensures ControlsAre(ControlLoop(c, cc, i, points, today).log, ControlOf(cc), None)
    decreases |cc| - i
  {
    if i < |cc| {
      if cc[i].1.None? {
        ControlLoopTargets(c, cc, i + 1, points, today);
      } else {
        var o := HandleItem(c, cc, cc[i].0, cc[i].1.value, points, today);
        HandleItemControl(c, cc, cc[i].0, cc[i].1.value, points, today);
        ControlLoopStep(c, cc, i, points, today);
        if o.ok {
          var rest := ControlLoop(o.c, cc, i + 1, points, today);
          ControlLoopTargets(o.c, cc, i + 1, points, today);
          ControlsAreConcat(o.log, rest.log, ControlOf(cc), None);
        }
      }
    }
  }

  /** When the loop spawns nothing, every control goes to the vehicle that was newest before it. */
  lemma {:induction false} ControlLoopTargetsActor(c: Connector, cc: OMap<string, Option<real>>, i: nat, points: nat, today: string)
    requires |c.spawned| > 0
    requires i <= |cc|
    requires ControlLoop(c, cc, i, points, today).c.spawned == c.spawned
    ensures ControlsAre(ControlLoop(c, cc, i, points, today).log, ControlOf(cc), Some(LastActor(c).id))
    decreases |cc| - i, 1
  {
    if i < |cc| {
      if cc[i].1.None? {
        ControlLoopTargetsActor(c, cc, i + 1, points, today);
      } else if HandleItem(c, cc, cc[i].0, cc[i].1.value, points, today).ok {
        TargetsActorItem(c, cc, i, points, today);
      } else {
        HandleItemControl(c, cc, cc[i].0, cc[i].1.value, points, today);
        ControlLoopStep(c, cc, i, points, today);
      }
    }
  }

  /** The step of `ControlLoopTargetsActor` for a bound item that completes. */
  lemma {:induction false} TargetsActorItem(c: Connector, cc: OMap<string, Option<real>>, i: nat, points: nat, today: string)
    requires |c.spawned| > 0
    requires i < |cc| && cc[i].1.Some?
    requires HandleItem(c, cc, cc[i].0, cc[i].1.value, points, today).ok
    requires ControlLoop(c, cc, i, points, today).c.spawned == c.spawned
    ensures ControlsAre(ControlLoop(c, cc, i, points, today).log, ControlOf(cc), Some(LastActor(c).id))
    decreases |cc| - i, 0
  {
    var o := HandleItem(c, cc, cc[i].0, cc[i].1.value, points, today);
    HandleItemControl(c, cc, cc[i].0, cc[i].1.value, points, today);
    ControlLoopStep(c, cc, i, points, today);
    var rest := ControlLoop(o.c, cc, i + 1, points, today);
    ControlLoopSpawns(o.c, cc, i + 1, points, today);
    if rest.c.spawned == o.c.spawned {
      ControlLoopTargetsActor(o.c, cc, i + 1, points, today);
    }
    TargetsCombine(c, o, rest, ControlLoop(c, cc, i, points, today), ControlOf(cc));
  }

  /** One control to the newest vehicle followed by a rest that spawns nothing and targets it too. */
  lemma TargetsCombine(c: Connector, o: Outcome, rest: Outcome, whole: Outcome, ctl: Control)
    requires |c.spawned| > 0 && |o.c.spawned| > 0
    requires whole == Outcome(rest.c, o.log + rest.log, rest.ok)
    requires Extends(c, o.c) && Extends(o.c, rest.c) && whole.c.spawned == c.spawned
    requires Applied(o.log) == [ApplyControl(LastActor(o.c).id, ctl)]
    requires rest.c.spawned == o.c.spawned ==> ControlsAre(rest.log, ctl, Some(LastActor(o.c).id))
    ensures ControlsAre(whole.log, ctl, Some(LastActor(c).id))
  {
    assert o.c.spawned == c.spawned;
    ControlsAreConcat(o.log, rest.log, ctl, Some(LastActor(c).id));
  }

  /** One bound item followed by the rest of the loop. */
  lemma ControlLoopUnfold(c: Connector, cc: OMap<string, Option<real>>, i: nat, points: nat, today: string)
    requires |c.spawned| > 0
    requires i < |cc| && cc[i].1.Some?
    requires ControlLoop(c, cc, i, points, today).ok
    ensures var o := HandleItem(c, cc, cc[i].0, cc[i].1.value, points, today);
            && o.ok && |o.c.spawned| > 0
            && o.c.last == Put(c.last, cc[i].0, cc[i].1.value)
            && ControlLoop(o.c, cc, i + 1, points, today).ok
            && ControlLoop(c, cc, i, points, today).c == ControlLoop(o.c, cc, i + 1, points, today).c
  {
    HandleItemControl(c, cc, cc[i].0, cc[i].1.value, points, today);
    HandleItemQuiet(c, cc, cc[i].0, cc[i].1.value, points, today);
  }

  /**
   * A completed loop leaves the previous value of a function alone when the
   * function has no bound item: `None` items do not touch the history.
   */
  lemma {:induction false} ControlLoopKeeps(c: Connector, cc: OMap<string, Option<real>>, i: nat, points: nat,
                                           today: string, f: string)
    requires |c.spawned| > 0
    requires i <= |cc|
    requires ControlLoop(c, cc, i, points, today).ok
    requires forall j :: i <= j < |cc| ==> cc[j].0 != f || cc[j].1.None?
    ensures Get(ControlLoop(c, cc, i, points, today).c.last, f) == Get(c.last, f)
    decreases |cc| - i
  {
    if i < |cc| {
      if cc[i].1.None? {
        ControlLoopKeeps(c, cc, i + 1, points, today, f);
      } else {
        var o := HandleItem(c, cc, cc[i].0, cc[i].1.value, points, today);
        ControlLoopUnfold(c, cc, i, points, today);
        ControlLoopKeeps(o.c, cc, i + 1, points, today, f);
        GetPutOther(c.last, cc[i].0, cc[i].1.value, f);
      }
    }
  }

  /** After a completed loop a function with a bound item has that item's value as its previous one. */
  lemma {:induction false} ControlLoopStores(c: Connector, cc: OMap<string, Option<real>>, i: nat, points: nat,
                                            today: string, j: nat)
    requires |c.spawned| > 0
    requires i <= j < |cc| && DistinctKeys(cc) && cc[j].1.Some?
    requires ControlLoop(c, cc, i, points, today).ok
    ensures Get(ControlLoop(c, cc, i, points, today).c.last, cc[j].0) == Some(cc[j].1.value)
    decreases |cc| - i
  {
    var f := cc[j].0;
    if cc[i].1.None? {
      ControlLoopStores(c, cc, i + 1, points, today, j);
    } else {
      var o := HandleItem(c, cc, cc[i].0, cc[i].1.value, points, today);
      ControlLoopUnfold(c, cc, i, points, today);
      if i == j {
        ControlLoopKeeps(o.c, cc, i + 1, points, today, f);
        GetPutSame(c.last, f, cc[i].1.value);
      } else {
        ControlLoopStores(o.c, cc, i + 1, points, today, j);
      }
    }
  }

  /**
   * With "reverse" present but unbound, the first bound item raises: the loop
   * completes only when every value is `None`, and it applies no control.
   */
  lemma {:induction false} ControlLoopReverseRaises(c: Connector, cc: OMap<string, Option<real>>, i: nat,
                                                   points: nat, today: string)
    requires |c.spawned| > 0
    requires i <= |cc|
    requires ReverseAsWritten(cc).None?
    ensures ControlLoop(c, cc, i, points, today).ok <==> NonNone(cc, i) == 0
    ensures Applied(ControlLoop(c, cc, i, points, today).log) == []
    decreases |cc| - i
  {
    if i < |cc| {
      if cc[i].1.None? {
        ControlLoopReverseRaises(c, cc, i + 1, points, today);
      } else {
        HandleItemControl(c, cc, cc[i].0, cc[i].1.value, points, today);
        ControlLoopStep(c, cc, i, points, today);
      }
    }
  }

  /**
   * `_process_control`: nothing happens without a vehicle or without an
   * attached controller manager (`cc` is `None`); otherwise every item of the
   * mapped values is handled in order.
   */
  function ProcessControl(c: Connector, cc: Option<OMap<string, Option<real>>>, points: nat, today: string): (r: Outcome)
    ensures |c.spawned| == 0 || cc.None? ==> r == Outcome(c, [], true)
  {
    if |c.spawned| == 0 || cc.None? then Outcome(c, [], true)
    else ControlLoop(c, cc.value, 0, points, today)
  }

  /**
   * Control targeting: no control without a vehicle or controller manager;
   * otherwise one control per bound item (none at all when every value is
   * `None`), each built from the mapped values and, unless a respawn added a
   * vehicle, sent to the newest vehicle.
   */
  lemma ProcessControlFacts(c: Connector, cc: Option<OMap<string, Option<real>>>, points: nat, today: string)
    ensures var r := ProcessControl(c, cc, points, today);
            && Quiet(c, r) && Extends(c, r.c)
            && (RoundRobin(c, points) && IdsFresh(c) ==> RoundRobin(r.c, points) && IdsFresh(r.c))
            && (|c.spawned| == 0 || cc.None? ==> Applied(r.log) == [])
            && (|c.spawned| > 0 && cc.Some? && r.ok ==> |Applied(r.log)| == NonNone(cc.value, 0))
            && (|c.spawned| > 0 && cc.Some? ==> ControlsAre(r.log, ControlOf(cc.value), None))
            && (|c.spawned| > 0 && cc.Some? && r.c.spawned == c.spawned ==>
                  ControlsAre(r.log, ControlOf(cc.value), Some(LastActor(c).id)))
  {
    if |c.spawned| > 0 && cc.Some? {
      ControlLoopQuiet(c, cc.value, 0, points, today);
      ControlLoopSpawns(c, cc.value, 0, points, today);
      ControlLoopCount(c, cc.value, 0, points, today);
      ControlLoopTargets(c, cc.value, 0, points, today);
      if ProcessControl(c, cc, points, today).c.spawned == c.spawned {
        ControlLoopTargetsActor(c, cc.value, 0, points, today);
      }
    } else {
      assert c.spawned[..|c.spawned|] == c.spawned;
    }
  }

  /**
   * The default configuration leaves "reverse" unbound: then any bound value
   * makes `_process_control` raise before a control is applied, and the
   * connector thread ends.
   */
  lemma ProcessControlReverseRaises(c: Connector, cc: OMap<string, Option<real>>, points: nat, today: string)
    requires |c.spawned| > 0
    requires Get(cc, "reverse") == Some(None)
    ensures ProcessControl(c, Some(cc), points, today).ok <==> NonNone(cc, 0) == 0
    ensures Applied(ProcessControl(c, Some(cc), points, today).log) == []
  {
    ControlLoopReverseRaises(c, cc, 0, points, today);
  }

  // ---------------------------------------------------------------------
  // camera and capture

  /**
   * `_apply_camera`: with a client, a vehicle and a mounted preset ("cockpit"
   * or "bird") selected, place the spectator relative to the newest vehicle;
   * with the free view or an unknown key, nothing. With a client and a vehicle
   * but no camera ever selected the attribute read raises (`None`).
   */
  function ApplyCamera(c: Connector): (r: Option<seq<Effect>>)
    ensures r.None? <==> c.connected && |c.spawned| > 0 && c.camera.None?
    ensures r.Some? && r.value != [] <==>
              c.connected && |c.spawned| > 0 && c.camera.Some? && c.camera.value in ["cockpit", "bird"]
    ensures r.Some? && r.value != [] ==> r.value == [PlaceCamera(LastActor(c).id, c.camera.value)]
  {
    if !c.connected || |c.spawned| == 0 then Some([])
    else if c.camera.None? then None
    else if Settings.CameraConfig(c.camera.value).None? then Some([])
    else Some([PlaceCamera(LastActor(c).id, c.camera.value)])
  }

  /**
   * `set_camera_position`: an id that is not a preset is ignored; a preset is
   * selected, persisted, announced and applied at once.
   */
  function SetCameraPosition(c: Connector, id: string): (r: (Connector, seq<Effect>))
    ensures id !in Settings.CameraKeys ==> r == (c, [])
    ensures id in Settings.CameraKeys ==>
              && r.0.camera == Some(id)
              && DataManager.Get(r.0.data, "camera_selected", Null) == Str(id)
              && r.0.(camera := c.camera, data := c.data) == c
              && ApplyCamera(r.0).Some?
              && r.1 == [CameraSelected(id)] + ApplyCamera(r.0).value
  {
    if id !in Settings.CameraKeys then (c, [])
    else
      DataManager.SetThenGet(c.data, "camera_selected", Str(id), Null);
      var c1 := c.(camera := Some(id), data := DataManager.Set(c.data, "camera_selected", Str(id)));
      (c1, [CameraSelected(id)] + ApplyCamera(c1).value)
  }

  /** The generator exists, recording is on and a folder is set. */
  predicate CaptureArmed(c: Connector) {
    c.generator && c.recording && c.folder.Some?
  }

  /**
   * The recording step of the tick loop with `_record_current_frame`: when
   * armed and at least `SggInterval` seconds have passed since the last
   * capture time, that time becomes `now`, and a job for the newest vehicle
   * into the current folder is enqueued if there is a vehicle.
   */
  function Capture(c: Connector, now: real, frame: int): (r: (Connector, seq<Effect>))
    ensures var passes := CaptureArmed(c) && now - c.lastCapture >= Settings.SggInterval;
            && (!passes ==> r == (c, []))
            && (passes && |c.spawned| == 0 ==> r == (c.(lastCapture := now), []))
            && (passes && |c.spawned| > 0 ==>
                  var job := Job(frame, LastActor(c).id, c.folder.value);
                  r == (c.(lastCapture := now, jobs := c.jobs + [job]), [Enqueued(now, job)]))
  {
    if CaptureArmed(c) && now - c.lastCapture >= Settings.SggInterval then
      var c1 := c.(lastCapture := now);
      if |c1.spawned| == 0 then (c1, [])
      else
        var job := Job(frame, LastActor(c1).id, c1.folder.value);
        (c1.(jobs := c1.jobs + [job]), [Enqueued(now, job)])
    else (c, [])
  }

  /**
   * What every operation keeps: a generator appears only with a
   * `GeneratorCreated` effect, the job queue grows exactly by the enqueued
   * jobs, the capture time never decreases, and an enqueue happens at the new
   * capture time, at least `SggInterval` after the previous one.
   */
  predicate Accounted(c: Connector, r: Outcome) {
    && GenBit(r.c.generator) == GenBit(c.generator) + GenCount(r.log)
    && r.c.jobs == c.jobs + Jobs(r.log)
    && c.lastCapture <= r.c.lastCapture
    && (EnqTimes(r.log) == []
        || (EnqTimes(r.log) == [r.c.lastCapture] && c.lastCapture + Settings.SggInterval <= r.c.lastCapture))
  }

  /** An outcome that enqueues nothing and leaves the capture time alone keeps the accounting. */
  lemma QuietAccounted(c: Connector, r: Outcome)
    requires Quiet(c, r)
    ensures Accounted(c, r)
  {
  }

  /** The capture step is throttled and enqueues at most one job, for the newest vehicle. */
  lemma CaptureFacts(c: Connector, now: real, frame: int)
    ensures var (c1, e) := Capture(c, now, frame);
            && Accounted(c, Outcome(c1, e, true))
            && c1.(lastCapture := c.lastCapture, jobs := c.jobs) == c
            && |e| <= 1 && Applied(e) == []
            && (|Jobs(e)| == 1 ==> CaptureArmed(c) && |c.spawned| > 0
                                   && Jobs(e)[0] == Job(frame, LastActor(c).id, c.folder.value))
  {
    var (c1, e) := Capture(c, now, frame);
    if e != [] {
      assert e[1..] == [];
    }
  }

  // ---------------------------------------------------------------------
  // one tick

  /** What the simulator, the controller manager and the clock supply to one tick. */
  datatype TickInput = TickInput(
    controls: Option<OMap<string, Option<real>>>,  // mapped values; `None` without a controller manager
    points: nat,                                   // number of spawn points of the map
    now: real,                                     // `time.time()`
    frame: int,                                    // the generator's frame counter
    today: string)                                 // today's date for a record folder

  /**
   * One iteration of `_simulation_loop`: spawn, control, camera, capture, in
   * that order. When a step raises, the rest of the iteration is skipped.
   */
  function Tick(c: Connector, inp: TickInput): (r: Outcome)
  {
    var o1 := ProcessSpawn(c, inp.points);
    if !o1.ok then o1
    else
      var o2 := ProcessControl(o1.c, inp.controls, inp.points, inp.today);
      if !o2.ok then o2
      else
        var cam := ApplyCamera(o2.c);
        if cam.None? then Outcome(o2.c, o2.log, false)
        else
          var (c4, e4) := Capture(o2.c, inp.now, inp.frame);
          Outcome(c4, o2.log + cam.value + e4, true)
  }

  /** The control part of a tick: spawn then control, both quiet and only appending vehicles. */
  lemma TickControlFacts(c: Connector, inp: TickInput)
    ensures var o1 := ProcessSpawn(c, inp.points);
            var o2 := ProcessControl(o1.c, inp.controls, inp.points, inp.today);
            && Quiet(c, Outcome(o2.c, o1.log + o2.log, o2.ok)) && o1.log == [] && Extends(c, o2.c)
            && (RoundRobin(c, inp.points) && IdsFresh(c) ==> RoundRobin(o2.c, inp.points) && IdsFresh(o2.c))
  {
    var o1 := ProcessSpawn(c, inp.points);
    ProcessSpawnKeepsInvariants(c, inp.points);
    ShortLog(o1.log);
    var o2 := ProcessControl(o1.c, inp.controls, inp.points, inp.today);
    ProcessControlFacts(o1.c, inp.controls, inp.points, inp.today);
    QuietChain(c, o1, o2);
    assert o2.c.spawned[..|c.spawned|] == o2.c.spawned[..|o1.c.spawned|][..|c.spawned|];
  }

  /** A tick keeps the accounting of generators, jobs and capture times. */
  lemma TickAccounted(c: Connector, inp: TickInput)
    ensures Accounted(c, Tick(c, inp))
  {
    var o1 := ProcessSpawn(c, inp.points);
    TickControlFacts(c, inp);
    if !o1.ok {
      QuietAccounted(c, Outcome(o1.c, [], false));
    } else {
      var o2 := ProcessControl(o1.c, inp.controls, inp.points, inp.today);
      assert o1.log + o2.log == o2.log;
      if !o2.ok || ApplyCamera(o2.c).None? {
        QuietAccounted(c, Outcome(o2.c, o2.log, false));
      } else {
        CameraCaptureAccounted(c, o2.c, o2.log, inp.now, inp.frame);
      }
    }
  }

  /** The last two stages of a tick: camera placement enqueues nothing, the capture at most one job. */
  lemma CameraCaptureAccounted(c: Connector, c2: Connector, log: seq<Effect>, now: real, frame: int)
    requires Quiet(c, Outcome(c2, log, true))
    requires ApplyCamera(c2).Some?
    ensures var cam := ApplyCamera(c2).value;
            var (c4, e4) := Capture(c2, now, frame);
            Accounted(c, Outcome(c4, log + cam + e4, true))
  {
    var cam := ApplyCamera(c2).value;
    var (c4, e4) := Capture(c2, now, frame);
    CaptureFacts(c2, now, frame);
    ShortLog(cam);
    LogConcat(log, cam);
    LogConcat(log + cam, e4);
  }

  /** With a fixed map a tick only appends vehicles and keeps the spawn invariants. */
  lemma TickKeepsSpawnInvariants(c: Connector, inp: TickInput)
    ensures Extends(c, Tick(c, inp).c)
    ensures RoundRobin(c, inp.points) && IdsFresh(c) ==>
              RoundRobin(Tick(c, inp).c, inp.points) && IdsFresh(Tick(c, inp).c)
  {
    ProcessSpawnKeepsInvariants(c, inp.points);
    TickControlFacts(c, inp);
  }
}
