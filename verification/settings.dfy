/**
 * The constants of `hse/utils/settings.py`: camera presets, recording rate
 * and the default configuration.
 */
module Settings {
  import opened Wrappers
  import opened Json

  /** A camera preset's local offset (metres) and rotation offset (degrees). */
  datatype Offset = Offset(x: real, y: real, z: real, pitch: real, yaw: real, roll: real)

  /** The keys of `CAMERA_POSITIONS` in declaration order. */
  const CameraKeys: seq<string> := ["free", "cockpit", "bird"]

  /**
   * `CAMERA_POSITIONS.get(key)` read through `if not cfg`: the offset of a
   * mounted preset, and `None` both for "free" and for unknown keys.
   */
  function CameraConfig(key: string): (r: Option<Offset>)
    ensures r.Some? <==> key in CameraKeys && key != "free"
  {
    if key == "cockpit" then Some(Offset(0.8, 0.0, 1.2, 10.0, 0.0, 0.0))
    else if key == "bird" then Some(Offset(-6.0, 0.0, 6.0, -30.0, 0.0, 0.0))
    else None
  }

  /** `SGG_FPS`: target rate of scene-graph snapshots. */
  const SggFps: real := 20.0

  /** `round(1.0 / SGG_FPS, 4)`: minimum seconds between two enqueued snapshots. */
  const SggInterval: real := 0.05

  /** The logical functions of the default control table, in declaration order. */
  const ControlFunctions: seq<string> :=
    ["throttle", "brake", "steering", "reverse", "respawn", "cam_switch", "record"]

  const ControlColors: seq<string> :=
    ["#e6194b", "#3cb44b", "#4363d8", "#f58231", "#911eb4", "#42d4f4", "#f032e6"]

  /** An unbound default entry `{"type": None, "id": None, "color": c}`. */
  function DefaultControlEntry(color: string): Value {
    Obj([("type", Null), ("id", Null), ("color", Str(color))])
  }

  /** `DEFAULT_VALUES["controls"]` as its list of entries. */
  function DefaultControls(): (r: seq<(string, Value)>)
    ensures |r| == |ControlFunctions|
    ensures forall i :: 0 <= i < |r| ==> r[i].0 == ControlFunctions[i]
  {
    seq(|ControlFunctions|, i requires 0 <= i < |ControlFunctions| =>
      (ControlFunctions[i], DefaultControlEntry(ControlColors[i])))
  }

  const DefaultPort: int := 2000
  const DefaultTimeout: real := 15.0

  /** `DEFAULT_VALUES`, in declaration order. */
  function DefaultValues(): seq<(string, Value)> {
    [ ("host", Str("localhost")),
      ("port", Int(DefaultPort)),
      ("timeout", Real(DefaultTimeout)),
      ("carla_version", Str("CARLA_0.9.14")),
      ("model", Str("vehicle.tesla.model3")),
      ("sgg_loaded", Bool(false)),
      ("recording_active", Bool(false)),
      ("last_record_date", Str("")),
      ("last_record_number", Int(0)),
      ("camera_selected", Str("free")),
      ("active_controller", Null),
      ("controls", Obj(DefaultControls())),
      ("known_devices", Obj([]))
    ]
  }
}
