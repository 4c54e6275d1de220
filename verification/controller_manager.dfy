/**
 * `hse/controller_manager.py`: the joystick input layer. One scan cycle
 * reads every axis and button of the current device, applies the dead zone
 * and the per-axis inversion, stores the raw tables, and derives the value
 * of every mapped control function. The embedded visualizer contributes the
 * lookup helpers and the level-triggered key capture.
 *
 * The device is a parameter: its capabilities (`Device`) and one reading of
 * all its inputs (`Snapshot`). The background thread, the lock and the
 * 30 Hz sleep are not modelled; `Scan` is the body of one loop iteration.
 */
module ControllerManager {
  import opened Wrappers
  import opened OrderedMap
  import opened Text

  /** A control table entry `{"type": ..., "id": ...}`; `None` stands for JSON `null`. */
  datatype Binding = Binding(kind: Option<string>, id: Option<int>)

  /** The entry `_assigned_text` falls back to for an unknown function. */
  const Unbound: Binding := Binding(None, None)

  /** The number of axes and buttons a device reports. */
  datatype Device = Device(numAxes: nat, numButtons: nat)

  /** One reading of every axis position and button state, by index. */
  datatype Snapshot = Snapshot(axes: seq<real>, buttons: seq<bool>)

  predicate Fits(s: Snapshot, d: Device) {
    |s.axes| == d.numAxes && |s.buttons| == d.numButtons
  }

  const DeadZone: real := 0.05

  /** The deflection `update_states` needs before an axis is captured. */
  const CaptureThreshold: real := 0.5

  function Abs(x: real): real {
    if x < 0.0 then -x else x
  }

  /**
   * The raw tables `raw_axes` / `raw_buttons` are dicts whose keys are always
   * the indices 0..n-1 of a device (filled in index order at start-up, by
   * `set_device` and by every scan), so they are sequences indexed by key;
   * `idx in raw_axes` is `0 <= idx < |rawAxes|`.
   */
  datatype Manager = Manager(
    controls: OMap<string, Binding>,         // controls_cfg
    invert: map<int, bool>,                  // invert_cfg
    rawAxes: seq<real>,
    rawButtons: seq<bool>,
    lastValues: OMap<string, Option<real>>,  // mapped function values
    device: Option<Device>)

  /** The raw tables hold exactly the indices of the current device, and nothing without one. */
  predicate WellShaped(m: Manager) {
    if m.device.Some? then |m.rawAxes| == m.device.value.numAxes && |m.rawButtons| == m.device.value.numButtons
    else m.rawAxes == [] && m.rawButtons == []
  }

  /** Every stored axis value is exactly zero or outside the dead zone. */
  predicate AxesClean(axes: seq<real>) {
    forall i :: 0 <= i < |axes| ==> axes[i] == 0.0 || Abs(axes[i]) >= DeadZone
  }

  function ZeroAxes(n: nat): (r: seq<real>)
    ensures |r| == n && forall i :: 0 <= i < n ==> r[i] == 0.0
  {
    seq(n, i => 0.0)
  }

  function ReleasedButtons(n: nat): (r: seq<bool>)
    ensures |r| == n && forall i :: 0 <= i < n ==> !r[i]
  {
    seq(n, i => false)
  }

  /**
   * `__init__`: the raw tables get the indices of the first device (if any) at
   * rest, and every configured function starts with no value.
   */
  function Init(controls: OMap<string, Binding>, invert: map<int, bool>, first: Option<Device>): (m: Manager)
    ensures WellShaped(m) && AxesClean(m.rawAxes)
    ensures forall i :: 0 <= i < |m.rawAxes| ==> m.rawAxes[i] == 0.0
    ensures forall j :: 0 <= j < |m.rawButtons| ==> !m.rawButtons[j]
    ensures Keys(m.lastValues) == Keys(controls)
    ensures forall i :: 0 <= i < |m.lastValues| ==> m.lastValues[i].1.None?
  {
    Manager(controls, invert,
      if first.Some? then ZeroAxes(first.value.numAxes) else [],
      if first.Some? then ReleasedButtons(first.value.numButtons) else [],
      seq(|controls|, i requires 0 <= i < |controls| => (controls[i].0, None)),
      first)
  }

  /** `invert_cfg.get(i, False)`. */
  predicate Inverted(invert: map<int, bool>, i: int) {
    i in invert && invert[i]
  }

  /** One axis reading: the dead zone first, then the inversion. */
  function AxisValue(raw: real, inverted: bool): (r: real)
    ensures r == 0.0 || Abs(r) >= DeadZone
    ensures Abs(raw) < DeadZone ==> r == 0.0
    ensures Abs(raw) >= DeadZone && !inverted ==> r == raw
    ensures Abs(raw) >= DeadZone && inverted ==> r == -raw
  {
    var v := if Abs(raw) < DeadZone then 0.0 else raw;
    if inverted then -v else v
  }

  /**
   * The value of one mapped function: the raw axis value for an axis binding
   * whose index is in the table, 1.0 or 0.0 for a button binding, and `None`
   * for anything else (unbound, unknown type, index not in the table).
   */
  function MappedValue(b: Binding, axes: seq<real>, buttons: seq<bool>): (r: Option<real>)
    ensures b.kind == Some("axis") && b.id.Some? && 0 <= b.id.value < |axes| ==> r == Some(axes[b.id.value])
    ensures b.kind == Some("button") && b.id.Some? && 0 <= b.id.value < |buttons| ==>
              r == Some(if buttons[b.id.value] then 1.0 else 0.0)
    ensures r.Some? <==> b.id.Some? && ((b.kind == Some("axis") && 0 <= b.id.value < |axes|) ||
                                        (b.kind == Some("button") && 0 <= b.id.value < |buttons|))
  {
    if b.kind == Some("axis") && b.id.Some? && 0 <= b.id.value < |axes| then Some(axes[b.id.value])
    else if b.kind == Some("button") && b.id.Some? && 0 <= b.id.value < |buttons| then
      Some(if buttons[b.id.value] then 1.0 else 0.0)
    else None
  }

  function Max(a: nat, b: nat): nat {
    if a < b then b else a
  }

  /** The axis loop: indices of the reading are overwritten, any other index is kept. */
  function UpdateAxes(prev: seq<real>, invert: map<int, bool>, axes: seq<real>): seq<real> {
    seq(Max(|prev|, |axes|), i requires 0 <= i < Max(|prev|, |axes|) =>
      if i < |axes| then AxisValue(axes[i], Inverted(invert, i)) else prev[i])
  }

  /** The button loop, likewise. */
  function UpdateButtons(prev: seq<bool>, buttons: seq<bool>): seq<bool> {
    seq(Max(|prev|, |buttons|), j requires 0 <= j < Max(|prev|, |buttons|) =>
      if j < |buttons| then buttons[j] else prev[j])
  }

  /** The mapping loop: every configured function in turn gets its value assigned. */
  function MapAll(values: OMap<string, Option<real>>, controls: OMap<string, Binding>,
                  axes: seq<real>, buttons: seq<bool>): OMap<string, Option<real>>
    decreases |controls|
  {
    if |controls| == 0 then values
    else MapAll(Put(values, controls[0].0, MappedValue(controls[0].1, axes, buttons)), controls[1..], axes, buttons)
  }

  /** One iteration of `_scan_loop`. */
  function Scan(m: Manager, snap: Snapshot): Manager
    requires m.device.Some? ==> Fits(snap, m.device.value)
  {
    var axes := if m.device.Some? then UpdateAxes(m.rawAxes, m.invert, snap.axes) else m.rawAxes;
    var buttons := if m.device.Some? then UpdateButtons(m.rawButtons, snap.buttons) else m.rawButtons;
    m.(rawAxes := axes, rawButtons := buttons, lastValues := MapAll(m.lastValues, m.controls, axes, buttons))
  }

  /** Functions the mapping loop does not visit keep their value. */
  lemma {:induction false} MapAllOthers(values: OMap<string, Option<real>>, controls: OMap<string, Binding>,
                                        axes: seq<real>, buttons: seq<bool>, f: string)
    requires f !in Keys(controls)
    ensures Get(MapAll(values, controls, axes, buttons), f) == Get(values, f)
    decreases |controls|
  {
    if |controls| > 0 {
      assert Keys(controls) == [controls[0].0] + Keys(controls[1..]);
      var v := MappedValue(controls[0].1, axes, buttons);
      MapAllOthers(Put(values, controls[0].0, v), controls[1..], axes, buttons, f);
      GetPutOther(values, controls[0].0, v, f);
    }
  }

  /** Every configured function ends up with the value of its own binding. */
  lemma {:induction false} MapAllValue(values: OMap<string, Option<real>>, controls: OMap<string, Binding>,
                                       axes: seq<real>, buttons: seq<bool>, f: string)
    requires DistinctKeys(controls)
    requires f in Keys(controls)
    ensures Get(MapAll(values, controls, axes, buttons), f) == Some(MappedValue(Get(controls, f).value, axes, buttons))
    decreases |controls|
  {
    var rest := controls[1..];
    assert Keys(controls) == [controls[0].0] + Keys(rest);
    var v := MappedValue(controls[0].1, axes, buttons);
    if controls[0].0 == f {
      assert forall i :: 0 <= i < |rest| ==> rest[i].0 != f by {
        forall i | 0 <= i < |rest| ensures rest[i].0 != f {
          assert rest[i] == controls[i + 1];
        }
      }
      MapAllOthers(Put(values, f, v), rest, axes, buttons, f);
      GetPutSame(values, f, v);
    } else {
      assert DistinctKeys(rest) by {
        forall i, j | 0 <= i < j < |rest| ensures rest[i].0 != rest[j].0 {
          assert rest[i] == controls[i + 1] && rest[j] == controls[j + 1];
        }
      }
      MapAllValue(Put(values, controls[0].0, v), rest, axes, buttons, f);
    }
  }

  /**
   * After a scan, every configured function holds `MappedValue` of its binding
   * over the freshly read raw tables.
   */
  lemma ScanMapsEveryFunction(m: Manager, snap: Snapshot, f: string)
    requires m.device.Some? ==> Fits(snap, m.device.value)
    requires DistinctKeys(m.controls)
    requires f in Keys(m.controls)
    ensures var r := Scan(m, snap);
            Get(r.lastValues, f) == Some(MappedValue(Get(m.controls, f).value, r.rawAxes, r.rawButtons))
  {
    var r := Scan(m, snap);
    MapAllValue(m.lastValues, m.controls, r.rawAxes, r.rawButtons, f);
  }

  /**
   * A scan reads every axis of the device through the dead zone and the
   * inversion flag of that axis, and every button as it is.
   */
  lemma ScanReadsDevice(m: Manager, snap: Snapshot)
    requires m.device.Some? && Fits(snap, m.device.value)
    ensures var r := Scan(m, snap);
            && (forall i :: 0 <= i < |snap.axes| ==> i < |r.rawAxes| && r.rawAxes[i] == AxisValue(snap.axes[i], Inverted(m.invert, i)))
            && (forall j :: 0 <= j < |snap.buttons| ==> j < |r.rawButtons| && r.rawButtons[j] == snap.buttons[j])
  {
  }

  /**
   * A scan keeps the raw tables shaped to the device and every stored axis
   * value outside the dead zone or zero, and changes nothing but the tables
   * and the function values.
   */
  lemma ScanPreserves(m: Manager, snap: Snapshot)
    requires m.device.Some? ==> Fits(snap, m.device.value)
    requires WellShaped(m) && AxesClean(m.rawAxes)
    ensures var r := Scan(m, snap);
            && WellShaped(r) && AxesClean(r.rawAxes)
            && r.controls == m.controls && r.invert == m.invert && r.device == m.device
  {
  }

  /** Without a device the raw tables stay empty, so every function maps to `None`. */
  lemma NoDeviceAllNone(m: Manager, snap: Snapshot, f: string)
    requires m.device.None? && WellShaped(m)
    requires DistinctKeys(m.controls)
    requires f in Keys(m.controls)
    ensures Get(Scan(m, snap).lastValues, f) == Some(None)
  {
    ScanMapsEveryFunction(m, snap, f);
  }

  /** `set_mapping`: overwrite (or add) one function's entry with `{type, id}`; no validation. */
  function SetMapping(m: Manager, func: string, mtype: string, idx: int): (r: Manager)
    ensures Get(r.controls, func) == Some(Binding(Some(mtype), Some(idx)))
    ensures forall f :: f != func ==> Get(r.controls, f) == Get(m.controls, f)
    ensures DistinctKeys(m.controls) ==> DistinctKeys(r.controls)
    ensures r.(controls := m.controls) == m
  {
    var b := Binding(Some(mtype), Some(idx));
    GetPutSame(m.controls, func, b);
    assert forall f :: f != func ==> Get(Put(m.controls, func, b), f) == Get(m.controls, f) by {
      forall f | f != func ensures Get(Put(m.controls, func, b), f) == Get(m.controls, f) {
        GetPutOther(m.controls, func, b, f);
      }
    }
    assert DistinctKeys(m.controls) ==> DistinctKeys(Put(m.controls, func, b)) by {
      if DistinctKeys(m.controls) {
        PutKeepsDistinct(m.controls, func, b);
      }
    }
    m.(controls := Put(m.controls, func, b))
  }

  /** `set_invert`: only the flag of the given axis changes. */
  function SetInvert(m: Manager, axis: int, flag: bool): (r: Manager)
    ensures Inverted(r.invert, axis) == flag
    ensures forall i :: i != axis ==> Inverted(r.invert, i) == Inverted(m.invert, i)
    ensures r.(invert := m.invert) == m
  {
    m.(invert := m.invert[axis := flag])
  }

  /**
   * Flipping one axis's inversion flag negates that axis at the next scan and
   * leaves every other axis as it would have been.
   */
  lemma SetInvertThenScan(m: Manager, snap: Snapshot, axis: int, other: int)
    requires m.device.Some? && Fits(snap, m.device.value)
    requires 0 <= axis < |snap.axes| && 0 <= other < |snap.axes| && other != axis
    ensures Scan(SetInvert(m, axis, true), snap).rawAxes[axis] == -Scan(SetInvert(m, axis, false), snap).rawAxes[axis]
    ensures Scan(SetInvert(m, axis, true), snap).rawAxes[other] == Scan(m, snap).rawAxes[other]
    ensures Scan(SetInvert(m, axis, false), snap).rawAxes[other] == Scan(m, snap).rawAxes[other]
  {
    ScanReadsDevice(m, snap);
    ScanReadsDevice(SetInvert(m, axis, true), snap);
    ScanReadsDevice(SetInvert(m, axis, false), snap);
  }

  /**
   * `set_device`: switch to another device; the raw tables are rebuilt with
   * exactly its indices, at rest, discarding any index of the old device.
   */
  function SetDevice(m: Manager, caps: Device): (r: Manager)
    ensures WellShaped(r) && AxesClean(r.rawAxes) && r.device == Some(caps)
    ensures forall i :: 0 <= i < |r.rawAxes| ==> r.rawAxes[i] == 0.0
    ensures forall j :: 0 <= j < |r.rawButtons| ==> !r.rawButtons[j]
    ensures r.controls == m.controls && r.invert == m.invert && r.lastValues == m.lastValues
  {
    m.(device := Some(caps), rawAxes := ZeroAxes(caps.numAxes), rawButtons := ReleasedButtons(caps.numButtons))
  }

  /** The id as an f-string renders it: the number, or "None" for `null`. */
  function IdText(id: Option<int>): string {
    if id.Some? then IntToString(id.value) else "None"
  }

  /** `_assigned_text`: the label shown next to a function's "Set" button. */
  function AssignedText(controls: OMap<string, Binding>, func: string): string {
    var b := Get(controls, func).GetOr(Unbound);
    if b.kind == Some("axis") then "Axis " + IdText(b.id)
    else if b.kind == Some("button") then "Btn " + IdText(b.id)
    else "None"
  }

  /** The label after `set_mapping` names exactly the new binding. */
  lemma AssignedTextAfterSetMapping(m: Manager, func: string, idx: int)
    ensures AssignedText(SetMapping(m, func, "axis", idx).controls, func) == "Axis " + IntToString(idx)
    ensures AssignedText(SetMapping(m, func, "button", idx).controls, func) == "Btn " + IntToString(idx)
  {
  }

  /** A function absent from the table is labelled "None". */
  lemma AssignedTextUnknown(controls: OMap<string, Binding>, func: string)
    requires func !in Keys(controls)
    ensures AssignedText(controls, func) == "None"
  {
  }

  predicate BoundTo(b: Binding, kind: string, idx: int) {
    b.kind == Some(kind) && b.id == Some(idx)
  }

  /** The position of the first entry bound to `kind` / `idx`, in iteration order. */
  function FirstBoundIndex(controls: OMap<string, Binding>, kind: string, idx: int): (r: Option<nat>)
    ensures r.Some? ==> r.value < |controls| && BoundTo(controls[r.value].1, kind, idx)
    ensures r.Some? ==> forall k :: 0 <= k < r.value ==> !BoundTo(controls[k].1, kind, idx)
    ensures r.None? ==> forall k :: 0 <= k < |controls| ==> !BoundTo(controls[k].1, kind, idx)
  {
    if |controls| == 0 then None
    else if BoundTo(controls[0].1, kind, idx) then Some(0)
    else
      var r := FirstBoundIndex(controls[1..], kind, idx);
      if r.Some? then Some(r.value + 1) else None
  }

  /** `_func_for_axis` / `_func_for_button`: the first function bound to that input, else `None`. */
  function FirstBound(controls: OMap<string, Binding>, kind: string, idx: int): (r: Option<string>)
    ensures r.None? <==> forall k :: 0 <= k < |controls| ==> !BoundTo(controls[k].1, kind, idx)
    ensures r.Some? ==> exists k :: 0 <= k < |controls| && controls[k].0 == r.value && BoundTo(controls[k].1, kind, idx)
  {
    var i := FirstBoundIndex(controls, kind, idx);
    if i.Some? then Some(controls[i.value].0) else None
  }

  function FuncForAxis(controls: OMap<string, Binding>, axis: int): Option<string> {
    FirstBound(controls, "axis", axis)
  }

  function FuncForButton(controls: OMap<string, Binding>, button: int): Option<string> {
    FirstBound(controls, "button", button)
  }

  /** In a table with distinct keys, the function found is really bound to that input. */
  lemma FirstBoundSound(controls: OMap<string, Binding>, kind: string, idx: int)
    requires DistinctKeys(controls)
    requires FirstBound(controls, kind, idx).Some?
    ensures var f := FirstBound(controls, kind, idx).value;
            Get(controls, f).Some? && BoundTo(Get(controls, f).value, kind, idx)
  {
    var i := FirstBoundIndex(controls, kind, idx).value;
    FirstMatch(controls, i);
  }

  /** After `set_mapping(func, "button", j)` the lookup for button `j` finds some function. */
  lemma SetMappingFound(m: Manager, func: string, kind: string, idx: int)
    ensures FirstBound(SetMapping(m, func, kind, idx).controls, kind, idx).Some?
  {
    var r := SetMapping(m, func, kind, idx).controls;
    var v := Get(r, func).value;
    var k :| 0 <= k < |r| && r[k] == (func, v);
    assert BoundTo(r[k].1, kind, idx);
  }

  /** What one pass of the level-triggered capture decides. */
  datatype Choice = BindButton(button: nat) | BindAxis(axis: nat) | NoBind

  /** A function name is being captured (`current_setting` is a non-empty string). */
  predicate Capturing(setting: Option<string>) {
    setting.Some? && |setting.value| > 0
  }

  /**
   * The capture scan of `update_states`: the first pressed button wins; if
   * none is pressed, the first axis deflected beyond 0.5; otherwise nothing.
   */
  method ChooseLevel(snap: Snapshot) returns (c: Choice)
    ensures c.BindButton? ==> c.button < |snap.buttons| && snap.buttons[c.button]
                              && forall k :: 0 <= k < c.button ==> !snap.buttons[k]
    ensures c.BindAxis? ==> (forall k :: 0 <= k < |snap.buttons| ==> !snap.buttons[k])
                            && c.axis < |snap.axes| && Abs(snap.axes[c.axis]) > CaptureThreshold
                            && forall k :: 0 <= k < c.axis ==> Abs(snap.axes[k]) <= CaptureThreshold
    ensures c.NoBind? ==> (forall k :: 0 <= k < |snap.buttons| ==> !snap.buttons[k])
                          && forall k :: 0 <= k < |snap.axes| ==> Abs(snap.axes[k]) <= CaptureThreshold
  {
    var j := 0;
    while j < |snap.buttons|
      invariant 0 <= j <= |snap.buttons|
      invariant forall k :: 0 <= k < j ==> !snap.buttons[k]
    {
      if snap.buttons[j] {
        return BindButton(j);
      }
      j := j + 1;
    }
    var i := 0;
    while i < |snap.axes|
      invariant 0 <= i <= |snap.axes|
      invariant forall k :: 0 <= k < i ==> Abs(snap.axes[k]) <= CaptureThreshold
    {
      if Abs(snap.axes[i]) > CaptureThreshold {
        return BindAxis(i);
      }
      i := i + 1;
    }
    return NoBind;
  }

  /**
   * The binding branch of `update_states` in the visualizer embedded in this
   * file. Without a device, or when no function is being captured, nothing
   * changes. Otherwise a chosen input is bound to the function and capture
   * ends; with nothing chosen the mapping is unchanged and capture stays on.
   */
  method LevelCapture(m: Manager, setting: Option<string>, snap: Snapshot)
    returns (c: Choice, r: Manager, setting': Option<string>)
    ensures !(m.device.Some? && Capturing(setting)) ==> c.NoBind?
    ensures c.BindButton? ==> c.button < |snap.buttons| && snap.buttons[c.button]
                              && forall k :: 0 <= k < c.button ==> !snap.buttons[k]
    ensures c.BindAxis? ==> (forall k :: 0 <= k < |snap.buttons| ==> !snap.buttons[k])
                            && c.axis < |snap.axes| && Abs(snap.axes[c.axis]) > CaptureThreshold
                            && forall k :: 0 <= k < c.axis ==> Abs(snap.axes[k]) <= CaptureThreshold
    ensures c.NoBind? && m.device.Some? && Capturing(setting) ==>
              (forall k :: 0 <= k < |snap.buttons| ==> !snap.buttons[k])
              && forall k :: 0 <= k < |snap.axes| ==> Abs(snap.axes[k]) <= CaptureThreshold
    ensures c.BindButton? ==> Capturing(setting) && r == SetMapping(m, setting.value, "button", c.button) && setting' == None
    ensures c.BindAxis? ==> Capturing(setting) && r == SetMapping(m, setting.value, "axis", c.axis) && setting' == None
    ensures c.NoBind? ==> r == m && setting' == setting
  {
    if m.device.None? || !Capturing(setting) {
      return NoBind, m, setting;
    }
    c := ChooseLevel(snap);
    match c
    case BindButton(j) =>
      r, setting' := SetMapping(m, setting.value, "button", j), None;
    case BindAxis(i) =>
      r, setting' := SetMapping(m, setting.value, "axis", i), None;
    case NoBind =>
      r, setting' := m, setting;
  }
}
