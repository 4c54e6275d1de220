/**
 * `hse/utils/joystick_visualizer.py`: the key-binding window. While a
 * function is being captured, each timer pass compares the controller
 * manager's raw tables with the snapshot of the previous capture pass and
 * binds the function to the first input that has just been pressed or
 * deflected and that no other function already uses. After a binding the
 * highlights are repainted, which raises `KeyError` for a table entry that
 * has no widget. Outside capture mode a pass only redraws widgets, which
 * changes no state here.
 */
module JoystickVisualizer {
  import opened Wrappers
  import opened OrderedMap
  import opened ControllerManager
  import Settings

  /**
   * The binding state: the function being captured (`current_setting`; the
   * `setting_button` widget is set and cleared with it) and the raw tables
   * seen by the last capture pass.
   */
  datatype Viz = Viz(setting: Option<string>, prevAxes: seq<real>, prevButtons: seq<bool>)

  /** `__init__`: not capturing, and the edge snapshots preloaded from the manager. */
  function Init(cm: Manager): (v: Viz)
    ensures !Capturing(v.setting)
    ensures v.prevAxes == cm.rawAxes && v.prevButtons == cm.rawButtons
  {
    Viz(None, cm.rawAxes, cm.rawButtons)
  }

  /** `_on_set_clicked`: start capturing the function named by the clicked button. */
  function StartCapture(v: Viz, func: string): (r: Viz)
    ensures r.setting == Some(func)
    ensures r.prevAxes == v.prevAxes && r.prevButtons == v.prevButtons
  {
    v.(setting := Some(func))
  }

  /** `_reset_set_button`: leave binding mode; the edge snapshots are kept. */
  function ResetSetButton(v: Viz): (r: Viz)
    ensures r.setting.None? && !Capturing(r.setting)
    ensures r.prevAxes == v.prevAxes && r.prevButtons == v.prevButtons
  {
    v.(setting := None)
  }

  /** `mapped(t, i)`: some function other than the one being set is bound to that input. */
  predicate UsedByOther(controls: OMap<string, Binding>, setting: string, kind: string, idx: int) {
    exists k :: 0 <= k < |controls| && controls[k].0 != setting && BoundTo(controls[k].1, kind, idx)
  }

  /** `_prev_raw_buttons.get(j, 0)`. */
  predicate PrevPressed(prev: seq<bool>, j: int) {
    0 <= j < |prev| && prev[j]
  }

  /** `_prev_raw_axes.get(i, 0.0) or 0.0`. */
  function PrevAxis(prev: seq<real>, i: int): real {
    if 0 <= i < |prev| then prev[i] else 0.0
  }

  /** Button `j` has a rising edge and is free for `setting`. */
  predicate ButtonFires(controls: OMap<string, Binding>, setting: string, prev: seq<bool>, cur: seq<bool>, j: nat)
    requires j < |cur|
  {
    cur[j] && !PrevPressed(prev, j) && !UsedByOther(controls, setting, "button", j)
  }

  /** Axis `i` has just crossed 0.5 in magnitude and is free for `setting`. */
  predicate AxisFires(controls: OMap<string, Binding>, setting: string, prev: seq<real>, cur: seq<real>, i: nat)
    requires i < |cur|
  {
    Abs(cur[i]) > CaptureThreshold && Abs(PrevAxis(prev, i)) <= CaptureThreshold
    && !UsedByOther(controls, setting, "axis", i)
  }

  /** The button loop: the first button from `from` on that fires. */
  function FirstButton(controls: OMap<string, Binding>, setting: string, prev: seq<bool>, cur: seq<bool>, from: nat): (r: Option<nat>)
    requires from <= |cur|
    ensures r.Some? ==> from <= r.value < |cur| && ButtonFires(controls, setting, prev, cur, r.value)
    ensures r.Some? ==> forall k :: from <= k < r.value ==> !ButtonFires(controls, setting, prev, cur, k)
    ensures r.None? ==> forall k :: from <= k < |cur| ==> !ButtonFires(controls, setting, prev, cur, k)
    decreases |cur| - from
  {
    if from == |cur| then None
    else if ButtonFires(controls, setting, prev, cur, from) then Some(from)
    else FirstButton(controls, setting, prev, cur, from + 1)
  }

  /** The axis loop: the first axis from `from` on that fires. */
  function FirstAxis(controls: OMap<string, Binding>, setting: string, prev: seq<real>, cur: seq<real>, from: nat): (r: Option<nat>)
    requires from <= |cur|
    ensures r.Some? ==> from <= r.value < |cur| && AxisFires(controls, setting, prev, cur, r.value)
    ensures r.Some? ==> forall k :: from <= k < r.value ==> !AxisFires(controls, setting, prev, cur, k)
    ensures r.None? ==> forall k :: from <= k < |cur| ==> !AxisFires(controls, setting, prev, cur, k)
    decreases |cur| - from
  {
    if from == |cur| then None
    else if AxisFires(controls, setting, prev, cur, from) then Some(from)
    else FirstAxis(controls, setting, prev, cur, from + 1)
  }

  /**
   * The outcome of one timer pass: what was bound, the new binding state, the
   * new manager, and whether the pass ran to its end (`ok` false: it raised).
   */
  datatype Pass = Pass(choice: Choice, viz: Viz, cm: Manager, ok: bool)

  /**
   * A control table entry `_update_highlights` cannot paint: its function has
   * no default colour, or it is bound to an axis or a button (or to a `null`
   * id) that has no widget for the device the window was built for.
   */
  predicate EntryRaises(e: (string, Binding), d: Device) {
    || e.0 !in Settings.ControlFunctions
    || (e.1.kind == Some("axis") && !(e.1.id.Some? && 0 <= e.1.id.value < d.numAxes))
    || (e.1.kind == Some("button") && !(e.1.id.Some? && 0 <= e.1.id.value < d.numButtons))
  }

  /** `_update_highlights` raises `KeyError` exactly when some entry cannot be painted. */
  predicate HighlightsRaise(controls: OMap<string, Binding>, d: Device) {
    exists e :: e in controls && EntryRaises(e, d)
  }

  /**
   * The binding branch of `update_states`. Without a device, or outside
   * capture mode, nothing changes. Otherwise buttons are examined first and
   * axes only when no button fired; the first input that fires is bound to
   * the function being set and capture ends. Then the highlights are
   * repainted; when that raises, the pass ends there and the edge snapshots
   * keep their old contents. Otherwise the snapshots become the current raw
   * tables.
   */
  function EdgeCapture(v: Viz, cm: Manager): (r: Pass)
    ensures !(cm.device.Some? && Capturing(v.setting)) ==> r == Pass(NoBind, v, cm, true)
    ensures cm.device.Some? && Capturing(v.setting) ==>
              && (r.ok <==> r.choice.NoBind? || !HighlightsRaise(r.cm.controls, cm.device.value))
              && (r.ok ==> r.viz.prevAxes == cm.rawAxes && r.viz.prevButtons == cm.rawButtons)
              && (!r.ok ==> r.viz.prevAxes == v.prevAxes && r.viz.prevButtons == v.prevButtons)
    ensures r.choice.BindButton? ==>
              && Capturing(v.setting)
              && r.choice.button < |cm.rawButtons|
              && ButtonFires(cm.controls, v.setting.value, v.prevButtons, cm.rawButtons, r.choice.button)
              && (forall k :: 0 <= k < r.choice.button ==> !ButtonFires(cm.controls, v.setting.value, v.prevButtons, cm.rawButtons, k))
              && r.cm == SetMapping(cm, v.setting.value, "button", r.choice.button)
              && r.viz.setting.None?
    ensures r.choice.BindAxis? ==>
              && Capturing(v.setting)
              && (forall k :: 0 <= k < |cm.rawButtons| ==> !ButtonFires(cm.controls, v.setting.value, v.prevButtons, cm.rawButtons, k))
              && r.choice.axis < |cm.rawAxes|
              && AxisFires(cm.controls, v.setting.value, v.prevAxes, cm.rawAxes, r.choice.axis)
              && (forall k :: 0 <= k < r.choice.axis ==> !AxisFires(cm.controls, v.setting.value, v.prevAxes, cm.rawAxes, k))
              && r.cm == SetMapping(cm, v.setting.value, "axis", r.choice.axis)
              && r.viz.setting.None?
    ensures r.choice.NoBind? && cm.device.Some? && Capturing(v.setting) ==>
              && (forall k :: 0 <= k < |cm.rawButtons| ==> !ButtonFires(cm.controls, v.setting.value, v.prevButtons, cm.rawButtons, k))
              && (forall k :: 0 <= k < |cm.rawAxes| ==> !AxisFires(cm.controls, v.setting.value, v.prevAxes, cm.rawAxes, k))
              && r.cm == cm && r.viz.setting == v.setting
  {
    if cm.device.None? || !Capturing(v.setting) then Pass(NoBind, v, cm, true)
    else
      var s := v.setting.value;
      var next := v.(prevAxes := cm.rawAxes, prevButtons := cm.rawButtons);
      var b := FirstButton(cm.controls, s, v.prevButtons, cm.rawButtons, 0);
      if b.Some? then Bound(BindButton(b.value), v, next, SetMapping(cm, s, "button", b.value))
      else
        var a := FirstAxis(cm.controls, s, v.prevAxes, cm.rawAxes, 0);
        if a.Some? then Bound(BindAxis(a.value), v, next, SetMapping(cm, s, "axis", a.value))
        else Pass(NoBind, next, cm, true)
  }

  /** The end of a pass that bound an input: capture ends, then the highlights are repainted. */
  function Bound(choice: Choice, v: Viz, next: Viz, cm: Manager): (r: Pass)
    requires cm.device.Some?
    ensures r.choice == choice && r.cm == cm && r.viz.setting.None?
    ensures r.ok <==> !HighlightsRaise(cm.controls, cm.device.value)
    ensures r.viz == ResetSetButton(if r.ok then next else v)
  {
    if HighlightsRaise(cm.controls, cm.device.value) then Pass(choice, ResetSetButton(v), cm, false)
    else Pass(choice, ResetSetButton(next), cm, true)
  }

  /**
   * A table that fits the window never makes a binding pass raise: when every
   * entry names a default function and every bound input has a widget, the
   * new binding has one too.
   */
  lemma FittingTableNeverRaises(v: Viz, cm: Manager)
    requires WellShaped(cm) && cm.device.Some? && Capturing(v.setting)
    requires v.setting.value in Settings.ControlFunctions
    requires !HighlightsRaise(cm.controls, cm.device.value)
    ensures EdgeCapture(v, cm).ok
  {
    var r := EdgeCapture(v, cm);
    var d := cm.device.value;
    if !r.choice.NoBind? {
      var kind := if r.choice.BindButton? then "button" else "axis";
      var idx := if r.choice.BindButton? then r.choice.button else r.choice.axis;
      var b := Binding(Some(kind), Some(idx));
      PutEntries(cm.controls, v.setting.value, b);
      assert r.cm.controls == Put(cm.controls, v.setting.value, b);
      forall e | e in r.cm.controls
        ensures !EntryRaises(e, d)
      {
        if e !in cm.controls {
          assert e == (v.setting.value, b);
        }
      }
    }
  }

  /**
   * A binding that no longer fits (left from a device with more inputs, say)
   * makes every binding pass raise, and the pass keeps the old snapshots.
   */
  lemma StaleBindingRaises(v: Viz, cm: Manager, f: string, j: int)
    requires cm.device.Some? && Capturing(v.setting) && f != v.setting.value
    requires Get(cm.controls, f) == Some(Binding(Some("button"), Some(j))) && j >= cm.device.value.numButtons
    requires !EdgeCapture(v, cm).choice.NoBind?
    ensures !EdgeCapture(v, cm).ok
    ensures EdgeCapture(v, cm).viz == ResetSetButton(v)
  {
    var r := EdgeCapture(v, cm);
    assert Get(r.cm.controls, f) == Get(cm.controls, f);
    assert EntryRaises((f, Binding(Some("button"), Some(j))), cm.device.value);
  }

  /**
   * A pass binds at most one input: every function other than the one being
   * set keeps its entry.
   */
  lemma EdgeCaptureTouchesOnlySetting(v: Viz, cm: Manager, f: string)
    requires v.setting.Some? ==> f != v.setting.value
    ensures Get(EdgeCapture(v, cm).cm.controls, f) == Get(cm.controls, f)
  {
  }

  /**
   * Only edges bind: when a capture pass bound nothing and the raw tables have
   * not changed by the next pass, that pass binds nothing either, however
   * long the buttons stay pressed or the axes stay deflected.
   */
  lemma {:induction false} HeldInputNeverBinds(v: Viz, cm: Manager)
    requires EdgeCapture(v, cm).choice.NoBind?
    ensures EdgeCapture(EdgeCapture(v, cm).viz, cm).choice.NoBind?
  {
    var v' := EdgeCapture(v, cm).viz;
    if cm.device.Some? && Capturing(v.setting) {
      var s := v.setting.value;
      var b := FirstButton(cm.controls, s, v'.prevButtons, cm.rawButtons, 0);
      if b.Some? {
        assert PrevPressed(v'.prevButtons, b.value);
      }
    }
  }

  /**
   * The function being set is left out of the "already used" test: when it is
   * the only function bound to button `j`, a rising edge on `j` (with no
   * earlier button firing) rebinds it to `j`.
   */
  lemma RebindOwnButton(v: Viz, cm: Manager, j: nat)
    requires cm.device.Some? && Capturing(v.setting)
    requires j < |cm.rawButtons| && cm.rawButtons[j] && !PrevPressed(v.prevButtons, j)
    requires forall k :: 0 <= k < |cm.controls| && BoundTo(cm.controls[k].1, "button", j) ==>
               cm.controls[k].0 == v.setting.value
    requires forall k :: 0 <= k < j ==> !ButtonFires(cm.controls, v.setting.value, v.prevButtons, cm.rawButtons, k)
    ensures EdgeCapture(v, cm).choice == BindButton(j)
  {
    assert ButtonFires(cm.controls, v.setting.value, v.prevButtons, cm.rawButtons, j);
  }

  /** A button another function uses is never bound, whatever its edge. */
  lemma UsedButtonNeverBound(v: Viz, cm: Manager, j: nat)
    requires v.setting.Some? && UsedByOther(cm.controls, v.setting.value, "button", j)
    ensures EdgeCapture(v, cm).choice != BindButton(j)
  {
  }

  /** Python's `int(x)` on a float: truncation toward zero. */
  function Trunc(x: real): (r: int)
    ensures x >= 0.0 ==> 0 <= r && r as real <= x < r as real + 1.0
    ensures x < 0.0 ==> r <= 0 && r as real - 1.0 < x <= r as real
  {
    if x >= 0.0 then x.Floor else -((-x).Floor)
  }

  /** The bar position for an axis value: `int(v*100)` for "unipolar", `int((v+1)*50)` otherwise. */
  function BarPercent(v: real, style: string): (r: int)
    ensures style != "unipolar" && -1.0 <= v <= 1.0 ==> 0 <= r <= 100
    ensures style == "unipolar" && 0.0 <= v <= 1.0 ==> 0 <= r <= 100
  {
    if style == "unipolar" then Trunc(v * 100.0) else Trunc((v + 1.0) * 50.0)
  }

  /** A bipolar bar stays within the 0..100 range of the progress bar for every axis value in [-1, 1]. */
  lemma BipolarInRange(v: real, style: string)
    requires style != "unipolar"
    requires -1.0 <= v <= 1.0
    ensures 0 <= BarPercent(v, style) <= 100
    ensures v == 0.0 ==> BarPercent(v, style) == 50
  {
  }

  /** A unipolar bar stays within 0..100 for values in [0, 1], and is 0 or below for negative ones. */
  lemma UnipolarInRange(v: real)
    requires -1.0 <= v <= 1.0
    ensures 0.0 <= v ==> 0 <= BarPercent(v, "unipolar") <= 100
    ensures v < 0.0 ==> -100 <= BarPercent(v, "unipolar") <= 0
  {
  }

  /** Truncation is symmetric about zero, unlike Dafny's floor. */
  lemma TruncOdd(x: real)
    ensures Trunc(-x) == -Trunc(x)
  {
  }
}
