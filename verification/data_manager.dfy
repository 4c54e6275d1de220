/**
 * `hse/data_manager.py`: the persisted configuration of the console.
 * The state is the JSON object of `state.json`; loading it merges in the
 * defaults and repairs `port` and `timeout`; `get`/`set` read and write
 * single keys; a per-day counter names recording folders; the CARLA
 * installation directory is scanned for version folders.
 * Reading and writing the file, `mkdir` and the directory listing itself
 * are I/O: the loaded object, today's date and the listing are parameters.
 */
module DataManager {
  import opened Wrappers
  import opened OrderedMap
  import opened Json
  import opened Text
  import Settings

  type State = OMap<string, Value>

  /**
   * Errors the source raises (Python `TypeError`) instead of handling, and
   * `CounterNotPrinted` for a float counter whose printed form the model does
   * not cover.
   */
  datatype Error =
    | ControlsNotAssignable   // the loaded "controls" value is not a dict and lacks a default function
    | CounterNotNumber        // "last_record_number" is not a number on the day it is used
    | CounterNotPrinted       // a float counter that is not integral or not below 2^53 in magnitude

  /** A folder below the data directory, as its path segments. */
  datatype Path = Path(segments: seq<string>)

  /** One entry of a directory listing. */
  datatype DirEntry = DirEntry(name: string, isDir: bool)

  // ---------------------------------------------------------------------
  // get / set

  /** `state.get(key, default)`. */
  function Get(s: State, key: string, default: Value): (r: Value)
    ensures key !in Keys(s) ==> r == default
    ensures key in Keys(s) ==> (key, r) in s
  {
    OrderedMap.Get(s, key).GetOr(default)
  }

  /** `state[key] = value` (the file is rewritten; that write is I/O). */
  function Set(s: State, key: string, v: Value): (r: State)
    ensures key in Keys(r)
  {
    KeysPut(s, key, v);
    Put(s, key, v)
  }

  /** `set` followed by `get` returns the value set, whatever the default. */
  lemma SetThenGet(s: State, key: string, v: Value, default: Value)
    ensures Get(Set(s, key, v), key, default) == v
  {
    GetPutSame(s, key, v);
  }

  /** `set` leaves every other key as it was, present or absent. */
  lemma SetKeepsOthers(s: State, key: string, v: Value, other: string, default: Value)
    requires other != key
    ensures Get(Set(s, key, v), other, default) == Get(s, other, default)
  {
    GetPutOther(s, key, v, other);
  }

  // ---------------------------------------------------------------------
  // _validate_and_load

  /** The port check: an `int` (a `bool` is one) strictly between 0 and 65536. */
  predicate ValidPort(v: Value) {
    PyInt(v).Some? && 0 < PyInt(v).value < 65536
  }

  /** The timeout check: an `int` or `float` greater than zero. */
  predicate ValidTimeout(v: Value) {
    PyNumber(v).Some? && PyNumber(v).value > 0.0
  }

  /**
   * Python's `func in container` on the loaded "controls" value: key test on a
   * dict, element test on a list, substring test on a string; `None` where the
   * test itself raises `TypeError` (null, bool and numbers).
   */
  function ContainsFunction(c: Value, func: string): (r: Option<bool>)
    ensures c.Obj? ==> r == Some(func in Keys(c.fields))
    ensures r.None? <==> !(c.Obj? || c.Arr? || c.Str?)
  {
    match c
    case Obj(f) => Some(func in Keys(f))
    case Arr(items) => Some(Str(func) in items)
    case Str(s) => Some(IsSubstring(func, s))
    case _ => None
  }

  /**
   * The controls merge into a dict: every default function missing from the
   * loaded table is appended as a copy of its default entry; entries already
   * present are not touched.
   */
  function MergeFields(fields: OMap<string, Value>, defaults: seq<(string, Value)>): OMap<string, Value>
    decreases |defaults|
  {
    if |defaults| == 0 then fields
    else
      MergeFields(MergeStep(fields, defaults[0]), defaults[1..])
  }

  lemma {:induction false} MergeFieldsSpec(fields: OMap<string, Value>, defaults: seq<(string, Value)>)
    requires DistinctKeys(defaults)
    ensures var r := MergeFields(fields, defaults);
            && (forall k :: k in Keys(fields) ==> OrderedMap.Get(r, k) == OrderedMap.Get(fields, k))
            && (forall i :: 0 <= i < |defaults| && defaults[i].0 !in Keys(fields) ==>
                  OrderedMap.Get(r, defaults[i].0) == Some(defaults[i].1))
            && Keys(fields) <= Keys(r)
            && (forall k :: k in Keys(r) ==> k in Keys(fields) || k in Keys(defaults))
  {
    forall k | k in Keys(fields)
      ensures OrderedMap.Get(MergeFields(fields, defaults), k) == OrderedMap.Get(fields, k)
    {
      MergeKeepsPresent(fields, defaults, k);
    }
    forall i | 0 <= i < |defaults| && defaults[i].0 !in Keys(fields)
      ensures OrderedMap.Get(MergeFields(fields, defaults), defaults[i].0) == Some(defaults[i].1)
    {
      MergeFillsMissing(fields, defaults, i);
    }
    MergeKeys(fields, defaults);
  }

  /** One step of the merge: the entry is stored only when its function is missing. */
  function MergeStep(fields: OMap<string, Value>, entry: (string, Value)): OMap<string, Value> {
    if entry.0 in Keys(fields) then fields else Put(fields, entry.0, entry.1)
  }

  lemma MergeStepKeeps(fields: OMap<string, Value>, entry: (string, Value), k: string)
    requires k in Keys(fields) || k != entry.0
    ensures OrderedMap.Get(MergeStep(fields, entry), k) == OrderedMap.Get(fields, k)
    ensures k in Keys(fields) ==> k in Keys(MergeStep(fields, entry))
  {
    KeysPut(fields, entry.0, entry.1);
    if entry.0 !in Keys(fields) {
      GetPutOther(fields, entry.0, entry.1, k);
    }
  }

  lemma MergeStepMissing(fields: OMap<string, Value>, entry: (string, Value), k: string)
    requires k !in Keys(fields) && k != entry.0
    ensures k !in Keys(MergeStep(fields, entry))
  {
    KeysPut(fields, entry.0, entry.1);
  }

  /** A function already in the table keeps its entry through the merge. */
  lemma {:induction false} MergeKeepsPresent(fields: OMap<string, Value>, defaults: seq<(string, Value)>, k: string)
    requires k in Keys(fields)
    ensures OrderedMap.Get(MergeFields(fields, defaults), k) == OrderedMap.Get(fields, k)
    decreases |defaults|
  {
    if |defaults| > 0 {
      MergeStepKeeps(fields, defaults[0], k);
      MergeKeepsPresent(MergeStep(fields, defaults[0]), defaults[1..], k);
    }
  }

  /** A missing function receives its default entry. */
  lemma {:induction false} MergeFillsMissing(fields: OMap<string, Value>, defaults: seq<(string, Value)>, i: nat)
    requires DistinctKeys(defaults)
    requires i < |defaults| && defaults[i].0 !in Keys(fields)
    ensures OrderedMap.Get(MergeFields(fields, defaults), defaults[i].0) == Some(defaults[i].1)
    decreases |defaults|
  {
    var next := MergeStep(fields, defaults[0]);
    if i == 0 {
      KeysPut(fields, defaults[0].0, defaults[0].1);
      GetPutSame(fields, defaults[0].0, defaults[0].1);
      MergeKeepsPresent(next, defaults[1..], defaults[0].0);
    } else {
      MergeStepMissing(fields, defaults[0], defaults[i].0);
      DistinctKeysTail(defaults);
      assert defaults[1..][i - 1] == defaults[i];
      MergeFillsMissing(next, defaults[1..], i - 1);
    }
  }

  /** The merge adds only default functions and removes none. */
  lemma {:induction false} MergeKeys(fields: OMap<string, Value>, defaults: seq<(string, Value)>)
    ensures Keys(fields) <= Keys(MergeFields(fields, defaults))
    ensures forall k :: k in Keys(MergeFields(fields, defaults)) ==> k in Keys(fields) || k in Keys(defaults)
    decreases |defaults|
  {
    if |defaults| > 0 {
      var next := MergeStep(fields, defaults[0]);
      KeysPut(fields, defaults[0].0, defaults[0].1);
      MergeKeys(next, defaults[1..]);
      assert forall k :: k in Keys(defaults[1..]) ==> k in Keys(defaults);
    }
  }

  /**
   * The controls merge on whatever the "controls" key holds: a dict is merged
   * (MergeFields); for a list or string the loop raises at the first default
   * function the membership test does not find, and for any other value at
   * the membership test itself.
   */
  function MergeControls(loaded: Value, defaults: seq<(string, Value)>): (r: Result<Value, Error>)
    ensures loaded.Obj? ==> r == Success(Obj(MergeFields(loaded.fields, defaults)))
    ensures !loaded.Obj? ==> (r.Success? <==>
              forall i :: 0 <= i < |defaults| ==> ContainsFunction(loaded, defaults[i].0) == Some(true))
    ensures r.Success? && !loaded.Obj? ==> r.value == loaded
  {
    if loaded.Obj? then Success(Obj(MergeFields(loaded.fields, defaults)))
    else if forall i | 0 <= i < |defaults| :: ContainsFunction(loaded, defaults[i].0) == Some(true) then Success(loaded)
    else Failure(ControlsNotAssignable)
  }

  /** The repaired value of one default key, given its loaded value (if any). */
  function RepairEntry(key: string, loaded: Option<Value>, default: Value): Result<Value, Error> {
    match loaded
    case None => Success(default)
    case Some(v) =>
      if key == "controls" then MergeControls(v, Settings.DefaultControls())
      else if key == "port" then Success(if ValidPort(v) then v else default)
      else if key == "timeout" then Success(if ValidTimeout(v) then v else default)
      else Success(v)
  }

  lemma ControlFunctionsDistinct()
    ensures DistinctKeys(Settings.DefaultControls())
  {
    var d := Settings.DefaultControls();
    var f := Settings.ControlFunctions;
    forall i, j | 0 <= i < j < |d| ensures d[i].0 != d[j].0 {
      assert d[i].0 == f[i] && d[j].0 == f[j];
      assert f[i][0] != f[j][0] || f[i][2] != f[j][2];
    }
  }

  /** The loop of `_validate_and_load` over the defaults, in order; the first raising entry aborts. */
  function ValidateFrom(s: State, defaults: seq<(string, Value)>): Result<State, Error>
    decreases |defaults|
  {
    if |defaults| == 0 then Success(s)
    else
      var key := defaults[0].0;
      var fixed := RepairEntry(key, OrderedMap.Get(s, key), defaults[0].1);
      if fixed.Failure? then Failure(fixed.error)
      else ValidateFrom(Put(s, key, fixed.value), defaults[1..])
  }

  /** The repaired value of key `i` of `defaults` for the loaded state `s`. */
  function RepairAt(s: State, defaults: seq<(string, Value)>, i: nat): Result<Value, Error>
    requires i < |defaults|
  {
    RepairEntry(defaults[i].0, OrderedMap.Get(s, defaults[i].0), defaults[i].1)
  }

  /** The load succeeds exactly when no entry's repair raises. */
  lemma {:induction false} ValidateFromSucceeds(s: State, defaults: seq<(string, Value)>)
    requires DistinctKeys(defaults)
    ensures ValidateFrom(s, defaults).Success? <==>
              forall i :: 0 <= i < |defaults| ==> RepairAt(s, defaults, i).Success?
    decreases |defaults|
  {
    if |defaults| > 0 {
      var fixed := RepairAt(s, defaults, 0);
      var rest := defaults[1..];
      assert DistinctKeys(rest);
      if fixed.Success? {
        var s' := Put(s, defaults[0].0, fixed.value);
        ValidateFromSucceeds(s', rest);
        forall i | 0 <= i < |rest| ensures RepairAt(s', rest, i) == RepairAt(s, defaults, i + 1) {
          GetPutOther(s, defaults[0].0, fixed.value, defaults[i + 1].0);
        }
        if forall i :: 0 <= i < |defaults| ==> RepairAt(s, defaults, i).Success? {
          forall i | 0 <= i < |rest| ensures RepairAt(s', rest, i).Success? {
            assert RepairAt(s, defaults, i + 1).Success?;
          }
        }
        if ValidateFrom(s', rest).Success? {
          forall i | 0 <= i < |defaults| ensures RepairAt(s, defaults, i).Success? {
            if i > 0 {
              assert RepairAt(s', rest, i - 1).Success?;
            }
          }
        }
      }
    }
  }

  /** Default key `i` ends up holding its repaired value. */
  lemma {:induction false} ValidateFromValueAt(s: State, defaults: seq<(string, Value)>, i: nat)
    requires DistinctKeys(defaults) && i < |defaults|
    requires ValidateFrom(s, defaults).Success?
    ensures RepairAt(s, defaults, i).Success?
    ensures OrderedMap.Get(ValidateFrom(s, defaults).value, defaults[i].0) == Some(RepairAt(s, defaults, i).value)
    decreases |defaults|
  {
    var key := defaults[0].0;
    var fixed := RepairAt(s, defaults, 0);
    var s' := Put(s, key, fixed.value);
    var rest := defaults[1..];
    assert DistinctKeys(rest);
    if i == 0 {
      ValidateFromOthers(s', rest);
      assert key !in Keys(rest);
      GetPutSame(s, key, fixed.value);
    } else {
      ValidateFromValueAt(s', rest, i - 1);
      GetPutOther(s, key, fixed.value, defaults[i].0);
      assert RepairAt(s', rest, i - 1) == RepairAt(s, defaults, i);
    }
  }

  /** Keys that are not defaults are carried over unchanged. */
  lemma {:induction false} ValidateFromOthers(s: State, defaults: seq<(string, Value)>)
    ensures ValidateFrom(s, defaults).Success? ==> forall k :: k !in Keys(defaults) ==>
              OrderedMap.Get(ValidateFrom(s, defaults).value, k) == OrderedMap.Get(s, k)
    decreases |defaults|
  {
    if |defaults| > 0 {
      var key := defaults[0].0;
      var fixed := RepairAt(s, defaults, 0);
      if fixed.Success? {
        var s' := Put(s, key, fixed.value);
        ValidateFromOthers(s', defaults[1..]);
        forall k | k !in Keys(defaults) ensures OrderedMap.Get(s', k) == OrderedMap.Get(s, k) {
          GetPutOther(s, key, fixed.value, k);
        }
        assert forall k :: k !in Keys(defaults) ==> k !in Keys(defaults[1..]);
      }
    }
  }

  lemma DefaultValuesDistinct()
    ensures DistinctKeys(Settings.DefaultValues())
  {
    var d := Settings.DefaultValues();
    forall i, j | 0 <= i < j < |d| ensures d[i].0 != d[j].0 {
      assert |d[i].0| != |d[j].0| || d[i].0[0] != d[j].0[0];
    }
  }

  /** A key other than port, timeout and controls is never repaired. */
  lemma {:induction false} ValidateFromKeeps(s: State, defaults: seq<(string, Value)>, key: string)
    requires DistinctKeys(defaults)
    requires ValidateFrom(s, defaults).Success?
    requires key in Keys(s) && key !in {"port", "timeout", "controls"}
    ensures OrderedMap.Get(ValidateFrom(s, defaults).value, key) == OrderedMap.Get(s, key)
  {
    ValidateFromOthers(s, defaults);
    if key in Keys(defaults) {
      var i :| 0 <= i < |defaults| && Keys(defaults)[i] == key;
      ValidateFromValueAt(s, defaults, i);
    }
  }

  /**
   * `_validate_and_load` on the loaded JSON object: the defaults are visited
   * in declaration order and each is filled in, kept or repaired
   * (RepairEntry); keys unknown to the defaults are kept as they are.
   */
  function ValidateAndLoad(loaded: State): (r: Result<State, Error>)
    ensures r.Success? ==> forall i :: 0 <= i < |Settings.DefaultValues()| ==>
              Settings.DefaultValues()[i].0 in Keys(r.value)
  {
    var d := Settings.DefaultValues();
    var r := ValidateFrom(loaded, d);
    if r.Success? then
      DefaultValuesDistinct();
      forall i | 0 <= i < |d| ensures d[i].0 in Keys(r.value) {
        ValidateFromValueAt(loaded, d, i);
      }
      r
    else r
  }

  /** Loading fails only when a non-dict "controls" value makes the merge raise. */
  lemma LoadFailsOnlyOnControls(loaded: State)
    ensures ValidateAndLoad(loaded).Failure? <==>
              "controls" in Keys(loaded) &&
              MergeControls(Get(loaded, "controls", Null), Settings.DefaultControls()).Failure?
  {
    var d := Settings.DefaultValues();
    DefaultValuesDistinct();
    ValidateFromSucceeds(loaded, d);
    assert d[11].0 == "controls";
    if "controls" in Keys(loaded) && MergeControls(Get(loaded, "controls", Null), Settings.DefaultControls()).Failure? {
      assert RepairAt(loaded, d, 11).Failure?;
    }
    if ValidateAndLoad(loaded).Failure? {
      var i :| 0 <= i < |d| && RepairAt(loaded, d, i).Failure?;
      RepairFailsOnlyOnControls(d[i].0, OrderedMap.Get(loaded, d[i].0), d[i].1);
      assert i == 11 by { DefaultKeyIndex(i); }
    }
  }

  /** Only the "controls" entry can fail to repair. */
  lemma RepairFailsOnlyOnControls(key: string, loaded: Option<Value>, default: Value)
    requires RepairEntry(key, loaded, default).Failure?
    ensures key == "controls" && loaded.Some?
  {
  }

  /** "controls" is the twelfth default and no other. */
  lemma DefaultKeyIndex(i: nat)
    requires i < |Settings.DefaultValues()| && Settings.DefaultValues()[i].0 == "controls"
    ensures i == 11
  {
    DefaultValuesDistinct();
  }

  /** Every default key missing from the file gets its default value. */
  lemma LoadFillsMissingDefaults(loaded: State, i: nat)
    requires i < |Settings.DefaultValues()|
    requires ValidateAndLoad(loaded).Success?
    requires Settings.DefaultValues()[i].0 !in Keys(loaded)
    ensures OrderedMap.Get(ValidateAndLoad(loaded).value, Settings.DefaultValues()[i].0)
              == Some(Settings.DefaultValues()[i].1)
  {
    DefaultValuesDistinct();
    ValidateFromValueAt(loaded, Settings.DefaultValues(), i);
  }

  /** A present key other than port, timeout and controls keeps its loaded value. */
  lemma LoadKeepsPresentKeys(loaded: State, key: string)
    requires ValidateAndLoad(loaded).Success?
    requires key in Keys(loaded) && key !in {"port", "timeout", "controls"}
    ensures OrderedMap.Get(ValidateAndLoad(loaded).value, key) == OrderedMap.Get(loaded, key)
  {
    DefaultValuesDistinct();
    ValidateFromKeeps(loaded, Settings.DefaultValues(), key);
  }

  /** The port is kept only if it is an int strictly between 0 and 65536; otherwise it is 2000. */
  lemma LoadPortRule(loaded: State)
    requires ValidateAndLoad(loaded).Success?
    ensures Get(ValidateAndLoad(loaded).value, "port", Null) ==
              if "port" in Keys(loaded) && ValidPort(Get(loaded, "port", Null))
              then Get(loaded, "port", Null) else Int(Settings.DefaultPort)
  {
    var d := Settings.DefaultValues();
    DefaultValuesDistinct();
    ValidateFromValueAt(loaded, d, 1);
    assert d[1] == ("port", Int(Settings.DefaultPort));
  }

  /** The timeout is kept only if it is a number greater than zero; otherwise it is 15.0. */
  lemma LoadTimeoutRule(loaded: State)
    requires ValidateAndLoad(loaded).Success?
    ensures Get(ValidateAndLoad(loaded).value, "timeout", Null) ==
              if "timeout" in Keys(loaded) && ValidTimeout(Get(loaded, "timeout", Null))
              then Get(loaded, "timeout", Null) else Real(Settings.DefaultTimeout)
  {
    var d := Settings.DefaultValues();
    DefaultValuesDistinct();
    ValidateFromValueAt(loaded, d, 2);
    assert d[2] == ("timeout", Real(Settings.DefaultTimeout));
  }

  /** The merge into a dict, for one function name. */
  lemma MergeDefaultsAt(before: OMap<string, Value>, func: string)
    ensures var after := MergeFields(before, Settings.DefaultControls());
            && (func in Keys(before) ==> OrderedMap.Get(after, func) == OrderedMap.Get(before, func))
            && (func !in Keys(before) && func in Settings.ControlFunctions ==>
                  OrderedMap.Get(after, func) == OrderedMap.Get(Settings.DefaultControls(), func))
  {
    var dc := Settings.DefaultControls();
    ControlFunctionsDistinct();
    MergeFieldsSpec(before, dc);
    if func !in Keys(before) && func in Settings.ControlFunctions {
      var i :| 0 <= i < |dc| && Settings.ControlFunctions[i] == func;
      assert dc[i].0 == func;
      FirstMatch(dc, i);
    }
  }

  /**
   * A loaded controls dict keeps every entry it has and gains each missing
   * default function with its default entry.
   */
  lemma LoadMergesControls(loaded: State, func: string)
    requires ValidateAndLoad(loaded).Success?
    requires "controls" in Keys(loaded) && Get(loaded, "controls", Null).Obj?
    ensures Get(ValidateAndLoad(loaded).value, "controls", Null).Obj?
    ensures var before := Get(loaded, "controls", Null).fields;
            var after := Get(ValidateAndLoad(loaded).value, "controls", Null).fields;
            && (func in Keys(before) ==> OrderedMap.Get(after, func) == OrderedMap.Get(before, func))
            && (func !in Keys(before) && func in Settings.ControlFunctions ==>
                  OrderedMap.Get(after, func) == OrderedMap.Get(Settings.DefaultControls(), func))
  {
    var d := Settings.DefaultValues();
    DefaultValuesDistinct();
    ValidateFromValueAt(loaded, d, 11);
    assert d[11].0 == "controls";
    var before := Get(loaded, "controls", Null).fields;
    assert Get(ValidateAndLoad(loaded).value, "controls", Null) == Obj(MergeFields(before, Settings.DefaultControls()));
    MergeDefaultsAt(before, func);
  }

  // ---------------------------------------------------------------------
  // get_next_record_folder

  /**
   * `last_num + 1`: an int (a bool counts as 0 or 1) gives an int, a float
   * gives a float, and anything else raises (`None`).
   */
  function NextCounter(v: Value): (r: Option<Value>)
    ensures r.Some? <==> PyNumber(v).Some?
    ensures r.Some? ==> PyNumber(r.value) == Some(PyNumber(v).value + 1.0)
    ensures r.Some? ==> (r.value.Int? <==> PyInt(v).Some?) && (r.value.Real? <==> v.Real?)
  {
    match v
    case Int(i) => Some(Int(i + 1))
    case Bool(b) => Some(Int(if b then 2 else 1))
    case Real(x) => Some(Real(x + 1.0))
    case _ => None
  }

  /** 2^53: below it every integer is a float, and `str` prints an integral float as "<n>.0". */
  const FloatExact: real := 9007199254740992.0

  /**
   * `str` of a counter: an int as its digits, an integral float below
   * `FloatExact` in magnitude as its digits followed by ".0". Other floats are
   * not rendered (`None`).
   */
  function CounterText(v: Value): (r: Option<string>)
    ensures v.Int? ==> r == Some(IntToString(v.i))
    ensures v.Real? && r.Some? ==> r.value == IntToString(v.r.Floor) + ".0" && v.r == v.r.Floor as real
    ensures r.Some? <==> v.Int? || (v.Real? && v.r == v.r.Floor as real && -FloatExact < v.r < FloatExact)
  {
    match v
    case Int(i) => Some(IntToString(i))
    case Real(x) => if x == x.Floor as real && -FloatExact < x < FloatExact then Some(IntToString(x.Floor) + ".0") else None
    case _ => None
  }

  /** `record/<date>/record_<n>` below the data directory. */
  function RecordFolder(date: string, n: Value): Path
    requires CounterText(n).Some?
  {
    Path(["record", date, "record_" + CounterText(n).value])
  }

  /**
   * `get_next_record_folder` for the given date: the counter continues on the
   * day of the last recording and restarts at 1 on any other day; date and
   * number are stored. A counter that is not a number raises on the same day;
   * a float counter continues as a float.
   */
  function NextRecordFolder(s: State, today: string): (r: Result<(State, Path), Error>)
    ensures var sameDay := Get(s, "last_record_date", Str("")) == Str(today);
            var next := NextCounter(Get(s, "last_record_number", Int(0)));
            && (r.Failure? <==> sameDay && (next.None? || CounterText(next.value).None?))
            && (r.Failure? && next.None? ==> r.error == CounterNotNumber)
            && (r.Success? ==>
                  var n := if sameDay then next.value else Int(1);
                  && CounterText(n).Some?
                  && r.value.1 == RecordFolder(today, n)
                  && Get(r.value.0, "last_record_date", Null) == Str(today)
                  && Get(r.value.0, "last_record_number", Null) == n)
    ensures r.Success? ==> forall k :: k !in {"last_record_date", "last_record_number"} ==>
              Get(r.value.0, k, Null) == Get(s, k, Null)
  {
    var lastDate := Get(s, "last_record_date", Str(""));
    var lastNum := Get(s, "last_record_number", Int(0));
    var next: Result<Value, Error> :=
      if lastDate != Str(today) then Success(Int(1))
      else if NextCounter(lastNum).None? then Failure(CounterNotNumber)
      else if CounterText(NextCounter(lastNum).value).None? then Failure(CounterNotPrinted)
      else Success(NextCounter(lastNum).value);
    if next.Failure? then Failure(next.error)
    else
      var s1 := Set(s, "last_record_date", Str(today));
      var s2 := Set(s1, "last_record_number", next.value);
      SetThenGet(s1, "last_record_number", next.value, Null);
      SetKeepsOthers(s1, "last_record_number", next.value, "last_record_date", Null);
      SetThenGet(s, "last_record_date", Str(today), Null);
      forall k | k !in {"last_record_date", "last_record_number"}
        ensures Get(s2, k, Null) == Get(s, k, Null)
      {
        SetKeepsOthers(s1, "last_record_number", next.value, k, Null);
        SetKeepsOthers(s, "last_record_date", Str(today), k, Null);
      }
      Success((s2, RecordFolder(today, next.value)))
  }

  lemma MinusMarksNegative(i: int)
    ensures (IntToString(i)[0] == '-') <==> i < 0
  {
    if i >= 0 {
      assert IntToString(i)[0] == NatToString(i)[0];
    }
  }

  lemma {:induction false} IntToStringInjective(a: int, b: int)
    requires IntToString(a) == IntToString(b)
    ensures a == b
  {
    MinusMarksNegative(a);
    MinusMarksNegative(b);
    if a < 0 {
      assert NatToString(-a) == IntToString(a)[1..] == NatToString(-b);
      NatToStringInjective(-a, -b);
    } else {
      NatToStringInjective(a, b);
    }
  }

  /** `str(int)` has no decimal point. */
  lemma IntToStringNoPoint(i: int)
    ensures '.' !in IntToString(i)
  {
    if i < 0 {
      assert IntToString(i) == "-" + NatToString(-i);
    }
  }

  /** `str` of an integral float has a decimal point. */
  lemma FloatTextHasPoint(k: int)
    ensures '.' in IntToString(k) + ".0"
  {
    var t := IntToString(k) + ".0";
    assert t[|t| - 2] == '.';
  }

  /** Different counters render differently: an int never looks like a float. */
  lemma CounterTextInjective(a: Value, b: Value)
    requires CounterText(a).Some? && CounterText(a) == CounterText(b)
    ensures a == b
  {
    var t := CounterText(a).value;
    if a.Int? {
      IntToStringNoPoint(a.i);
      if b.Int? {
        IntToStringInjective(a.i, b.i);
      } else {
        FloatTextHasPoint(b.r.Floor);
      }
    } else {
      FloatTextHasPoint(a.r.Floor);
      if b.Int? {
        IntToStringNoPoint(b.i);
      } else {
        assert IntToString(a.r.Floor) == t[..|t| - 2] == IntToString(b.r.Floor);
        IntToStringInjective(a.r.Floor, b.r.Floor);
      }
    }
  }

  /** Two folders are the same only for the same date and counter. */
  lemma RecordFolderInjective(d1: string, n1: Value, d2: string, n2: Value)
    requires CounterText(n1).Some? && CounterText(n2).Some?
    requires RecordFolder(d1, n1) == RecordFolder(d2, n2)
    ensures d1 == d2 && n1 == n2
  {
    var t1 := RecordFolder(d1, n1).segments[2];
    assert t1 == "record_" + CounterText(n1).value == "record_" + CounterText(n2).value;
    assert CounterText(n1).value == t1[7..] == CounterText(n2).value;
    CounterTextInjective(n1, n2);
  }

  /**
   * Two calls on the same day: the second continues the count by one and
   * yields a different folder from the first; it cannot fail on an int
   * counter.
   */
  lemma SameDayFoldersDistinct(s: State, today: string)
    requires NextRecordFolder(s, today).Success?
    ensures var (s1, f1) := NextRecordFolder(s, today).value;
            var r2 := NextRecordFolder(s1, today);
            && (Get(s1, "last_record_number", Null).Int? ==> r2.Success?)
            && (r2.Success? ==>
                  && PyNumber(Get(r2.value.0, "last_record_number", Null)).value
                       == PyNumber(Get(s1, "last_record_number", Null)).value + 1.0
                  && r2.value.1 != f1)
  {
    var (s1, f1) := NextRecordFolder(s, today).value;
    var n1 := Get(s1, "last_record_number", Null);
    assert Get(s1, "last_record_number", Int(0)) == n1;
    var r2 := NextRecordFolder(s1, today);
    if r2.Success? {
      var n2 := NextCounter(n1).value;
      if r2.value.1 == f1 {
        RecordFolderInjective(today, n2, today, n1);
      }
    }
  }

  // ---------------------------------------------------------------------
  // _scan_carla_versions

  /** Names of directories starting with "CARLA_", in listing order. */
  function VersionNames(entries: seq<DirEntry>): (r: seq<string>)
    ensures forall x :: x in r <==> exists e :: e in entries && e.isDir && StartsWith(e.name, "CARLA_") && e.name == x
  {
    if |entries| == 0 then []
    else
      var e := entries[0];
      assert entries == [e] + entries[1..];
      (if e.isDir && StartsWith(e.name, "CARLA_") then [e.name] else []) + VersionNames(entries[1..])
  }

  /**
   * `_scan_carla_versions`: the sorted names of the "CARLA_" directories;
   * an absent installation directory (`None`) gives the empty list.
   */
  function ScanCarlaVersions(listing: Option<seq<DirEntry>>): (r: seq<string>)
    ensures Sorted(r)
    ensures listing.None? ==> r == []
    ensures listing.Some? ==> multiset(r) == multiset(VersionNames(listing.value))
    ensures forall x :: x in r ==> StartsWith(x, "CARLA_")
    ensures listing.Some? ==> forall e :: e in listing.value && e.isDir && StartsWith(e.name, "CARLA_") ==> e.name in r
  {
    match listing
    case None => []
    case Some(es) =>
      var r := Sort(VersionNames(es));
      assert forall x :: x in r <==> x in multiset(r);
      assert forall x :: x in VersionNames(es) <==> x in multiset(VersionNames(es));
      r
  }
}
