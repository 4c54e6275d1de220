/**
 * `thomas/settings_manager.py`: the earlier settings store. Reads fall back
 * from the state file to the defaults file to a caller-supplied value; at
 * start-up the CARLA version folders are listed, stored, and a saved
 * version that is missing or unknown is replaced by the first one found.
 * Loading and saving the two JSON files is I/O: both objects and the
 * directory listing are parameters.
 */
module SettingsManager {
  import opened Wrappers
  import opened OrderedMap
  import opened Json
  import DataManager

  datatype Manager = Manager(state: OMap<string, Value>, defaults: OMap<string, Value>)

  /** `state.get(key, defaults.get(key, fallback))`. */
  function Get(m: Manager, key: string, fallback: Value): (r: Value)
    ensures key in Keys(m.state) ==> Some(r) == OrderedMap.Get(m.state, key)
    ensures key !in Keys(m.state) && key in Keys(m.defaults) ==> Some(r) == OrderedMap.Get(m.defaults, key)
    ensures key !in Keys(m.state) && key !in Keys(m.defaults) ==> r == fallback
  {
    OrderedMap.Get(m.state, key).GetOr(OrderedMap.Get(m.defaults, key).GetOr(fallback))
  }

  /** `state[key] = value`; the defaults are never written. */
  function Set(m: Manager, key: string, v: Value): (r: Manager)
    ensures r.defaults == m.defaults
    ensures key in Keys(r.state)
  {
    KeysPut(m.state, key, v);
    m.(state := Put(m.state, key, v))
  }

  /** `set` followed by `get` returns the value set, whatever the defaults and fallback. */
  lemma SetThenGet(m: Manager, key: string, v: Value, fallback: Value)
    ensures Get(Set(m, key, v), key, fallback) == v
  {
    GetPutSame(m.state, key, v);
  }

  /** `set` changes no other key of the state. */
  lemma SetKeepsOthers(m: Manager, key: string, v: Value, other: string)
    requires other != key
    ensures OrderedMap.Get(Set(m, key, v).state, other) == OrderedMap.Get(m.state, other)
  {
    GetPutOther(m.state, key, v, other);
  }

  /** Entry `i` is the first directory of the listing. */
  predicate FirstDir(es: seq<DataManager.DirEntry>, i: int)
    requires 0 <= i < |es|
  {
    es[i].isDir && forall k :: 0 <= k < i ==> !es[k].isDir
  }

  /** `_get_available_carla_versions`: every directory name, in listing order, unfiltered. */
  function AvailableVersions(listing: Option<seq<DataManager.DirEntry>>): (r: seq<string>)
    ensures listing.None? ==> r == []
    ensures listing.Some? ==> forall x :: x in r <==> exists e :: e in listing.value && e.isDir && e.name == x
    ensures listing.Some? && |r| > 0 ==>
              exists i :: 0 <= i < |listing.value| && FirstDir(listing.value, i) && listing.value[i].name == r[0]
  {
    match listing
    case None => []
    case Some(es) => DirNames(es)
  }

  /** The names of the directory entries, in listing order. */
  function DirNames(es: seq<DataManager.DirEntry>): (r: seq<string>)
    ensures forall x :: x in r <==> exists e :: e in es && e.isDir && e.name == x
    ensures |r| > 0 ==> exists i :: 0 <= i < |es| && FirstDir(es, i) && es[i].name == r[0]
  {
    if |es| == 0 then []
    else
      assert es == [es[0]] + es[1..];
      (if es[0].isDir then [es[0].name] else []) + DirNames(es[1..])
  }

  /** A list of names as the JSON list stored under "available_carla_versions". */
  function NamesToJson(names: seq<string>): (r: Value)
    ensures r.Arr? && |r.items| == |names|
    ensures forall i :: 0 <= i < |names| ==> r.items[i] == Str(names[i])
  {
    Arr(seq(|names|, i requires 0 <= i < |names| => Str(names[i])))
  }

  /** Python's `v in names` for a JSON value and a list of strings. */
  predicate InNames(v: Value, names: seq<string>) {
    v.Str? && v.s in names
  }

  /** The version check of `__init__`, after the state and defaults are loaded. */
  function Init(state: OMap<string, Value>, defaults: OMap<string, Value>,
                listing: Option<seq<DataManager.DirEntry>>): Manager
  {
    var available := AvailableVersions(listing);
    var m := Set(Manager(state, defaults), "available_carla_versions", NamesToJson(available));
    var current := OrderedMap.Get(m.state, "carla_version");
    if current.None? || !Truthy(current.value) || !InNames(current.value, available) then
      if |available| > 0 then
        var chosen := available[0];
        Set(Set(m, "carla_version", Str(chosen)), "status_message", Str("CARLA-Version gesetzt: " + chosen))
      else
        Set(m, "status_message", Str("Keine CARLA-Versionen gefunden"))
    else m
  }

  /** The stored version list is exactly the scanned one. */
  lemma InitStoresAvailable(state: OMap<string, Value>, defaults: OMap<string, Value>,
                            listing: Option<seq<DataManager.DirEntry>>)
    ensures OrderedMap.Get(Init(state, defaults, listing).state, "available_carla_versions")
              == Some(NamesToJson(AvailableVersions(listing)))
  {
    var available := AvailableVersions(listing);
    var m := Set(Manager(state, defaults), "available_carla_versions", NamesToJson(available));
    GetPutSame(state, "available_carla_versions", NamesToJson(available));
    GetPutOther(m.state, "carla_version", Str(if |available| > 0 then available[0] else ""), "available_carla_versions");
    if |available| > 0 {
      var m1 := Set(m, "carla_version", Str(available[0]));
      GetPutOther(m1.state, "status_message", Str("CARLA-Version gesetzt: " + available[0]), "available_carla_versions");
    }
    GetPutOther(m.state, "status_message", Str("Keine CARLA-Versionen gefunden"), "available_carla_versions");
  }

  /**
   * The start-up version choice: a saved version found in the listing is kept;
   * a missing, empty or unknown one becomes the first listed version, with a
   * status message; with nothing listed the version is left alone and only the
   * status message "Keine CARLA-Versionen gefunden" is written.
   */
  lemma InitChoosesVersion(state: OMap<string, Value>, defaults: OMap<string, Value>,
                           listing: Option<seq<DataManager.DirEntry>>)
    ensures var available := AvailableVersions(listing);
            var saved := OrderedMap.Get(state, "carla_version");
            var r := Init(state, defaults, listing);
            var kept := saved.Some? && Truthy(saved.value) && InNames(saved.value, available);
            && (kept ==> r.state == Set(Manager(state, defaults), "available_carla_versions", NamesToJson(available)).state)
            && (kept ==> OrderedMap.Get(r.state, "carla_version") == saved)
            && (!kept && |available| > 0 ==>
                  && OrderedMap.Get(r.state, "carla_version") == Some(Str(available[0]))
                  && OrderedMap.Get(r.state, "status_message") == Some(Str("CARLA-Version gesetzt: " + available[0])))
            && (!kept && |available| == 0 ==>
                  && OrderedMap.Get(r.state, "carla_version") == saved
                  && OrderedMap.Get(r.state, "status_message") == Some(Str("Keine CARLA-Versionen gefunden")))
  {
    var available := AvailableVersions(listing);
    var m := Set(Manager(state, defaults), "available_carla_versions", NamesToJson(available));
    GetPutOther(state, "available_carla_versions", NamesToJson(available), "carla_version");
    var msg := Str("Keine CARLA-Versionen gefunden");
    GetPutSame(m.state, "status_message", msg);
    GetPutOther(m.state, "status_message", msg, "carla_version");
    if |available| > 0 {
      var chosen := Str(available[0]);
      var m1 := Set(m, "carla_version", chosen);
      GetPutSame(m.state, "carla_version", chosen);
      GetPutOther(m1.state, "status_message", Str("CARLA-Version gesetzt: " + available[0]), "carla_version");
      GetPutSame(m1.state, "status_message", Str("CARLA-Version gesetzt: " + available[0]));
    }
  }
}
