# A model of the Studienprojekt driving console

The repository is a desktop console for the CARLA driving simulator. A
joystick drives a spawned vehicle, and recordings of scene graphs can be
switched on and off. This project models the sequential decision logic under
the Qt, pygame and CARLA calls as pure functions over immutable records, and
proves what that logic guarantees. The modelled parts are:

- **The connector** (`hse/carla_connector.py`, modules `CarlaConnector`,
  `ConnectorRuns` and `RecordWorker`).
  - One iteration of the connector thread (a tick) runs four stages:
    1. it handles one pending spawn command;
    2. it turns the mapped controller values into one-shot actions
       (`cam_switch`, `respawn`, `record`) and vehicle controls;
    3. it places the spectator camera;
    4. while recording, it enqueues a scene-graph job, throttled to
       `SGG_FPS`.
  - The UI slots are events that interleave with ticks: model and camera
    choice, spawn request, start and stop of a recording, connect,
    disconnect and shutdown.
  - The record worker consumes the job queue.
  - Every operation returns the new record together with the log of its
    effects on the outside world (CARLA calls, Qt signals, enqueued jobs).
  - An operation that raises returns the state it reached, marked as not
    ok. A run of events stops at the first raise.
- **The input layer** (`hse/controller_manager.py`, module `ControllerManager`).
  - One scan cycle applies the dead zone and then the axis inversion.
  - The control table is mapped to per-function values.
  - It covers `set_mapping`, `set_invert`, `set_device`, the lookup helpers
    of the embedded visualizer and its level-triggered key capture.
- **The key-binding window** (`hse/utils/joystick_visualizer.py`, module
  `JoystickVisualizer`).
  - Key capture works on rising edges over raw snapshots.
  - An input that another function already uses is excluded.
  - The module also gives the bar percentage of the axis display.
  - This window's `_assigned_text` and `_func_for_button`
    (hse/utils/joystick_visualizer.py:236-246) compute what the manager's
    versions compute. They share `ControllerManager.AssignedText` and
    `ControllerManager.FirstBound`.
- **The configuration** (`hse/data_manager.py` and `thomas/settings_manager.py`,
  modules `DataManager`, `SettingsManager` and `Settings`).
  - Loading merges the defaults into the state, repairs the controls table
    and checks `port` and `timeout`.
  - Reads fall back to a default, and writes replace one key.
  - A per-day counter names the record folders.
  - Version folders are scanned, and a CARLA version is chosen at start-up.

Supporting modules:

- `Json` holds JSON values as Python sees them after `json.load`.
- `OrderedMap` models Python's insertion-ordered dicts as sequences of
  pairs, because the first-match lookups and the per-item control loop
  depend on order.
- `Text` gives `str(int)`, `startswith`, `in` on strings and `sorted`.

## Where the model follows the code over its description

- **Record worker.** Four worker threads are configured, but one is
  submitted (hse/carla_connector.py:88-90). The queue is therefore consumed
  by one sequential worker.
- **Connection.** The connector thread waits for `connect()` once
  (hse/carla_connector.py:318-336). A failed attempt ends the thread, and a
  later `connect()` does nothing. `shutdown` clears `_running`
  (hse/carla_connector.py:171) but does not release that wait. A thread
  still waiting therefore connects when `connect()` comes, announces it, and
  only then leaves the loop without a tick (hse/carla_connector.py:466).
- **Capture time without a vehicle.** When the throttle passes and no
  vehicle exists, the capture time still moves to `now`, although nothing is
  enqueued (hse/carla_connector.py:487-489 and 665-667).
- **Where the control is built.** The `VehicleControl` block is inside the
  loop over the mapped values (hse/carla_connector.py:580-601). One control
  is therefore applied per bound item, and none at all when every value is
  `None`.
- **`set_mapping`.** It validates nothing: any type and index are stored.

## Model

| member | source | states |
|---|---|---|
| Settings.CameraConfig | hse/utils/settings.py:17-31 | a camera key has a mounting offset exactly when it is a preset other than "free" |
| Settings.DefaultControls | hse/utils/settings.py:53-61 | the default control table lists the seven functions in declaration order |
| Json.PyInt | hse/data_manager.py:66 | `isinstance(v, int)` accepts exactly ints and bools, with a bool counting as 0 or 1 |
| Json.PyNumber | hse/data_manager.py:72 | `isinstance(v, (int, float))` accepts exactly ints, bools and floats, and keeps the integer value |
| OrderedMap.Get | hse/data_manager.py:100-102 | a lookup fails exactly for an absent key and otherwise returns a value stored under that key |
| OrderedMap.FirstMatch | hse/data_manager.py:100-102 | in a dict with distinct keys, the lookup finds the value stored at any position |
| OrderedMap.GetPutSame | hse/data_manager.py:104-106 | after `d[k] = v`, `d.get(k)` is `v` |
| OrderedMap.GetPutOther | hse/data_manager.py:104-106 | after `d[k] = v`, every other key reads as before |
| OrderedMap.KeysPut | hse/data_manager.py:104-106 | assignment keeps the key order and appends a new key at the end |
| OrderedMap.PutKeepsDistinct | hse/data_manager.py:104-106 | assignment never duplicates a key |
| Text.NatToStringInjective | hse/data_manager.py:150 | different counter values give different folder-name digits |
| Text.Insert | hse/data_manager.py:116-119 | inserting into a sorted list keeps it sorted and adds exactly that element |
| Text.Sort | hse/data_manager.py:116-119 | `sorted` returns an ordered permutation of its input |
| DataManager.Get | hse/data_manager.py:100-102 | a key's stored value if present, the supplied default otherwise |
| DataManager.Set | hse/data_manager.py:104-107 | after `set` the key is present |
| DataManager.SetThenGet | hse/data_manager.py:100-107 | `get` after `set` returns the value set, whatever the default |
| DataManager.SetKeepsOthers | hse/data_manager.py:100-107 | `set` leaves every other key as it was, present or absent |
| DataManager.ContainsFunction | hse/data_manager.py:58 | `func in controls` tests a dict's keys and raises exactly for values that support no membership test |
| DataManager.MergeKeepsPresent | hse/data_manager.py:57-61 | a function already in the loaded table keeps its entry through the merge |
| DataManager.MergeFillsMissing | hse/data_manager.py:57-61 | a function missing from the loaded table receives a copy of its default entry |
| DataManager.MergeKeys | hse/data_manager.py:57-61 | the merge removes no function and adds only default functions |
| DataManager.MergeFieldsSpec | hse/data_manager.py:54-63 | the merge keeps every loaded entry, fills every missing default and adds nothing else |
| DataManager.MergeControls | hse/data_manager.py:54-63 | a dict is merged; a list or string is kept when it contains every default function and otherwise raises |
| DataManager.RepairEntry | hse/data_manager.py:53-75 | the repair of one default key: a missing key gets the default, controls are merged, port and timeout are checked |
| DataManager.ValidateFrom | hse/data_manager.py:40-75 | the load loop over the default keys in order, stopping at the first raise |
| DataManager.ValidateFromSucceeds | hse/data_manager.py:40-75 | the load loop succeeds exactly when no default key's repair raises |
| DataManager.ValidateFromValueAt | hse/data_manager.py:40-75 | every default key ends up holding its own repaired value |
| DataManager.ValidateFromOthers | hse/data_manager.py:40-75 | keys unknown to the defaults come through the load unchanged |
| DataManager.ValidateFromKeeps | hse/data_manager.py:40-75 | a present key other than port, timeout and controls is never changed by the load |
| DataManager.ValidateAndLoad | hse/data_manager.py:40-75 | after a successful load every default key is present |
| DataManager.RepairFailsOnlyOnControls | hse/data_manager.py:40-75 | only a loaded "controls" value can make the repair of one entry raise |
| DataManager.LoadFailsOnlyOnControls | hse/data_manager.py:54-63 | loading raises exactly when a loaded non-dict "controls" value lacks a default function or supports no membership test |
| DataManager.LoadFillsMissingDefaults | hse/data_manager.py:40-51 | every default key missing from the file gets its default value |
| DataManager.LoadKeepsPresentKeys | hse/data_manager.py:53-75 | a present key other than port, timeout and controls keeps its loaded value |
| DataManager.LoadPortRule | hse/data_manager.py:65-69 | the port is kept exactly when it is an int strictly between 0 and 65536, and is 2000 otherwise |
| DataManager.LoadTimeoutRule | hse/data_manager.py:71-75 | the timeout is kept exactly when it is a number above zero, and is 15.0 otherwise |
| DataManager.MergeDefaultsAt | hse/data_manager.py:57-61 | for one function: a present entry is kept, and a missing default function gets its default entry |
| DataManager.LoadMergesControls | hse/data_manager.py:54-63 | a loaded controls dict keeps its entries and gains each missing default function with its default entry |
| DataManager.NextCounter | hse/data_manager.py:147 | `last_num + 1` is defined exactly for numbers; it adds one to the value, an int or bool gives an int, and a float stays a float |
| DataManager.CounterText | hse/data_manager.py:150 | an int is printed as its digits; an integral float below 2^53 in magnitude as its digits followed by ".0" |
| DataManager.NextRecordFolder | hse/data_manager.py:136-157 | same day: the counter continues as `last_num + 1`, an int as an int and a float as a float; other day: it restarts at 1; date, number and folder `record/<day>/record_<n>` agree; nothing else changes; a counter that is not a number raises on the same day |
| DataManager.CounterTextInjective | hse/data_manager.py:150 | different counters print differently; an int never prints like a float |
| DataManager.IntToStringInjective | hse/data_manager.py:150 | different integers render as different strings |
| DataManager.RecordFolderInjective | hse/data_manager.py:149-150 | two record folders coincide only for the same date and number |
| DataManager.SameDayFoldersDistinct | hse/data_manager.py:136-157 | a second call on the same day increments the counter by one and yields a different folder; with an int counter it cannot fail |
| DataManager.VersionNames | hse/data_manager.py:116-119 | exactly the directories whose names start with "CARLA_" are listed |
| DataManager.ScanCarlaVersions | hse/data_manager.py:109-119 | the scanned list is sorted, holds only "CARLA_" directories and contains every one of them; no directory gives the empty list |
| SettingsManager.Get | thomas/settings_manager.py:49-50 | the state value if present, else the defaults value, else the fallback |
| SettingsManager.Set | thomas/settings_manager.py:52-54 | `set` writes the state only, never the defaults |
| SettingsManager.SetThenGet | thomas/settings_manager.py:49-54 | `get` after `set` returns the value set, whatever the defaults and fallback |
| SettingsManager.SetKeepsOthers | thomas/settings_manager.py:52-54 | `set` changes no other key of the state |
| SettingsManager.AvailableVersions | thomas/settings_manager.py:56-59 | exactly the directory names are listed, unfiltered, and the first one listed is the name of the first directory entry; a missing directory gives the empty list |
| SettingsManager.NamesToJson | thomas/settings_manager.py:19 | the stored list holds the names in order |
| SettingsManager.Init | thomas/settings_manager.py:17-28 | start-up: the version folders are listed and stored, then a CARLA version is chosen |
| SettingsManager.InitStoresAvailable | thomas/settings_manager.py:17-19 | the stored `available_carla_versions` equals the scanned list |
| SettingsManager.InitChoosesVersion | thomas/settings_manager.py:21-28 | a saved version that is listed is kept; a missing or unknown one becomes the first listed version, with a status message; with none listed only "Keine CARLA-Versionen gefunden" is written |
| ControllerManager.Init | hse/controller_manager.py:43-64 | the raw tables start at rest, shaped to the first device (or empty without one), and every configured function starts without a value |
| ControllerManager.AxisValue | hse/controller_manager.py:84-90 | a reading within the dead zone becomes 0.0 before inversion; any other reading is passed on or negated; the result is 0 or outside the dead zone |
| ControllerManager.MappedValue | hse/controller_manager.py:97-105 | an axis binding with an index in the table gives that axis value, and a button binding gives 1.0 or 0.0; anything else gives `None` |
| ControllerManager.MapAllOthers | hse/controller_manager.py:97-105 | functions the mapping loop does not visit keep their value |
| ControllerManager.MapAllValue | hse/controller_manager.py:97-105 | every configured function ends with the value of its own binding |
| ControllerManager.Scan | hse/controller_manager.py:81-105 | one scan cycle: raw tables read through the dead zone and the inversion flags, then every configured function mapped |
| ControllerManager.ScanMapsEveryFunction | hse/controller_manager.py:81-105 | after a scan every configured function holds the value of its binding over the fresh raw tables |
| ControllerManager.ScanReadsDevice | hse/controller_manager.py:82-94 | each axis goes through the dead zone and its own inversion flag; each button is stored as read |
| ControllerManager.ScanPreserves | hse/controller_manager.py:81-105 | a scan keeps the raw tables shaped to the device and free of dead-zone values, and changes no configuration |
| ControllerManager.NoDeviceAllNone | hse/controller_manager.py:82-105 | without a device the raw tables stay empty, so every mapped function is `None` |
| ControllerManager.SetMapping | hse/controller_manager.py:136-139 | only that function's entry changes, to `{type, id}`; all others are unchanged |
| ControllerManager.SetInvert | hse/controller_manager.py:141-144 | only that axis's inversion flag changes |
| ControllerManager.SetInvertThenScan | hse/controller_manager.py:88-90 | flipping one axis's flag negates that axis at the next scan and leaves every other axis as it was |
| ControllerManager.SetDevice | hse/controller_manager.py:146-155 | the raw tables hold exactly the new device's indices, at rest, with no leftover index |
| ControllerManager.AssignedTextAfterSetMapping | hse/controller_manager.py:390-397 | after a mapping, the label reads "Axis i" or "Btn i" for the new binding |
| ControllerManager.AssignedTextUnknown | hse/controller_manager.py:390-397 | a function absent from the table is labelled "None" |
| ControllerManager.FirstBoundIndex | hse/controller_manager.py:474-486 | the position of the first entry bound to that input, in iteration order, or none when no entry is bound |
| ControllerManager.FirstBound | hse/controller_manager.py:474-486 | `_func_for_axis` / `_func_for_button` return a function bound to that input, and `None` exactly when none is |
| ControllerManager.FirstBoundSound | hse/controller_manager.py:474-486 | with distinct keys, the function found really is bound to that input |
| ControllerManager.SetMappingFound | hse/controller_manager.py:481-486 | after a mapping, the lookup for that input finds some function |
| ControllerManager.ChooseLevel | hse/controller_manager.py:419-437 | the first pressed button wins; otherwise the first axis deflected beyond 0.5; otherwise nothing |
| ControllerManager.LevelCapture | hse/controller_manager.py:414-440 | a chosen input is bound to the function being set and capture ends; with nothing chosen the table is unchanged and capture stays on |
| JoystickVisualizer.Init | hse/utils/joystick_visualizer.py:57-69 | the window starts outside capture, with the edge snapshots taken from the manager's raw tables |
| JoystickVisualizer.StartCapture | hse/utils/joystick_visualizer.py:176-182 | a click starts capturing that function; the snapshots are kept |
| JoystickVisualizer.ResetSetButton | hse/utils/joystick_visualizer.py:184-187 | capture ends; the snapshots are kept |
| JoystickVisualizer.FirstButton | hse/utils/joystick_visualizer.py:203-208 | the first button with a rising edge that no other function uses, or none |
| JoystickVisualizer.FirstAxis | hse/utils/joystick_visualizer.py:209-215 | the first axis crossing 0.5 in magnitude that no other function uses, or none |
| JoystickVisualizer.EdgeCapture | hse/utils/joystick_visualizer.py:189-217 | buttons take priority, and axes are examined only when no button fired; at most one input is bound, and capture then ends; after a binding `_update_highlights` raises `KeyError` when an entry names an unknown function or an index outside the device's tables, and the old snapshots stay; otherwise the snapshots become the current tables |
| JoystickVisualizer.FittingTableNeverRaises | hse/utils/joystick_visualizer.py:248-259 | when every entry names a known function and fits the device's tables, a capture pass never raises |
| JoystickVisualizer.StaleBindingRaises | hse/utils/joystick_visualizer.py:248-259 | a function bound to a button the device does not have makes a binding pass raise; capture ends and the old snapshots stay |
| JoystickVisualizer.EdgeCaptureTouchesOnlySetting | hse/utils/joystick_visualizer.py:203-215 | a pass changes no function other than the one being set |
| JoystickVisualizer.HeldInputNeverBinds | hse/utils/joystick_visualizer.py:203-216 | inputs held unchanged across passes never bind after a pass that bound nothing |
| JoystickVisualizer.RebindOwnButton | hse/utils/joystick_visualizer.py:199-206 | the function being set is excluded from the "already used" test, so it can be rebound to its own button |
| JoystickVisualizer.UsedButtonNeverBound | hse/utils/joystick_visualizer.py:199-206 | a button another function uses is never bound |
| JoystickVisualizer.BarPercent | hse/utils/joystick_visualizer.py:223 | the bar stays in 0..100 for a bipolar value in [-1, 1] and for a unipolar value in [0, 1] |
| JoystickVisualizer.Trunc | hse/utils/joystick_visualizer.py:223 | `int(x)` truncates toward zero |
| JoystickVisualizer.BipolarInRange | hse/utils/joystick_visualizer.py:223 | a bipolar bar stays in 0..100 for values in [-1, 1], and is 50 at rest |
| JoystickVisualizer.UnipolarInRange | hse/utils/joystick_visualizer.py:223 | a unipolar bar is in 0..100 for values in [0, 1], and in -100..0 for negative values |
| JoystickVisualizer.TruncOdd | hse/utils/joystick_visualizer.py:223 | truncation is symmetric about zero |
| CarlaConnector.InitialLast | hse/carla_connector.py:122-125 | every function of the stored control table starts with previous value 0.0 |
| CarlaConnector.Init | hse/carla_connector.py:43-125 | a new connector has no client, vehicle, command, job, generator or recording, and capture time 0 |
| CarlaConnector.Reselect | hse/carla_connector.py:429-455 | blueprints are announced; the saved model is reselected only if offered, and the saved camera only if it is a preset; a JSON list or object saved as the camera raises after the model step; nothing else changes |
| CarlaConnector.ReselectIdempotent | hse/carla_connector.py:429-455 | re-selecting a second time over the same blueprints selects and announces the same model and camera |
| CarlaConnector.Connect | hse/carla_connector.py:318-426 | a refused attempt ends the thread and announces failure; otherwise the client is set, success is announced and the selections are restored; a raise while re-selecting or a missing generator module then announces failure and ends the thread; only a full success before `shutdown` starts the tick loop |
| CarlaConnector.Disconnect | hse/carla_connector.py:228-251 | only the client handle is cleared, and the disconnection is announced |
| CarlaConnector.SetVehicleModel | hse/carla_connector.py:184-196 | the model is selected, persisted under "model" with no other key changed, and announced |
| CarlaConnector.SpawnVehicle | hse/carla_connector.py:199-206 | one "spawn" command is queued and nothing else changes |
| CarlaConnector.ProcessSpawn | hse/carla_connector.py:495-520 | at most one command is taken, and an empty queue changes nothing; a spawn with a model and spawn points appends exactly one vehicle at point `len(spawned) % len(points)`; other commands are dropped; a spawn before any model was chosen raises |
| CarlaConnector.ProcessSpawnKeepsInvariants | hse/carla_connector.py:505-520 | spawning only appends, and keeps the round-robin placement and the increasing, distinct actor ids |
| CarlaConnector.IndexOf | hse/carla_connector.py:554 | `list.index` gives the first position of the element |
| CarlaConnector.CameraIndex | hse/carla_connector.py:552-556 | the selected preset's position, with an unset or unknown camera counting as 0 |
| CarlaConnector.NextCamera | hse/carla_connector.py:552-557 | the next camera is always a preset |
| CarlaConnector.NextCameraCycle | hse/carla_connector.py:550-561 | the cycle runs free, cockpit, bird, free; an unset or unknown camera goes to cockpit |
| CarlaConnector.CycleCamera | hse/carla_connector.py:550-561 | a `cam_switch` press selects, persists and announces the next preset |
| CarlaConnector.CameraCycleReturns | hse/carla_connector.py:550-561 | three presses return to the starting preset, and one press always changes it |
| CarlaConnector.StartRecording | hse/carla_connector.py:254-271 | a recording starts with a fresh folder; a generator is created only when none exists; it raises when the counter is not a number (nothing changes) or when no generator class was loaded (folder already taken); a float counter continues as a float |
| CarlaConnector.StopRecording | hse/carla_connector.py:274-282 | recording is switched off and the folder cleared; the generator is kept |
| CarlaConnector.ToggleRecording | hse/carla_connector.py:570-575 | a `record` press flips the recording flag unless the start raises, and a start without any generator raises |
| CarlaConnector.StartQuiet | hse/carla_connector.py:261-271 | starting enqueues nothing and announces every generator it creates |
| CarlaConnector.ToggleQuiet | hse/carla_connector.py:570-575 | a `record` press enqueues nothing, applies no control and announces every generator it creates |
| CarlaConnector.GeneratorCreatedOnce | hse/carla_connector.py:266-267 | starting again reuses the existing generator |
| CarlaConnector.ReverseAsWritten | hse/carla_connector.py:584 | the comparison raises exactly when "reverse" is present with value `None` |
| CarlaConnector.ReverseAsWrittenRaises | hse/carla_connector.py:584 | the default, unbound reverse function makes the comparison raise |
| CarlaConnector.ReverseFlag | hse/carla_connector.py:584 | reversing holds exactly when "reverse" has a value above 0.5 |
| CarlaConnector.ReverseFlagAgrees | hse/carla_connector.py:584 | wherever the comparison as written does not raise, the corrected flag gives the same answer |
| CarlaConnector.Pressed | hse/carla_connector.py:545-547 | the rising-edge rule: above 0.5 now and at most 0.5 at the previous reading |
| CarlaConnector.Prev | hse/carla_connector.py:545 | the previous value is 0.0 before the first reading of a function and its recorded value afterwards |
| CarlaConnector.ControlOf | hse/carla_connector.py:580-597 | throttle, brake and steering are the mapped values (0.0 when missing); the reverse flag is the corrected one, which equals the written comparison wherever that does not raise and is false for an unbound reverse function |
| CarlaConnector.Axis | hse/carla_connector.py:581-583 | a missing function reads 0.0, and a present one reads its value, `None` included |
| CarlaConnector.Action | hse/carla_connector.py:550-575 | without an edge, or for another function, nothing happens; on an edge `cam_switch` cycles, `respawn` queues and processes a spawn, `record` toggles |
| CarlaConnector.ActionQuiet | hse/carla_connector.py:550-575 | an action enqueues nothing, applies no control and announces every generator it creates |
| CarlaConnector.ActionSpawns | hse/carla_connector.py:564-566 | an action only appends vehicles and keeps the spawn invariants |
| CarlaConnector.HandleItem | hse/carla_connector.py:541-601 | one non-`None` item as written: its action on a rising edge, its value recorded, then the reverse comparison, which raises when "reverse" is present but unbound, and one control for the newest vehicle |
| CarlaConnector.HandleItemCorrected | hse/carla_connector.py:578-601 | the item as intended: it raises only when its action raises, and otherwise records its value and applies one control to the newest vehicle |
| CarlaConnector.HandleItemCorrectedAgrees | hse/carla_connector.py:578-601 | the written item equals the corrected one wherever the reverse comparison does not raise; where it raises, it ends in the same state without the control |
| CarlaConnector.HandleItemQuiet | hse/carla_connector.py:539-601 | an item enqueues nothing and only appends vehicles |
| CarlaConnector.HandleItemControl | hse/carla_connector.py:578-601 | an item raises exactly when its action raises or "reverse" is present but unbound; unless its action raised it records its value; unless it raised it applies exactly one control, to the newest vehicle, and otherwise none |
| CarlaConnector.HandleItemEdges | hse/carla_connector.py:541-601 | no edge: only the value is recorded, and the item raises exactly when the reverse comparison does; on an edge the camera advances, recording flips unless the item raises, or the respawn command is consumed at once, raising when no model was ever chosen |
| CarlaConnector.ControlLoop | hse/carla_connector.py:539-601 | the loop over the mapped values in order, skipping `None` items and stopping at the first raise |
| CarlaConnector.ControlLoopQuiet | hse/carla_connector.py:539-601 | the control loop enqueues nothing and announces every generator it creates |
| CarlaConnector.ControlLoopSpawns | hse/carla_connector.py:539-601 | the control loop only appends vehicles and keeps the spawn invariants |
| CarlaConnector.ControlLoopCount | hse/carla_connector.py:539-601 | a completed loop applies exactly one control per non-`None` item |
| CarlaConnector.ControlLoopStep | hse/carla_connector.py:539-601 | a raising item ends the loop; otherwise the rest of the loop follows it |
| CarlaConnector.ControlLoopTargets | hse/carla_connector.py:580-597 | every control applied is built from the whole table of mapped values |
| CarlaConnector.ControlLoopTargetsActor | hse/carla_connector.py:600-601 | when the loop spawns nothing, every control goes to the vehicle that was newest |
| CarlaConnector.ControlLoopUnfold | hse/carla_connector.py:539-578 | in a completed loop each bound item records its value before the rest runs |
| CarlaConnector.ControlLoopReverseRaises | hse/carla_connector.py:539-601 | with "reverse" present but unbound, the loop completes only when no item has a value, and applies no control at all |
| CarlaConnector.ControlLoopKeeps | hse/carla_connector.py:541-542 | a function with no bound item keeps its previous value |
| CarlaConnector.ControlLoopStores | hse/carla_connector.py:578 | a function with a bound item has that value as its previous one |
| CarlaConnector.ProcessControl | hse/carla_connector.py:532-533 | nothing happens without a vehicle or without a controller manager |
| CarlaConnector.ProcessControlFacts | hse/carla_connector.py:532-601 | no control without a vehicle or manager; otherwise one control per bound item, each built from the mapped values and, unless a respawn added a vehicle, sent to the newest vehicle |
| CarlaConnector.ProcessControlReverseRaises | hse/carla_connector.py:532-601 | with a vehicle and "reverse" present but unbound, the control stage raises as soon as any function has a value, and applies no control |
| CarlaConnector.ApplyCamera | hse/carla_connector.py:604-618 | the spectator moves only with a client, a vehicle and a mounted preset, and then relative to the newest vehicle; a never-selected camera raises |
| CarlaConnector.SetCameraPosition | hse/carla_connector.py:209-225 | an id that is not a preset is ignored; a preset is selected, persisted, announced and applied |
| CarlaConnector.Capture | hse/carla_connector.py:484-492 | a job is enqueued only when a generator exists, recording is on, a folder is set, at least `SggInterval` has passed and a vehicle exists; the capture time moves only when the throttle passes |
| CarlaConnector.CaptureFacts | hse/carla_connector.py:656-687 | the capture enqueues at most one job, for the newest vehicle into the current folder, and changes nothing but the queue and capture time |
| CarlaConnector.TickControlFacts | hse/carla_connector.py:466-474 | the spawn and control stages enqueue nothing and only append vehicles |
| CarlaConnector.TickAccounted | hse/carla_connector.py:457-492 | a tick keeps the accounting of generators, jobs and capture times |
| CarlaConnector.CameraCaptureAccounted | hse/carla_connector.py:477-492 | camera placement enqueues nothing, and the capture enqueues at most one throttled job |
| CarlaConnector.TickKeepsSpawnInvariants | hse/carla_connector.py:466-474 | a tick only appends vehicles and keeps the round-robin placement and fresh ids |
| ConnectorRuns.Step | hse/carla_connector.py:466 | the loop ticks only while running with a client; a running loop whose client was cleared exits |
| ConnectorRuns.ShutdownIsFinal | hse/carla_connector.py:158-171 | after `shutdown` no event brings the thread back into the tick loop |
| ConnectorRuns.ShutdownThenConnect | hse/carla_connector.py:318-336 | `shutdown` does not release a thread waiting for `connect()`: a later successful attempt still connects, loads the generator module and announces the connection, and the loop then exits |
| ConnectorRuns.CameraLog | hse/carla_connector.py:209-225 | a camera selection enqueues nothing and creates no generator |
| ConnectorRuns.ConnectLog | hse/carla_connector.py:339-455 | connecting enqueues nothing and creates no generator |
| ConnectorRuns.StepAccounted | hse/carla_connector.py:484-492 | every event keeps the accounting of generators, jobs and capture times |
| ConnectorRuns.CameraStepAccounted | hse/carla_connector.py:209-225 | a camera selection keeps the accounting |
| ConnectorRuns.ConnectStepAccounted | hse/carla_connector.py:339-455 | a connection attempt keeps the accounting |
| ConnectorRuns.StartStepAccounted | hse/carla_connector.py:254-271 | starting a recording keeps the accounting |
| ConnectorRuns.StopStepAccounted | hse/carla_connector.py:274-282 | stopping a recording keeps the accounting |
| ConnectorRuns.IterateAccounted | hse/carla_connector.py:457-492 | an iteration of the thread keeps the accounting |
| ConnectorRuns.SettingsStepAccounted | hse/carla_connector.py:158-206 | model choice, spawn requests, disconnect and shutdown keep the accounting |
| ConnectorRuns.SettingsKeepSpawned | hse/carla_connector.py:184-282 | no event other than a tick changes the spawned vehicles or the id counter |
| ConnectorRuns.StepKeepsSpawnInvariants | hse/carla_connector.py:495-520 | with a fixed map every event keeps the round-robin placement and fresh ids |
| ConnectorRuns.RunGenerators | hse/carla_connector.py:266-267 | over any run, the generator exists exactly when it existed before or was announced once |
| ConnectorRuns.GeneratorAtMostOnce | hse/carla_connector.py:266-267 | from a fresh connector, at most one generator is ever created |
| ConnectorRuns.RunJobs | hse/carla_connector.py:656-687 | the record queue holds exactly the jobs announced, in order |
| ConnectorRuns.RunSpacing | hse/carla_connector.py:484-492 | every enqueue is at least `SggInterval` after the starting capture time and after each earlier enqueue |
| ConnectorRuns.EnqueuesSpaced | hse/carla_connector.py:81-83 | from a fresh connector, consecutive enqueues are at least `SggInterval` (0.05 s) apart |
| ConnectorRuns.RunRoundRobin | hse/carla_connector.py:512 | over any run on one map, the k-th vehicle stands on spawn point `k % points`, with increasing ids |
| ConnectorRuns.InitRoundRobin | hse/carla_connector.py:61 | a fresh connector satisfies the spawn invariants over any run |
| ConnectorRuns.NoneTicksInvisible | hse/carla_connector.py:541-542 | `None` values neither fire nor update the history |
| ConnectorRuns.HeldFiresOnce | hse/carla_connector.py:545-547 | holding a value above 0.5 fires exactly once, on the first tick, if the previous value was at most 0.5 |
| ConnectorRuns.TickHistory | hse/carla_connector.py:578 | the connector follows that history: a bound value becomes the previous one, and a `None` or missing one leaves it |
| RecordWorker.ProcessJobs | hse/carla_connector.py:289-315 | every job is taken once and in order; a failing job does not stop later ones; `task_done` runs once per job |
| RecordWorker.SavedIff | hse/carla_connector.py:299-306 | a job is saved exactly when its generation succeeded |

## Left out

### Concurrency, I/O and foreign calls

- **Threads, waiting and timing.**
  - Threads, locks, `threading.Event` and the blocking and timeouts of
    `queue.Queue` are not modelled.
  - The thread pool is not modelled, and the record worker is one
    sequential consumer.
  - The 30 Hz sleep of the scan loop is not modelled.
  - Interleavings are modelled only as a sequence of whole events.
- **CARLA.**
  - The calls (`Client`, `tick`, `spawn_actor`, `apply_control`, the
    synchronous-mode settings, the traffic manager) are left out. They are
    foreign calls: actors are opaque ids, and controls and camera moves
    are logged effects.
  - The dynamic import of `carla` and of the scene-graph modules is left
    out. Its outcome is the parameter `Attempt`.
  - Only two failures are distinguished: the attempt is refused before the
    client is stored, or it fails at the scene-graph import.
  - A failure of `_load_and_select_blueprints` is not modelled.
- CarlaConnector.ProcessSpawn: a raising `find` (an unknown model id) or
  `spawn_actor` (hse/carla_connector.py:516-519) is not modelled. One example
  is a collision at an occupied spawn point once the round robin wraps
  around. In the source either raise ends the connector thread. In the model
  every spawn with a model and spawn points succeeds and appends one vehicle,
  and so do the run lemmas built on it.
- **Camera geometry.** The forward/right/up projection and the rotation
  sums are float vector arithmetic on CARLA types. A camera move is
  logged as the preset name and the actor id.
- **Job contents.** The job's control dictionary, read back from the
  vehicle through `get_control`, is left out: it comes from CARLA. A job
  holds the frame, the ego id and the folder.
- **Scene graphs.** Generation, saving and the `frame_recorded` signal
  belong to an external library. Whether one job succeeds is a parameter.
- **pygame, Qt and JSON.**
  - Device reads, widgets, styles, layouts and signal wiring are left out.
    Signals are logged effects, and device readings are the parameter
    `Snapshot`.
  - Reading and writing the JSON files, `mkdir` and directory listing are
    I/O. The loaded object, today's date and the listing are parameters.
  - Clock readings (`time.time()`, `date.today()`) are parameters.

### Simplified inputs

- **Mapped values.** `get_mapped_controls` is called by
  hse/carla_connector.py:536 but is not defined in hse/controller_manager.py,
  which has `get_current_control`. The mapped values are therefore a
  parameter `OMap<string, Option<real>>`, and `None` stands for "no
  controller manager attached".
- **The key-binding window** reads `controls_cfg`, `raw_axes` and
  `raw_buttons` of a newer controller manager than the one shown. The model
  gives it the `ControllerManager.Manager` record.
- **Raw tables.** They are sequences indexed 0..n-1, because every writer
  fills them in index order from 0.
  - The inversion table `invert_axes` is a map from integers. After a JSON
    round trip its keys would be strings, so `get(i)` would miss them; that
    is not modelled.
- **Control table entries.** They have a type and an id, each possibly
  `null`.
  - An entry missing the "id" key altogether is treated as `null`. The
    window's `_assigned_text` would raise `KeyError` on it.
  - A "controls" value that is not a dict is read by the connector and the
    manager as an empty table.
- **Actor ids and camera selection.**
  - Actor ids are naturals handed out in spawn order.
  - After a raise the model keeps the state reached. The source would go on
    with the next Qt event or end the thread.
  - A connection attempt is made only from the waiting phase: the thread
    waits for `connect()` once.
  - `_vehicle_model` and `_camera_selected` never assigned are `None`. A
    spawn or a camera placement that reads them raises (`AttributeError`).
- **Unbound throttle, brake and steering.** These values are handed on as
  `None` inside `Control`. What `VehicleControl` does with `None` is
  CARLA's business.

### Numbers

- **Floats are exact reals.** Python floats are modelled as Dafny `real`.
  Rounding, NaN and the infinities are not modelled. So:
  - `int(0.29 * 100)` is 29 in the model and 28 in Python
    (JoystickVisualizer.BarPercent).
  - A NaN or infinite timeout is not modelled. In Python a NaN passes the
    `<= 0` test of hse/data_manager.py:72 and an infinity is kept as well.
  - The throttle test `now - last >= interval` of
    hse/carla_connector.py:487 is compared exactly, and `SggInterval` is the
    exact 0.05 that `round(1.0 / SGG_FPS, 4)` denotes.
- DataManager.NextRecordFolder: a float counter is printed only when it is
  integral and below 2^53 in magnitude, as its digits followed by ".0".
  Other floats fail with `CounterNotPrinted`, where Python would print
  `record_4.5` or an exponent form such as `record_1e+16`.
- CarlaConnector.StartRecording: inherits that limit, so a float counter
  outside it fails the start instead of naming a folder.

### Members and display

- CarlaConnector.Tick has no contract of its own. It is the composition of
  the four stages, and its properties are stated by
  CarlaConnector.TickAccounted, CarlaConnector.TickKeepsSpawnInvariants and
  CarlaConnector.TickControlFacts.
- **Display.** The display branch of both `update_states` and the axis
  style combo box are left out, because they paint widgets. The bar formula
  is kept (JoystickVisualizer.BarPercent).
  - The painting done by `_update_highlights` is left out. Its lookups are
    kept: the default colour of each function and the widget of each bound
    index (hse/utils/joystick_visualizer.py:253-259). They raise `KeyError`
    after a binding and before the snapshots are taken
    (hse/utils/joystick_visualizer.py:208, 215-216), and that is modelled
    (JoystickVisualizer.EdgeCapture).
  - The same colour lookup in the display branch
    (hse/utils/joystick_visualizer.py:229) and the call at the end of
    `_build_ui_for_joystick` (hse/utils/joystick_visualizer.py:160) are left
    out with the rest of the display.
- **Other repository code.** Scene-graph generation and the
  autonomous-driving scripts are not part of this model. The same goes for
  the follow camera of `thomas/cruise*.py` and the wiring-only scripts.

## Findings

| source | as written | input that shows it | evidently intended | confidence | as-written member | corrected member |
|---|---|---|---|---|---|---|
| hse/carla_connector.py:584 | `reverse = (current_controls.get("reverse", 0.0) > 0.5)` compares the raw mapped value. Once any function has a non-`None` value, the comparison raises `TypeError` in the connector thread whenever "reverse" is present but unbound (`None`). That is the state of the default configuration. | mapped values `{"throttle": 0.3, "reverse": None}`: throttle is bound and reverse is not | an unbound reverse function means "not reversing" | not executed | CarlaConnector.ReverseAsWritten (CarlaConnector.ReverseAsWrittenRaises); the tick follows it through CarlaConnector.HandleItem, so a tick raises (CarlaConnector.ProcessControlReverseRaises) | CarlaConnector.HandleItemCorrected, built on CarlaConnector.ReverseFlag (CarlaConnector.ReverseFlagAgrees, CarlaConnector.HandleItemCorrectedAgrees) |
