# Blender hot-reload: a Dafny model

The system reloads a skinned 3D model into a browser whenever a Blender file changes.
It has two halves, and this project models the state machines at the core of each.

- **The server** (`watch-blender-file.js`) handles a change to a `.blend` file:
  - it derives three output paths from the file's name;
  - it runs the Blender export, then the Collada-to-JSON conversion;
  - it reads the model JSON and the actions JSON;
  - once both reads have completed, it sends the two payloads as one JSON message to every open WebSocket client.

  The two reads join through three closure variables: the flag `modelAndActionsReady`, `modelData` and `actionData`. The server also keeps a registry of connected clients, keyed by a fresh id.
- **The viewer** (`viewer.js`) keeps module-level animation state:
  - the current and previous animation, the current action and the clock;
  - the action table rebuilt from each reload, with every matrix turned into a dual quaternion;
  - the joint index → name table;
  - the number of indices to draw.

  Its event handlers change this state: a reload message arriving, an action button being clicked, the texture loading, and `draw` running once per animation frame.

Files:

- `js.dfy` (`Js`): JavaScript conventions.
  - `undefined` becomes `Option`.
  - A plain object becomes `Dict`: its `Object.keys` order and its entries.
  - It also defines `indexOf` and `slice`.
- `paths.dfy` (`ExportPaths`): the path derivation and the two shell command lines.
- `envelope.dfy` (`ReloadEnvelope`):
  - `JSON.stringify({modelData, actionData})`, including the JSON string escaping;
  - the client's reading of it back.
- `barrier.dfy` (`JoinBarrier`): the two-party join as a pure specification.
  - `Complete` is one read callback.
  - `Run` is any admissible order of callbacks.
- `server.dfy` (`ReloadServer`): the imperative server.
  - `Server` holds the `connectedClients` registry and the broadcast loop.
  - `ReloadCycle` is the closure of one change event, with one method per callback. Each callback method is tied to `JoinBarrier.Complete`.
- `scene.dfy` (`SceneData`): the values the viewer derives from a reload.
  - the rebuilt action and keyframe table;
  - the joint-name table;
  - the button filter and the highlight rule.
- `viewer.dfy` (`Viewer`): the viewer's state as a class `Client`, with one method per event handler, and the two loops of `draw`.

The foreign libraries the viewer calls are parameters of the model: `interpolateJoints`, and the composition of `gl-mat4` and `mat4-to-dual-quat`. Numbers are exact reals. Times are integer milliseconds.

## Model

| member | source | states |
|---|---|---|
| ExportPaths.ModelName | watch-blender-file.js:12 | `split('.blend')[0]` is a prefix of the path. No ".blend" starts before its end. It is the whole path, or ".blend" follows it. |
| ExportPaths.ModelNameOfBlendPath | watch-blender-file.js:12 | If `name` contains no ".blend", the model name of `name + ".blend" + rest` is `name`. |
| ExportPaths.OutputsAreDistinct | watch-blender-file.js:12-15 | `DeriveOutputs` names the `.dae`, `.json` and `-actions.json` paths after `ModelName`. For a path containing ".blend", the three differ pairwise and none of them is the watched file. |
| JoinBarrier.Complete | watch-blender-file.js:42-68 | A failed read throws before changing anything. A successful read stores its payload and sets the flag. It publishes exactly when both payloads are then stored, and it publishes those two. |
| JoinBarrier.FirstCompletionOnlyStores | watch-blender-file.js:45-51 | The first successful read, model or actions, stores its payload, leaves the other slot empty, sets the flag and publishes nothing. |
| JoinBarrier.RunPublishesOnJoin | watch-blender-file.js:42-68 | `Run` applies `Complete` for each callback of an admissible order, each callback at most once. Such a run publishes once if it completes the join and never otherwise. Each publish carries the two stored payloads. |
| JoinBarrier.PublishesOnceIffBothRead | watch-blender-file.js:19-21 | From the fresh variables of a change, there is exactly one publish iff both reads succeeded. There is never more than one. |
| JoinBarrier.RunStoresWhatSucceeded | watch-blender-file.js:43-45 | A payload slot ends filled iff it started filled or a successful read for it ran. |
| JoinBarrier.OrderIndependent | watch-blender-file.js:47-48 | Model-then-actions and actions-then-model end in the same state. Both publish the same single message. |
| ReloadEnvelope.ParseStringify | watch-blender-file.js:79-82 | `Stringify` is the server's `JSON.stringify({modelData, actionData})`. `Parse` is the client's `JSON.parse` of the frame (viewer.js:299). Parsing the frame gives back exactly the two payload strings, under `modelData` and `actionData`. |
| ReloadEnvelope.ParseQuoteBody | watch-blender-file.js:79-82 | A string escaped as `JSON.stringify` escapes it reads back as itself. What follows the closing quote is left over. |
| ReloadServer.Socket.Send | watch-blender-file.js:78-83 | `send` appends exactly one frame to what the socket has received. |
| ReloadServer.Server.constructor | watch-blender-file.js:7 | The registry starts empty. |
| ReloadServer.Server.OnConnection | watch-blender-file.js:93-95 | The new socket gets an id never used before. It is registered under that id, and every other entry is unchanged. |
| ReloadServer.Server.OnClose | watch-blender-file.js:97-99 | Exactly the closing socket's id is removed, and every other entry is unchanged. |
| ReloadServer.Server.MessageConnectedClients | watch-blender-file.js:75-86 | Every registered OPEN socket receives exactly one frame, the stringified pair. Every other registered socket receives nothing. |
| ReloadServer.ReloadCycle.constructor | watch-blender-file.js:11-21 | A change derives its paths from the changed file with `DeriveOutputs`. Its `Command` is `ExportCommand` of those paths (line 17). It starts a fresh join (flag false, no payloads) with nothing published. |
| ReloadServer.ReloadCycle.OnExportExit | watch-blender-file.js:30-57 | On an export error nothing further of the cycle runs. Otherwise the callback starts two things: `ConvertCommand` of the cycle's paths (line 37), and the read of `actionPath` (line 57). |
| ReloadServer.ReloadCycle.OnConvertExit | watch-blender-file.js:38-42 | A conversion error throws. Otherwise the read of `jsonPath` is started. |
| ReloadServer.ReloadCycle.OnModelFileRead | watch-blender-file.js:42-52 | The callback's effect on the join is `JoinBarrier.Complete` of a model read. Its publish reaches exactly the open clients. The cycle has published once iff both payloads are stored. |
| ReloadServer.ReloadCycle.OnActionsFileRead | watch-blender-file.js:57-68 | The same for the actions read. |
| ReloadServer.FinishCycle | watch-blender-file.js:36-68 | Take a cycle whose export succeeded and whose later steps all succeed, with any clients connected. In either read order it publishes its own pair once. Every open client receives that frame exactly once, and no other client receives anything. |
| ReloadServer.OverlappingChanges | watch-blender-file.js:19-21 | Two overlapping changes each keep their own join. Both publish, including the older cycle that completes last. |
| SceneData.ConvertKeyframesFrom | viewer.js:317-332 | The inner `reduce` produces an object whose keys are the keyframe times, in the same order. |
| SceneData.ConvertKeyframesKeepsShape | viewer.js:315-332 | A rebuilt action has the same keyframe times in the same order. Each pose is as long as its matrix array. Entry i comes from matrix i and inverse bind pose i only. |
| SceneData.ConvertActions | viewer.js:312-335 | The rebuilt action table is a valid object with the same action names, in the same order. |
| SceneData.ConvertActionsKeepsShape | viewer.js:312-335 | Under each action name, the rebuilt table holds that action's rebuilt keyframes. |
| SceneData.IndicesToNamesEntries | viewer.js:303-308 | `IndicesToNames` is the `reduce` that builds the joint table. The table maps each i < n to the i-th key of `jointNamePositionIndex`, and has no other entries. |
| SceneData.ActionButtonNames | viewer.js:468-473 | The `filter` over the action names never adds a name. |
| SceneData.ActionButtonNamesMembers | viewer.js:468-473 | With `ActionButtonNames` as the filter: a name has a button iff it is an action name that does not contain "001". |
| SceneData.ActionButtonNamesConcat | viewer.js:468-473 | The filter keeps key order: filtering a concatenation concatenates the filtered parts. |
| SceneData.ActionButtonNamesDistinct | viewer.js:468-473 | Distinct action names give distinct buttons. |
| SceneData.ButtonClassNames | viewer.js:511-515 | `highlightSelectedAction` gives one class to each button, in button order. |
| SceneData.ButtonClassNamesHighlight | viewer.js:511-515 | In `ButtonClassNames`, every button gets "action-button " or "action-button highlighted-action". It gets the latter iff its name is the current action. |
| SceneData.HighlightIsUnique | viewer.js:511-515 | At most one button is highlighted, and one is iff the current action has a button. |
| Js.IndexOf | viewer.js:472 | `indexOf` gives the first occurrence, or -1 (None) when there is none. |
| Js.Slice | viewer.js:415-416 | `slice(b, e)` gives the elements from b up to e, clamped at the end. |
| Viewer.ClockAfterTelescopes | viewer.js:384-389 | `Tick` is one frame's update (lines 387-388), and `ClockAfter` chains it over frames at times t1..tn. The clock then has advanced by (tn - lastStartTime)/1000, the total elapsed seconds. |
| Viewer.JointRange | viewer.js:62 | The joint list has `numJoints` = 18 entries, and entry i is i. |
| Viewer.JointNums | viewer.js:396-399 | The `jointNums` loop builds exactly [0, 1, ..., 17]. |
| Viewer.FirstUnusableJoint | viewer.js:410-414 | Every slot before the result runs to completion. The slot at the result, if any, throws. A slot throws when the joint has no name, the armature has no `jointNameIndices`, or the interpolation gave no quaternion for it. |
| Viewer.FirstUnusableIsFirst | viewer.js:410-414 | The result is the least slot that throws. |
| Viewer.UniformsFor | viewer.js:414-416 | Slot j receives components 0..3 and 4..7 of `joints[j]`. |
| Viewer.UploadJointQuaternions | viewer.js:410-417 | The upload loop fills slots 0, 1, ... with `joints[j]`, because `indexToUse` is overwritten with j. It stops at the first slot that throws, and it throws iff such a slot exists. |
| Viewer.Client.constructor | viewer.js:371-381 | The initial state: the clock reads 0 at page load, the action is `Walk_polish`, no reload has arrived and there are no buttons. A frame is requested. |
| Viewer.Client.OnTextureLoaded | viewer.js:282-289 | The texture is marked as loaded, and nothing else changes. |
| Viewer.Client.OnMessage | viewer.js:298-368 | After a reload: the joint table and action table are those built from it; the current animation keeps its start time and takes the current action's new keyframes; the buttons are the new filtered names; the index count is the reload's. |
| Viewer.Client.OnActionButtonClick | viewer.js:480-491 | The previous animation is the old start time with the old action's keyframes. The chosen action becomes current and starts at the clock with its own keyframes. |
| Viewer.Client.DrawScene | viewer.js:393-447 | The GPU half of `draw` equals `SceneFrame`: it uploads each slot up to the first one that throws, and without a throw it draws `numIndicesToDraw` indices. |
| Viewer.Client.Draw | viewer.js:383-450 | The clock grows by the elapsed seconds and stays equal to the time since page load. `lastStartTime` becomes the current time. A draw happens only with the texture loaded and a non-zero index count from the last reload. The next frame is requested unless drawing threw. |

## Left out

- The GLSL shaders, WebGL setup, buffer uploads and uniform lookups: rendering I/O. A uniform upload is recorded in a `Frame` value, not performed.
- The camera controls and the camera and normal matrices: UI code with floating-point trigonometry.
- DOM code: button creation, insertion and CSS. The buttons are the derived function `Client.ActionButtons` and their classes `Client.ButtonClasses`, recomputed from the state. The model has no DOM elements that could go stale.
- Foreign libraries, left unmodelled and passed in as parameters of `Client`:
  - `interpolateJoints` from `skeletal-animation-system`;
  - `gl-mat4` multiply/transpose with `mat4-to-dual-quat` (the `skinning` function).
  - `expand-vertex-data` is represented only by its `positionIndices` length.
- `JSON.parse` of the two inner payloads: a reload arrives in the viewer model already parsed, as a `Reload` value. Only the outer envelope's string encoding is modelled.
- Floating point: numbers are exact reals, so the clock telescopes exactly.
- `new Date().getTime()`: a parameter. `cuid()`: a counter of issued ids, which keeps the one property used (fresh ids).
- chokidar, `child_process.exec`, `fs.readFile` and the WebSocket transport:
  - they become events, i.e. method calls;
  - the readyState transitions of a socket are not modelled, only read.
- Process termination on a throw inside a callback: the callback reports `threw` and stores nothing. Nothing models the server process dying.
- ReloadEnvelope.Parse: reads only frames laid out as `JSON.stringify` writes them (no whitespace, this key order). It rejects `\u` escapes of surrogates rather than pairing them.
- Viewer.Client.OnMessage: requires every keyframe to have at most as many matrices as there are inverse bind poses. Beyond that, `inverseBindPoses[index]` is undefined and the handler throws part-way through the rebuild. That partial state is not modelled.
- `ws.onmessage` also throws when the parsed payloads lack `jointNamePositionIndex` or `actions` (viewer.js:303, 312). By then `armature` has already been replaced (line 301). A `Reload` always has both, so that partial state is not modelled.
- The `console.error` log on an export failure (watch-blender-file.js:32) is dropped; only the end of the cycle is modelled.
- Viewer.Client.Valid: ties the action table to the last reload only through its key order. `OnMessage`'s ensures gives the full content.
- Viewer.UploadJointQuaternions: `jointName.replace(/_/g, '.')` and the `jointNameIndices` lookup only matter as places that can throw. Their value is overwritten with j, so it is not modelled.
- ExportPaths.ExportCommand: modelled as written. It exports `model.blend` whichever `.blend` file changed; only the output names depend on the changed path.
- No generation tags: the code has no generation tag and never discards a stale cycle's completions The model follows the code: every change event gets an independent `ReloadCycle`, and `OverlappingChanges` shows that two overlapping cycles both publish.
- blender-to-dae.py is not part of this model: it only calls Blender's export API.
