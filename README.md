# Lego builder viewer state, modelled in Dafny

The lego builder is a Houdini SOP with an interactive viewer state. Pieces are instances of the node's `points` multiparm. The left mouse button places a piece on a snapped point and drags it while the button stays down. Ctrl with the left button deletes the instance whose position equals the number of the primitive under the cursor. The mouse wheel picks the piece variant (`switch`). The keys "c", "x", "+", "-" and "z" pick the colour, turn the piece, grow or shrink it, and move its pivot. The node's script module adds `clear`, which deletes every piece, and `add_node`, which appends a new node of the same type downstream with seven of its parameters copied.

The project has four modules:

- `Host` models the host objects the code edits:
  - a node: a table of named parameter values plus the `points` multiparm, an ordered list of `Piece` instances;
  - the scene viewer: its snapping mode and the count of state undo groups begun and not yet ended;
  - the network: the selection and the render and display flags.
- `Session` models the viewer state as a pure state machine `Machine`:
  - one transition function per callback (`Start`, `Finish`, `Key`, `Wheel`, `Mouse`, `Enter`, `Exit`), plus `Step` and `Run` over event sequences;
  - lemmas for each callback's behaviour and for what holds along any run.
- `Interactive` holds the class `State`, with the fields of the original class. Its methods update those fields and the host objects in place. Each callback method is proved to perform the matching `Session` transition on the abstraction `Abs()`. Each callback method also keeps the invariant `Valid()`: the node has the parameters the state uses, and the open undo groups are exactly 1 while a press is on and 0 otherwise.
- `PythonModule` holds `Clear`, the removal loop of `clear`, and `AddNode`, the copy of `add_node`.

## Model

| member | source | states |
|---|---|---|
| Host.Multiparm.InsertInstance | interactive.py:53-54 | a blank instance is inserted at position i; all other instances keep their order |
| Host.Multiparm.SetField | interactive.py:196-209 | one parameter of instance i takes the given value; every other field and every other instance is kept |
| Host.Node.Set | interactive.py:84 | the named parameter takes the given value; every other parameter and the multiparm are kept (the same member models every `.set` of a node parameter: interactive.py lines 94, 123, 128, 132, 141, 147, 159, 188-191 and 215-218, and python_module.py lines 20-26) |
| Host.SceneViewer.BeginStateUndo | interactive.py:51 | one more state undo group is open; the snapping mode is kept |
| Host.SceneViewer.EndStateUndo | interactive.py:59 | one state undo group fewer is open; the snapping mode is kept |
| Host.SceneViewer.SetSnappingMode | interactive.py:79-81 | the snapping mode becomes the given one; the undo depth is kept |
| Host.Network.SelectOnly | python_module.py:29 | the node becomes the only selected one; the flags are kept |
| Host.Network.SetRenderFlag | python_module.py:30 | the node carries the render flag; the selection and the display flag are kept |
| Host.Network.SetDisplayFlag | python_module.py:31 | the node carries the display flag; the selection and the render flag are kept |
| Host.Multiparm.Count | python_module.py:7-11 | with at least one parameter per instance, the count (instances times parameters per instance) is below the per-instance number exactly when no instance is left |
| Host.Multiparm.RemoveInstance | interactive.py:222-228 | the removal succeeds exactly when the index names an instance; it then drops that one instance, and otherwise nothing changes |
| Session.Start | interactive.py:49-55 | after `start` a press is on and its slot index is in range; balanced undo groups stay balanced |
| Session.StartContract | interactive.py:49-55 | `start` during a press changes nothing; otherwise it opens one undo group, captures `switch`, sets `index` to the old piece count and appends one blank piece, touching nothing else |
| Session.Finish | interactive.py:57-60 | after `finish` no press is on; from a balanced state no undo group is left open |
| Session.FinishContract | interactive.py:57-60 | `endStateUndo` happens exactly when a press was on; only the flag and the undo depth change |
| Session.Key | interactive.py:107-149 | a key never changes the press, the undo depth or the pieces, and keeps the node well formed |
| Session.KeyContract | interactive.py:112-149 | "c" is always handled (the colour changes only if the dialog answered); "x" adds 90 to `angle` and writes `angles`; "z" adds 1 to `pivot` and writes `pp_vis`; "+" is handled iff size < 5 and "-" iff size > 1, and then steps `size`, writes `size_vis` and resets the pivot to 0; any other key, or a size key at its bound, returns False and changes nothing |
| Session.KeyKeepsSizeInRange | interactive.py:126-142 | a size in 1..5 stays in 1..5 after any key |
| Session.Wheel | interactive.py:151-159 | the wheel keeps the press, the undo depth and the pieces |
| Session.WheelContract | interactive.py:157-159 | `switch` becomes its old value plus the scroll; no other parameter and no other field changes |
| Session.RemoveAt | interactive.py:221-228 | removing a valid index shortens the list by one and shifts the later pieces down; an index that names no piece leaves the list unchanged |
| Session.Mouse | interactive.py:161-228 | a mouse event keeps the node well formed and the undo groups balanced |
| Session.Shown | interactive.py:186-191 | the piece visualiser writes only parameters |
| Session.Edited | interactive.py:193-212 | create/move or finish never writes a parameter and keeps the undo groups balanced |
| Session.Mirrored | interactive.py:214-218 | the `ctrl` write changes only parameters |
| Session.MouseGuards | interactive.py:194-228 | after the event a press is on iff LMB, snapped, no ctrl and `collide` reads 0 at that event; the handler returns True iff LMB, ctrl and a hit different from -1; the two never hold together |
| Session.MouseParms | interactive.py:186-218 | the parameters after a mouse event: `mouse_pos` is the snapped point or the plane point, `color_vis` is the current colour, `ctrl` mirrors the key, and nothing else is written |
| Session.MouseKeepsSettings | interactive.py:161-228 | a mouse event leaves angle, size, pivot, colour and snapping as they were |
| Session.MouseCreates | interactive.py:194-209 | on create/move the slot holds usept 1, the snap position, the `switch` captured at press start, and the current colour, angle, size and pivot; a new press appends exactly that piece at the old count; a press already on rewrites only its own slot |
| Session.MouseOtherwise | interactive.py:211-228 | without create/move the press finishes; the pieces change only by removing the hit instance, and an index that names no instance leaves them unchanged |
| Session.Enter | interactive.py:62-89 | entering changes neither the press, the undo depth nor the pieces, and keeps the parameters the state uses |
| Session.Exit | interactive.py:91-97 | leaving changes neither the press, the undo depth nor the pieces |
| Session.ExitDuringPressLeavesGroupOpen | interactive.py:91-97 | `onExit` does not call `finish`, so leaving during a press keeps the press and its undo group open |
| Session.EnterExitContract | interactive.py:71-97 | entering loads angle, size, pivot and colour from the node, switches to point snapping and shows the guide points; exit after enter hides them and gives back the previous snapping mode |
| Session.Step | interactive.py:99-228 | each callback keeps the node well formed and the undo groups balanced |
| Session.InterruptClosesUndo | interactive.py:99-101 | after `onInterrupt` no press is on and no undo group is open |
| Session.StepAddsAtMostOne | interactive.py:49-55 | one event inserts at most one piece |
| Session.Run | interactive.py:99-228 | any event sequence keeps the node well formed |
| Session.RunStaysBalanced | interactive.py:49-60 | along any run of in-state events (keys, wheel, mouse, interrupt) the undo groups are never nested or left open: the depth is 0 or 1 and equals `pressed` |
| Session.RunKeepsSizeInRange | interactive.py:126-142 | a size in 1..5 stays in 1..5 along any run |
| Session.RunAddsAtMostOnePerEvent | interactive.py:52-54 | a run of n events adds at most n pieces |
| Session.MoveKeepsSlot | interactive.py:194-209 | one move during a press rewrites the current slot in place, keeping the press, the index and the undo depth |
| Session.DragRewritesSameSlot | interactive.py:194-209 | a drag (every event LMB, snapped, no ctrl, `collide` reading 0) keeps the press, the slot index, the undo depth and the piece count, and leaves every other piece as it was |
| Session.PressAddsOnePiece | interactive.py:49-55 | a press and drag from rest adds exactly one piece, at index equal to the old count, and keeps all earlier pieces |
| Interactive.State.constructor | interactive.py:31-39 | the new state has no press, no node and no open undo group |
| Interactive.State.PointCount | interactive.py:41-47 | `pointCount` returns the number of pieces and captures `switch`; it returns 0 without a node, without `switch` (leaving the captured value alone) or without `points` |
| Interactive.State.Start | interactive.py:49-55 | the method performs `Session.Start` on the abstraction and keeps `Valid()` |
| Interactive.State.Finish | interactive.py:57-60 | the method performs `Session.Finish` and keeps `Valid()` |
| Interactive.State.Load | interactive.py:65-74 | the state takes the node and loads angle, colour, size and pivot from its parameters |
| Interactive.State.OnEnter | interactive.py:62-89 | the method performs `Session.Enter` on the entered node and establishes `Valid()` |
| Interactive.State.OnExit | interactive.py:91-97 | the method performs `Session.Exit` and keeps `Valid()` |
| Interactive.State.OnInterrupt | interactive.py:99-101 | the method performs `Session.Finish` and leaves no undo group open |
| Interactive.State.Turn | interactive.py:121-124 | `angle` grows by 90 and is written to `angles` |
| Interactive.State.Resize | interactive.py:126-142 | `pp_vis` is reset to 0 and read back into `pivot`, then `size` is stepped and written to `size_vis` |
| Interactive.State.NextPivot | interactive.py:145-148 | `pivot` grows by 1 and is written to `pp_vis` |
| Interactive.State.OnKeyEvent | interactive.py:107-149 | the method performs `Session.Key`, with the same return value, and keeps `Valid()` |
| Interactive.State.OnMouseWheelEvent | interactive.py:151-159 | the method performs `Session.Wheel` and keeps `Valid()` |
| Interactive.State.WriteSlot | interactive.py:196-209 | the seven field writes leave the slot holding the piece built from the state's current values; no other instance changes |
| Interactive.State.ShowPiece | interactive.py:186-191 | the method performs `Session.Shown` |
| Interactive.State.EditSlot | interactive.py:193-212 | the method performs `Session.Edited` |
| Interactive.State.OnMouseEvent | interactive.py:161-228 | the method performs `Session.Mouse`, with the same return value, and keeps `Valid()` |
| PythonModule.Clear | python_module.py:1-11 | the loop removes the front instance until the count is below the per-instance size; in the end no instance is left, the number of removals is the number of instances there were, and it is 0 when the count starts below the per-instance size (the loop invariant keeps the remaining instances a suffix of the original ones, in order) |
| PythonModule.CopyInto | python_module.py:19-26 | after the seven copies the new node has the source's values for `color_vis`, `size_vis`, `angles`, `pp_vis`, `switch`, `sizex` and `rcolor`, and its other parameters keep their defaults |
| PythonModule.AddNode | python_module.py:14-31 | the new node is fresh, has parameters `CopyInto(defaults, src)` and no pieces; the source node is unchanged; it is the only selected node and carries the render and display flags |

## Left out

- HUD info panels, prompt messages (`onResume` only sets the prompt) and the console message of a failed removal are display only and are not modelled.
- Ray casts, the snapping ray, the geometry intersection and the construction-plane intersection are computed by the host. They are inputs of a mouse event (`MouseInput`): whether the ray snapped, the snapped point's position, the plane point and the hit index.
- The snapped point is assumed to be a point of the node's cached geometry. Otherwise `geometry.point()` returns None and the source raises before any write: no `mouse_pos`, no `color_vis` and no `start`. The model does not have that error path.
- Leaving the state during a press: `onExit` does not call `finish`, so the press and its undo group stay open (`Session.ExitDuringPressLeavesGroupOpen`). `Exit` is not an event of `Run`, so `Session.RunStaysBalanced` covers only runs of in-state events. `Interactive.State.constructor` requires a viewer with no open undo group, so a state created again on a viewer left at depth 1 this way is not covered.
- The colour dialog is an input `picked`, which is `None` when the dialog was cancelled and its `.rgb()` raised.
- Wheel and OnMouseWheelEvent: the scroll amount `dev.mouseWheel()` is taken to be a whole number, because `switch` is an integer parameter.
- Float tuples (positions and colours) are copied and never computed on, so they are opaque `seq<real>` values.
- The geometry handle that `onEnter` caches is used only for the ray queries above, so it is not modelled.
- `onEnter`'s `if not self.node: raise` cannot fire: the node has already been dereferenced by then. `Interactive.State.OnEnter` accordingly takes a non-null node.
- `createViewerStateTemplate` is registration code and is not modelled.
- Multiparm numbering: the model assumes the instance parameters are numbered from 0, so `usept{index}` names the instance inserted at position `index`.
- The index a removal uses is the primitive number of the geometry hit. As in the source, it is used as the instance position. On a node whose geometry also holds upstream pieces (such as a node made by `add_node`), it can name another piece or none. No link between primitives and instances is modelled.
- `collide` is whatever the parameter evaluates to at each mouse event. The node computes it and the state never writes it, so it is an input of each event (`MouseInput.collide`).
- `multiParmInstancesCount()` is modelled as instances times parameters per instance. `evalAsInt()` of `points` is modelled as the number of instances.
- `parm` and `parmTuple` are treated alike: one value per parameter name.
- The callbacks assume the node type defines every parameter the state uses, with the kinds it evaluates them as (`StateTemplate`). A missing parameter is handled only where the source catches the exception. In `pointCount` it yields 0. In the removal, a missing `points` is reported on the console and the handler returns True. The model requires `points` in both places (`Valid()`).
- `beginStateUndo` labels are not modelled; the undo stack is only its depth.
- Interactive.State.OnEnter: requires that no press is on, because the host calls `onEnter` once, before any mouse event.
- PythonModule.Clear: requires a `points` multiparm with at least one parameter per instance. With zero parameters per instance the loop would not stop unless removing from an empty multiparm raised. That case is not modelled.
- PythonModule.AddNode: `createOutputNode` is modelled as a fresh node with the node type's default parameters and an empty multiparm. Its wiring to the source node's output is not modelled.
