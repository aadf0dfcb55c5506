# Microfabrication teaching GUI: the logic behind the popups

This project models, in Dafny, the small amount of real logic inside the
Tkinter application `GUI_FINAL_002.py`. The application has a main window
with two drop-down menus (lithography and characterization). Each menu entry
opens a scrollable popup about one technique, and two "Process" buttons open
long step-by-step popups. Tk widgets are replaced by plain state:

- `PyInt`: Python's `int(a / b)`, i.e. true division truncated toward zero. This is how both the wheel handler and the resize code turn sizes into integers.
- `Wheel`: `on_mousewheel`, the conversion of a wheel `delta` into scroll units.
- `Images`: the resize-height arithmetic, `load_local_image` over an abstract filesystem, and the figure each popup section ends up showing.
- `Animation`: `AnimatedGIF`. Pure step functions over `GifState` define `animate` and `stop`. The class `AnimatedGif` keeps the fields `frames`, `currentFrame` and `animation` and runs those steps in place. Its constructor builds the frame list in a loop, as `__init__` does.
- `Tooltip`: `CreateToolTip`, the show/hide toggle. The class `ToolTip` mutates `tooltipWindow`, and Tk's set of live tooltip windows is modelled next to it.
- `WheelBinding`: the single process-wide `<MouseWheel>` binding. Each popup overwrites it with `bind_all`. The window-manager close path clears it with `unbind_all`, and the "Close" button leaves it alone. The class `GlobalWheel` holds the slot and the set of open popups.
- `Dispatch`: `open_selected_litho` and `open_selected_char`, and the popup (title, image, directory) that each technique opener builds.

Modelling assumptions:

- Python's float `/` followed by `int()` is modelled as exact integer division truncated toward zero. This is exact while the numerator is below 2^53.
- A file exists exactly when its path is a key of the `Disk` map. Its content is either undecodable or a non-empty list of frame sizes.
- A zero-width original makes the program's own `/` raise `ZeroDivisionError`, and Pillow raises for a computed height of 0. Both are caught by the loaders, so `Resize` returns `None` in those cases.
- Ids from Tk's `after` and new `Toplevel` windows are handed to the model as parameters or taken from explicit counters.

Behaviour of the code worth knowing, which the model states:

- `AnimatedGIF.__init__` already calls `animate` once. With n > 1 frames the label therefore shows frame 1 first, and after k more ticks it shows frame (k + 1) mod n (`Animation.CycleFromStart`). With 4 frames and 6 ticks that is frame 3.
- No close path calls `stop`, and `AnimatedGIF` objects are never stored. Closing a popup therefore does not cancel a pending tick: nothing in `WheelBinding` touches an animation.
- An existing `.gif` in a process window always gets a label with an animator, even when it then fails to decode. That label stays blank (`Images.ProcessFigure`, `Animation.FailedGifNeverTicks`). A technique popup shows only the first frame of a `.gif`, as a still.
- Only the window-manager close releases the wheel binding (see Findings).

## Model

| member | source | states |
|---|---|---|
| `PyInt.TruncDiv` | GUI_FINAL_002.py:39 | `int(a / b)` for b > 0: \|q\|·b ≤ \|a\| < (\|q\|+1)·b, and q has the sign of a or is 0 |
| `PyInt.TruncDivUnique` | GUI_FINAL_002.py:39 | any q meeting that bracket and sign condition equals `TruncDiv(a, b)`, so the contract pins the value |
| `PyInt.TruncDivNeg` | GUI_FINAL_002.py:39 | truncation is symmetric: `TruncDiv(-a, b) == -TruncDiv(a, b)` (Dafny's Euclidean `/` is not) |
| `PyInt.TruncDivExact` | GUI_FINAL_002.py:39 | exact multiples divide without rounding: `TruncDiv(k·b, b) == k` |
| `Wheel.WheelUnits` | GUI_FINAL_002.py:38-39 | units have the opposite sign to delta or are 0; they are 0 exactly when \|delta\| < 120; \|units\| whole notches fit in \|delta\| and one more does not |
| `Wheel.WheelNotches` | GUI_FINAL_002.py:38-39 | k notches (delta = 120·k) scroll exactly −k units; in particular ±120 gives ∓1 |
| `Wheel.WheelAntisymmetric` | GUI_FINAL_002.py:38-39 | reversing the wheel reverses the scroll by the same number of units |
| `Images.Join` | GUI_FINAL_002.py:324 | `os.path.join(dir, name)` is `dir`, one `/`, then `name`, and both parts can be read back from the path |
| `Images.Lower` | GUI_FINAL_002.py:75 | ASCII `.lower()`: keeps the length and folds each ASCII capital to its lower-case letter, leaving every other character as it is |
| `Images.IsGifName` | GUI_FINAL_002.py:75 | `.lower().endswith('.gif')`: the name has at least four characters and its last four, folded, are `.gif` |
| `Images.ResizedHeight` | GUI_FINAL_002.py:83 | `int(width·h / w)` is the height that keeps the aspect ratio: height·w ≤ width·h < (height+1)·w |
| `Images.Resize` | GUI_FINAL_002.py:81-83 | a resize succeeds exactly when w > 0, width > 0 and the computed height is at least 1; the result has exactly the requested width and the truncated aspect-preserving height |
| `Images.ResizeToOwnWidth` | GUI_FINAL_002.py:83 | resizing an image to its own width returns it unchanged |
| `Images.LoadLocalImage` | GUI_FINAL_002.py:73-87 | `load_local_image` returns an image exactly when the file exists, decodes and its first frame resizes; the image has the requested width; every failure yields None and nothing is raised |
| `Images.ProcessFigure` | GUI_FINAL_002.py:323-337 | a missing file shows nothing; an existing `.gif` always gets an animated label for that file at width 350; any other file shows a still exactly when it loads, and that still is the loaded 350-wide image |
| `Images.TechFigure` | GUI_FINAL_002.py:621-628 | a technique popup never animates; it shows a still exactly when the file exists and loads, and that still is the loaded 300-wide image |
| `Images.ProcessFigures` | GUI_FINAL_002.py:291-337 | one figure per step, in step order, each as `ProcessFigure` decides |
| `Images.FiguresOfPresentFiles` | GUI_FINAL_002.py:323-337 | when every existing file loads or is a `.gif`, the number of figures is the number of steps minus the number of missing files |
| `Animation.ResizeAll` | GUI_FINAL_002.py:52-55 | the frame loop succeeds exactly when every frame resizes, and then yields one resized frame per original, in order |
| `Animation.LoadedFrames` | GUI_FINAL_002.py:49-58 | the frame list is never empty; it is exactly `[None]` when opening, decoding or any resize fails; otherwise frame i is frame i of the file resized to the requested width with the aspect ratio kept |
| `Animation.AnimateStep` | GUI_FINAL_002.py:62-66 | with more than one frame: index := (index + 1) mod n, the label shows that frame, the new `after` id is pending; with one frame nothing changes; the index stays in [0, n) and a tick is pending only for n > 1 |
| `Animation.StopStep` | GUI_FINAL_002.py:68-71 | after `stop` nothing is pending, and frames, index and display are untouched |
| `Animation.Initial` | GUI_FINAL_002.py:42-60 | after `__init__` the state is well formed; with n > 1 frames the label shows frame 1 and a tick is pending; otherwise it is at frame 0, idle and blank |
| `Animation.Run` | GUI_FINAL_002.py:62-66 | ticks fire only while one is pending; any sequence of them keeps the index in range and the frames unchanged, and with nothing pending nothing changes |
| `Animation.RunIndex` | GUI_FINAL_002.py:62-66 | after k ticks of a running n > 1 animation the index is (start + k) mod n, and the last tick's id is the pending one |
| `Animation.RunStill` | GUI_FINAL_002.py:62-63 | a one-frame or placeholder animation is unchanged by any number of ticks |
| `Animation.RunShows` | GUI_FINAL_002.py:62-66 | once the label shows a frame, after any ticks it shows the frame at the current index |
| `Animation.CycleFromStart` | GUI_FINAL_002.py:47-66 | from construction, after k ticks the index is (k + 1) mod n and the label shows that frame |
| `Animation.FailedAnimatedLabelStaysBlank` | GUI_FINAL_002.py:323-331 | the animated label of an existing `.gif` that does not decode or resize stays blank and idle under any ticks |
| `Animation.FailedGifNeverTicks` | GUI_FINAL_002.py:56-63 | a GIF that fails to open, decode or resize never has a tick pending and its label stays blank |
| `Animation.StoppedStaysStill` | GUI_FINAL_002.py:68-71 | after `stop`, no sequence of ticks changes the animation again |
| `Animation.StopIdempotent` | GUI_FINAL_002.py:68-71 | `stop` twice is the same as `stop` once |
| `Animation.StopIdle` | GUI_FINAL_002.py:68-71 | `stop` with nothing pending changes nothing |
| `Animation.AnimatedGif.constructor` | GUI_FINAL_002.py:42-60 | the loop builds exactly `LoadedFrames` and the object ends in `Initial`'s state |
| `Animation.AnimatedGif.Animate` | GUI_FINAL_002.py:62-66 | updates the fields in place as `AnimateStep` says and keeps the object invariant |
| `Animation.AnimatedGif.Stop` | GUI_FINAL_002.py:68-71 | hands the pending id, if any, to `after_cancel` and leaves the fields as `StopStep` says |
| `Tooltip.ShowStep` | GUI_FINAL_002.py:15-20 | `show_tooltip` changes nothing when a tooltip is open or the text is empty; otherwise it creates exactly one new window and records it |
| `Tooltip.HideStep` | GUI_FINAL_002.py:32-36 | `hide_tooltip` always leaves the field None and destroys the recorded window, if any |
| `Tooltip.ShowKeepsConsistent` | GUI_FINAL_002.py:15-20 | showing keeps the field naming exactly the live tooltip windows |
| `Tooltip.HideKeepsConsistent` | GUI_FINAL_002.py:32-36 | hiding keeps that correspondence and leaves no tooltip window alive |
| `Tooltip.AtMostOneTooltip` | GUI_FINAL_002.py:12-36 | under any sequence of enter/leave events at most one tooltip window exists, and it is the one in the field |
| `Tooltip.ShowIdempotent` | GUI_FINAL_002.py:15-16 | a second show while the tooltip is open does nothing |
| `Tooltip.HideIdempotent` | GUI_FINAL_002.py:32-36 | hide twice is hide once |
| `Tooltip.EmptyTextNeverShows` | GUI_FINAL_002.py:15-16 | with empty text no event sequence ever creates a window |
| `Tooltip.ToolTip.constructor` | GUI_FINAL_002.py:8-13 | a new tooltip has no window |
| `Tooltip.ToolTip.ShowTooltip` | GUI_FINAL_002.py:15-30 | updates the object in place as `ShowStep` says and keeps the invariant |
| `Tooltip.ToolTip.HideTooltip` | GUI_FINAL_002.py:32-36 | returns the destroyed window and updates the object as `HideStep` says |
| `WheelBinding.Opened` | GUI_FINAL_002.py:116 | opening a popup adds a fresh window, and its canvas replaces any previous binding target |
| `WheelBinding.ButtonClosed` | GUI_FINAL_002.py:343-345 | the Close button destroys the popup and leaves the binding unchanged |
| `WheelBinding.WmClosed` | GUI_FINAL_002.py:348 | the window-manager close destroys the popup and clears the binding, whichever popup installed it |
| `WheelBinding.BindingIsNewestPopup` | GUI_FINAL_002.py:343-348 | as written, after any opens and closes the binding is absent or names the most recently opened popup, open or destroyed |
| `WheelBinding.Route` | GUI_FINAL_002.py:38-39 | a wheel event does nothing without a binding, scrolls the bound canvas by `WheelUnits(delta)` when it still exists, and otherwise reaches a destroyed canvas |
| `WheelBinding.OpenThenWmCloseUnbinds` | GUI_FINAL_002.py:343-348 | opening a popup and closing it from the title bar restores the open set and leaves no binding |
| `WheelBinding.CloseButtonLeavesDeadBinding` | GUI_FINAL_002.py:343-348 | opening a popup and pressing Close makes the next wheel event reach the destroyed canvas |
| `WheelBinding.WmCloseOfOtherPopupUnbinds` | GUI_FINAL_002.py:643-647 | closing an older popup from the title bar leaves the newest, still-open popup without wheel scrolling |
| `WheelBinding.Dismissed` | GUI_FINAL_002.py:343-348 | the corrected teardown: destroy the popup and release the binding exactly when it belongs to that popup |
| `WheelBinding.DismissKeepsNoDangling` | GUI_FINAL_002.py:343-348 | `Dismissed` keeps the binding off destroyed canvases |
| `WheelBinding.DismissNeverDangles` | GUI_FINAL_002.py:343-348 | with `Dismissed` on both close paths, no sequence of opens and closes lets a wheel event reach a destroyed canvas |
| `WheelBinding.DismissOfOtherPopupKeepsBinding` | GUI_FINAL_002.py:643-647 | with `Dismissed`, closing a popup that does not hold the binding leaves the newest popup scrolling |
| `WheelBinding.AllDismissedNoBinding` | GUI_FINAL_002.py:343-348 | with `Dismissed`, once every popup is closed no binding remains |
| `WheelBinding.GlobalWheel.OpenPopup` | GUI_FINAL_002.py:114-116 | `bind_all` applied in place: the new popup is fresh and the slot becomes it (`Opened`) |
| `WheelBinding.GlobalWheel.CloseButton` | GUI_FINAL_002.py:343-345 | applies `ButtonClosed` in place |
| `WheelBinding.GlobalWheel.WmClose` | GUI_FINAL_002.py:347-348 | applies `WmClosed` in place |
| `WheelBinding.GlobalWheel.Dismiss` | GUI_FINAL_002.py:343-348 | applies the corrected `Dismissed` in place |
| `WheelBinding.GlobalWheel.Wheel` | GUI_FINAL_002.py:38-39 | delivers a wheel event as `Route` says; a scroll only ever hits an open canvas |
| `Dispatch.Page` | GUI_FINAL_002.py:687-1047 | each opener builds one popup; lithography pages take images from `litho_images` and characterization pages from `char_images` |
| `Dispatch.OpenSelectedLitho` | GUI_FINAL_002.py:1118-1129 | a string opens a lithography popup exactly when it is one of the five `options1` entries, and that popup is titled with the entry |
| `Dispatch.OpenSelectedChar` | GUI_FINAL_002.py:1131-1141 | a string opens a characterization popup exactly when it is one of the five `options2` entries, and that popup is titled with the entry |
| `Dispatch.LithoMenuIsBijective` | GUI_FINAL_002.py:1118-1129 | different lithography entries open different techniques, and every lithography technique is reached through its title |
| `Dispatch.CharMenuIsBijective` | GUI_FINAL_002.py:1131-1141 | the same for the characterization menu |
| `Dispatch.MenusDisjoint` | GUI_FINAL_002.py:1081-1111 | no string opens something from both menus |

## Findings

| source | as written | input that shows it | evidently intended | confidence | as-written member | corrected member |
|---|---|---|---|---|---|---|
| GUI_FINAL_002.py:343-345 | the Close button only destroys the popup; the global `<MouseWheel>` handler still targets that popup's canvas (also 557-559, 631-633) | open any popup, press Close, turn the wheel over the main window: the handler scrolls a destroyed canvas and Tk raises | every close path releases the binding of the popup being closed | high; not executed | `WheelBinding.CloseButtonLeavesDeadBinding` | `WheelBinding.DismissNeverDangles` |
| GUI_FINAL_002.py:645-647 | the title-bar close calls `unbind_all`, which also clears a binding installed by another, still-open popup (also 348, 563) | open popup A, then popup B, close A from the title bar: the wheel no longer scrolls B | release the binding only when it belongs to the popup being closed | medium; not executed | `WheelBinding.WmCloseOfOtherPopupUnbinds` | `WheelBinding.DismissOfOtherPopupKeepsBinding` |

## Left out

- Tk widget construction, packing, geometry, fonts and colours, and the educational text and step lists: these are layout and inert data.
- Pillow decoding, `ImageSequence`, LANCZOS resampling and `PhotoImage`: only frame sizes and the cases that raise are modelled. The filesystem is a map, and `os.path.exists` is membership in it.
- The Tk event loop and the 100 ms timing of `after`: a pending tick is an opaque id, and a tick is one call of `animate`.
- What Tk does when a tick fires after its popup was destroyed: no teardown path stops an animation, and the model says nothing about that label afterwards.
- Tooltip placement (`winfo_rootx() + 20`) and the `<Configure>` scroll-region update (including `create_tech_window` unbinding it after the first event): these depend on the window system.
- The canvas's scroll offset and its clamping to the scroll region: that is Tk's `yview_scroll`. The model stops at the number of units requested.
- `Images.Lower`: folds ASCII letters only. Python's `str.lower()` folds all of Unicode, can change the length (`'İ'` becomes two characters) and depends on context (a final `'Σ'`). The model needs it only for `IsGifName`.
- `Images.IsGifName`: built on the ASCII `Lower`, it still agrees with `.lower().endswith('.gif')` on every string, because no non-ASCII character's lowercase ends in `.`, `g`, `i` or `f`.
- `Images.Join` models `os.path.join` with POSIX separators and relative file names, which is all the program passes.
- The `print` of the error message when a GIF or an image fails to load (GUI_FINAL_002.py:57, 86): console output only, with no effect on the state.
- The float semantics of `/`: the model is exact, and Python agrees with it while the numerator is below 2^53.
