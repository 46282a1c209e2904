# SimpleStarTrail in Dafny

SimpleStarTrail turns a folder of time-ordered night-sky photographs into
"star trail" frames. Each output frame stacks a window of recent input
frames. Every frame is first darkened by a decay weight: older frames get
less weight. The frames are then combined by keeping the brightest value of
every sample ("lighten"). The result is rescaled to the brightness of the
most recent frame and saved.

This project models the bookkeeping around that pipeline and proves its
properties:

- `Decay` (decay.dfy): the decay curves `get_decay_list` can build.
  - Ones for intensity 1, exponential `p^x`, linear `k*x + 1` with negative
    weights dropped, and Gaussian.
  - Each is a list over the reverse index `x = n-1 … 0`, so the last entry
    belongs to the most recent frame.
- `Planner` (planner.dfy): the task list `star_trail` builds. One
  (frame window, weight window) pair is made per output frame, under
  Python's slice rules, negative indices included.
- `Compositor` (compositor.dfy): what one `_unit` call computes and how it
  fails. It covers the lighten fold, the luminance rescaling and the
  output name.
- `StarTrail` (agent.dfy): the `StarTrailAgent` class. Its fields are
  updated by `get_files`, `get_decay_list`, `set_outdir` and
  `set_start_frame`. `Unit` is the imperative lighten loop, proved against
  `Compositor.UnitOutcome`.
- `Gui` (gui.dfy): the window handlers. They load a folder, update the
  decay curve and the start frame, start a run and count progress. The
  remaining time is split into hours, minutes and seconds and shown as a
  label. The Qt rules these handlers depend on are written out:
  - `QProgressBar.setValue` ignores a value outside its range;
  - `setMaximum` resets a bar whose value falls outside the new range;
  - `QSpinBox.setMaximum` lowers the minimum along with the maximum and
    clamps the value.
- `PySlice`, `Paths` and `Outcomes` are helpers:
  - `PySlice`: Python slices;
  - `Paths`: POSIX `os.path.join`/`basename`, the extension allow-list,
    distinctness;
  - `Outcomes`: the Python exceptions the code can raise, as a result type.

Behaviour of the code that the model keeps:

- `_unit` emits its completion signal only after the save, so a failing
  task sends none. `starmap` then re-raises, so the final "done" signal is
  never sent either.
- The stored curve does not always have one weight per frame:
  - the linear curve is shorter when weights are dropped;
  - an unrecognised function name keeps the previous curve, which may be
    stale or empty;
  - with an empty curve, the report at src/startrail.py:62 raises
    `IndexError` (`GetDecayList` returns `Raise(IndexError)`).
- `star_trail` does not check that the stack depth fits the curve.
  `Planner.WindowBeyondCurve` proves that a larger depth leaves a task with
  fewer weights than frames, and that task raises `IndexError` in `_unit`.
  The window caps the depth at the curve length when the curve changes
  (src/gui.py:191). Loading a folder, however, sets the cap back to the
  frame count (src/gui.py:169).
  - The curve stays empty until a decay control changes: those controls
    are connected (src/gui.py:152-153) after their initial values are set,
    and loading a folder never rebuilds the curve. Loading a folder and
    pressing Start therefore fails every task with `IndexError`
    (`StarTrail.EmptyCurveTasksFail`).
  - A depth of 0 is reachable: changing a decay control before any folder
    is loaded calls `setMaximum(0)`, which lowers the depth box's minimum
    to 0, and a later folder load keeps it there. `star_trail(0)` then
    gives every task no frames, and each raises `UnboundLocalError`
    (`StarTrail.ZeroDepthTasksFail`).
- The ETA split is proved for every integer, not only non-negative ones.
  Both Python's `//` and Dafny's `/` floor for a positive divisor, so the
  identity and the bounds on minutes and seconds hold for negative
  estimates too.

## Model

| member | source | states |
|---|---|---|
| `Paths.ListedMembers` | src/startrail.py:29 | a path is among the frames exactly when it is the folder joined with a listed name ending in `.jpg`, `.png`, `.JPG` or `.PNG` |
| `Paths.BasenameOfJoin` | src/startrail.py:32 | the base name of a frame path is the listed name it was joined from |
| `Paths.FilesHaveDistinctBasenames` | src/startrail.py:29-30 | in whatever order the natural sort puts them, frames from a listing of distinct entries have distinct base names |
| `Paths.JoinRelativeInjective` | src/startrail.py:98 | joining different relative names onto one folder gives different paths |
| `Decay.CurveAt` | src/startrail.py:46 | entry `j` of a curve over `range(n-1, -1, -1)` is the weight at reverse index `n-1-j` |
| `Decay.OnesShape` | src/startrail.py:45-46 | intensity 1 gives `n` weights, all 1 |
| `Decay.ExpShape` | src/startrail.py:50-52 | the exponential curve has `n` entries, entry `j` is `p^(n-1-j)`, and the last is 1 |
| `Decay.ExpIncreasing` | src/startrail.py:51 | for `0 < p < 1` the exponential weights lie in `(0, 1]` and strictly increase toward the newest frame |
| `Decay.NonNegative` | src/startrail.py:56 | the mask `a[a >= 0]` keeps at most `len(a)` entries, all non-negative |
| `Decay.NonNegativeMembers` | src/startrail.py:56 | a value survives the mask exactly when it occurs and is non-negative |
| `Decay.LinearRawAt` | src/startrail.py:54-55 | the unfiltered linear entry `j` is `(p-1)*(n-1-j) + 1` |
| `Decay.LinearShape` | src/startrail.py:53-56 | the linear curve has at most `n` non-negative entries; it is the suffix of the unfiltered curve after a prefix of negative entries; for `n >= 1` it is non-empty and ends in 1 |
| `Decay.GaussShape` | src/startrail.py:57-61 | the Gaussian curve has `n` entries, the modelled weights at `x >= 1`, and ends in 1 |
| `Decay.RebuiltShape` | src/startrail.py:45-61 | with intensity 1 or a known name the new curve has 1 to `n` entries ending in 1; with an unknown name and intensity other than 1 the old curve is kept |
| `Planner.PlanLength` | src/startrail.py:74-76 | there are `len(files) - start_frame` tasks |
| `Planner.PlanTask` | src/startrail.py:73-76 | for `1 <= stack_num <= len(decay_list)`, task `i` stacks `files[start_frame+max(0,i-stack_num) .. start_frame+i)`, which is `min(i, stack_num)` frames; its weights are the same number of entries from the end of the curve; so its newest frame gets the curve's last weight |
| `Planner.LastFramesDistinct` | src/startrail.py:75 | with distinct frames, different tasks end in different frames |
| `Planner.WindowBeyondCurve` | src/startrail.py:73-76 | a stack depth beyond the curve length gives the task at that position fewer weights than frames |
| `Planner.EmptyCurveNoWeights` | src/startrail.py:73-76 | with an empty curve and a depth of at least 1, task `k` has `min(k+1, stack_num)` frames and no weights |
| `Planner.ZeroDepthNoFrames` | src/startrail.py:75 | with a stack depth of 0 every task's frame window is empty |
| `Compositor.Lighter` | src/startrail.py:90 | each sample of `lighter(a, b)` is at least both inputs' samples and equals one of them |
| `Compositor.LightenFold` | src/startrail.py:83-90 | after the loop, each accumulator sample is at least that sample in every decayed image and equals it in one of them; the size is the smallest input size |
| `Compositor.FoldKeepsSize` | src/startrail.py:83-90 | equal-sized frames stack to an image of that size |
| `Compositor.FoldSingle` | src/startrail.py:87-88 | a one-image task's accumulator is that image unchanged |
| `Compositor.SingleFrameRoundTrip` | src/startrail.py:92-98 | a one-frame task with weight 1 saves its frame unchanged (luminance ratio 1), if brightening by 1 is the identity |
| `Compositor.OutputPathsDiffer` | src/startrail.py:98 | tasks whose newest frames have different base names are saved to different paths |
| `StarTrail.StarTrailAgent.constructor` | src/startrail.py:19-26 | no frames, empty curve, `exp` at 0.96, output to `Desktop/StarTrail`, offset 0 |
| `StarTrail.StarTrailAgent.GetFiles` | src/startrail.py:28-34 | frames become the sorted supported paths; the result is their count and the first base name, or `(0, "")` |
| `StarTrail.StarTrailAgent.SetOutdir` | src/startrail.py:36-39 | the output folder becomes `path/StarTrail`, which is returned; nothing else changes |
| `StarTrail.StarTrailAgent.GetDecayList` | src/startrail.py:41-65 | no frames: returns 0, changes nothing; otherwise records name and intensity; intensity 0: returns 0, keeps the curve; else stores the rebuilt curve and returns its length, or raises `IndexError` on an empty curve |
| `StarTrail.StarTrailAgent.SetStartFrame` | src/startrail.py:67-68 | the offset becomes `input - 1`; nothing else changes |
| `StarTrail.StarTrailAgent.StarTrail` | src/startrail.py:70-76 | the submitted tasks are `Planner.Plan` of the agent's frames, curve, offset and the depth |
| `StarTrail.StarTrailAgent.Unit` | src/startrail.py:82-98 | the lighten loop's result is `UnitOutcome`: no frames raises `UnboundLocalError`; a frame without weight raises `IndexError`; a black stack raises `ZeroDivisionError`; else the stack is rescaled to the last frame's luminance and saved under its name |
| `StarTrail.PlannedTaskOutcome` | src/startrail.py:73-98 | under the window's clamp a planned task fails only on a black stack, and is saved under its own newest frame's name |
| `StarTrail.EmptyCurveTasksFail` | src/startrail.py:73-86 | with an empty curve and a depth of at least 1, every planned task has frames but no weights and raises `IndexError` |
| `StarTrail.ZeroDepthTasksFail` | src/startrail.py:73-92 | with depth 0, every planned task has no frames and raises `UnboundLocalError` |
| `StarTrail.PlannedOutputsDistinct` | src/startrail.py:98 | frames with distinct base names give every two saved tasks different output paths |
| `Gui.DigitsRoundTrip` | src/gui.py:221 | the decimal text `str(n)` of a natural number reads back as `n` |
| `Gui.SplitEta` | src/gui.py:215-220 | `hours*3600 + mins*60 + secs == eta` with minutes and seconds in `[0, 60)`; hours are non-negative exactly when `eta` is |
| `Gui.SplitUnique` | src/gui.py:215-220 | that split is the only one: quotient by 3600, then remainders |
| `Gui.EtaText` | src/gui.py:221 | the hours part (`小时`) appears exactly when hours are non-zero; minutes and seconds always end the label |
| `Gui.SpinBox.WithMaximum` | src/gui.py:169-170 | after `setMaximum(m)` the box is in range with maximum `m`, and an in-range value is kept unless it exceeds `m`, which clamps it to `m` |
| `Gui.ProgressBar.WithValue` | src/gui.py:212 | `setValue(v)` takes an in-range value and ignores an out-of-range one, keeping the bar valid |
| `Gui.ProgressBar.WithMaximum` | src/gui.py:167 | `setMaximum(m)` sets the range; a value still within `minimum - 1 .. m` is kept, and one outside it is reset to `minimum - 1` when the range changes; the bar stays valid for `m > 0` |
| `Gui.MainWindow.constructor` | src/gui.py:104-142 | start enabled, bar `0..100` in its reset state, depth `1..99` at 30, start frame `1..99` at 1, fresh agent |
| `Gui.MainWindow.SelectImagesPath` | src/gui.py:159-176 | no folder: nothing changes; no frames: only the agent's frame list (now empty) changes; `num` frames: the bar, depth and start-frame maxima become `num`, progress becomes 0, and a clamped start frame reaches the agent |
| `Gui.MainWindow.UpdateDecay` | src/gui.py:187-191 | the agent rebuilds its curve; a returned length caps the depth, so the depth never exceeds the new curve's length |
| `Gui.MainWindow.UpdateStartFrame` | src/gui.py:193-195 | the agent's offset is the start frame minus one, within `[0, maximum)` |
| `Gui.MainWindow.StartEvent` | src/gui.py:197-204 | Start disabled, progress 0, label cleared, the run gets the chosen depth |
| `Gui.MainWindow.UpdateBar` | src/gui.py:206-222 | signal 0: Start enabled, label done, progress kept; signal 1: progress up by exactly one unless full, label shows the split of `eta` (raises when the count divided by is 0); other signals change nothing |

## Left out

- Qt layout, fonts, icons, file dialogs and signal/slot wiring (src/gui.py:15-157). These are user-interface plumbing. The chosen folder enters as a parameter. `_select_save_path_event` (src/gui.py:178-185) is not modelled: it only passes the folder to `set_outdir` and displays the result.
- Redirection of stdout/stderr into the log view, `_write_log_info` and every `print`. This is output to a text widget. The print at src/startrail.py:62 is modelled only for the `IndexError` it raises on an empty curve.
- The eight-worker `ThreadPool` and `starmap` (src/startrail.py:77-79). These are concurrency: tasks are independent and their order does not matter. The model gives the task list and one task's outcome. `UpdateBar` handles one signal at a time. The run as a sequence of signals is not modelled.
- The image library (`Image.open`, `ImageEnhance.Brightness`, `ImageStat`, `convert("L")`, `save`). These are foreign calls and become fields of `Compositor.Imaging`. Saving becomes the returned `Saved(path, image)`.
- `Compositor.Lighter`: an image is a flat sequence of channel samples, and `lighter` on images of different sizes keeps the common prefix. This does not model the library's crop to the common width and height, because images have no dimensions here. For frames of equal size the two agree.
- Floating point. Weights are exact reals. The Gaussian curve's values at `x >= 1` (numpy `tan`/`exp`) are the parameter `gauss`. The `:.2` formatting of the intensity is `Imaging.format2`.
- Natural sort, directory listing, `os.makedirs` and the clock. The sort is the parameter `natsort` (taken to be a permutation where a lemma needs it). The listing is the parameter `listing`. Directory creation is I/O. The elapsed-time ETA enters as the integer `eta`, the value of `int(eta_time)`.
- Path handling follows POSIX `os.path`. Windows drive and backslash rules, and the display's backslash replacement, are not modelled.
- `_unit2` (src/startrail.py:103-132) is dead code: it reads a field that does not exist.
