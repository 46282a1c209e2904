/** The task list `star_trail` hands to its worker pool: one task per
    output frame, pairing a window of recent frames with the matching tail
    of the decay curve. All indexing follows Python's slice rules, so the
    function is total; the lemmas state what it yields in the range the
    window clamps the stack depth to. */
module Planner {
  import PySlice
  import Paths

  /** One output frame's inputs: the frames to stack, oldest first, and the
      weights to apply to them. */
  datatype Task = Task(frames: seq<string>, weights: seq<real>)

  function Min(a: int, b: int): int
  {
    if a < b then a else b
  }

  /** The task for output position `i` (counting from 1), given the frames
      after the start offset and the trimmed curve. */
  function TaskAt(frames: seq<string>, trimmed: seq<real>, stackNum: int, i: int): Task
  {
    Task(PySlice.Slice(frames, if i <= stackNum then 0 else i - stackNum, i),
         PySlice.From(trimmed, if i < stackNum then -i else -stackNum))
  }

  /** The task list of `star_trail(stack_num)`: the curve trimmed to its last
      `stack_num` weights, the frames from `start_frame` on, and one task
      per position `i = 1 .. len(frames)`. */
  function Plan(files: seq<string>, decay: seq<real>, startFrame: int, stackNum: int): seq<Task>
  {
    var trimmed := PySlice.From(decay, |decay| - stackNum);
    var frames := PySlice.From(files, startFrame);
    seq(|frames|, k => TaskAt(frames, trimmed, stackNum, k + 1))
  }

  /** There is one task per frame from the start offset on. */
  lemma PlanLength(files: seq<string>, decay: seq<real>, startFrame: int, stackNum: int)
    requires 0 <= startFrame <= |files|
    ensures |Plan(files, decay, startFrame, stackNum)| == |files| - startFrame
  {
  }

  /** With the stack depth within the curve, task `k` (position `i = k + 1`)
      stacks the `min(i, stack_num)` frames ending at `files[start_frame + k]`
      and pairs them with the same number of weights from the end of the
      curve, so its most recent frame always gets the curve's last weight. */
  lemma PlanTask(files: seq<string>, decay: seq<real>, startFrame: int, stackNum: int, k: int)
    requires 1 <= stackNum <= |decay|
    requires 0 <= startFrame <= |files|
    requires 0 <= k < |files| - startFrame
    ensures |Plan(files, decay, startFrame, stackNum)| == |files| - startFrame
    ensures var t, m := Plan(files, decay, startFrame, stackNum)[k], Min(k + 1, stackNum);
            |t.frames| == m && |t.weights| == m &&
            t.frames == files[startFrame + k + 1 - m .. startFrame + k + 1] &&
            t.weights == decay[|decay| - m..] &&
            t.frames[m - 1] == files[startFrame + k] &&
            t.weights[m - 1] == decay[|decay| - 1]
  {
    PlanAt(files, decay, startFrame, stackNum, k);
    TaskOfFiles(files, decay, startFrame, stackNum, k);
  }

  /** The task at position `k + 1` over the frames from the start offset
      and the trimmed curve, in terms of the whole frame list and curve. */
  lemma TaskOfFiles(files: seq<string>, decay: seq<real>, startFrame: int, stackNum: int, k: int)
    requires 1 <= stackNum <= |decay|
    requires 0 <= startFrame <= |files|
    requires 0 <= k < |files| - startFrame
    ensures var t, m := TaskAt(files[startFrame..], PySlice.From(decay, |decay| - stackNum), stackNum, k + 1), Min(k + 1, stackNum);
            |t.frames| == m && |t.weights| == m &&
            t.frames == files[startFrame + k + 1 - m .. startFrame + k + 1] &&
            t.weights == decay[|decay| - m..] &&
            t.frames[m - 1] == files[startFrame + k] &&
            t.weights[m - 1] == decay[|decay| - 1]
  {
    var m := Min(k + 1, stackNum);
    var frames, trimmed := files[startFrame..], PySlice.From(decay, |decay| - stackNum);
    assert trimmed == decay[|decay| - stackNum..];
    TaskAtWindow(frames, trimmed, stackNum, k + 1);
    PySlice.SliceOfSuffix(files, startFrame, k + 1 - m, k + 1);
    assert trimmed[stackNum - m..] == decay[|decay| - m..];
  }

  /** Position `i` in range takes the last `min(i, stack_num)` frames up to
      `i` and as many weights from the end of a curve of `stack_num`
      entries. */
  lemma TaskAtWindow(frames: seq<string>, trimmed: seq<real>, stackNum: int, i: int)
    requires 1 <= i <= |frames|
    requires 1 <= stackNum == |trimmed|
    ensures var t, m := TaskAt(frames, trimmed, stackNum, i), Min(i, stackNum);
            t.frames == frames[i - m..i] && t.weights == trimmed[stackNum - m..]
  {
    var m := Min(i, stackNum);
    PySlice.SliceInRange(frames, i - m, i);
    PySlice.FromNegative(trimmed, m);
  }

  /** Different tasks end in different frames when the frames are distinct,
      which is what keeps their output names apart. */
  lemma LastFramesDistinct(files: seq<string>, decay: seq<real>, startFrame: int, stackNum: int, k1: int, k2: int)
    requires 1 <= stackNum <= |decay|
    requires 0 <= startFrame <= |files|
    requires Paths.Distinct(files)
    requires 0 <= k1 < k2 < |files| - startFrame
    ensures var tasks := Plan(files, decay, startFrame, stackNum);
            Last(tasks[k1].frames) != Last(tasks[k2].frames)
  {
    PlanTask(files, decay, startFrame, stackNum, k1);
    PlanTask(files, decay, startFrame, stackNum, k2);
  }

  /** Task `k` of the plan is the task at position `k + 1` over the frames
      from the start offset on and the trimmed curve. */
  lemma PlanAt(files: seq<string>, decay: seq<real>, startFrame: int, stackNum: int, k: int)
    requires 0 <= startFrame <= |files|
    requires 0 <= k < |files| - startFrame
    ensures |Plan(files, decay, startFrame, stackNum)| == |files| - startFrame
    ensures Plan(files, decay, startFrame, stackNum)[k] ==
              TaskAt(files[startFrame..], PySlice.From(decay, |decay| - stackNum), stackNum, k + 1)
  {
    assert PySlice.From(files, startFrame) == files[startFrame..];
  }

  /** A stack depth of 0 plans every task with no frames: the window
      `files[i:i]` is empty. */
  lemma ZeroDepthNoFrames(files: seq<string>, decay: seq<real>, startFrame: int, k: int)
    requires 0 <= startFrame <= |files|
    requires 0 <= k < |files| - startFrame
    ensures |Plan(files, decay, startFrame, 0)| == |files| - startFrame
    ensures Plan(files, decay, startFrame, 0)[k].frames == []
  {
    PlanAt(files, decay, startFrame, 0, k);
    var frames := files[startFrame..];
    assert TaskAt(frames, PySlice.From(decay, |decay|), 0, k + 1).frames == PySlice.Slice(frames, k + 1, k + 1);
  }

  /** An empty curve gives every task its `min(i, stack_num)` frames but
      no weights. */
  lemma EmptyCurveNoWeights(files: seq<string>, decay: seq<real>, startFrame: int, stackNum: int, k: int)
    requires |decay| == 0 && 1 <= stackNum
    requires 0 <= startFrame <= |files|
    requires 0 <= k < |files| - startFrame
    ensures |Plan(files, decay, startFrame, stackNum)| == |files| - startFrame
    ensures var t := Plan(files, decay, startFrame, stackNum)[k];
            |t.frames| == Min(k + 1, stackNum) && |t.weights| == 0
  {
    var frames, trimmed := files[startFrame..], PySlice.From(decay, |decay| - stackNum);
    assert |trimmed| == 0;
    var t := TaskAt(frames, trimmed, stackNum, k + 1);
    assert |t.frames| == Min(k + 1, stackNum) && |t.weights| == 0 by {
      TaskAtNoWeights(frames, trimmed, stackNum, k + 1);
    }
    PlanAt(files, decay, startFrame, stackNum, k);
  }

  /** Over an empty trimmed curve the task at position `i` has its frames
      and no weights. */
  lemma TaskAtNoWeights(frames: seq<string>, trimmed: seq<real>, stackNum: int, i: int)
    requires |trimmed| == 0 && 1 <= stackNum && 1 <= i <= |frames|
    ensures var t := TaskAt(frames, trimmed, stackNum, i);
            |t.frames| == Min(i, stackNum) && |t.weights| == 0
  {
    PySlice.SliceInRange(frames, i - Min(i, stackNum), i);
  }

  /** The most recent frame of a non-empty window (`sub_imgpath_list[-1]`). */
  function Last(frames: seq<string>): string
  {
    if frames == [] then "" else frames[|frames| - 1]
  }

  /** The stack depth must be clamped to the curve: once it exceeds the
      curve's length, the task at position `stack_num` has fewer weights than
      frames (its weights come from a curve slice that wrapped around or was
      clamped), and that task fails on a missing weight. */
  lemma WindowBeyondCurve(files: seq<string>, decay: seq<real>, startFrame: int, stackNum: int)
    requires |decay| < stackNum
    requires 0 <= startFrame && stackNum <= |files| - startFrame
    ensures var t := Plan(files, decay, startFrame, stackNum)[stackNum - 1];
            |t.weights| < |t.frames| == stackNum
  {
    var frames := PySlice.From(files, startFrame);
    var trimmed := PySlice.From(decay, |decay| - stackNum);
    var t := TaskAt(frames, trimmed, stackNum, stackNum);
    assert Plan(files, decay, startFrame, stackNum)[stackNum - 1] == t;
    PySlice.SliceInRange(frames, 0, stackNum);
    assert |t.weights| <= |trimmed| <= |decay|;
  }
}
