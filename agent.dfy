/** `StarTrailAgent`: the object that holds the loaded frames and the decay
    settings, builds the decay curve, plans the stacking tasks and runs one
    task. Directory listing, the natural sort, the floating-point Gaussian
    and the image library enter as parameters. */
module StarTrail {
  import opened Outcomes
  import Paths
  import Decay
  import Planner
  import Compositor

  /** `DEFAULT_OUT_DIR`: a `StarTrail` folder on the user's desktop. */
  function DefaultOutDir(userPath: string): string
  {
    Paths.Join(Paths.Join(userPath, "Desktop"), "StarTrail")
  }

  class StarTrailAgent {
    var files: seq<string>
    var decayList: seq<real>
    var decayFunction: string   // `decay_funcitno` in the source
    var decayIntensity: real    // `decay_intension` in the source
    var outDir: string
    var startFrame: int

    constructor (userPath: string)
      ensures files == [] && decayList == []
      ensures decayFunction == "exp" && decayIntensity == 0.96
      ensures outDir == DefaultOutDir(userPath) && startFrame == 0
    {
      files := [];
      decayList := [];
      decayFunction := "exp";
      decayIntensity := 0.96;
      outDir := DefaultOutDir(userPath);
      startFrame := 0;
    }

    /** `get_files(path)`: keeps the listed names with a supported
        extension, joined onto `path` and naturally sorted, and reports how
        many there are and the base name of the first. */
    method GetFiles(path: string, listing: seq<string>, natsort: seq<string> -> seq<string>)
      returns (count: nat, first: string)
      modifies this`files
      ensures files == natsort(Paths.Listed(path, listing))
      ensures count == |files|
      ensures first == if files == [] then "" else Paths.Basename(files[0])
    {
      files := natsort(Paths.Listed(path, listing));
      if files != [] {
        count, first := |files|, Paths.Basename(files[0]);
      } else {
        count, first := 0, "";
      }
    }

    /** `set_outdir(path)`: the output directory becomes `path/StarTrail`. */
    method SetOutdir(path: string) returns (newPath: string)
      modifies this`outDir
      ensures newPath == Paths.Join(path, "StarTrail") && outDir == newPath
    {
      newPath := Paths.Join(path, "StarTrail");
      outDir := newPath;
    }

    /** `get_decay_list(name, p)`. Without frames nothing changes and 0 is
        returned. Otherwise the name and intensity are recorded; intensity 0
        returns 0 and keeps the old curve; any other intensity stores the
        rebuilt curve and returns its length, except that reporting the
        curve's first entry raises when the curve is empty (possible only
        when an unrecognised name kept an empty curve). */
    method GetDecayList(name: string, p: real, gauss: (real, nat) -> real) returns (reply: Outcome<nat>)
      modifies this`decayFunction, this`decayIntensity, this`decayList
      ensures old(files) == [] ==> reply == Return(0) && unchanged(this)
      ensures files != [] ==> decayFunction == name && decayIntensity == p
      ensures files != [] && p == 0.0 ==> reply == Return(0) && decayList == old(decayList)
      ensures files != [] && p != 0.0 ==>
                decayList == Decay.Rebuilt(name, p, |files|, old(decayList), gauss) &&
                reply == if decayList == [] then Raise(IndexError) else Return(|decayList|)
    {
      if files == [] {
        return Return(0);
      }
      decayFunction := name;
      decayIntensity := p;
      var n := |files|;
      if p == 1.0 {
        decayList := Decay.Ones(n);
      } else if p == 0.0 {
        return Return(0);
      } else if name == "exp" {
        decayList := Decay.Exp(p, n);
      } else if name == "linear" {
        decayList := Decay.Linear(p, n);
      } else if name == "gauss" {
        decayList := Decay.Gauss(p, n, gauss);
      }
      if decayList == [] {
        return Raise(IndexError);
      }
      reply := Return(|decayList|);
    }

    /** `set_start_frame(k)`: frame numbers count from 1, offsets from 0. */
    method SetStartFrame(input: int)
      modifies this`startFrame
      ensures startFrame == input - 1
    {
      startFrame := input - 1;
    }

    /** The task list `star_trail(stack_num)` submits to its pool. */
    method StarTrail(stackNum: int) returns (tasks: seq<Planner.Task>)
      ensures tasks == Planner.Plan(files, decayList, startFrame, stackNum)
    {
      tasks := Planner.Plan(files, decayList, startFrame, stackNum);
    }

    /** `_unit(frames, weights)`: the lighten loop over the task's frames,
        then normalisation and the output name. */
    method Unit(frames: seq<string>, weights: seq<real>, im: Compositor.Imaging)
      returns (out: Outcome<Compositor.Saved>)
      ensures out == Compositor.UnitOutcome(frames, weights, outDir, decayFunction, decayIntensity, im)
    {
      var i := 0;
      var acc: Compositor.Image := [];
      while i < |frames|
        invariant 0 <= i <= |frames| && i <= |weights|
        invariant i > 0 ==> acc == Compositor.LightenFold(Compositor.Decayed(frames[..i], weights, im))
      {
        var img := im.load(frames[i]);
        if i >= |weights| {
          return Raise(IndexError);
        }
        var decayImg := im.brighten(img, weights[i]);
        Compositor.DecayedStep(frames, weights, im, i);
        if i == 0 {
          acc := decayImg;
        } else {
          acc := Compositor.Lighter(acc, decayImg);
        }
        i := i + 1;
      }
      if |frames| == 0 {
        return Raise(UnboundLocalError);
      }
      assert frames[..i] == frames;
      var last := frames[|frames| - 1];
      var stacked := im.luminance(acc);
      var input := im.luminance(im.load(last));
      if stacked == 0.0 {
        return Raise(ZeroDivisionError);
      }
      var result := im.brighten(acc, input / stacked);
      var path := Paths.Join(outDir, Compositor.OutputName(decayFunction, decayIntensity, last, im));
      out := Return(Compositor.Saved(path, result));
    }
  }

  /** Under the window's clamp (`1 <= stack_num <= len(decay_list)`) a
      planned task always has frames and a weight for each of them, so its
      only possible failure is the luminance ratio of a black stack; a saved
      task is named after the frame at its position. */
  lemma PlannedTaskOutcome(files: seq<string>, decay: seq<real>, startFrame: int, stackNum: int, k: int,
                           outDir: string, decayFunction: string, decayIntensity: real, im: Compositor.Imaging)
    requires 1 <= stackNum <= |decay|
    requires 0 <= startFrame <= |files|
    requires 0 <= k < |files| - startFrame
    ensures var t := Planner.Plan(files, decay, startFrame, stackNum)[k];
            var out := Compositor.UnitOutcome(t.frames, t.weights, outDir, decayFunction, decayIntensity, im);
            (out.Raise? ==> out.error == ZeroDivisionError) &&
            (out.Return? ==>
               out.value.path == Paths.Join(outDir, Compositor.OutputName(decayFunction, decayIntensity, files[startFrame + k], im)))
  {
    Planner.PlanTask(files, decay, startFrame, stackNum, k);
    var t := Planner.Plan(files, decay, startFrame, stackNum)[k];
    assert |t.frames| > 0 && |t.weights| == |t.frames|;
    assert t.frames[|t.frames| - 1] == files[startFrame + k];
  }

  /** A run started before any decay control has built a curve: every
      planned task has frames but no weights, so each raises at its first
      weight lookup. */
  lemma EmptyCurveTasksFail(files: seq<string>, decay: seq<real>, startFrame: int, stackNum: int, k: int,
                            outDir: string, decayFunction: string, decayIntensity: real, im: Compositor.Imaging)
    requires |decay| == 0 && 1 <= stackNum
    requires 0 <= startFrame <= |files|
    requires 0 <= k < |files| - startFrame
    ensures var t := Planner.Plan(files, decay, startFrame, stackNum)[k];
            |t.frames| == Planner.Min(k + 1, stackNum) && t.weights == [] &&
            Compositor.UnitOutcome(t.frames, t.weights, outDir, decayFunction, decayIntensity, im) == Raise(IndexError)
  {
    Planner.EmptyCurveNoWeights(files, decay, startFrame, stackNum, k);
  }

  /** A depth of 0 (the depth box's minimum after a cap of 0) plans tasks
      without frames, and each raises on the accumulator it never
      assigned. */
  lemma ZeroDepthTasksFail(files: seq<string>, decay: seq<real>, startFrame: int, k: int,
                           outDir: string, decayFunction: string, decayIntensity: real, im: Compositor.Imaging)
    requires 0 <= startFrame <= |files|
    requires 0 <= k < |files| - startFrame
    ensures var t := Planner.Plan(files, decay, startFrame, 0)[k];
            t.frames == [] &&
            Compositor.UnitOutcome(t.frames, t.weights, outDir, decayFunction, decayIntensity, im) == Raise(UnboundLocalError)
  {
    var t := Planner.Plan(files, decay, startFrame, 0)[k];
    Planner.ZeroDepthNoFrames(files, decay, startFrame, k);
    assert t.frames == [];
  }

  /** Frames with distinct base names give every two tasks different output
      paths. */
  lemma PlannedOutputsDistinct(files: seq<string>, decay: seq<real>, startFrame: int, stackNum: int, k1: int, k2: int,
                               outDir: string, decayFunction: string, decayIntensity: real, im: Compositor.Imaging)
    requires 1 <= stackNum <= |decay|
    requires 0 <= startFrame <= |files|
    requires Paths.Distinct(Paths.Basenames(files))
    requires decayFunction == [] || decayFunction[0] != '/'
    requires 0 <= k1 < k2 < |files| - startFrame
    ensures var tasks := Planner.Plan(files, decay, startFrame, stackNum);
            var out1 := Compositor.UnitOutcome(tasks[k1].frames, tasks[k1].weights, outDir, decayFunction, decayIntensity, im);
            var out2 := Compositor.UnitOutcome(tasks[k2].frames, tasks[k2].weights, outDir, decayFunction, decayIntensity, im);
            out1.Return? && out2.Return? ==> out1.value.path != out2.value.path
  {
    Planner.PlanTask(files, decay, startFrame, stackNum, k1);
    Planner.PlanTask(files, decay, startFrame, stackNum, k2);
    var tasks := Planner.Plan(files, decay, startFrame, stackNum);
    var last1, last2 := files[startFrame + k1], files[startFrame + k2];
    assert Paths.Basenames(files)[startFrame + k1] == Paths.Basename(last1);
    assert Paths.Basenames(files)[startFrame + k2] == Paths.Basename(last2);
    Compositor.OutputPathsDiffer(outDir, decayFunction, decayIntensity, last1, last2, im);
  }
}
