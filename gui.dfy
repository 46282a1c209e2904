/** The main window's event handlers: loading a folder, recomputing the
    decay curve, choosing the start frame, starting a run and following its
    progress. Widgets are reduced to the state the handlers read and write;
    the Qt rules that decide that state (a progress bar ignores values out
    of range, a spin box clamps its value when its maximum drops) are
    written out as functions on small value types. */
module Gui {
  import opened Outcomes
  import Paths
  import Decay
  import StarTrail

  /** The decimal digits of `n`, most significant first. */
  function Digits(n: nat): (r: string)
    ensures |r| > 0
    ensures forall i :: 0 <= i < |r| ==> '0' <= r[i] <= '9'
  {
    if n < 10 then ["0123456789"[n]] else Digits(n / 10) + ["0123456789"[n % 10]]
  }

  /** Python's `str(n)` for an integer. */
  function Str(n: int): (r: string)
    ensures forall i :: 0 <= i < |r| ==> r[i] == '-' || '0' <= r[i] <= '9'
  {
    if n < 0 then "-" + Digits(-n) else Digits(n)
  }

  /** The number a string of decimal digits denotes. */
  function DecimalValue(s: string): int
  {
    if s == [] then 0 else DecimalValue(s[..|s| - 1]) * 10 + (s[|s| - 1] as int - '0' as int)
  }

  /** `str` on a natural number can be read back. */
  lemma {:induction false} DigitsRoundTrip(n: nat)
    ensures DecimalValue(Digits(n)) == n
  {
    if n >= 10 {
      DigitsRoundTrip(n / 10);
      var d := Digits(n);
      assert d[..|d| - 1] == Digits(n / 10);
      assert d[|d| - 1] as int - '0' as int == n % 10 by {
        assert "0123456789"[n % 10] as int == '0' as int + n % 10;
      }
    } else {
      assert Digits(n)[..0] == [];
      assert "0123456789"[n] as int == '0' as int + n;
    }
  }

  /** `_update_bar`'s split of the remaining seconds: hours by floor
      division, then minutes from what is left, then seconds. Python's `//`
      floors; for a positive divisor Dafny's `/` is the same. */
  method SplitEta(eta0: int) returns (hours: int, mins: int, secs: int)
    ensures hours * 3600 + mins * 60 + secs == eta0
    ensures 0 <= mins < 60 && 0 <= secs < 60
    ensures hours >= 0 <==> eta0 >= 0
  {
    var eta := eta0;
    hours := eta / 3600;
    eta := eta - hours * 3600;
    mins := eta / 60;
    eta := eta - mins * 60;
    secs := eta;
  }

  /** The split is the unique one: hours, minutes and seconds are the usual
      quotient and remainders. */
  lemma SplitUnique(eta: int, hours: int, mins: int, secs: int)
    requires hours * 3600 + mins * 60 + secs == eta
    requires 0 <= mins < 60 && 0 <= secs < 60
    ensures hours == eta / 3600 && mins == eta % 3600 / 60 && secs == eta % 60
  {
    var r := mins * 60 + secs;
    assert 0 <= r < 3600;
    assert eta == hours * 3600 + r;
    DivModUnique(eta, 3600, hours, r);
    DivModUnique(r, 60, mins, secs);
    assert eta % 60 == secs by {
      DivModUnique(eta, 60, hours * 60 + mins, secs);
    }
  }

  lemma DivModUnique(a: int, d: int, q: int, r: int)
    requires d > 0 && 0 <= r < d && a == q * d + r
    ensures a / d == q && a % d == r
  {
    var q', r' := a / d, a % d;
    var e := q - q';
    assert e * d == r' - r by {
      assert q * d + r == q' * d + r';
      assert q * d - q' * d == e * d;
    }
    if e >= 1 {
      MulAtLeast(e, d);
    } else if e <= -1 {
      MulAtLeast(-e, d);
    }
  }

  lemma MulAtLeast(e: int, d: int)
    requires e >= 1 && d > 0
    ensures e * d >= d
  {
    assert e * d - d == (e - 1) * d;
  }

  const EtaPrefix: string := "预计剩余时间: "
  const EtaCleared: string := "预计剩余时间:"
  const DoneText: string := "已完成!"

  /** The remaining-time label: the hours part only when there are hours;
      minutes and seconds always. */
  function EtaText(hours: int, mins: int, secs: int): (r: string)
    ensures '小' in r <==> hours != 0
    ensures |r| >= |EtaPrefix| && r[..|EtaPrefix|] == EtaPrefix
    ensures Paths.EndsWith(r, " " + Str(mins) + " 分钟" + " " + Str(secs) + " 秒")
  {
    var hoursPart := if hours != 0 then Str(hours) + " 小时" else "";
    var tail := " " + Str(mins) + " 分钟" + " " + Str(secs) + " 秒";
    assert '小' !in EtaPrefix && '小' !in tail;
    assert hours != 0 ==> hoursPart[|hoursPart| - 2] == '小';
    EtaPrefix + hoursPart + tail
  }

  /** A QSpinBox's range and value. */
  datatype SpinBox = SpinBox(minimum: int, maximum: int, value: int) {
    predicate Valid()
    {
      minimum <= value <= maximum
    }

    /** `setMaximum(m)`: the minimum follows the maximum down, and the
        value is clamped into the new range. */
    function WithMaximum(m: int): (r: SpinBox)
      ensures r.Valid() && r.maximum == m
      ensures r.minimum == if minimum < m then minimum else m
      ensures Valid() ==> r.value == if value <= m then value else m
    {
      var lo := if minimum < m then minimum else m;
      SpinBox(lo, m, if value > m then m else if value < lo then lo else value)
    }
  }

  /** A QProgressBar's range and value; `minimum - 1` is its reset state. */
  datatype ProgressBar = ProgressBar(minimum: int, maximum: int, value: int) {
    /** The window's bar starts at 0 and only ever gets a positive maximum. */
    predicate Valid()
    {
      minimum == 0 < maximum && -1 <= value <= maximum
    }

    /** `setValue(v)`: a value outside the range is ignored, unless the
        range is `0..0`. */
    function WithValue(v: int): (r: ProgressBar)
      ensures Valid() ==> r.Valid()
      ensures r.minimum == minimum && r.maximum == maximum
      ensures minimum <= v <= maximum ==> r.value == v
      ensures (v < minimum || maximum < v) && (minimum != 0 || maximum != 0) ==> r.value == value
    {
      if (v > maximum || v < minimum) && (maximum != 0 || minimum != 0) then this
      else ProgressBar(minimum, maximum, v)
    }

    /** `setMaximum(m)`, that is `setRange(min(minimum, m), m)`: a value
        that falls outside the new range is reset. */
    function WithMaximum(m: int): (r: ProgressBar)
      ensures r.maximum == m && r.minimum == if minimum < m then minimum else m
      ensures r.value == value || r.value == r.minimum - 1
      ensures r.minimum - 1 <= value <= m ==> r.value == value
      ensures (value < r.minimum - 1 || m < value) && (r.minimum != minimum || m != maximum) ==>
                r.value == r.minimum - 1
      ensures Valid() && m > 0 ==> r.Valid()
    {
      var lo := if minimum < m then minimum else m;
      if lo == minimum && m == maximum then this
      else if value < lo - 1 || value > m then ProgressBar(lo, m, lo - 1)
      else ProgressBar(lo, m, value)
    }
  }

  class MainWindow {
    const agent: StarTrail.StarTrailAgent
    var inputText: string        // the folder line edit
    var startEnabled: bool       // the Start button
    var remainTimeText: string   // the remaining-time label
    var progress: ProgressBar
    var stackNum: SpinBox        // frames stacked per output
    var startNum: SpinBox        // first frame to stack, counting from 1

    ghost predicate Valid()
      reads this
    {
      progress.Valid() && stackNum.Valid() && startNum.Valid() && startNum.minimum == 1
    }

    constructor (userPath: string)
      ensures Valid() && fresh(agent)
      ensures agent.files == [] && agent.decayList == [] && agent.startFrame == 0
      ensures agent.decayFunction == "exp" && agent.decayIntensity == 0.96
      ensures agent.outDir == StarTrail.DefaultOutDir(userPath)
      ensures inputText == "请选择要导入的文件夹" && startEnabled && remainTimeText == EtaPrefix
      ensures progress == ProgressBar(0, 100, -1)
      ensures stackNum == SpinBox(1, 99, 30) && startNum == SpinBox(1, 99, 1)
    {
      agent := new StarTrail.StarTrailAgent(userPath);
      inputText := "请选择要导入的文件夹";
      startEnabled := true;
      remainTimeText := EtaPrefix;
      progress := ProgressBar(0, 100, -1);
      stackNum := SpinBox(1, 99, 30);
      startNum := SpinBox(1, 99, 1);
    }

    /** `_select_images_path_event`: for a chosen folder the agent lists its
        frames; when there are any, the progress bar, the stack depth and the
        start frame all get the frame count as maximum and the progress
        restarts at 0. A start frame that the new maximum clamps is passed on
        to the agent, as its change signal does. */
    method SelectImagesPath(filepath: string, listing: seq<string>, natsort: seq<string> -> seq<string>)
      requires Valid()
      modifies this, agent
      ensures Valid()
      ensures filepath == "" ==> unchanged(this) && unchanged(agent)
      ensures filepath != "" ==> agent.files == natsort(Paths.Listed(filepath, listing))
      ensures agent.decayList == old(agent.decayList) && agent.outDir == old(agent.outDir)
      ensures agent.decayFunction == old(agent.decayFunction) && agent.decayIntensity == old(agent.decayIntensity)
      ensures startEnabled == old(startEnabled) && remainTimeText == old(remainTimeText)
      ensures filepath != "" && agent.files == [] ==>
                inputText == old(inputText) && progress == old(progress) &&
                stackNum == old(stackNum) && startNum == old(startNum) &&
                agent.startFrame == old(agent.startFrame)
      ensures filepath != "" && agent.files != [] ==>
                var num := |agent.files|;
                inputText == "已导入[" + Paths.Basename(agent.files[0]) + ", ...]等" + Str(num) + "张图片" &&
                progress == ProgressBar(0, num, 0) &&
                stackNum == old(stackNum).WithMaximum(num) &&
                startNum == old(startNum).WithMaximum(num) &&
                agent.startFrame == if startNum.value != old(startNum.value) then startNum.value - 1
                                    else old(agent.startFrame)
    {
      if filepath != "" {
        var num, name1 := agent.GetFiles(filepath, listing, natsort);
        if num != 0 {
          inputText := "已导入[" + name1 + ", ...]等" + Str(num) + "张图片";
          progress := progress.WithMaximum(num);
          progress := progress.WithValue(0);
          stackNum := stackNum.WithMaximum(num);
          var before := startNum.value;
          startNum := startNum.WithMaximum(num);
          if startNum.value != before {
            UpdateStartFrame();
          }
        }
      }
    }

    /** `_update_decay_event`: the agent rebuilds its curve and the stack
        depth is capped by the length it reports. When the report raises,
        the cap is not touched. */
    method UpdateDecay(name: string, p: real, gauss: (real, nat) -> real) returns (reply: Outcome<nat>)
      requires Valid()
      modifies this, agent
      ensures Valid()
      ensures agent.files == old(agent.files) && agent.startFrame == old(agent.startFrame) && agent.outDir == old(agent.outDir)
      ensures agent.files != [] ==> agent.decayFunction == name && agent.decayIntensity == p
      ensures agent.files == [] ==> agent.decayFunction == old(agent.decayFunction) && agent.decayIntensity == old(agent.decayIntensity)
      ensures agent.decayList ==
                if agent.files != [] && p != 0.0 then Decay.Rebuilt(name, p, |agent.files|, old(agent.decayList), gauss)
                else old(agent.decayList)
      ensures reply ==
                if agent.files == [] || p == 0.0 then Return(0)
                else if agent.decayList == [] then Raise(IndexError)
                else Return(|agent.decayList|)
      ensures stackNum == if reply.Return? then old(stackNum).WithMaximum(reply.value) else old(stackNum)
      ensures agent.files != [] && p != 0.0 && reply.Return? ==> stackNum.value <= |agent.decayList|
      ensures inputText == old(inputText) && startEnabled == old(startEnabled) && remainTimeText == old(remainTimeText)
      ensures progress == old(progress) && startNum == old(startNum)
    {
      reply := agent.GetDecayList(name, p, gauss);
      if reply.Return? {
        stackNum := stackNum.WithMaximum(reply.value);
      }
    }

    /** `_update_start_frame`: the agent's offset follows the start frame. */
    method UpdateStartFrame()
      requires Valid()
      modifies agent`startFrame
      ensures agent.startFrame == startNum.value - 1
      ensures 0 <= agent.startFrame < startNum.maximum
    {
      agent.SetStartFrame(startNum.value);
    }

    /** `_start_event`: disables Start, clears the progress and the label,
        and hands the chosen stack depth to the run. */
    method StartEvent() returns (depth: int)
      requires Valid()
      modifies this`startEnabled, this`progress, this`remainTimeText
      ensures Valid()
      ensures !startEnabled && remainTimeText == EtaCleared
      ensures progress == old(progress).(value := 0)
      ensures depth == stackNum.value
    {
      startEnabled := false;
      progress := progress.WithValue(0);
      remainTimeText := EtaCleared;
      depth := stackNum.value;
    }

    /** `_update_bar(val)`, with `eta` the whole seconds left as the clock
        estimates them. Signal 0 ends the run: Start is enabled again and the
        label reads done. Signal 1 counts one finished task: the progress
        goes up by one unless the bar is already full, and the label shows
        the split of `eta`; when the count it divides by is 0 the estimate
        raises and the label stays. Other signals change nothing. */
    method UpdateBar(val: int, eta: int) returns (raised: bool)
      requires Valid()
      modifies this`startEnabled, this`progress, this`remainTimeText
      ensures Valid()
      ensures val == 0 ==> startEnabled && remainTimeText == DoneText && progress == old(progress) && !raised
      ensures val == 1 ==>
                startEnabled == old(startEnabled) &&
                progress.maximum == old(progress.maximum) &&
                progress.value == (if old(progress.value) < progress.maximum then old(progress.value) + 1
                                   else old(progress.value)) &&
                raised == (old(progress.value) + 1 == 0) &&
                remainTimeText == if raised then old(remainTimeText)
                                  else EtaText(eta / 3600, eta % 3600 / 60, eta % 60)
      ensures val != 0 && val != 1 ==> unchanged(this) && !raised
    {
      raised := false;
      if val == 0 {
        startEnabled := true;
        remainTimeText := DoneText;
      } else if val == 1 {
        var v := progress.value + 1;
        progress := progress.WithValue(v);
        if v == 0 {
          return true;
        }
        var hours, mins, secs := SplitEta(eta);
        SplitUnique(eta, hours, mins, secs);
        remainTimeText := EtaText(hours, mins, secs);
      }
    }
  }
}
