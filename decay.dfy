/** The decay curves `get_decay_list` builds. Every curve is a list over the
    reverse index `x = n-1, ..., 0` (the distance of a frame from the most
    recent one), so entry `j` of a curve of length `n` is the weight at
    `x = n-1-j` and the last entry belongs to the most recent frame.
    Floating point is modelled by exact reals. */
module Decay {

  /** `p ** x` for a natural exponent. */
  function Pow(p: real, x: nat): real
  {
    if x == 0 then 1.0 else p * Pow(p, x - 1)
  }

  /** `[w(x) for x in range(n - 1, -1, -1)]` */
  function Curve(w: nat -> real, n: nat): (r: seq<real>)
    ensures |r| == n
  {
    if n == 0 then [] else [w(n - 1)] + Curve(w, n - 1)
  }

  /** Intensity 1: every weight is `1.0`. */
  function Ones(n: nat): seq<real>
  {
    Curve((x: nat) => 1.0, n)
  }

  /** The exponential curve `p ** x`. */
  function Exp(p: real, n: nat): seq<real>
  {
    Curve((x: nat) => Pow(p, x), n)
  }

  /** The linear curve before filtering: `k * x + 1` with slope `k = p - 1`. */
  function LinearRaw(p: real, n: nat): seq<real>
  {
    Curve((x: nat) => (p - 1.0) * (x as real) + 1.0, n)
  }

  /** The boolean mask `a[a >= 0]`: the non-negative entries, in order. */
  function NonNegative(s: seq<real>): (r: seq<real>)
    ensures |r| <= |s|
    ensures forall k :: 0 <= k < |r| ==> r[k] >= 0.0
  {
    if s == [] then []
    else (if s[0] >= 0.0 then [s[0]] else []) + NonNegative(s[1..])
  }

  /** The linear curve as stored: the raw curve with negative weights dropped. */
  function Linear(p: real, n: nat): seq<real>
  {
    NonNegative(LinearRaw(p, n))
  }

  /** The Gaussian curve `exp(-x^2 / (2 c^2))` with `c = tan(p * pi / 2)`.
      Its floating-point value is not modelled: `gauss(p, x)` stands for it
      at `x >= 1`, and at `x = 0` the exponent is zero, so the weight is 1. */
  function Gauss(p: real, n: nat, gauss: (real, nat) -> real): seq<real>
  {
    Curve((x: nat) => if x == 0 then 1.0 else gauss(p, x), n)
  }

  /** The function names the decay selector offers. */
  predicate Recognised(name: string)
  {
    name == "exp" || name == "linear" || name == "gauss"
  }

  /** The list `get_decay_list` leaves in `decay_list` once it has frames and
      a non-zero intensity: intensity 1 wins over the function name, and an
      unrecognised name has no branch, so `current` is kept. */
  function Rebuilt(name: string, p: real, n: nat, current: seq<real>, gauss: (real, nat) -> real): seq<real>
  {
    if p == 1.0 then Ones(n)
    else if name == "exp" then Exp(p, n)
    else if name == "linear" then Linear(p, n)
    else if name == "gauss" then Gauss(p, n, gauss)
    else current
  }

  /** Entry `j` of a curve carries the weight of reverse index `n-1-j`. */
  lemma {:induction false} CurveAt(w: nat -> real, n: nat, j: nat)
    requires j < n
    ensures Curve(w, n)[j] == w(n - 1 - j)
  {
    if j > 0 {
      CurveAt(w, n - 1, j - 1);
    }
  }

  /** Intensity 1 gives `n` ones. */
  lemma OnesShape(n: nat)
    ensures |Ones(n)| == n
    ensures forall j :: 0 <= j < n ==> Ones(n)[j] == 1.0
  {
    forall j | 0 <= j < n ensures Ones(n)[j] == 1.0 {
      CurveAt((x: nat) => 1.0, n, j);
    }
  }

  /** The exponential curve has `n` entries, entry `j` is `p^(n-1-j)`, and
      the most recent frame's weight is 1. */
  lemma ExpShape(p: real, n: nat)
    ensures |Exp(p, n)| == n
    ensures forall j :: 0 <= j < n ==> Exp(p, n)[j] == Pow(p, n - 1 - j)
    ensures n > 0 ==> Exp(p, n)[n - 1] == 1.0
  {
    forall j | 0 <= j < n ensures Exp(p, n)[j] == Pow(p, n - 1 - j) {
      CurveAt((x: nat) => Pow(p, x), n, j);
    }
  }

  lemma {:induction false} PowPositive(p: real, x: nat)
    requires p > 0.0
    ensures Pow(p, x) > 0.0
  {
    if x > 0 {
      PowPositive(p, x - 1);
    }
  }

  /** For `0 < p < 1` one more factor makes a power strictly smaller while
      keeping it in `(0, 1]`. */
  lemma {:induction false} PowStep(p: real, x: nat)
    requires 0.0 < p < 1.0
    ensures 0.0 < Pow(p, x + 1) < Pow(p, x) <= 1.0
  {
    var y, z := Pow(p, x), Pow(p, x + 1);
    if x > 0 {
      PowStep(p, x - 1);
    }
    PowPositive(p, x);
    assert y <= 1.0;
    ScaleBelow(p, y, z);
  }

  /** Scaling a positive value by a factor in `(0, 1)` keeps it positive and
      makes it smaller. */
  lemma ScaleBelow(p: real, y: real, z: real)
    requires 0.0 < p < 1.0 && 0.0 < y && z == p * y
    ensures 0.0 < z < y
  {
    var q := 1.0 - p;
    assert y - z == q * y;
    assert q * y > 0.0;
  }

  /** For `0 < p < 1` a larger exponent gives a strictly smaller power,
      and every power lies in `(0, 1]`. */
  lemma {:induction false} PowDecreasing(p: real, a: nat, b: nat)
    requires 0.0 < p < 1.0
    requires a < b
    ensures 0.0 < Pow(p, b) < Pow(p, a) <= 1.0
    decreases b
  {
    PowStep(p, b - 1);
    if a < b - 1 {
      PowDecreasing(p, a, b - 1);
    }
  }

  /** For `0 < p < 1` the exponential weights strictly increase toward the
      most recent frame and stay within `(0, 1]`. */
  lemma ExpIncreasing(p: real, n: nat)
    requires 0.0 < p < 1.0
    ensures forall i, j :: 0 <= i < j < n ==> 0.0 < Exp(p, n)[i] < Exp(p, n)[j] <= 1.0
  {
    ExpShape(p, n);
    forall i, j | 0 <= i < j < n ensures 0.0 < Exp(p, n)[i] < Exp(p, n)[j] <= 1.0 {
      if j < n - 1 {
        PowDecreasing(p, n - 1 - j, n - 1 - i);
      } else {
        PowDecreasing(p, 0, n - 1 - i);
      }
    }
  }

  /** A value survives the mask exactly when it occurs and is non-negative. */
  lemma {:induction false} NonNegativeMembers(s: seq<real>, v: real)
    ensures v in NonNegative(s) <==> v in s && v >= 0.0
  {
    if s != [] {
      NonNegativeMembers(s[1..], v);
      assert s == [s[0]] + s[1..];
    }
  }

  /** A sequence whose non-negative entries never precede a negative one
      loses exactly its negative prefix under the mask. */
  lemma {:induction false} NonNegativeOfUpwardClosed(s: seq<real>)
    requires forall i, j :: 0 <= i < j < |s| && s[i] >= 0.0 ==> s[j] >= 0.0
    ensures NonNegative(s) == s[|s| - |NonNegative(s)|..]
    ensures forall j :: 0 <= j < |s| - |NonNegative(s)| ==> s[j] < 0.0
  {
    if s != [] {
      NonNegativeOfUpwardClosed(s[1..]);
      if s[0] >= 0.0 {
        AllNonNegative(s);
      } else {
        assert NonNegative(s) == NonNegative(s[1..]);
        assert s[1..][|s[1..]| - |NonNegative(s)|..] == s[|s| - |NonNegative(s)|..];
        forall j | 0 < j < |s| - |NonNegative(s)| ensures s[j] < 0.0 {
          assert s[j] == s[1..][j - 1];
        }
      }
    }
  }

  lemma {:induction false} AllNonNegative(s: seq<real>)
    requires forall j :: 0 <= j < |s| ==> s[j] >= 0.0
    ensures NonNegative(s) == s
  {
    if s != [] {
      AllNonNegative(s[1..]);
      assert s == [s[0]] + s[1..];
    }
  }

  /** The stored linear curve is a suffix of the raw one: it keeps at most
      `n` non-negative weights, drops only negative ones, and for `n >= 1`
      is non-empty and ends in the most recent frame's weight 1. */
  lemma LinearShape(p: real, n: nat)
    ensures |Linear(p, n)| <= n
    ensures forall j :: 0 <= j < |Linear(p, n)| ==> Linear(p, n)[j] >= 0.0
    ensures Linear(p, n) == LinearRaw(p, n)[n - |Linear(p, n)|..]
    ensures forall j :: 0 <= j < n - |Linear(p, n)| ==> LinearRaw(p, n)[j] < 0.0
    ensures n > 0 ==> |Linear(p, n)| > 0 && Linear(p, n)[|Linear(p, n)| - 1] == 1.0
  {
    var raw := LinearRaw(p, n);
    LinearRawUpwardClosed(p, n);
    NonNegativeOfUpwardClosed(raw);
    if n > 0 {
      CurveAt((x: nat) => (p - 1.0) * (x as real) + 1.0, n, n - 1);
      assert raw[n - 1] == 1.0;
    }
  }

  /** Entry `j` of the raw linear curve is `k * (n-1-j) + 1` with `k = p - 1`. */
  lemma LinearRawAt(p: real, n: nat)
    ensures forall j :: 0 <= j < n ==> LinearRaw(p, n)[j] == (p - 1.0) * ((n - 1 - j) as real) + 1.0
  {
    forall j | 0 <= j < n ensures LinearRaw(p, n)[j] == (p - 1.0) * ((n - 1 - j) as real) + 1.0 {
      CurveAt((x: nat) => (p - 1.0) * (x as real) + 1.0, n, j);
    }
  }

  /** In the raw linear curve a non-negative weight is never followed by a
      negative one. */
  lemma LinearRawUpwardClosed(p: real, n: nat)
    ensures forall i, j :: 0 <= i < j < n && LinearRaw(p, n)[i] >= 0.0 ==> LinearRaw(p, n)[j] >= 0.0
  {
    var raw := LinearRaw(p, n);
    var w := (x: nat) => (p - 1.0) * (x as real) + 1.0;
    forall i, j | 0 <= i < j < n && raw[i] >= 0.0 ensures raw[j] >= 0.0 {
      CurveAt(w, n, i);
      CurveAt(w, n, j);
      LinearStep(p - 1.0, n - 1 - i, n - 1 - j);
    }
  }

  /** Along a line through `(0, 1)`, a non-negative value at `a` stays
      non-negative at any `b < a`. */
  lemma LinearStep(k: real, a: nat, b: nat)
    requires b < a
    requires k * (a as real) + 1.0 >= 0.0
    ensures k * (b as real) + 1.0 >= 0.0
  {
    if k < 0.0 {
      assert k * (b as real) >= k * (a as real) by {
        assert k * ((a as real) - (b as real)) < 0.0;
      }
    } else {
      assert k * (b as real) >= 0.0;
    }
  }

  /** The Gaussian curve has `n` entries carrying `gauss(p, x)`, and the
      most recent frame's weight is 1. */
  lemma GaussShape(p: real, n: nat, gauss: (real, nat) -> real)
    ensures |Gauss(p, n, gauss)| == n
    ensures forall j :: 0 <= j < n - 1 ==> Gauss(p, n, gauss)[j] == gauss(p, n - 1 - j)
    ensures n > 0 ==> Gauss(p, n, gauss)[n - 1] == 1.0
  {
    var w := (x: nat) => if x == 0 then 1.0 else gauss(p, x);
    forall j | 0 <= j < n ensures Gauss(p, n, gauss)[j] == w(n - 1 - j) {
      CurveAt(w, n, j);
    }
  }

  /** With intensity 1 or a recognised name the new list has between 1 and
      `n` entries (for `n >= 1`) and its last weight is 1; an unrecognised
      name with any other intensity keeps the current list. */
  lemma RebuiltShape(name: string, p: real, n: nat, current: seq<real>, gauss: (real, nat) -> real)
    ensures (p == 1.0 || Recognised(name)) && n > 0 ==>
              0 < |Rebuilt(name, p, n, current, gauss)| <= n &&
              Rebuilt(name, p, n, current, gauss)[|Rebuilt(name, p, n, current, gauss)| - 1] == 1.0
    ensures p != 1.0 && !Recognised(name) ==> Rebuilt(name, p, n, current, gauss) == current
  {
    OnesShape(n);
    ExpShape(p, n);
    LinearShape(p, n);
    GaussShape(p, n, gauss);
  }
}
