/** What one task of `_unit` computes: each frame brightened by its weight,
    the results combined by per-sample maximum ("lighten"), the combination
    rescaled to the mean luminance of the most recent frame, and saved
    under a name derived from that frame. The image library is not part of
    this model; its operations are the fields of `Imaging`. */
module Compositor {
  import opened Outcomes
  import Paths

  /** An image as its flat sequence of channel samples. */
  type Image = seq<int>

  /** The image-library operations `_unit` calls. */
  datatype Imaging = Imaging(
    load: string -> Image,            // Image.open
    brighten: (Image, real) -> Image, // ImageEnhance.Brightness(img).enhance(factor)
    luminance: Image -> real,         // ImageStat.Stat(img.convert("L")).mean[0]
    format2: real -> string           // f"{x:.2}"
  )

  /** A stacked frame as `_unit` saves it: the output path and the image. */
  datatype Saved = Saved(path: string, image: Image)

  function Max(a: int, b: int): int
  {
    if a < b then b else a
  }

  /** `ImageChops.lighter(a, b)`: per-sample maximum over the extent both
      images share. */
  function Lighter(a: Image, b: Image): (r: Image)
    ensures |r| <= |a| && |r| <= |b| && (|r| == |a| || |r| == |b|)
    ensures forall k :: 0 <= k < |r| ==> r[k] >= a[k] && r[k] >= b[k] && (r[k] == a[k] || r[k] == b[k])
  {
    var len := if |a| < |b| then |a| else |b|;
    seq(len, k requires 0 <= k < len => Max(a[k], b[k]))
  }

  /** The accumulator of `_unit`'s loop after all images: the first image,
      then lightened with each later one in turn. Every sample is the
      brightest of that sample over all images, and it is taken from one of
      them. */
  function LightenFold(images: seq<Image>): (r: Image)
    requires |images| > 0
    ensures forall m :: 0 <= m < |images| ==> |r| <= |images[m]|
    ensures exists m :: 0 <= m < |images| && |r| == |images[m]|
    ensures forall m, k :: 0 <= m < |images| && 0 <= k < |r| ==> r[k] >= images[m][k]
    ensures forall k :: 0 <= k < |r| ==> exists m :: 0 <= m < |images| && r[k] == images[m][k]
  {
    if |images| == 1 then images[0]
    else
      var init := images[..|images| - 1];
      var acc := LightenFold(init);
      assert forall m :: 0 <= m < |init| ==> init[m] == images[m];
      Lighter(acc, images[|images| - 1])
  }

  /** Equal-sized images fold to an image of that size. */
  lemma FoldKeepsSize(images: seq<Image>)
    requires |images| > 0
    requires forall m :: 0 <= m < |images| ==> |images[m]| == |images[0]|
    ensures |LightenFold(images)| == |images[0]|
  {
  }

  /** A single image folds to itself. */
  lemma FoldSingle(image: Image)
    ensures LightenFold([image]) == image
  {
  }

  /** The images of a task after brightening each frame by its weight. */
  function Decayed(frames: seq<string>, weights: seq<real>, im: Imaging): (r: seq<Image>)
    requires |frames| <= |weights|
    ensures |r| == |frames|
  {
    seq(|frames|, i requires 0 <= i < |frames| => im.brighten(im.load(frames[i]), weights[i]))
  }

  /** One more frame of the task adds one decayed image to the fold: the
      first becomes the accumulator, a later one is lightened into it. */
  lemma DecayedStep(frames: seq<string>, weights: seq<real>, im: Imaging, i: nat)
    requires i < |frames| && i < |weights|
    ensures var img := im.brighten(im.load(frames[i]), weights[i]);
            LightenFold(Decayed(frames[..i + 1], weights, im)) ==
              if i == 0 then img else Lighter(LightenFold(Decayed(frames[..i], weights, im)), img)
  {
    var done := Decayed(frames[..i + 1], weights, im);
    assert done[i] == im.brighten(im.load(frames[i]), weights[i]);
    if i > 0 {
      assert done[..|done| - 1] == Decayed(frames[..i], weights, im);
    }
  }

  /** The output file name: decay function, intensity to two significant
      digits and the base name of the most recent frame. */
  function OutputName(decayFunction: string, decayIntensity: real, last: string, im: Imaging): string
  {
    decayFunction + "_" + im.format2(decayIntensity) + "_" + Paths.Basename(last)
  }

  /** What one call of `_unit` ends in. With no frames the accumulator is
      never assigned; a frame without a weight raises at the weight lookup;
      a black stack raises at the luminance ratio. Otherwise the stack is
      rescaled to the last frame's mean luminance and saved. */
  function UnitOutcome(frames: seq<string>, weights: seq<real>, outDir: string,
                       decayFunction: string, decayIntensity: real, im: Imaging): Outcome<Saved>
  {
    if |frames| == 0 then Raise(UnboundLocalError)
    else if |weights| < |frames| then Raise(IndexError)
    else
      var acc := LightenFold(Decayed(frames, weights, im));
      var last := frames[|frames| - 1];
      var stacked := im.luminance(acc);
      if stacked == 0.0 then Raise(ZeroDivisionError)
      else Return(Saved(Paths.Join(outDir, OutputName(decayFunction, decayIntensity, last, im)),
                        im.brighten(acc, im.luminance(im.load(last)) / stacked)))
  }

  /** A one-frame task with weight 1 under a library whose brightening by 1
      changes nothing reproduces its frame: the luminance ratio is 1. */
  lemma SingleFrameRoundTrip(frame: string, outDir: string, decayFunction: string, decayIntensity: real, im: Imaging)
    requires forall img :: im.brighten(img, 1.0) == img
    requires im.luminance(im.load(frame)) != 0.0
    ensures UnitOutcome([frame], [1.0], outDir, decayFunction, decayIntensity, im) ==
            Return(Saved(Paths.Join(outDir, OutputName(decayFunction, decayIntensity, frame, im)), im.load(frame)))
  {
    var decayed := Decayed([frame], [1.0], im);
    assert decayed == [im.load(frame)];
    FoldSingle(im.load(frame));
    var l := im.luminance(im.load(frame));
    assert l / l == 1.0;
  }

  /** Tasks whose most recent frames have different base names are saved
      to different paths, so concurrent tasks never overwrite each other. */
  lemma OutputPathsDiffer(outDir: string, decayFunction: string, decayIntensity: real, last1: string, last2: string, im: Imaging)
    requires Paths.Basename(last1) != Paths.Basename(last2)
    requires decayFunction == [] || decayFunction[0] != '/'
    ensures Paths.Join(outDir, OutputName(decayFunction, decayIntensity, last1, im)) !=
            Paths.Join(outDir, OutputName(decayFunction, decayIntensity, last2, im))
  {
    var prefix := decayFunction + "_" + im.format2(decayIntensity) + "_";
    var n1, n2 := OutputName(decayFunction, decayIntensity, last1, im), OutputName(decayFunction, decayIntensity, last2, im);
    assert n1 == prefix + Paths.Basename(last1) && n2 == prefix + Paths.Basename(last2);
    assert n1[0] == prefix[0] == n2[0];
    Paths.JoinRelativeInjective(outDir, n1, n2);
    assert n1[|prefix|..] != n2[|prefix|..];
  }
}
