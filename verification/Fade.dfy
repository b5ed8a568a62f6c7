/** Fading from the shown colour to a new one (src/ptrim-lib.cc, fade). */
module Fade {
  import opened Prelude
  import opened Device
  import opened Color

  /** The number of steps for a fade time. */
  function Steps(fadeTime: string): (r: Byte)
    ensures 1 <= r <= 255
  {
    if fadeTime == "0" then 1
    else if fadeTime == "1" then 10
    else if fadeTime == "2" then 30
    else if fadeTime == "3" then 61
    else if fadeTime == "4" then 122
    else 255
  }

  /** A longer fade time takes no fewer steps: the shortest is immediate, and from 5
      on there are as many as an unsigned char counts. */
  lemma StepsGrow(a: char, b: char)
    requires '0' <= a <= b <= '9'
    ensures Steps([a]) <= Steps([b])
    ensures a < b && a < '5' ==> Steps([a]) < Steps([b])
    ensures Steps("0") == 1 && ('5' <= a ==> Steps([a]) == 255)
  {
  }

  /** The change per step of one component. */
  function Slope(x: Byte, y: Byte, steps: Byte): real
    requires steps > 0
  {
    (x as int - y as int) as real / steps as real
  }

  /** The exact value of a component after k steps. */
  function Exact(x: Byte, y: Byte, steps: Byte, k: nat): real
    requires steps > 0
  {
    x as real - Slope(x, y, steps) * k as real
  }

  /** Between two values, in either order. */
  predicate Between(a: int, v: int, b: int) { a <= v <= b || b <= v <= a }

  lemma ProductMonotone(a: real, k: real, s: real)
    requires k <= s
    ensures a >= 0.0 ==> a * k <= a * s
    ensures a <= 0.0 ==> a * k >= a * s
  {
    assert a * (s - k) == a * s - a * k;
  }

  /** A line from x to y over s steps, seen at k and then at l. */
  lemma LineMoves(x: real, y: real, d: real, k: real, l: real, s: real)
    requires 0.0 <= k <= l <= s && d * s == x - y
    ensures d >= 0.0 ==> y <= x - d * l <= x - d * k <= x
    ensures d <= 0.0 ==> x <= x - d * k <= x - d * l <= y
  {
    ProductMonotone(d, 0.0, k);
    ProductMonotone(d, k, l);
    ProductMonotone(d, l, s);
  }

  lemma SlopeTimesSteps(x: Byte, y: Byte, steps: Byte)
    requires steps > 0
    ensures Slope(x, y, steps) * steps as real == (x as int - y as int) as real
    ensures Slope(x, y, steps) >= 0.0 <==> x >= y
    ensures Slope(x, y, steps) <= 0.0 <==> x <= y
  {
  }

  /** From the start at step 0 to the target at the last step, without turning back. */
  lemma ExactMoves(x: Byte, y: Byte, steps: Byte, k: nat, l: nat)
    requires 0 < steps && k <= l <= steps
    ensures Exact(x, y, steps, 0) == x as real && Exact(x, y, steps, steps) == y as real
    ensures x >= y ==> y as real <= Exact(x, y, steps, l) <= Exact(x, y, steps, k) <= x as real
    ensures x <= y ==> x as real <= Exact(x, y, steps, k) <= Exact(x, y, steps, l) <= y as real
  {
    hide Slope;
    SlopeTimesSteps(x, y, steps);
    LineMoves(x as real, y as real, Slope(x, y, steps), k as real, l as real, steps as real);
  }

  /** Component j of frame k is the exact value rounded down. */
  function Component(x: Byte, y: Byte, steps: Byte, k: nat): (r: Byte)
    requires 0 < steps && k <= steps
  {
    ExactMoves(x, y, steps, k, k);
    Exact(x, y, steps, k).Floor
  }

  /** Each frame lies between start and target, less than one below the exact
      value, and the last is the target. */
  lemma FrameIsClose(x: Byte, y: Byte, steps: Byte, k: nat)
    requires 0 < steps && k <= steps
    ensures Between(x, Component(x, y, steps, k), y)
    ensures 0.0 <= Exact(x, y, steps, k) - Component(x, y, steps, k) as real < 1.0
    ensures Component(x, y, steps, 0) == x && Component(x, y, steps, steps) == y
  {
    ExactMoves(x, y, steps, k, k);
  }

  /** Later frames are never further from the target. */
  lemma FramesMove(x: Byte, y: Byte, steps: Byte, k: nat, l: nat)
    requires 0 < steps && k <= l <= steps
    ensures Between(Component(x, y, steps, k), Component(x, y, steps, l), y)
    ensures Between(x, Component(x, y, steps, k), Component(x, y, steps, l))
  {
    ExactMoves(x, y, steps, k, l);
  }

  /** v is the value after k of steps equal steps from x to y, rounded down: the
      weighted mean of start and target, in whole numbers. */
  predicate IsMean(x: int, y: int, steps: int, k: int, v: int) {
    0 <= x * (steps - k) + y * k - steps * v < steps
  }

  lemma RealProduct(a: int, b: int)
    ensures (a * b) as real == a as real * b as real
  {
  }

  lemma RealMean(x: int, y: int, s: int, k: int, v: int)
    ensures (x * (s - k) + y * k - s * v) as real
         == x as real * (s as real - k as real) + y as real * k as real - s as real * v as real
  {
    RealProduct(x, s - k);
    RealProduct(y, k);
    RealProduct(s, v);
  }

  lemma ScaledGap(s: real, gap: real)
    requires s > 0.0 && 0.0 <= gap < 1.0
    ensures 0.0 <= s * gap < s
  {
  }

  /** A line from x with slope -d, and a value less than one below it. */
  lemma LineIsMean(x: real, y: real, s: real, k: real, d: real, v: real)
    requires d * s == x - y && 0.0 <= x - d * k - v < 1.0 && s > 0.0
    ensures 0.0 <= x * (s - k) + y * k - s * v < s
  {
    var gap := x - d * k - v;
    var drop := (d * s) * k;
    assert drop == (x - y) * k == x * k - y * k;
    assert drop == s * (d * k);
    assert s * gap == s * x - s * (d * k) - s * v;
    assert x * (s - k) == s * x - x * k;
    assert s * gap == x * (s - k) + y * k - s * v;
    ScaledGap(s, gap);
  }

  lemma ComponentIsMean(x: Byte, y: Byte, steps: Byte, k: nat)
    requires 0 < steps && k <= steps
    ensures IsMean(x, y, steps, k, Component(x, y, steps, k))
  {
    hide Slope, Component;
    FrameIsClose(x, y, steps, k);
    SlopeTimesSteps(x, y, steps);
    var v := Component(x, y, steps, k);
    LineIsMean(x as real, y as real, steps as real, k as real, Slope(x, y, steps), v as real);
    RealMean(x, y, steps, k, v);
  }

  /** Frames from one colour to another, the last of which is the target: each
      component of each frame lies between start and target, is the weighted mean
      rounded down, and later frames are nowhere further from the target. */
  predicate Fades(from: seq<Byte>, to: seq<Byte>, sent: seq<seq<Byte>>)
    requires |from| == |to| == COLOR_LENGTH
  {
    && (forall k | 0 <= k < |sent| :: |sent[k]| == COLOR_LENGTH)
    && (forall k, j | 0 <= k < |sent| && 0 <= j < COLOR_LENGTH ::
          Between(from[j], sent[k][j], to[j]) && IsMean(from[j], to[j], |sent|, k + 1, sent[k][j]))
    && (forall k, l, j | 0 <= k <= l < |sent| && 0 <= j < COLOR_LENGTH :: Between(sent[k][j], sent[l][j], to[j]))
  }

  function Frame(from: seq<Byte>, to: seq<Byte>, steps: Byte, k: nat): (r: seq<Byte>)
    requires |from| == |to| == COLOR_LENGTH && 0 < steps && k <= steps
    ensures |r| == COLOR_LENGTH
  {
    seq(COLOR_LENGTH, j requires 0 <= j < COLOR_LENGTH => Component(from[j], to[j], steps, k))
  }

  /** All the frames of a fade, in order. */
  lemma FramesFade(from: seq<Byte>, to: seq<Byte>, steps: Byte, sent: seq<seq<Byte>>)
    requires |from| == |to| == COLOR_LENGTH && 0 < steps == |sent|
    requires forall k | 0 <= k < steps :: sent[k] == Frame(from, to, steps, k + 1)
    ensures Fades(from, to, sent)
  {
    hide Component, IsMean;
    forall k, j | 0 <= k < |sent| && 0 <= j < COLOR_LENGTH
      ensures Between(from[j], sent[k][j], to[j]) && IsMean(from[j], to[j], steps, k + 1, sent[k][j])
    {
      FrameIsClose(from[j], to[j], steps, k + 1);
      ComponentIsMean(from[j], to[j], steps, k + 1);
    }
    forall k, l, j | 0 <= k <= l < |sent| && 0 <= j < COLOR_LENGTH ensures Between(sent[k][j], sent[l][j], to[j]) {
      FramesMove(from[j], to[j], steps, k + 1, l + 1);
    }
  }

  lemma ComponentIs(x: Byte, y: Byte, steps: Byte, k: nat, slope: real)
    requires 0 < steps && k <= steps && slope == Slope(x, y, steps)
    ensures (x as real - slope * k as real).Floor == Component(x, y, steps, k)
  {
  }

  /** One intermediate frame, component by component. */
  method IntermediateFrame(from: seq<Byte>, ghost to: seq<Byte>, colorDiff: array<real>, steps: Byte, k: nat)
    returns (frame: seq<Byte>)
    requires |from| == |to| == COLOR_LENGTH && colorDiff.Length == COLOR_LENGTH && 0 < steps && k <= steps
    requires forall j | 0 <= j < COLOR_LENGTH :: colorDiff[j] == Slope(from[j], to[j], steps)
    ensures frame == Frame(from, to, steps, k)
  {
    hide Component, Slope, Exact;
    frame := [];
    for j := 0 to COLOR_LENGTH
      invariant |frame| == j && forall i | 0 <= i < j :: frame[i] == Component(from[i], to[i], steps, k)
    {
      ComponentIs(from[j], to[j], steps, k, colorDiff[j]);
      frame := frame + [(from[j] as real - colorDiff[j] * k as real).Floor];
    }
  }

  method Differences(from: seq<Byte>, to: seq<Byte>, steps: Byte) returns (colorDiff: array<real>)
    requires |from| == |to| == COLOR_LENGTH && 0 < steps
    ensures fresh(colorDiff) && colorDiff.Length == COLOR_LENGTH
    ensures forall j | 0 <= j < COLOR_LENGTH :: colorDiff[j] == Slope(from[j], to[j], steps)
  {
    colorDiff := new real[COLOR_LENGTH];
    for j := 0 to COLOR_LENGTH
      invariant forall i | 0 <= i < j :: colorDiff[i] == Slope(from[i], to[i], steps)
    {
      colorDiff[j] := (from[j] as int - to[j] as int) as real / steps as real;
    }
  }

  lemma LastFrameIsTarget(from: seq<Byte>, to: seq<Byte>, steps: Byte)
    requires |from| == |to| == COLOR_LENGTH && 0 < steps
    ensures Frame(from, to, steps, steps) == to
  {
    forall j | 0 <= j < COLOR_LENGTH ensures Frame(from, to, steps, steps)[j] == to[j] {
      FrameIsClose(from[j], to[j], steps, steps);
    }
  }

  /** The table of frames: computed ones, then the target itself. */
  method ColorTable(from: seq<Byte>, to: seq<Byte>, steps: Byte) returns (colorTable: array<seq<Byte>>)
    requires |from| == |to| == COLOR_LENGTH && 0 < steps
    ensures fresh(colorTable) && colorTable.Length == steps
    ensures forall k | 0 <= k < steps :: colorTable[k] == Frame(from, to, steps, k + 1)
    ensures Fades(from, to, colorTable[..])
  {
    var colorDiff := Differences(from, to, steps);
    colorTable := new seq<Byte>[steps](_ => []);
    var i := 0;
    while i < steps - 1
      modifies colorTable
      invariant 0 <= i <= steps - 1
      invariant forall k | 0 <= k < i :: colorTable[k] == Frame(from, to, steps, k + 1)
    {
      var frame := IntermediateFrame(from, to, colorDiff, steps, i + 1);
      colorTable[i] := frame;
      i := i + 1;
    }
    LastFrameIsTarget(from, to, steps);
    colorTable[i] := to;
    FramesFade(from, to, steps, colorTable[..]);
  }

  /** The colour a device shows, through its printed form. */
  method ShownColor(p: PlasmaTrim) returns (color: seq<Byte>)
    requires p.Valid()
    modifies p
    ensures p.Valid() && p.memory == old(p.memory) && color == p.memory.shown
  {
    var text := GetColor(p);
    ghost var shown := p.memory.shown;
    HexIsHex(shown);
    assert text[..] == Hex(shown) + ['\0'];
    assert text[..][48] == '\0';
    TextOfAll(Hex(shown));
    NoSpacesKeeps(Hex(shown));
    var buf := MakeColor(text, true);
    ParseOfHex(shown);
    color := buf[..24];
  }

  /** Sends the frames of a table in order. */
  method SendFrames(p: PlasmaTrim, colorTable: array<seq<Byte>>, steps: Byte, brightness: Byte)
    returns (sent: seq<seq<Byte>>)
    requires p.Valid() && colorTable.Length == steps > 0
    requires forall k | 0 <= k < steps :: |colorTable[k]| == COLOR_LENGTH
    modifies p
    ensures p.Valid() && sent == colorTable[..] && p.memory == old(p.memory).(shown := sent[steps - 1], level := brightness)
  {
    sent := [];
    var i: Byte := 0;
    while i < steps
      invariant i <= steps && sent == colorTable[..i] && p.Valid()
      invariant p.memory == if i == 0 then old(p.memory) else old(p.memory).(shown := sent[i - 1], level := brightness)
    {
      p.SetColor(colorTable[i], brightness);
      sent := sent + [colorTable[i]];
      i := i + 1;
    }
  }

  /** Fades to the colour in userColor. Exactly the announced number of frames is
      sent, each the frame of its step; the device ends up showing the target. */
  method FadeTo(p: PlasmaTrim, userColor: array<char>, fadeTime: string, brightness: Byte)
    returns (sent: seq<seq<Byte>>)
    requires p.Valid() && '\0' in userColor[..] && |Text(userColor[..])| < 256 && userColor.Length >= 3
    modifies p, userColor
    ensures p.Valid() && |sent| == Steps(fadeTime)
    ensures var from, to := old(p.memory).shown, ColorBytes(ColorCells(old(userColor[..])), true);
            && (forall k | 0 <= k < |sent| :: sent[k] == Frame(from, to, Steps(fadeTime), k + 1))
            && Fades(from, to, sent)
            && sent[|sent| - 1] == to && p.memory == old(p.memory).(shown := to, level := brightness)
  {
    hide Component, Slope, Exact, Steps;
    var origColor := ShownColor(p);
    var newColor := MakeColor(userColor, true);
    var steps := Steps(fadeTime);
    var colorTable := ColorTable(origColor, newColor[..24], steps);
    LastFrameIsTarget(origColor, newColor[..24], steps);
    sent := SendFrames(p, colorTable, steps, brightness);
  }
}
