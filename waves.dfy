/** The per-colour wave descriptors built by the loop in init
    (liquidgradient/index.js): one record per colour whose every field is a
    closed formula in the colour's index i and the colour count n, with the
    tuning constants at the top of the file. */
module Waves {
  import opened ColorSource

  const WaveXFreq: real := 0.9
  const WaveYFreq: real := 0.7
  const WaveSpeed: real := 10.0
  const WaveSpeedVariation: real := 5.0
  const WaveFlow: real := 25.0
  const WaveFlowVariation: real := 10.0
  const Seed: real := 99.0
  const WaveNoiseFloor: real := 0.4
  const WaveNoiseCeil: real := 0.5
  const WaveNoiseVariation: real := 0.085

  /** THREE.Vector2 */
  datatype Vec2 = Vec2(x: real, y: real)

  /** One element of the u_waves uniform. */
  datatype Wave = Wave(
    color: Rgb,
    noiseFreq: Vec2,
    noiseSpeed: real,
    noiseFlow: real,
    noiseSeed: real,
    noiseFloor: real,
    noiseCeil: real,
    offsetHorz: int,
    offsetVert: int)

  /** `i % 2 == 0 ? -1 : 1` */
  function ParitySign(i: nat): (sign: int)
    ensures sign == -1 || sign == 1
    ensures sign == -1 <==> i % 2 == 0
  {
    if i % 2 == 0 then -1 else 1
  }

  /** Both spatial frequencies grow by i / n over their base. Since i < n the
      growth is below 1, and both components grow by the same amount. */
  function NoiseFreq(i: nat, n: nat): (f: Vec2)
    requires i < n
    ensures WaveXFreq <= f.x < WaveXFreq + 1.0
    ensures WaveYFreq <= f.y < WaveYFreq + 1.0
    ensures f.x - WaveXFreq == f.y - WaveYFreq
  {
    var step := i as real / n as real;
    Vec2(WaveXFreq + step, WaveYFreq + step)
  }

  /** Even indices slow down by 5 per step, odd ones speed up by 5. */
  function NoiseSpeed(i: nat): (speed: real)
    ensures i % 2 == 0 ==> speed == WaveSpeed - WaveSpeedVariation * i as real
    ensures i % 2 == 1 ==> speed == WaveSpeed + WaveSpeedVariation * i as real
  {
    WaveSpeed + ParitySign(i) as real * WaveSpeedVariation * i as real
  }

  /** The flow moves against the speed: even indices gain, odd ones lose. */
  function NoiseFlow(i: nat): (flow: real)
    ensures i % 2 == 0 ==> flow == WaveFlow + WaveFlowVariation * i as real
    ensures i % 2 == 1 ==> flow == WaveFlow - WaveFlowVariation * i as real
  {
    WaveFlow + (-ParitySign(i)) as real * WaveFlowVariation * i as real
  }

  function NoiseSeed(i: nat): (seed: real)
    ensures seed >= Seed
  {
    Seed + 10.0 * i as real
  }

  function NoiseCeil(i: nat): (ceil: real)
    ensures ceil >= WaveNoiseCeil > WaveNoiseFloor
  {
    WaveNoiseCeil + i as real * WaveNoiseVariation
  }

  /** `i % 3 == 0 ? -1 : 1` */
  function OffsetVert(i: nat): (offset: int)
    ensures offset == -1 || offset == 1
    ensures offset == -1 <==> i % 3 == 0
  {
    if i % 3 == 0 then -1 else 1
  }

  /** The record pushed for colour i of n. */
  function MakeWave(color: Rgb, i: nat, n: nat): (w: Wave)
    requires i < n
    ensures w.color == color
    ensures w.noiseFloor < w.noiseCeil
    ensures w.offsetHorz == -1 <==> i % 2 == 0
    ensures w.offsetVert == -1 <==> i % 3 == 0
  {
    Wave(color, NoiseFreq(i, n), NoiseSpeed(i), NoiseFlow(i), NoiseSeed(i),
         WaveNoiseFloor, NoiseCeil(i), ParitySign(i), OffsetVert(i))
  }

  /** What the loop pushes into u_waves: one wave per colour, in order, wave i
      carrying colour i. */
  function BuildWaves(colors: seq<Rgb>): (waves: seq<Wave>)
    ensures |waves| == |colors|
    ensures forall i :: 0 <= i < |colors| ==> waves[i].color == colors[i]
  {
    seq(|colors|, i requires 0 <= i < |colors| => MakeWave(colors[i], i, |colors|))
  }

  /** Frequencies grow strictly with the index. */
  lemma NoiseFreqIncreasing(colors: seq<Rgb>, i: nat, j: nat)
    requires i < j < |colors|
    ensures BuildWaves(colors)[i].noiseFreq.x < BuildWaves(colors)[j].noiseFreq.x
    ensures BuildWaves(colors)[i].noiseFreq.y < BuildWaves(colors)[j].noiseFreq.y
  {
    var n := |colors| as real;
    assert i as real / n < j as real / n;
  }

  /** Seeds are 99 + 10 i: distinct and strictly increasing along the list. */
  lemma SeedsIncreasing(colors: seq<Rgb>, i: nat, j: nat)
    requires i < j < |colors|
    ensures BuildWaves(colors)[i].noiseSeed < BuildWaves(colors)[j].noiseSeed
    ensures BuildWaves(colors)[j].noiseSeed - BuildWaves(colors)[i].noiseSeed == 10.0 * (j - i) as real
  {
  }

  /** The noise envelope: the floor is 0.4 for every wave, the ceiling is
      0.5 + 0.085 i, so it is always above the floor and rises with i. */
  lemma NoiseEnvelope(colors: seq<Rgb>, i: nat)
    requires i < |colors|
    ensures BuildWaves(colors)[i].noiseFloor == 0.4
    ensures BuildWaves(colors)[i].noiseCeil == 0.5 + 0.085 * i as real
    ensures BuildWaves(colors)[i].noiseCeil > BuildWaves(colors)[i].noiseFloor
    ensures i + 1 < |colors| ==> BuildWaves(colors)[i].noiseCeil < BuildWaves(colors)[i + 1].noiseCeil
  {
  }

  /** Even waves slow down and flow faster (10 - 5 i, 25 + 10 i, offset -1);
      odd waves do the opposite (10 + 5 i, 25 - 10 i, offset +1). The
      horizontal offset is the sign of the speed's deviation and the opposite
      sign of the flow's. */
  lemma SpeedFlowByParity(colors: seq<Rgb>, i: nat)
    requires i < |colors|
    ensures var w := BuildWaves(colors)[i];
      && (i % 2 == 0 ==> w.noiseSpeed == 10.0 - 5.0 * i as real && w.noiseFlow == 25.0 + 10.0 * i as real && w.offsetHorz == -1)
      && (i % 2 == 1 ==> w.noiseSpeed == 10.0 + 5.0 * i as real && w.noiseFlow == 25.0 - 10.0 * i as real && w.offsetHorz == 1)
      && w.noiseSpeed - WaveSpeed == w.offsetHorz as real * 5.0 * i as real
      && w.noiseFlow - WaveFlow == -(w.offsetHorz as real) * 10.0 * i as real
  {
  }

  /** Both offsets are signs: horizontal -1 exactly on even indices, vertical
      -1 exactly on multiples of three. */
  lemma OffsetsAreSigns(colors: seq<Rgb>, i: nat)
    requires i < |colors|
    ensures BuildWaves(colors)[i].offsetHorz in {-1, 1} && BuildWaves(colors)[i].offsetVert in {-1, 1}
    ensures BuildWaves(colors)[i].offsetHorz == -1 <==> i % 2 == 0
    ensures BuildWaves(colors)[i].offsetVert == -1 <==> i % 3 == 0
  {
  }

  /** Three colours: the middle wave (index 1, odd, not a multiple of three). */
  lemma ThreeColourMiddleWave(c0: Rgb, c1: Rgb, c2: Rgb)
    ensures var w := BuildWaves([c0, c1, c2])[1];
      w == Wave(c1, Vec2(0.9 + 1.0 / 3.0, 0.7 + 1.0 / 3.0), 15.0, 15.0, 109.0, 0.4, 0.585, 1, 1)
  {
  }
}
