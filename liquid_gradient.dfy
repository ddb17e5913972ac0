/** The state init leaves behind in liquidgradient/index.js: the colour
    list, its length, the start time and the uniform bundle handed to the
    shader, and the per-frame time update done by render. */
module LiquidGradient {
  import opened ColorSource
  import opened Waves

  const NoiseSeparation: real := 55.0
  const InitialGlobalTime: real := 1.0
  const InitialResolution: Vec2 := Vec2(1920.0, 1080.0)

  /** Seconds elapsed between two millisecond timestamps, as render computes
      them: (now - start) * 0.001. */
  function ElapsedSeconds(start: int, now: int): (t: real)
    ensures t * 1000.0 == (now - start) as real
  {
    (now - start) as real * 0.001
  }

  /** A clock that does not go back gives a time that does not go back; a
      clock that goes back gives a time that goes back by as much. */
  lemma ElapsedSecondsMonotone(start: int, t1: int, t2: int)
    ensures t1 <= t2 <==> ElapsedSeconds(start, t1) <= ElapsedSeconds(start, t2)
    ensures ElapsedSeconds(start, t2) - ElapsedSeconds(start, t1) == ElapsedSeconds(t1, t2)
  {
  }

  /** The uniforms object: one field per uniform's `value`. */
  class Uniforms {
    var iGlobalTime: real
    var iResolution: Vec2
    var uWaves: seq<Wave>
    var uTotalColors: int
    var uNoiseMagnitude: real

    /** The object literal: time 1.0, a 1920x1080 resolution, no waves yet,
        the colour count and the noise separation. */
    constructor (totalColors: int)
      ensures iGlobalTime == InitialGlobalTime && iResolution == InitialResolution
      ensures uWaves == [] && uTotalColors == totalColors
      ensures uNoiseMagnitude == NoiseSeparation
    {
      iGlobalTime := InitialGlobalTime;
      iResolution := InitialResolution;
      uWaves := [];
      uTotalColors := totalColors;
      uNoiseMagnitude := NoiseSeparation;
    }

    /** `uniforms.u_waves.value.push(wave)` */
    method PushWave(w: Wave)
      modifies this
      ensures uWaves == old(uWaves) + [w]
      ensures iGlobalTime == old(iGlobalTime) && iResolution == old(iResolution)
      ensures uTotalColors == old(uTotalColors) && uNoiseMagnitude == old(uNoiseMagnitude)
    {
      uWaves := uWaves + [w];
    }
  }

  /** The uniforms literal followed by the loop that pushes one wave per
      colour, in colour order. */
  method NewUniforms(colors: seq<Rgb>) returns (u: Uniforms)
    ensures fresh(u)
    ensures u.uWaves == BuildWaves(colors) && u.uTotalColors == |colors|
    ensures u.iGlobalTime == InitialGlobalTime && u.iResolution == InitialResolution
    ensures u.uNoiseMagnitude == NoiseSeparation
  {
    u := new Uniforms(|colors|);
    ghost var waves := BuildWaves(colors);
    var i := 0;
    while i < |colors|
      invariant 0 <= i <= |colors|
      invariant u.uWaves == waves[..i]
      invariant u.iGlobalTime == InitialGlobalTime && u.iResolution == InitialResolution
      invariant u.uTotalColors == |colors| && u.uNoiseMagnitude == NoiseSeparation
    {
      assert waves[..i + 1] == waves[..i] + [MakeWave(colors[i], i, |colors|)];
      u.PushWave(MakeWave(colors[i], i, |colors|));
      i := i + 1;
    }
    assert waves[..i] == waves;
  }

  /** The module-level state of the page component. */
  class Gradient {
    var gradientColors: seq<Rgb>
    /** TOTAL_COLORS */
    var totalColors: int
    var startTime: int
    var uniforms: Uniforms
    /** The CSS variable names discovery collected before they were mapped
        to colours. */
    ghost var discovered: seq<string>

    /** The counts agree, there is one wave per colour, and the constant
        uniforms hold their values. */
    ghost predicate Valid()
      reads this, uniforms
    {
      && totalColors == |gradientColors|
      && uniforms.uTotalColors == |gradientColors|
      && uniforms.uWaves == BuildWaves(gradientColors)
      && uniforms.iResolution == InitialResolution
      && uniforms.uNoiseMagnitude == NoiseSeparation
    }

    /** init up to the scene set-up: discover the colours, take the start
        time, build the uniforms and push one wave per colour. */
    constructor Init(style: Style, now: int)
      ensures Valid() && fresh(uniforms)
      ensures IsDiscovery(style, discovered)
      ensures gradientColors == GradientColors(style, discovered)
      ensures startTime == now
      ensures uniforms.iGlobalTime == InitialGlobalTime
    {
      var names := DiscoverNames(style);
      var colors := GradientColors(style, names);
      var u := NewUniforms(colors);
      gradientColors := colors;
      totalColors := |colors|;
      startTime := now;
      uniforms := u;
      discovered := names;
    }

    /** render: the time uniform becomes the seconds since start; nothing
        else changes. */
    method Render(now: int)
      requires Valid()
      modifies uniforms
      ensures Valid()
      ensures uniforms.iGlobalTime == ElapsedSeconds(startTime, now)
      ensures uniforms.iResolution == old(uniforms.iResolution)
      ensures uniforms.uWaves == old(uniforms.uWaves)
      ensures uniforms.uTotalColors == old(uniforms.uTotalColors)
      ensures uniforms.uNoiseMagnitude == old(uniforms.uNoiseMagnitude)
    {
      uniforms.iGlobalTime := ElapsedSeconds(startTime, now);
    }
  }

  /** Two frames at t1 <= t2: the second leaves a time at least as large. */
  method TwoFrames(g: Gradient, t1: int, t2: int) returns (e1: real, e2: real)
    requires g.Valid() && t1 <= t2
    modifies g.uniforms
    ensures g.Valid()
    ensures e1 == ElapsedSeconds(g.startTime, t1) && e2 == ElapsedSeconds(g.startTime, t2)
    ensures e1 <= e2 && g.uniforms.iGlobalTime == e2
  {
    g.Render(t1);
    e1 := g.uniforms.iGlobalTime;
    g.Render(t2);
    e2 := g.uniforms.iGlobalTime;
    ElapsedSecondsMonotone(g.startTime, t1, t2);
  }

  /** Two components built from the same style hold the same colours and the
      same waves: nothing but the style decides them. */
  lemma InitDeterministic(style: Style, a: seq<string>, b: seq<string>)
    requires IsDiscovery(style, a) && IsDiscovery(style, b)
    ensures GradientColors(style, a) == GradientColors(style, b)
    ensures BuildWaves(GradientColors(style, a)) == BuildWaves(GradientColors(style, b))
  {
    DiscoveryUnique(style, a, b);
  }
}
