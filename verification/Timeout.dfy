/** The moving-average timeout for proposals, with exact arithmetic. */
module Timeout {

  datatype Settings = Settings(min: real, max: real, speed: real, limit: real, optimal: real)

  /** What `try_deserialize` accepts, for times and limits that are not negative. */
  predicate Accepted(s: Settings) {
    0.0 <= s.min < s.max && 0.0 < s.speed <= 1.0 && 0.0 < s.optimal <= 1.0 && 0.0 <= s.limit
  }

  function OptimalLoad(s: Settings): real {
    s.limit * s.optimal
  }

  /** The arithmetic divides by zero nowhere. */
  predicate Defined(s: Settings, load: real) {
    s.limit > 0.0 && (load < OptimalLoad(s) || s.optimal < 1.0)
  }

  lemma OptimalLoadBound(s: Settings)
    requires Accepted(s) && s.limit > 0.0
    ensures 0.0 < OptimalLoad(s) <= s.limit && (s.optimal < 1.0 ==> OptimalLoad(s) < s.limit)
  {
    var rest := s.limit * (1.0 - s.optimal);
    assert s.limit - OptimalLoad(s) == rest;
    assert rest >= 0.0 && (s.optimal < 1.0 ==> rest > 0.0);
  }

  /** Accepted settings leave two cases undefined: no transactions allowed in a block, and optimal
      load one with a block that is full. */
  lemma UndefinedExactly(s: Settings, load: real)
    requires Accepted(s) && 0.0 <= load
    ensures !Defined(s, load) <==> s.limit == 0.0 || (s.optimal == 1.0 && load >= s.limit)
  {
    if s.limit > 0.0 {
      OptimalLoadBound(s);
    }
  }

  /** Both cases are among the accepted settings. */
  lemma UndefinedSettings()
    ensures var none := Settings(1.0, 10.0, 0.5, 0.0, 0.75);
            Accepted(none) && !Defined(none, 0.0)
    ensures var full := Settings(1.0, 10.0, 0.5, 100.0, 1.0);
            Accepted(full) && !Defined(full, 100.0)
  {
    UndefinedExactly(Settings(1.0, 10.0, 0.5, 0.0, 0.75), 0.0);
    UndefinedExactly(Settings(1.0, 10.0, 0.5, 100.0, 1.0), 100.0);
  }

  /** The part of the way from the optimal load to the limit. */
  function Excess(s: Settings, load: real): real
    requires Accepted(s) && Defined(s, load) && load >= OptimalLoad(s)
  {
    OptimalLoadBound(s);
    InverseAboveOne(s.optimal);
    (load / OptimalLoad(s) - 1.0) / (1.0 / s.optimal - 1.0)
  }

  lemma InverseAboveOne(x: real)
    requires 0.0 < x < 1.0
    ensures 1.0 / x > 1.0
  {
    assert 1.0 / x * x == 1.0;
  }

  function Part(whole: real, share: real): real {
    whole * share
  }

  function Target(s: Settings, previous: real, load: real): real
    requires Accepted(s) && Defined(s, load)
  {
    OptimalLoadBound(s);
    if load < OptimalLoad(s) then s.max - Part(s.max - previous, load / OptimalLoad(s))
    else previous - Part(previous - s.min, Excess(s, load))
  }

  function Mix(a: real, b: real, speed: real): real {
    b * speed + a * (1.0 - speed)
  }

  function Next(s: Settings, previous: real, load: real): real
    requires Accepted(s) && Defined(s, load)
  {
    Mix(previous, Target(s, previous, load), s.speed)
  }

  // ----- Properties of one step -----

  lemma Ratio(a: real, b: real)
    requires 0.0 <= a < b
    ensures 0.0 <= a / b < 1.0
  {
    assert a / b * b == a;
  }

  /** The excess is zero at the optimal load and one at the limit, and goes on growing. */
  lemma ExcessIs(s: Settings, load: real)
    requires Accepted(s) && Defined(s, load) && OptimalLoad(s) <= load
    ensures OptimalLoad(s) < s.limit
    ensures Excess(s, load) == (load - OptimalLoad(s)) / (s.limit - OptimalLoad(s))
  {
    OptimalLoadBound(s);
    InverseAboveOne(s.optimal);
    FullLoad(s.limit, s.optimal);
    hide OptimalLoad;
    var o := OptimalLoad(s);
    LessOne(load, o);
    LessOne(s.limit, o);
    Cancel(load - o, s.limit - o, o);
  }

  lemma FullLoad(limit: real, optimal: real)
    requires limit > 0.0 && optimal > 0.0
    ensures limit * optimal > 0.0 && limit / (limit * optimal) == 1.0 / optimal
  {
    var x := 1.0 / optimal;
    assert x * optimal == 1.0;
    assert x * (limit * optimal) == limit * (x * optimal);
  }

  lemma Same(x: real, y: real, o: real)
    requires o > 0.0 && x * o == y * o
    ensures x == y
  {
    assert (x - y) * o == 0.0;
  }

  lemma Quotient(x: real, y: real, q: real)
    requires y > 0.0 && q * y == x
    ensures x / y == q
  {
    assert x / y * y == x;
    Same(x / y, q, y);
  }

  lemma LessOne(a: real, o: real)
    requires o > 0.0
    ensures a / o - 1.0 == (a - o) / o
  {
    var x := a / o;
    assert x * o == a;
    assert (x - 1.0) * o == a - o;
    Quotient(a - o, o, x - 1.0);
  }

  lemma Cancel(a: real, b: real, o: real)
    requires b > 0.0 && o > 0.0
    ensures b / o > 0.0 && (a / o) / (b / o) == a / b
  {
    var x, y, q := a / o, b / o, a / b;
    assert x * o == a && y * o == b && q * b == a;
    assert q * y * o == q * b;
    Same(q * y, x, o);
    Quotient(x, y, q);
  }

  /** A quotient and its sign, one and the products with a speed. */
  lemma Share(up: real, down: real, speed: real)
    requires 0.0 <= up && down > 0.0
    ensures 0.0 <= up / down
    ensures up == 0.0 ==> up / down == 0.0
    ensures up == down ==> up / down == 1.0
    ensures speed * (up / down) <= 1.0 <==> speed * up <= down
  {
    var x := up / down;
    assert x * down == up;
    assert speed * x * down == speed * up;
    Sign(down, 1.0 - speed * x);
  }

  lemma Sign(whole: real, share: real)
    requires whole >= 0.0
    ensures whole * share >= 0.0 <==> whole == 0.0 || share >= 0.0
  {
    if share < 0.0 && whole > 0.0 {
      assert whole * -share > 0.0;
    }
  }

  lemma PartBounds(whole: real, share: real)
    requires whole >= 0.0 && 0.0 <= share <= 1.0
    ensures 0.0 <= Part(whole, share) <= whole
    ensures share == 0.0 ==> Part(whole, share) == 0.0
    ensures share == 1.0 ==> Part(whole, share) == whole
  {
    assert whole - whole * share == whole * (1.0 - share);
  }

  /** Below the optimal load the target lies between the previous timeout and the maximum; from
      there on the distance to the minimum shrinks with the excess. */
  lemma TargetBounds(s: Settings, previous: real, load: real)
    requires Accepted(s) && Defined(s, load) && 0.0 <= load && s.min <= previous <= s.max
    ensures load < OptimalLoad(s) ==> previous <= Target(s, previous, load) <= s.max
    ensures load == 0.0 ==> Target(s, previous, load) == s.max
    ensures load >= OptimalLoad(s) ==>
              previous - Target(s, previous, load) == Part(previous - s.min, Excess(s, load))
  {
    OptimalLoadBound(s);
    hide Part, Excess, OptimalLoad;
    if load < OptimalLoad(s) {
      Ratio(load, OptimalLoad(s));
      PartBounds(s.max - previous, load / OptimalLoad(s));
      assert load == 0.0 ==> load / OptimalLoad(s) == 0.0;
    }
  }

  /** A step towards a target stays between the two, closer to it by the speed. */
  lemma MixBounds(a: real, b: real, speed: real)
    requires 0.0 < speed <= 1.0
    ensures a <= b ==> a <= Mix(a, b, speed) <= b
    ensures a >= b ==> b <= Mix(a, b, speed) <= a
    ensures b - Mix(a, b, speed) == (1.0 - speed) * (b - a)
    ensures Mix(a, b, speed) - b == (1.0 - speed) * (a - b)
  {
    var up, down := (b - a) * speed, (a - b) * speed;
    assert up == b * speed - a * speed && down == a * speed - b * speed;
    assert a * (1.0 - speed) == a - a * speed;
    assert Mix(a, b, speed) == a + up;
    if a <= b {
      PartBounds(b - a, speed);
    } else {
      PartBounds(a - b, speed);
    }
    assert (1.0 - speed) * (b - a) == (b - a) - up && (1.0 - speed) * (a - b) == (a - b) - down;
  }

  /** A load that one adjustment can answer without overshooting: at most the limit, or over it
      by no more than the speed makes up for. */
  predicate Steady(s: Settings, load: real) {
    load < OptimalLoad(s) || s.speed * (load - OptimalLoad(s)) <= s.limit - OptimalLoad(s)
  }

  lemma SteadyToLimit(s: Settings, load: real)
    requires Accepted(s) && load <= s.limit
    ensures Steady(s, load)
  {
    if load >= OptimalLoad(s) {
      PartBounds(load - OptimalLoad(s), s.speed);
    }
  }

  /** From the optimal load on the distance to the minimum is scaled. */
  lemma StepDown(s: Settings, previous: real, load: real)
    requires Accepted(s) && Defined(s, load) && OptimalLoad(s) <= load && s.min <= previous <= s.max
    ensures Next(s, previous, load) - s.min
         == Part(previous - s.min, 1.0 - s.speed * Excess(s, load))
  {
    OptimalLoadBound(s);
    TargetBounds(s, previous, load);
    hide Excess, OptimalLoad;
    MixBounds(previous, Target(s, previous, load), s.speed);
    Scale(previous - s.min, Excess(s, load), s.speed);
  }

  lemma Scale(d: real, e: real, speed: real)
    ensures Part(d, 1.0 - speed * e) == d - speed * Part(d, e)
  {
    assert d * (speed * e) == speed * (d * e);
  }

  lemma PartSign(whole: real, share: real)
    requires whole >= 0.0
    ensures Part(whole, share) >= 0.0 <==> whole == 0.0 || share >= 0.0
    ensures share <= 1.0 ==> Part(whole, share) <= whole
  {
    Sign(whole, share);
    Sign(whole, 1.0 - share);
    assert whole - whole * share == whole * (1.0 - share);
  }

  /** One adjustment, for every load: the timeout does not fall below the optimal load, does not
      rise at or above it, and comes closer to the bound by the speed when the block is empty
      or full.  It stays in bounds exactly when the load is steady or the timeout is already
      minimal. */
  lemma NextBounds(s: Settings, previous: real, load: real)
    requires Accepted(s) && Defined(s, load) && 0.0 <= load && s.min <= previous <= s.max
    ensures s.min <= Next(s, previous, load) <= s.max <==> previous == s.min || Steady(s, load)
    ensures load < OptimalLoad(s) ==> previous <= Next(s, previous, load)
    ensures load >= OptimalLoad(s) ==> Next(s, previous, load) <= previous
    ensures load == OptimalLoad(s) ==> Next(s, previous, load) == previous
    ensures load == 0.0 ==> s.max - Next(s, previous, load) == (1.0 - s.speed) * (s.max - previous)
    ensures load == s.limit ==> Next(s, previous, load) - s.min == (1.0 - s.speed) * (previous - s.min)
  {
    OptimalLoadBound(s);
    hide Target, OptimalLoad, Excess, Next, Part;
    if load < OptimalLoad(s) {
      NextUp(s, previous, load);
    } else {
      ExcessIs(s, load);
      Share(load - OptimalLoad(s), s.limit - OptimalLoad(s), s.speed);
      StepDown(s, previous, load);
      var share := 1.0 - s.speed * Excess(s, load);
      PartSign(previous - s.min, share);
      FullShare(previous - s.min, share, s.speed, Excess(s, load));
    }
  }

  lemma FullShare(whole: real, share: real, speed: real, excess: real)
    requires share == 1.0 - speed * excess && speed > 0.0 && excess >= 0.0
    ensures share <= 1.0
    ensures excess == 0.0 ==> Part(whole, share) == whole
    ensures excess == 1.0 ==> Part(whole, share) == (1.0 - speed) * whole
  {
    assert speed * excess >= 0.0;
  }

  lemma NextUp(s: Settings, previous: real, load: real)
    requires Accepted(s) && Defined(s, load) && 0.0 <= load < OptimalLoad(s) && s.min <= previous <= s.max
    ensures previous <= Next(s, previous, load) <= s.max
    ensures load == 0.0 ==> s.max - Next(s, previous, load) == (1.0 - s.speed) * (s.max - previous)
  {
    hide Target, Mix, OptimalLoad;
    TargetBounds(s, previous, load);
    MixBounds(previous, Target(s, previous, load), s.speed);
  }

  /** A block three times over the limit takes the timeout below the minimum. */
  lemma BelowMinimum()
    ensures var s := Settings(1.0, 10.0, 1.0, 100.0, 0.5);
            Accepted(s) && Defined(s, 300.0) && Next(s, 10.0, 300.0) < s.min
  {
    var s := Settings(1.0, 10.0, 1.0, 100.0, 0.5);
    assert OptimalLoad(s) == 50.0 && !Steady(s, 300.0);
    NextBounds(s, 10.0, 300.0);
  }

  // ----- Runs -----

  function After(s: Settings, start: real, loads: seq<real>): real
    requires Accepted(s) && forall load | load in loads :: Defined(s, load)
  {
    if loads == [] then start else Next(s, After(s, start, loads[..|loads| - 1]), loads[|loads| - 1])
  }

  function Power(x: real, n: nat): real {
    if n == 0 then 1.0 else x * Power(x, n - 1)
  }

  /** Any sequence of steady loads keeps the timeout in bounds; empty blocks bring it to the
      maximum geometrically. */
  lemma {:induction false} AfterBounds(s: Settings, start: real, loads: seq<real>)
    requires Accepted(s) && s.min <= start <= s.max
    requires forall load | load in loads :: Defined(s, load) && 0.0 <= load && Steady(s, load)
    ensures s.min <= After(s, start, loads) <= s.max
    ensures (forall load | load in loads :: load == 0.0) ==>
              s.max - After(s, start, loads) == Power(1.0 - s.speed, |loads|) * (s.max - start)
    decreases |loads|
  {
    hide Next, Steady;
    if loads == [] {
    } else {
      var init, last := loads[..|loads| - 1], loads[|loads| - 1];
      assert last in loads && forall load | load in init :: load in loads;
      AfterBounds(s, start, init);
      NextBounds(s, After(s, start, init), last);
      Regroup3(1.0 - s.speed, Power(1.0 - s.speed, |init|), s.max - start);
    }
  }

  lemma Regroup3(a: real, b: real, c: real)
    ensures a * (b * c) == a * b * c
  {
  }

  /** How far one adjustment takes the timeout.  Below the optimal load it covers the part of the
      way to the maximum that the free part of the load and the speed give; from there on, the
      part of the way to the minimum that the excess and the speed give. */
  ghost predicate Moves(s: Settings, was: real, now: real, load: real) {
    var o := OptimalLoad(s);
    if load < o then o * (now - was) == s.speed * ((o - load) * (s.max - was))
    else (s.limit - o) * (was - now) == s.speed * ((load - o) * (was - s.min))
  }

  /** For every load and every timeout, in bounds or not; the step is determined, because neither
      way is divided by zero. */
  lemma NextMoves(s: Settings, previous: real, load: real)
    requires Accepted(s) && Defined(s, load)
    ensures Moves(s, previous, Next(s, previous, load), load)
    ensures 0.0 < OptimalLoad(s) && (load >= OptimalLoad(s) ==> OptimalLoad(s) < s.limit)
  {
    OptimalLoadBound(s);
    hide OptimalLoad, Excess;
    var o, target := OptimalLoad(s), Target(s, previous, load);
    MixBounds(previous, target, s.speed);
    if load < o {
      Covered(s.max - previous, load, o);
      Sped(o, target - previous, Next(s, previous, load) - previous, s.speed);
    } else {
      ExcessIs(s, load);
      Whole(previous - s.min, load - o, s.limit - o);
      Sped(s.limit - o, previous - target, previous - Next(s, previous, load), s.speed);
    }
  }

  lemma Whole(way: real, up: real, down: real)
    requires down > 0.0
    ensures down * Part(way, up / down) == up * way
  {
    var x := up / down;
    assert x * down == up;
    assert down * (way * x) == x * down * way;
  }

  lemma Covered(way: real, load: real, o: real)
    requires o > 0.0
    ensures o * (way - Part(way, load / o)) == (o - load) * way
  {
    Whole(way, load, o);
    assert o * (way - Part(way, load / o)) == o * way - o * Part(way, load / o);
    assert (o - load) * way == o * way - load * way;
  }

  lemma Sped(o: real, whole: real, moved: real, speed: real)
    requires moved == whole * speed
    ensures o * moved == speed * (o * whole)
  {
    assert o * (whole * speed) == speed * (o * whole);
  }

  lemma NextIs(s: Settings, previous: real, load: real, target: real)
    requires Accepted(s) && Defined(s, load) && target == Target(s, previous, load)
    ensures Next(s, previous, load) == target * s.speed + previous * (1.0 - s.speed)
  {
  }

  /** `round`. */
  function Round(x: real): int {
    if x >= 0.0 then (x + 0.5).Floor else -(0.5 - x).Floor
  }

  /** The nearest number; of two that are equally near, the one that is farther from zero. */
  ghost predicate Nearest(x: real, n: int) {
    && -0.5 <= n as real - x <= 0.5
    && (n as real - x == 0.5 ==> x > 0.0) && (n as real - x == -0.5 ==> x < 0.0)
  }

  lemma RoundNearest(x: real)
    ensures Nearest(x, Round(x))
  {
  }

  lemma RoundGrows(x: real, y: real)
    ensures x <= y ==> Round(x) <= Round(y)
  {
  }

  class MovingAverage {
    const settings: Settings
    var previousTimeout: real

    ghost predicate InBounds()
      reads this
    {
      settings.min <= previousTimeout <= settings.max
    }

    constructor (settings: Settings)
      requires Accepted(settings)
      ensures InBounds() && this.settings == settings && previousTimeout == settings.min
    {
      this.settings := settings;
      previousTimeout := settings.min;
    }

    /** `adjust_timeout_impl`, with the rounded timeout before it is made unsigned: the nearest
        number to the new average, half away from zero. */
    method AdjustTimeout(load: real) returns (timeout: int)
      requires Accepted(settings) && Defined(settings, load) && 0.0 <= load
      modifies this
      ensures previousTimeout == Next(settings, old(previousTimeout), load)
      ensures Moves(settings, old(previousTimeout), previousTimeout, load)
      ensures timeout == Round(previousTimeout) && Nearest(previousTimeout, timeout)
      ensures old(InBounds()) ==>
                (InBounds() <==> old(previousTimeout) == settings.min || Steady(settings, load))
      ensures InBounds() ==> Round(settings.min) <= timeout <= Round(settings.max)
      ensures old(InBounds()) && load < OptimalLoad(settings) ==> Round(old(previousTimeout)) <= timeout
      ensures old(InBounds()) && load >= OptimalLoad(settings) ==> timeout <= Round(old(previousTimeout))
    {
      if InBounds() {
        NextBounds(settings, previousTimeout, load);
      }
      NextMoves(settings, previousTimeout, load);
      hide Next, Target, Round, Steady, Moves, Nearest;
      var target := TargetTimeout(load);
      NextIs(settings, previousTimeout, load, target);
      previousTimeout := target * settings.speed + previousTimeout * (1.0 - settings.speed);
      timeout := Round(previousTimeout);
      RoundNearest(previousTimeout);
      RoundGrows(settings.min, previousTimeout);
      RoundGrows(previousTimeout, settings.max);
      RoundGrows(previousTimeout, old(previousTimeout));
      RoundGrows(old(previousTimeout), previousTimeout);
    }

    method TargetTimeout(load: real) returns (target: real)
      requires Accepted(settings) && Defined(settings, load)
      ensures target == Target(settings, previousTimeout, load)
    {
      var optimalLoad := settings.limit * settings.optimal;
      OptimalLoadBound(settings);
      var loadPercent := load / optimalLoad;
      if load < optimalLoad {
        target := settings.max - (settings.max - previousTimeout) * loadPercent;
      } else {
        InverseAboveOne(settings.optimal);
        Regroup(previousTimeout - settings.min, loadPercent - 1.0, 1.0 / settings.optimal - 1.0);
        target := previousTimeout
                - (previousTimeout - settings.min) * (loadPercent - 1.0) / (1.0 / settings.optimal - 1.0);
      }
    }

    static lemma Regroup(a: real, b: real, c: real)
      requires c != 0.0
      ensures a * b / c == a * (b / c)
    {
      assert a * (b / c) * c == a * b;
    }
  }
}
