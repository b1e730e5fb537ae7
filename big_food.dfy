/**
 * The big-food bonus: a 2x2 food block with a countdown to expiry that
 * drains faster when the snake moves faster.
 *
 * The countdown's clock is not modelled; `StartCounting` receives its
 * reading (seconds since the clock was last restarted) as a parameter.
 * The lifetime is a positive constant fixed at construction.
 */
module BigFoodTimer {
  import opened Geometry
  import opened FoodSpawn

  /** The move delay at which the countdown runs at clock speed. */
  const BaselineDelay: real := 0.3

  /** The countdown after `delta` clock seconds at move delay `delay`. */
  function Decayed(ttl: real, delta: real, delay: real): (r: real)
    requires delay > 0.0
    ensures delta >= 0.0 ==> r <= ttl
    ensures delta > 0.0 ==> r < ttl
    ensures delta == 0.0 ==> r == ttl
  {
    ttl - delta * (BaselineDelay / delay)
  }

  /** A faster snake (smaller move delay) drains more in the same time. */
  lemma FasterDrainsMore(ttl: real, delta: real, fast: real, slow: real)
    requires 0.0 < fast < slow && delta > 0.0
    ensures Decayed(ttl, delta, fast) < Decayed(ttl, delta, slow)
  {
    var f, s := BaselineDelay / fast, BaselineDelay / slow;
    assert f * fast == BaselineDelay && s * slow == BaselineDelay;
    assert s * fast < s * slow;
    assert s < f;
    assert delta * s < delta * f;
  }

  /** The countdown after successive clock readings, ignoring expiry. */
  function Drained(ttl: real, last: real, readings: seq<real>, delay: real): real
    requires delay > 0.0
    decreases |readings|
  {
    if readings == [] then ttl
    else Drained(Decayed(ttl, readings[0] - last, delay), readings[0], readings[1..], delay)
  }

  /** However the readings are spaced, the drained amount is the clock time
      from the first to the last reading times the speed factor. */
  lemma {:induction false} DrainedTelescopes(ttl: real, last: real, readings: seq<real>, delay: real)
    requires delay > 0.0 && readings != []
    ensures Drained(ttl, last, readings, delay) ==
            ttl - (readings[|readings| - 1] - last) * (BaselineDelay / delay)
    decreases |readings|
  {
    var f := BaselineDelay / delay;
    var next := Decayed(ttl, readings[0] - last, delay);
    if |readings| > 1 {
      DrainedTelescopes(next, readings[0], readings[1..], delay);
      var z := readings[|readings| - 1];
      assert readings[1..][|readings| - 2] == z;
      assert next - (z - readings[0]) * f == ttl - (z - last) * f;
    }
  }

  class BigFood {
    const gridInfo: GridInfo
    const lifeTime: real
    var position: seq<Cell>
    var respawnCounter: nat
    var isActive: bool
    var isCounting: bool
    var lastTime: real
    var timeToLive: real

    /** The countdown stays within `(0, lifeTime]` and the last reading is non-negative. */
    predicate Valid()
      reads this
    {
      0.0 < timeToLive <= lifeTime && lastTime >= 0.0
    }

    /** A fresh, inactive big food on a random 2x2 block with a full countdown. */
    constructor (gridInfo: GridInfo, lifeTime: real)
      requires FitsBigFood(gridInfo) && lifeTime > 0.0
      ensures Valid()
      ensures this.gridInfo == gridInfo && this.lifeTime == lifeTime
      ensures IsBigFoodBlock(position, gridInfo.GridSizeI()) && respawnCounter == 0
      ensures !isActive && !isCounting && lastTime == 0.0 && timeToLive == lifeTime
    {
      var p := GenerateBigFoodPosition(gridInfo);
      this.gridInfo := gridInfo;
      this.lifeTime := lifeTime;
      position := p;
      respawnCounter := 0;
      isActive := false;
      isCounting := false;
      lastTime := 0.0;
      timeToLive := lifeTime;
    }

    /** Starts the countdown on the first call; afterwards drains it by the
        clock time since the previous call, scaled by the snake's speed,
        and deactivates the food once it runs out. */
    method StartCounting(snakeMoveDelay: real, elapsed: real)
      requires Valid()
      requires isCounting ==> snakeMoveDelay > 0.0 && lastTime <= elapsed
      modifies this
      ensures Valid()
      ensures position == old(position) && respawnCounter == old(respawnCounter)
      ensures !old(isCounting) ==>
                isCounting && lastTime == 0.0 &&
                timeToLive == old(timeToLive) && isActive == old(isActive)
      ensures old(isCounting) ==> lastTime == elapsed
      ensures old(isCounting) ==>
                var left := Decayed(old(timeToLive), elapsed - old(lastTime), snakeMoveDelay);
                if left <= 0.0 then
                  !isActive && !isCounting && timeToLive == lifeTime
                else
                  isActive == old(isActive) && isCounting && timeToLive == left &&
                  timeToLive <= old(timeToLive)
    {
      if !isCounting {
        isCounting := true;
        lastTime := 0.0;
        return;
      }

      var currentTime := elapsed;
      var deltaTime := currentTime - lastTime;
      lastTime := currentTime;

      var speedFactor := BaselineDelay / snakeMoveDelay;
      timeToLive := timeToLive - deltaTime * speedFactor;

      if timeToLive <= 0.0 {
        isActive := false;
        isCounting := false;
        timeToLive := lifeTime;
      }
    }

    /** A fresh random block, counter cleared, countdown full and stopped, inactive. */
    method Reset()
      requires Valid() && FitsBigFood(gridInfo)
      modifies this
      ensures Valid()
      ensures IsBigFoodBlock(position, gridInfo.GridSizeI()) && respawnCounter == 0
      ensures timeToLive == lifeTime && !isCounting && lastTime == 0.0 && !isActive
    {
      var p := GenerateBigFoodPosition(gridInfo);
      position := p;
      respawnCounter := 0;
      timeToLive := lifeTime;
      isCounting := false;
      lastTime := 0.0;
      isActive := false;
    }
  }
}
