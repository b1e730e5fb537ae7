/**
 * The snake's body buffer: an ordered list of cells with the head at
 * index 0, an integer direction code and the movement timing fields.
 *
 * Direction codes follow the arithmetic of `move`: 0 steps y up by one,
 * 1 steps x up, 2 steps y down, 3 steps x down; any other code leaves the
 * head where it is.
 */
module SnakeBody {
  import opened Geometry

  /** The fixed three-cell body every snake starts with. */
  const StartBody: seq<Cell> := [Cell(5, 10), Cell(6, 10), Cell(7, 10)]

  /** The direction the snake starts with. */
  const DefaultDirection: int := 1

  /** A code that moves the head. */
  predicate IsHeading(d: int)
  {
    0 <= d <= 3
  }

  /** The heading that would reverse `d` onto the body: 0 and 2, 1 and 3. */
  function Opposite(d: int): (o: int)
    requires IsHeading(d)
    ensures IsHeading(o) && o != d
    ensures d == 0 || d == 2 <==> o == 0 || o == 2
  {
    (d + 2) % 4
  }

  /** The head's next cell for direction code `d`. */
  function Step(c: Cell, d: int): (r: Cell)
    ensures IsHeading(d) ==>
              (r.x == c.x && (r.y - c.y == 1 || c.y - r.y == 1)) ||
              (r.y == c.y && (r.x - c.x == 1 || c.x - r.x == 1))
    ensures !IsHeading(d) ==> r == c
  {
    match d
    case 0 => Cell(c.x, c.y + 1)
    case 1 => Cell(c.x + 1, c.y)
    case 2 => Cell(c.x, c.y - 1)
    case 3 => Cell(c.x - 1, c.y)
    case _ => c
  }

  /** A step along the opposite heading undoes a step. */
  lemma StepUndone(c: Cell, d: int)
    requires IsHeading(d)
    ensures Step(Step(c, d), Opposite(d)) == c
  {
  }

  /** The body after one move: every segment takes its predecessor's cell
      and the head advances one step along `d`. */
  function Moved(s: seq<Cell>, d: int): (r: seq<Cell>)
    requires |s| > 0
    ensures |r| == |s|
    ensures r[0] == Step(s[0], d)
    ensures forall i :: 1 <= i < |s| ==> r[i] == s[i - 1]
  {
    [Step(s[0], d)] + s[..|s| - 1]
  }

  /** The body after `k` moves in the same direction. */
  function MovedTimes(s: seq<Cell>, d: int, k: nat): (r: seq<Cell>)
    requires |s| > 0
    decreases k
  {
    if k == 0 then s else Moved(MovedTimes(s, d, k - 1), d)
  }

  /** Moving never changes the length, and after `k` moves segment `i`
      (for `i >= k`) is where segment `i - k` was: the body follows the
      head's trail. */
  lemma {:induction false} MovedTimesTrail(s: seq<Cell>, d: int, k: nat)
    requires |s| > 0
    ensures |MovedTimes(s, d, k)| == |s|
    ensures forall i :: k <= i < |s| ==> MovedTimes(s, d, k)[i] == s[i - k]
  {
    if k > 0 {
      MovedTimesTrail(s, d, k - 1);
      var prev := MovedTimes(s, d, k - 1);
      forall i | k <= i < |s|
        ensures MovedTimes(s, d, k)[i] == s[i - k]
      {
        assert MovedTimes(s, d, k)[i] == prev[i - 1];
      }
    }
  }

  /** A body with a copy of its tail appended, then moved, is the moved
      body with the old tail kept: growth shows up at the old tail cell. */
  lemma GrowThenMove(s: seq<Cell>, d: int)
    requires |s| > 0
    ensures Moved(s + [s[|s| - 1]], d) == Moved(s, d) + [s[|s| - 1]]
    ensures |Moved(s + [s[|s| - 1]], d)| == |s| + 1
    ensures Moved(s + [s[|s| - 1]], d)[|s|] == s[|s| - 1]
  {
    var g := s + [s[|s| - 1]];
    assert g[..|g| - 1] == s;
    assert s[..|s| - 1] + [s[|s| - 1]] == s;
  }

  /** The start body moved once to the right puts the head on the tail's cell. */
  lemma StartMovedOnce()
    ensures Moved(StartBody, DefaultDirection) == [Cell(6, 10), Cell(5, 10), Cell(6, 10)]
    ensures Moved(StartBody, DefaultDirection)[0] == Moved(StartBody, DefaultDirection)[2]
  {
  }

  /** The direction after asking for `dir` while heading `cur`: a reversal
      onto the opposite heading is refused, every other request taken; a
      code outside 0..3 is never left. */
  function Steered(cur: int, dir: int): (r: int)
    ensures r == cur || r == dir
    ensures IsHeading(cur) ==> r != Opposite(cur)
    ensures IsHeading(cur) && dir != Opposite(cur) ==> r == dir
    ensures !IsHeading(cur) ==> r == cur
    ensures IsHeading(cur) && IsHeading(dir) ==> IsHeading(r)
  {
    if IsHeading(cur) && dir != Opposite(cur) then dir else cur
  }

  /** The direction after a sequence of requests. */
  function SteeredAll(cur: int, dirs: seq<int>): int
    decreases |dirs|
  {
    if dirs == [] then cur else SteeredAll(Steered(cur, dirs[0]), dirs[1..])
  }

  /** A direction code outside 0..3 is never replaced, whatever is asked. */
  lemma {:induction false} InvalidDirectionSticks(cur: int, dirs: seq<int>)
    requires !IsHeading(cur)
    ensures SteeredAll(cur, dirs) == cur
    decreases |dirs|
  {
    if dirs != [] {
      InvalidDirectionSticks(Steered(cur, dirs[0]), dirs[1..]);
    }
  }

  /** Requests within 0..3 keep a valid heading valid. */
  lemma {:induction false} HeadingStaysValid(cur: int, dirs: seq<int>)
    requires IsHeading(cur)
    requires forall i :: 0 <= i < |dirs| ==> IsHeading(dirs[i])
    ensures IsHeading(SteeredAll(cur, dirs))
    decreases |dirs|
  {
    if dirs != [] {
      HeadingStaysValid(Steered(cur, dirs[0]), dirs[1..]);
    }
  }

  /** Builds the start body cell by cell. */
  method GenerateSegments() returns (s: seq<Cell>)
    ensures s == StartBody
  {
    s := [];
    var i := 0;
    while i < 3
      invariant 0 <= i <= 3
      invariant |s| == i
      invariant forall k :: 0 <= k < i ==> s[k] == Cell(5 + k, 10)
    {
      s := s + [Cell(5 + i, 10)];
      i := i + 1;
    }
  }

  class Snake {
    var segments: seq<Cell>
    var direction: int
    var moveDelay: real
    var timeSinceLastMove: real

    constructor ()
      ensures segments == StartBody
      ensures direction == DefaultDirection
      ensures moveDelay == 0.2 && timeSinceLastMove == 0.0
    {
      var body := GenerateSegments();
      segments := body;
      direction := DefaultDirection;
      moveDelay := 0.2;
      timeSinceLastMove := 0.0;
    }

    function Head(): (c: Cell)
      reads this
      requires |segments| > 0
      ensures c == segments[0]
    {
      segments[0]
    }

    /** Shifts the body down by one cell, then steps the head. */
    method Move()
      requires |segments| > 0
      modifies this
      ensures segments == Moved(old(segments), old(direction))
      ensures direction == old(direction) && moveDelay == old(moveDelay)
      ensures timeSinceLastMove == old(timeSinceLastMove)
    {
      var n := |segments|;
      var i := n - 1;
      while i > 0
        invariant 0 <= i < n == |segments|
        invariant forall k :: 0 <= k <= i ==> segments[k] == old(segments)[k]
        invariant forall k :: i < k < n ==> segments[k] == old(segments)[k - 1]
        invariant direction == old(direction) && moveDelay == old(moveDelay)
        invariant timeSinceLastMove == old(timeSinceLastMove)
      {
        segments := segments[i := segments[i - 1]];
        i := i - 1;
      }
      var head := segments[0];
      match direction {
        case 0 => segments := segments[0 := Cell(head.x, head.y + 1)];
        case 1 => segments := segments[0 := Cell(head.x + 1, head.y)];
        case 2 => segments := segments[0 := Cell(head.x, head.y - 1)];
        case 3 => segments := segments[0 := Cell(head.x - 1, head.y)];
        case _ =>
      }
      assert segments[0] == Step(old(segments)[0], direction);
    }

    /** Turns the snake unless the request reverses it. */
    method SetDirection(dir: int)
      modifies this
      ensures direction == Steered(old(direction), dir)
      ensures segments == old(segments) && moveDelay == old(moveDelay)
      ensures timeSinceLastMove == old(timeSinceLastMove)
    {
      if (direction == 0 && dir != 2) || (direction == 1 && dir != 3) ||
         (direction == 2 && dir != 0) || (direction == 3 && dir != 1)
      {
        direction := dir;
      }
    }

    /** Appends a copy of the tail. */
    method Grow()
      requires |segments| > 0
      modifies this
      ensures segments == old(segments) + [old(segments)[|old(segments)| - 1]]
      ensures direction == old(direction) && moveDelay == old(moveDelay)
      ensures timeSinceLastMove == old(timeSinceLastMove)
    {
      segments := segments + [segments[|segments| - 1]];
    }
  }
}
