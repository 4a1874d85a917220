/**
 * The game of src/snake.rs: a snake on a `width` x `height` grid whose body is
 * a ring buffer of cells, oldest (tail) first and newest (head) last.
 */
module SnakeGame {
  import opened Wrappers
  import opened RingBuffers

  datatype Coord = Coord(x: nat, y: nat)

  datatype Direction = Left | Right | Up | Down

  datatype GameState = Running | GameOver

  datatype TickResult = Ok | GameOver | Apple

  predicate InBounds(c: Coord, width: nat, height: nat) {
    c.x < width && c.y < height
  }

  /** The value `to_vec` writes for a yes/no property of a cell. */
  function Flag(b: bool): real {
    if b then 1.0 else 0.0
  }

  /** The three cells `Snake::new` pushes, tail first: a vertical segment through the centre. */
  function StartPath(width: nat, height: nat): seq<Coord>
    requires height >= 2
  {
    [Coord(width / 2, height / 2 - 1), Coord(width / 2, height / 2), Coord(width / 2, height / 2 + 1)]
  }

  /** `b` is the neighbour of `a` one step in direction `d` (rows grow downwards). */
  predicate Adjacent(a: Coord, b: Coord, d: Direction) {
    match d
    case Up => b.x == a.x && b.y + 1 == a.y
    case Down => b.x == a.x && b.y == a.y + 1
    case Left => b.x + 1 == a.x && b.y == a.y
    case Right => b.x == a.x + 1 && b.y == a.y
  }

  /** Moving from `head` in direction `d` would leave the grid through row 0 or column 0. */
  predicate LeavesAtOrigin(head: Coord, d: Direction) {
    (d == Up && head.y == 0) || (d == Left && head.x == 0)
  }

  /** The cell the head moves to, as `tick` computes it. */
  function Neighbour(head: Coord, d: Direction): (next: Coord)
    requires !LeavesAtOrigin(head, d)
    ensures Adjacent(head, next, d)
  {
    match d
    case Up => Coord(head.x, head.y - 1)
    case Down => Coord(head.x, head.y + 1)
    case Left => Coord(head.x - 1, head.y)
    case Right => Coord(head.x + 1, head.y)
  }

  /**
   * One `tick` on values: the body `path0` (tail first, head last) and the
   * apple `apple0` become `path1` and `apple1` with result `r` when the head
   * is turned towards `d` on a `width` x `height` grid. The new apple is any
   * cell of the grid off the old body.
   */
  predicate TickRel(path0: seq<Coord>, apple0: Coord, d: Direction, r: TickResult,
                    path1: seq<Coord>, apple1: Coord, width: nat, height: nat)
  {
    path0 != [] &&
    var head := path0[|path0| - 1];
    if LeavesAtOrigin(head, d) then
      r == TickResult.GameOver && path1 == path0 && apple1 == apple0
    else
      var next := Neighbour(head, d);
      if !InBounds(next, width, height) || next in path0 then
        r == TickResult.GameOver && path1 == path0 && apple1 == apple0
      else if next == apple0 then
        r == TickResult.Apple && path1 == [path0[0], path0[0]] + path0 + [next] &&
        InBounds(apple1, width, height) && apple1 !in path0
      else
        r == TickResult.Ok && path1 == path0[1..] + [next] && apple1 == apple0
  }

  /**
   * What a tick's result tells about the move: GameOver exactly when the head
   * would leave the grid or enter the body (tail included), and then nothing
   * moves; otherwise the new head is the neighbour in direction `d`, a free
   * cell of the grid, and the body keeps its length (Ok) or grows by three
   * (Apple, exactly when that cell held the apple).
   */
  lemma TickRelOutcomes(path0: seq<Coord>, apple0: Coord, d: Direction, r: TickResult,
                        path1: seq<Coord>, apple1: Coord, width: nat, height: nat)
    requires TickRel(path0, apple0, d, r, path1, apple1, width, height)
    ensures var head := path0[|path0| - 1];
            (r == TickResult.GameOver <==>
               LeavesAtOrigin(head, d) ||
               !InBounds(Neighbour(head, d), width, height) || Neighbour(head, d) in path0) &&
            (r == TickResult.GameOver ==> path1 == path0 && apple1 == apple0) &&
            (r != TickResult.GameOver ==>
               path1 != [] && Adjacent(head, path1[|path1| - 1], d) &&
               InBounds(path1[|path1| - 1], width, height) && path1[|path1| - 1] !in path0) &&
            (r == TickResult.Apple <==> r != TickResult.GameOver && Neighbour(head, d) == apple0) &&
            (r == TickResult.Ok ==> |path1| == |path0| && apple1 == apple0) &&
            (r == TickResult.Apple ==> |path1| == |path0| + 3)
  {
  }

  /** A tick keeps the body within the grid, and a new apple lands off the old body. */
  lemma TickKeepsBodyInGrid(path0: seq<Coord>, apple0: Coord, d: Direction, r: TickResult,
                            path1: seq<Coord>, apple1: Coord, width: nat, height: nat)
    requires TickRel(path0, apple0, d, r, path1, apple1, width, height)
    requires forall i :: 0 <= i < |path0| ==> InBounds(path0[i], width, height)
    ensures forall i :: 0 <= i < |path1| ==> InBounds(path1[i], width, height)
  {
    var head := path0[|path0| - 1];
    if r == TickResult.Ok {
      forall i | 0 <= i < |path1| ensures InBounds(path1[i], width, height) {
        if i < |path1| - 1 {
          assert path1[i] == path0[i + 1];
        }
      }
    } else if r == TickResult.Apple {
      forall i | 0 <= i < |path1| ensures InBounds(path1[i], width, height) {
        if i < 2 {
          assert path1[i] == path0[0];
        } else if i < |path1| - 1 {
          assert path1[i] == path0[i - 2];
        }
      }
    }
  }

  /**
   * The three one-hot entries `to_vec` writes for cell `c` are in `v`: on the
   * body `path`, on the apple, on the head (the last cell of `path`).
   */
  predicate CellEncoded(v: seq<real>, path: seq<Coord>, apple: Coord, width: nat, c: Coord) {
    var k := 3 * (c.y * width + c.x);
    path != [] && k + 2 < |v| &&
    v[k] == Flag(c in path) && v[k + 1] == Flag(c == apple) && v[k + 2] == Flag(c == path[|path| - 1])
  }

  /** `v` is the `to_vec` observation of the game with body `path` and apple `apple`. */
  ghost predicate Observes(v: seq<real>, path: seq<Coord>, apple: Coord, width: nat, height: nat) {
    |v| == 3 * width * height &&
    forall c :: InBounds(c, width, height) ==> CellEncoded(v, path, apple, width, c)
  }

  /**
   * `new_apple`: draw cells until one is not on the path. The random draws are
   * the parameter `draws` (each one within the grid, as `gen_range` yields);
   * some draw, at the ghost index `free`, must be off the path, which is what
   * makes the source's loop return.
   */
  method NewApple(path: RingBuffer<Coord>, width: nat, height: nat, draws: seq<Coord>, ghost free: nat)
    returns (apple: Coord, ghost tries: nat)
    requires path.Valid()
    requires forall i :: 0 <= i < |draws| ==> InBounds(draws[i], width, height)
    requires free < |draws| && draws[free] !in path.Contents()
    ensures InBounds(apple, width, height) && apple !in path.Contents()
    ensures tries < |draws| && apple == draws[tries]
    ensures forall j :: 0 <= j < tries ==> draws[j] in path.Contents()
  {
    var i := 0;
    while path.Contains(draws[i])
      invariant i <= free
      invariant forall j :: 0 <= j < i ==> draws[j] in path.Contents()
      decreases |draws| - i
    {
      i := i + 1;
    }
    apple, tries := draws[i], i;
  }

  /** The first part of `Snake::new`: a capacity-3 buffer holding the starting column. */
  method InitialPath(width: nat, height: nat) returns (path: RingBuffer<Coord>)
    requires height >= 2
    ensures fresh(path) && path.Valid() && path.size == 3
    ensures path.Contents() == StartPath(width, height)
  {
    var halfWidth := width / 2;
    var halfHeight := height / 2;
    path := new RingBuffer<Coord>(width * height, 3);
    for y := halfHeight - 1 to halfHeight + 2
      invariant path.Valid() && fresh(path) && path.size == 3
      invariant path.Contents() == StartPath(width, height)[..y - (halfHeight - 1)]
    {
      path.Push(Coord(halfWidth, y));
      assert StartPath(width, height)[..y + 1 - (halfHeight - 1)]
          == StartPath(width, height)[..y - (halfHeight - 1)] + [Coord(halfWidth, y)];
    }
    assert StartPath(width, height)[..3] == StartPath(width, height);
  }

  class Snake {
    const width: nat
    const height: nat
    var apple: Coord
    const snakePath: RingBuffer<Coord>
    var lastDirection: Direction
    var state: GameState

    /** The path is a full ring buffer of at least the three starting cells. */
    ghost predicate Valid()
      reads this, snakePath
    {
      snakePath.Valid() && |snakePath.buffer| == snakePath.size && snakePath.size >= 3
    }

    /** The body, tail first. */
    ghost function Path(): (p: seq<Coord>)
      reads this, snakePath
      requires Valid()
      ensures |p| == snakePath.size
    {
      snakePath.Contents()
    }

    /** The head cell, `snake_path.first().unwrap()`. */
    function Head(): (h: Coord)
      reads this, snakePath
      requires Valid()
      ensures h == Path()[|Path()| - 1]
    {
      snakePath.First().value
    }

    /** `Snake::new`; `draws` stands for the random cells `new_apple` tries. */
    constructor (width: nat, height: nat, draws: seq<Coord>)
      requires height >= 2
      requires forall i :: 0 <= i < |draws| ==> InBounds(draws[i], width, height)
      requires exists i :: 0 <= i < |draws| && draws[i] !in StartPath(width, height)
      ensures Valid() && fresh(snakePath)
      ensures this.width == width && this.height == height
      ensures Path() == StartPath(width, height) && snakePath.size == 3
      ensures Head() == Coord(width / 2, height / 2 + 1)
      ensures InBounds(apple, width, height) && apple !in Path()
      ensures lastDirection == Down && state == Running
    {
      var path := InitialPath(width, height);
      ghost var free :| 0 <= free < |draws| && draws[free] !in path.Contents();
      var a, tries := NewApple(path, width, height, draws, free);
      this.width := width;
      this.height := height;
      apple := a;
      snakePath := path;
      lastDirection := Down;
      state := Running;
    }

    /**
     * `tick`: move the head one cell. Leaving the grid or running into the
     * body ends the game; eating the apple places a new one (drawn from
     * `draws`, which must cover the grid) and grows the body by three cells.
     */
    method Tick(direction: Direction, draws: seq<Coord>) returns (result: TickResult)
      requires Valid()
      requires forall i :: 0 <= i < |draws| ==> InBounds(draws[i], width, height)
      requires forall c :: InBounds(c, width, height) ==> c in draws
      modifies this, snakePath
      ensures Valid()
      ensures TickRel(old(Path()), old(apple), direction, result, Path(), apple, width, height)
      ensures state == if result == TickResult.GameOver then GameState.GameOver else old(state)
      // the direction is recorded once the head is known not to step to row or column -1
      ensures lastDirection ==
                if LeavesAtOrigin(old(Head()), direction) then old(lastDirection) else direction
    {
      var first := snakePath.First().value;
      if (direction == Up && first.y == 0) || (direction == Left && first.x == 0) {
        state := GameState.GameOver;
        return TickResult.GameOver;
      }
      var next := Neighbour(first, direction);
      lastDirection := direction;
      if next.x >= width || next.y >= height {
        state := GameState.GameOver;
        return TickResult.GameOver;
      }
      if snakePath.Contains(next) {
        state := GameState.GameOver;
        return TickResult.GameOver;
      }
      assert InBounds(next, width, height) && next in draws;
      ghost var found :| 0 <= found < |draws| && draws[found] == next;
      result := EatOrMove(next, draws, found);
    }

    /** The rest of `tick` once `next` is a free cell of the grid. */
    method EatOrMove(next: Coord, draws: seq<Coord>, ghost found: nat) returns (result: TickResult)
      requires Valid() && InBounds(next, width, height) && next !in Path()
      requires forall i :: 0 <= i < |draws| ==> InBounds(draws[i], width, height)
      requires found < |draws| && draws[found] == next
      modifies this`apple, snakePath
      ensures Valid()
      ensures result == (if next == old(apple) then TickResult.Apple else TickResult.Ok)
      ensures result == TickResult.Ok ==> Path() == old(Path())[1..] + [next] && apple == old(apple)
      ensures result == TickResult.Apple ==>
                Path() == [old(Path())[0], old(Path())[0]] + old(Path()) + [next] &&
                InBounds(apple, width, height) && apple !in old(Path())
    {
      ghost var body := Path();
      if next == apple {
        EatApple(draws, found);
        ghost var grown := Path();
        snakePath.Push(next);
        assert grown[1..] == [body[0], body[0]] + body;
        result := TickResult.Apple;
      } else {
        snakePath.Push(next);
        result := TickResult.Ok;
      }
    }

    /** The apple branch of `tick`: a new apple off the body, then a body three cells longer. */
    method EatApple(draws: seq<Coord>, ghost free: nat)
      requires Valid()
      requires forall i :: 0 <= i < |draws| ==> InBounds(draws[i], width, height)
      requires free < |draws| && draws[free] !in Path()
      modifies this`apple, snakePath
      ensures Valid() && snakePath.size == old(snakePath.size) + 3
      ensures Path() == [old(Path())[0], old(Path())[0], old(Path())[0]] + old(Path())
      ensures InBounds(apple, width, height) && apple !in old(Path())
    {
      ghost var tries;
      apple, tries := NewApple(snakePath, width, height, draws, free);
      GrowAtTail();
    }

    /** The three `extend(last)` calls of `tick`: three more copies of the tail cell. */
    method GrowAtTail()
      requires Valid()
      modifies snakePath
      ensures Valid() && snakePath.size == old(snakePath.size) + 3
      ensures Path() == [old(Path())[0], old(Path())[0], old(Path())[0]] + old(Path())
    {
      ghost var body := Path();
      var tail := snakePath.Last().value;
      snakePath.Extend(tail);
      assert Path() == [body[0]] + body;
      tail := snakePath.Last().value;
      snakePath.Extend(tail);
      assert Path() == [body[0], body[0]] + body;
      tail := snakePath.Last().value;
      snakePath.Extend(tail);
    }

    /** Cell `c` of this game is encoded in `v`. */
    ghost predicate Encoded(v: seq<real>, c: Coord)
      reads this, snakePath
      requires Valid()
    {
      CellEncoded(v, Path(), apple, width, c)
    }

    /** Appending one cell's three entries keeps every cell encoded so far and adds `c`. */
    lemma EncodedExtends(v0: seq<real>, v: seq<real>, c: Coord)
      requires Valid() && |v| == |v0| + 3 && v[..|v0|] == v0
      requires |v0| == 3 * (c.y * width + c.x)
      requires v[|v0|] == Flag(c in Path()) && v[|v0| + 1] == Flag(c == apple)
      requires v[|v0| + 2] == Flag(c == Head())
      ensures Encoded(v, c)
      ensures forall d :: Encoded(v0, d) ==> Encoded(v, d)
    {
      forall d | Encoded(v0, d) ensures Encoded(v, d) {
        var k := 3 * (d.y * width + d.x);
        assert v[k] == v0[k] && v[k + 1] == v0[k + 1] && v[k + 2] == v0[k + 2];
      }
    }

    /** `to_vec`: the grid row by row, three entries per cell. */
    method ToVec() returns (v: seq<real>)
      requires Valid()
      ensures Observes(v, Path(), apple, width, height)
    {
      v := [];
      var y := 0;
      while y < height
        invariant y <= height
        invariant |v| == 3 * (y * width)
        invariant forall c: Coord :: c.y < y && c.x < width ==> Encoded(v, c)
      {
        var x := 0;
        while x < width
          invariant x <= width
          invariant |v| == 3 * (y * width + x)
          invariant forall c: Coord :: (c.y < y && c.x < width) || (c.y == y && c.x < x) ==> Encoded(v, c)
        {
          var coord := Coord(x, y);
          var onPath := if snakePath.Contains(coord) then 1.0 else 0.0;
          var onApple := if coord == apple then 1.0 else 0.0;
          var onHead := if coord == snakePath.First().value then 1.0 else 0.0;
          ghost var v0 := v;
          v := v + [onPath, onApple, onHead];
          EncodedExtends(v0, v, coord);
          forall c: Coord | (c.y < y && c.x < width) || (c.y == y && c.x < x + 1)
            ensures Encoded(v, c)
          {
            if c != coord {
              assert Encoded(v0, c);
            }
          }
          x := x + 1;
        }
        assert (y + 1) * width == y * width + width;
        y := y + 1;
      }
    }
  }
}
