/**
 * The discrete parts of the training driver in src/main.rs: choosing a
 * direction from the network's output, turning tick results into rewards,
 * recording an episode and replaying it through `backward`. The network's
 * numeric forward pass is the parameter `predict` (per-layer activation rows
 * for an observation); only its shapes are tied to the network model.
 */
module Training {
  import opened SnakeGame
  import opened NeuralNetworks

  const LearningRate: real := 0.001
  const DiscountFactor: real := 0.9

  /** The output column that stands for each direction. */
  function DirectionIndex(d: Direction): (k: nat)
    ensures k < 4
  {
    match d
    case Up => 0
    case Down => 1
    case Left => 2
    case Right => 3
  }

  /** Distinct directions stand for distinct output columns. */
  lemma DirectionIndexInjective(d: Direction, e: Direction)
    ensures DirectionIndex(d) == DirectionIndex(e) ==> d == e
  {
  }

  /** Entry `i` of the first four is strictly greater than the other three. */
  predicate StrictMax(a: seq<real>, i: nat)
    requires |a| >= 4 && i < 4
  {
    forall j :: 0 <= j < 4 && j != i ==> a[j] < a[i]
  }

  /** The direction `match`: the strict unique maximum of the four outputs, otherwise `Up`. */
  function SelectDirection(a: seq<real>): (d: Direction)
    requires |a| >= 4
    ensures forall i :: 0 <= i < 4 && StrictMax(a, i) ==> DirectionIndex(d) == i
    ensures (forall i :: 0 <= i < 4 ==> !StrictMax(a, i)) ==> d == Up
  {
    if a[0] > a[1] && a[0] > a[2] && a[0] > a[3] then assert StrictMax(a, 0); Up
    else if a[1] > a[0] && a[1] > a[2] && a[1] > a[3] then assert StrictMax(a, 1); Down
    else if a[2] > a[0] && a[2] > a[1] && a[2] > a[3] then assert StrictMax(a, 2); Left
    else if a[3] > a[0] && a[3] > a[1] && a[3] > a[2] then assert StrictMax(a, 3); Right
    else Up
  }

  /** The score change of a tick: negative exactly when the game is over. */
  function Reward(t: TickResult): (r: int)
    ensures r < 0 <==> t == TickResult.GameOver
    ensures t == TickResult.GameOver ==> r == -10
    ensures t == TickResult.Apple ==> r == 20
    ensures t == TickResult.Ok ==> r == 1
  {
    match t
    case GameOver => -10
    case Apple => 20
    case Ok => 1
  }

  /** `GameStep`: what one tick of an episode records. */
  datatype GameStep = GameStep(activations: seq<seq<real>>, scoreChange: int, snakeState: seq<real>, nextStep: Direction)

  function Last<T>(s: seq<T>): T
    requires s != []
  {
    s[|s| - 1]
  }

  /** The sum of the score changes of `steps`. */
  function Score(steps: seq<GameStep>): int {
    if steps == [] then 0 else Score(steps[..|steps| - 1]) + Last(steps).scoreChange
  }

  lemma ScoreAppend(steps: seq<GameStep>, step: GameStep)
    ensures Score(steps + [step]) == Score(steps) + step.scoreChange
  {
    assert (steps + [step])[..|steps|] == steps;
  }

  /** The prediction always has an output row of at least four entries. */
  ghost predicate HasFourOutputs(predict: seq<real> -> seq<seq<real>>) {
    forall obs :: predict(obs) != [] && |Last(predict(obs))| >= 4
  }

  /** A draw sequence lies within the grid and reaches every cell of it. */
  ghost predicate Covers(draws: seq<Coord>, width: nat, height: nat) {
    (forall i :: 0 <= i < |draws| ==> InBounds(draws[i], width, height)) &&
    (forall c :: InBounds(c, width, height) ==> c in draws)
  }

  /**
   * `step`, with tick result `r`, is one pass of the episode loop from the
   * game with body `body0` and apple `apple0` to the game with `body1` and
   * `apple1`: it observes the game before the tick, holds `predict`'s
   * activations for that observation, chooses the direction from the last
   * activation row, ticks in that direction, and scores the tick's result.
   */
  ghost predicate StepOf(step: GameStep, r: TickResult, body0: seq<Coord>, apple0: Coord,
                         body1: seq<Coord>, apple1: Coord,
                         predict: seq<real> -> seq<seq<real>>, width: nat, height: nat)
  {
    Observes(step.snakeState, body0, apple0, width, height) &&
    step.activations == predict(step.snakeState) &&
    step.activations != [] && |Last(step.activations)| >= 4 &&
    step.nextStep == SelectDirection(Last(step.activations)) &&
    TickRel(body0, apple0, step.nextStep, r, body1, apple1, width, height) &&
    step.scoreChange == Reward(r)
  }

  /** One pass of the episode loop's body: observe, predict, choose, tick and score. */
  method PlayStep(snake: Snake, predict: seq<real> -> seq<seq<real>>, draws: seq<Coord>)
    returns (step: GameStep, tickResult: TickResult)
    requires snake.Valid() && HasFourOutputs(predict)
    requires Covers(draws, snake.width, snake.height)
    modifies snake, snake.snakePath
    ensures snake.Valid()
    ensures StepOf(step, tickResult, old(snake.Path()), old(snake.apple), snake.Path(), snake.apple,
                   predict, snake.width, snake.height)
    ensures snake.state == if tickResult == TickResult.GameOver then GameState.GameOver else old(snake.state)
  {
    var snakeState := snake.ToVec();
    var activations := predict(snakeState);
    var nextStep := SelectDirection(Last(activations));
    tickResult := snake.Tick(nextStep, draws);
    var scoreChange := Reward(tickResult);
    step := GameStep(activations, scoreChange, snakeState, nextStep);
  }

  /**
   * The recorded `steps` are a play of the game through the states `bodies[k]`,
   * `apples[k]`: step `k`, with tick result `results[k]`, leads from state `k`
   * to state `k + 1`.
   */
  ghost predicate Played(steps: seq<GameStep>, results: seq<TickResult>, bodies: seq<seq<Coord>>,
                         apples: seq<Coord>, predict: seq<real> -> seq<seq<real>>, width: nat, height: nat)
  {
    |results| == |steps| && |bodies| == |apples| == |steps| + 1 &&
    forall k :: 0 <= k < |steps| ==>
      StepOf(steps[k], results[k], bodies[k], apples[k], bodies[k + 1], apples[k + 1], predict, width, height)
  }

  /** Recording one more pass from the last state extends a play. */
  lemma PlayedAppend(steps: seq<GameStep>, results: seq<TickResult>, bodies: seq<seq<Coord>>,
                     apples: seq<Coord>, predict: seq<real> -> seq<seq<real>>, width: nat, height: nat,
                     step: GameStep, r: TickResult, body: seq<Coord>, apple: Coord)
    requires Played(steps, results, bodies, apples, predict, width, height)
    requires StepOf(step, r, bodies[|steps|], apples[|steps|], body, apple, predict, width, height)
    ensures Played(steps + [step], results + [r], bodies + [body], apples + [apple], predict, width, height)
  {
    var steps', results', bodies', apples' := steps + [step], results + [r], bodies + [body], apples + [apple];
    forall k | 0 <= k < |steps'|
      ensures StepOf(steps'[k], results'[k], bodies'[k], apples'[k], bodies'[k + 1], apples'[k + 1],
                     predict, width, height)
    {
      if k < |steps| {
        assert steps'[k] == steps[k] && results'[k] == results[k];
        assert bodies'[k] == bodies[k] && bodies'[k + 1] == bodies[k + 1];
        assert apples'[k] == apples[k] && apples'[k + 1] == apples[k + 1];
      }
    }
  }

  /** What a play records at each step: the reward of its tick, and the observation, activations and choice. */
  lemma PlayedRecords(steps: seq<GameStep>, results: seq<TickResult>, bodies: seq<seq<Coord>>,
                      apples: seq<Coord>, predict: seq<real> -> seq<seq<real>>, width: nat, height: nat)
    requires Played(steps, results, bodies, apples, predict, width, height)
    ensures forall k :: 0 <= k < |steps| ==>
              steps[k].scoreChange == Reward(results[k]) &&
              |steps[k].snakeState| == 3 * width * height &&
              steps[k].activations == predict(steps[k].snakeState) && steps[k].activations != [] &&
              |Last(steps[k].activations)| >= 4 &&
              steps[k].nextStep == SelectDirection(Last(steps[k].activations))
  {
    forall k | 0 <= k < |steps|
      ensures steps[k].scoreChange == Reward(results[k]) &&
              |steps[k].snakeState| == 3 * width * height &&
              steps[k].activations == predict(steps[k].snakeState) && steps[k].activations != [] &&
              |Last(steps[k].activations)| >= 4 &&
              steps[k].nextStep == SelectDirection(Last(steps[k].activations))
    {
      assert StepOf(steps[k], results[k], bodies[k], apples[k], bodies[k + 1], apples[k + 1], predict, width, height);
    }
  }

  /**
   * The episode loop: observe, predict, choose, tick, record, accumulate,
   * and stop right after the first `GameOver`. `rng(t)` is the sequence of
   * random cells the `t`-th tick may draw apples from; `maxTicks` bounds the
   * loop, which in the source runs until the game is over. The ghost
   * `bodies` and `apples` are the game's states before each tick and after
   * the last one.
   */
  method RunEpisode(snake: Snake, predict: seq<real> -> seq<seq<real>>, rng: nat -> seq<Coord>, maxTicks: nat)
    returns (steps: seq<GameStep>, score: int, finished: bool,
             ghost results: seq<TickResult>, ghost bodies: seq<seq<Coord>>, ghost apples: seq<Coord>)
    requires snake.Valid() && HasFourOutputs(predict)
    requires forall t :: Covers(rng(t), snake.width, snake.height)
    modifies snake, snake.snakePath
    ensures snake.Valid()
    ensures |steps| <= maxTicks
    ensures !finished ==> |steps| == maxTicks
    ensures finished ==> steps != []
    // every recorded step is one tick of the game, from its state at entry to its state at exit
    ensures Played(steps, results, bodies, apples, predict, snake.width, snake.height)
    ensures bodies[0] == old(snake.Path()) && apples[0] == old(snake.apple)
    ensures bodies[|steps|] == snake.Path() && apples[|steps|] == snake.apple
    ensures snake.state == if finished then GameState.GameOver else old(snake.state)
    ensures score == Score(steps)
    // only the last recorded tick can be, and on finishing is, a GameOver
    ensures forall k :: 0 <= k < |steps| ==>
              (results[k] == TickResult.GameOver <==> finished && k == |steps| - 1)
  {
    steps, score, finished, results := [], 0, false, [];
    bodies, apples := [snake.Path()], [snake.apple];
    while !finished && |steps| < maxTicks
      invariant snake.Valid()
      invariant |steps| <= maxTicks
      invariant finished ==> steps != []
      invariant Played(steps, results, bodies, apples, predict, snake.width, snake.height)
      invariant bodies[0] == old(snake.Path()) && apples[0] == old(snake.apple)
      invariant bodies[|steps|] == snake.Path() && apples[|steps|] == snake.apple
      invariant snake.state == if finished then GameState.GameOver else old(snake.state)
      invariant score == Score(steps)
      invariant forall k :: 0 <= k < |steps| ==>
                  (results[k] == TickResult.GameOver <==> finished && k == |steps| - 1)
      decreases maxTicks - |steps|, if finished then 0 else 1
    {
      var step, tickResult := PlayStep(snake, predict, rng(|steps|));
      PlayedAppend(steps, results, bodies, apples, predict, snake.width, snake.height,
                   step, tickResult, snake.Path(), snake.apple);
      ScoreAppend(steps, step);
      steps := steps + [step];
      results := results + [tickResult];
      bodies := bodies + [snake.Path()];
      apples := apples + [snake.apple];
      score := score + step.scoreChange;
      if tickResult == TickResult.GameOver {
        finished := true;
      }
    }
  }

  /** `q_change`: the step's own score change plus the discounted total of the whole episode. */
  function QChange(scoreChange: int, score: int): real {
    scoreChange as real + DiscountFactor * score as real
  }

  /** Within one episode, a GameOver step's target is below an Ok step's, and that is below an Apple step's. */
  lemma QChangeRanksRewards(score: int)
    ensures QChange(Reward(TickResult.GameOver), score) < QChange(Reward(TickResult.Ok), score)
    ensures QChange(Reward(TickResult.Ok), score) < QChange(Reward(TickResult.Apple), score)
  {
  }

  /** For the same step reward, a better episode total gives every step a higher target. */
  lemma QChangeMonotone(scoreChange: int, score: int, score': int)
    requires score < score'
    ensures QChange(scoreChange, score) < QChange(scoreChange, score')
  {
  }

  /** `y` is the prediction `a` with only the chosen direction's entry replaced by `q`. */
  predicate IsTarget(y: seq<real>, a: seq<real>, d: Direction, q: real) {
    |y| == |a| && DirectionIndex(d) < |y| && y[DirectionIndex(d)] == q &&
    forall i :: 0 <= i < |a| && i != DirectionIndex(d) ==> y[i] == a[i]
  }

  /** The target row: a copy of the last activation overwritten in place at one index. */
  method BuildTarget(a: seq<real>, d: Direction, q: real) returns (y: seq<real>)
    requires |a| >= 4
    ensures IsTarget(y, a, d, q)
  {
    y := a;
    if d == Up {
      y := y[0 := q];
    } else if d == Down {
      y := y[1 := q];
    } else if d == Left {
      y := y[2 := q];
    } else if d == Right {
      y := y[3 := q];
    }
  }

  /** With that target, the output error `a - y` is zero at every direction not chosen. */
  lemma UnchosenErrorIsZero(y: seq<real>, a: seq<real>, d: Direction, q: real)
    requires IsTarget(y, a, d, q)
    ensures forall i :: 0 <= i < |a| && i != DirectionIndex(d) ==> a[i] - y[i] == 0.0
    ensures a[DirectionIndex(d)] - y[DirectionIndex(d)] == a[DirectionIndex(d)] - q
  {
  }

  function RowShape(v: seq<real>): Shape {
    Shape(1, |v|)
  }

  function Shapes(rows: seq<seq<real>>): (r: seq<Shape>)
    ensures |r| == |rows| && forall i :: 0 <= i < |rows| ==> r[i] == RowShape(rows[i])
  {
    seq(|rows|, i requires 0 <= i < |rows| => RowShape(rows[i]))
  }

  /** The step's observation and activations have the shapes the network's `forward` gives. */
  ghost predicate Fits(weights: seq<Shape>, step: GameStep) {
    |weights| > 0 && |step.snakeState| == weights[0].rows &&
    |step.activations| == |weights| &&
    forall i :: 0 <= i < |weights| ==> |step.activations[i]| == weights[i].cols
  }

  /** One call of `backward`, as the replay makes it. */
  datatype BackwardCall = BackwardCall(input: seq<real>, target: seq<real>, activations: seq<seq<real>>)

  /**
   * The replay: every recorded step, once and in order, is turned into a
   * target row and passed to `backward` with the learning rate.
   */
  method Replay(net: NeuralNetwork, steps: seq<GameStep>, score: int) returns (calls: seq<BackwardCall>)
    requires net.Valid() && net.OutputSize() >= 4
    requires forall k :: 0 <= k < |steps| ==> Fits(net.weights, steps[k])
    modifies net
    ensures net.weights == old(net.weights) && net.biases == old(net.biases)
    ensures |calls| == |steps|
    ensures forall k :: 0 <= k < |steps| ==>
              calls[k].input == steps[k].snakeState && calls[k].activations == steps[k].activations &&
              steps[k].activations != [] &&
              IsTarget(calls[k].target, Last(steps[k].activations), steps[k].nextStep,
                       QChange(steps[k].scoreChange, score))
  {
    calls := [];
    for k := 0 to |steps|
      invariant net.Valid() && net.weights == old(net.weights) && net.biases == old(net.biases)
      invariant |calls| == k
      invariant forall j :: 0 <= j < k ==>
                  calls[j].input == steps[j].snakeState && calls[j].activations == steps[j].activations &&
                  steps[j].activations != [] &&
                  IsTarget(calls[j].target, Last(steps[j].activations), steps[j].nextStep,
                           QChange(steps[j].scoreChange, score))
    {
      var step := steps[k];
      assert Fits(net.weights, step);
      var qChange := QChange(step.scoreChange, score);
      var y := BuildTarget(Last(step.activations), step.nextStep, qChange);
      var _ := net.Backward(RowShape(step.snakeState), RowShape(y), Shapes(step.activations), LearningRate);
      calls := calls + [BackwardCall(step.snakeState, y, step.activations)];
    }
  }

  /** Examples of the direction rule: all equal, a clear first, a clear third. */
  lemma SelectDirectionExamples()
    ensures SelectDirection([0.5, 0.5, 0.5, 0.5]) == Up
    ensures SelectDirection([1.0, 0.2, 0.3, 0.4]) == Up
    ensures SelectDirection([0.1, 0.2, 0.9, 0.3]) == Left
    ensures SelectDirection([0.1, 0.9, 0.9, 0.3]) == Up
  {
  }

  /**
   * An episode of two ordinary ticks and a fatal one scores -8, and every
   * step's q-value carries the same discounted total: -6.2, -6.2, -17.2.
   */
  lemma TwoMovesThenGameOver(steps: seq<GameStep>)
    requires |steps| == 3
    requires steps[0].scoreChange == Reward(TickResult.Ok) && steps[1].scoreChange == Reward(TickResult.Ok)
    requires steps[2].scoreChange == Reward(TickResult.GameOver)
    ensures Score(steps) == -8
    ensures QChange(steps[0].scoreChange, Score(steps)) == -6.2
    ensures QChange(steps[1].scoreChange, Score(steps)) == -6.2
    ensures QChange(steps[2].scoreChange, Score(steps)) == -17.2
  {
    assert steps[..1][..0] == [];
    assert steps[..2][..1] == steps[..1];
    assert steps[..3] == steps;
    assert Score(steps[..1]) == 1;
    assert Score(steps[..2]) == 2;
  }

  /** The network `main` builds: 300 inputs, a hidden layer of 10 after layer 0, 4 outputs. */
  method MainNetwork() returns (net: NeuralNetwork)
    ensures fresh(net) && net.Valid()
    ensures net.weights == [Shape(300, 10), Shape(10, 4)] && net.biases == [Shape(1, 10), Shape(1, 4)]
  {
    net := new NeuralNetwork(10 * 10 * 3, 4);
    var _ := net.AddHiddenLayer(10, 0);
  }

  /** `forward`'s activations for an observation have the network's layer shapes. */
  ghost predicate PredictsShapes(weights: seq<Shape>, predict: seq<real> -> seq<seq<real>>) {
    forall obs :: |predict(obs)| == |weights| &&
      forall i :: 0 <= i < |weights| ==> |predict(obs)[i]| == weights[i].cols
  }

  /**
   * One iteration of `main`'s episode loop: a fresh 10 x 10 game, the episode,
   * then the replay into the network. `startDraws` are the random cells for
   * the first apple.
   */
  method TrainEpisode(net: NeuralNetwork, predict: seq<real> -> seq<seq<real>>,
                      startDraws: seq<Coord>, rng: nat -> seq<Coord>, maxTicks: nat)
    returns (steps: seq<GameStep>, score: int, finished: bool, calls: seq<BackwardCall>,
             ghost results: seq<TickResult>, ghost bodies: seq<seq<Coord>>, ghost apples: seq<Coord>)
    requires net.Valid() && net.InputSize() == 10 * 10 * 3 && net.OutputSize() == 4
    requires PredictsShapes(net.weights, predict)
    requires Covers(startDraws, 10, 10) && forall t :: Covers(rng(t), 10, 10)
    modifies net
    ensures net.weights == old(net.weights) && net.biases == old(net.biases)
    // the steps are ticks of a game that starts as `Snake::new(10, 10)` builds it
    ensures Played(steps, results, bodies, apples, predict, 10, 10)
    ensures bodies[0] == StartPath(10, 10) && InBounds(apples[0], 10, 10) && apples[0] !in bodies[0]
    ensures |steps| <= maxTicks && score == Score(steps)
    ensures !finished ==> |steps| == maxTicks
    ensures forall k :: 0 <= k < |steps| ==>
              (results[k] == TickResult.GameOver <==> finished && k == |steps| - 1)
    ensures finished ==> steps != [] && Last(steps).scoreChange == -10
    ensures forall k :: 0 <= k < |steps| - 1 ==> steps[k].scoreChange != -10
    // the replay calls `backward` once per step, in order
    ensures |calls| == |steps|
    ensures forall k :: 0 <= k < |steps| ==>
              calls[k].input == steps[k].snakeState && calls[k].activations == steps[k].activations &&
              steps[k].activations != [] &&
              IsTarget(calls[k].target, Last(steps[k].activations), steps[k].nextStep,
                       QChange(steps[k].scoreChange, score))
  {
    assert InBounds(Coord(0, 0), 10, 10) && Coord(0, 0) in startDraws;
    assert Coord(0, 0) !in StartPath(10, 10);
    var snake := new Snake(10, 10, startDraws);
    assert HasFourOutputs(predict) by {
      forall obs ensures predict(obs) != [] && |Last(predict(obs))| >= 4 {
        assert |predict(obs)| == |net.weights|;
      }
    }
    steps, score, finished, results, bodies, apples := RunEpisode(snake, predict, rng, maxTicks);
    PlayedRecords(steps, results, bodies, apples, predict, 10, 10);
    forall k | 0 <= k < |steps| ensures Fits(net.weights, steps[k]) {
      assert |predict(steps[k].snakeState)| == |net.weights|;
    }
    forall k | 0 <= k < |steps| - 1 ensures steps[k].scoreChange != -10 {
      assert results[k] != TickResult.GameOver;
    }
    if finished {
      assert results[|steps| - 1] == TickResult.GameOver;
    }
    calls := Replay(net, steps, score);
  }
}
