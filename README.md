# Snake neural network — a Dafny model of its discrete core

The repository trains a small feed-forward network to play snake. This project
models the parts of it that are discrete and proves properties of them:

- **Ring buffer** (`ring_buffer.dfy`, module `RingBuffers`): the bounded FIFO
  `RingBuffer<T>` that holds the snake's body. The class keeps the source's
  fields (`buffer` as a sequence, `start`, `end`, `size`) and its cursor
  arithmetic. The abstract value is the sequence of retained items, oldest
  first: `buffer` while it fills, `buffer[end..] + buffer[..end]` once full.
  `Push` is proved to implement the pure `Pushed` (append, or evict the oldest
  when full). `Extend` is proved to grow the capacity by one and make its item
  the oldest. `First`, `Last` and `Contains` are proved to return the newest
  item, the oldest item and membership. Every index they use is in range. The
  lemma `PushedAllIsWindow` shows that a run of pushes keeps exactly the newest
  `size` items. The crate's unit tests are restated as methods whose
  postconditions are the tests' assertions.
- **Snake game** (`snake.dfy`, module `SnakeGame`): `Coord`, `Direction`,
  `GameState`, `TickResult` and the class `Snake`. This covers construction of
  the three-cell body, apple placement, `tick` with every branch (edge at row
  or column 0, leaving the grid, self-collision, eating the apple, an ordinary
  move) and the one-hot `to_vec` encoding. The random cell draws of
  `new_apple` are a parameter: a sequence of cells tried in order. Note that
  the new apple is drawn against the body as it is before the head moves. So
  it is never on the old body, but it may be the cell the head is about to
  enter.
- **Network shapes** (`neural_network.dfy`, module `NeuralNetworks`): the
  network with each weight and bias matrix reduced to its `(rows, cols)`.
  `new`, `add_hidden_layer`, `forward` and `backward` are modelled. The
  proofs show that every matrix product, broadcast, difference and in-place
  update they make is shape-correct. They also show that inserting a hidden
  layer keeps the layers chained and keeps the network's input and output
  widths.
- **Training driver** (`training.dfy`, module `Training`): picking a
  direction (strict unique maximum, else `Up`), the reward of a tick, the
  episode loop over a real `Snake`, the target row, and the replay of the
  episode through `backward`. The network's numeric output is the parameter
  `predict` (per-layer activation rows for an observation). It is tied to the
  network model only through its shapes. Values are `real`.

Two behaviours of the code worth knowing, both modelled as written:
- `backward` propagates the error through `weights[i]` after that layer's
  update (neural_network.rs:60, 65). At shape level this makes no difference,
  because the update keeps the shape.
- An out-of-range `after` in `add_hidden_layer` fails the assertion at
  neural_network.rs:19. The model returns `ok == false` and changes nothing.
  Shape mismatches in `forward` and `backward` panic inside ndarray, so the
  model states them as preconditions.

## Model

| member | source | states |
|---|---|---|
| RingBuffers.Pushed | src/ring_buffer.rs:20-31 | the retained items after one push stay within the capacity, are nonempty, and end with the pushed item |
| RingBuffers.PushedAllIsWindow | src/ring_buffer.rs:20-31 | after any run of pushes, the retained items are exactly the newest `min(size, n)` of all items pushed so far, in order |
| RingBuffers.PushLayout | src/ring_buffer.rs:20-31 | the field updates of `push` (append or overwrite at `end`, advance `end` modulo `size`, advance `start` when they meet) keep the buffer layout and turn the retained items into `Pushed` of the old ones |
| RingBuffers.PushedAllKeepsShortInput | src/ring_buffer.rs:67-76 | pushing at most `size` items into an empty buffer keeps all of them, in push order |
| RingBuffers.PushedFullEvictsOldest | src/ring_buffer.rs:24-30 | a push into a full buffer drops exactly the oldest item, shifts the rest down by one, and keeps the count at `size` |
| RingBuffers.ExtendedItemEvictedFirst | src/ring_buffer.rs:33-36 | after `extend(x)` on a full buffer, the next push evicts `x` and keeps every other item |
| RingBuffers.RingBuffer.constructor | src/ring_buffer.rs:11-18 | a new buffer has the given capacity and retains nothing |
| RingBuffers.RingBuffer.Push | src/ring_buffer.rs:20-31 | with `size > 0`, the invariant is kept, including `len <= size` and `end < size`; the capacity is unchanged; the retained items become `Pushed` of the old ones |
| RingBuffers.RingBuffer.Extend | src/ring_buffer.rs:33-36 | on a full buffer: the capacity grows by one, the buffer stays full, and the new item is the oldest with all other items kept in order |
| RingBuffers.RingBuffer.First | src/ring_buffer.rs:38-46 | `None` exactly when nothing is retained, otherwise the newest item; indices `end - 1` and `(end + size - 1) % size` are in range |
| RingBuffers.RingBuffer.Last | src/ring_buffer.rs:48-56 | `None` exactly when nothing is retained, otherwise the oldest item |
| RingBuffers.RingBuffer.Contains | src/ring_buffer.rs:58-60 | true exactly when the item is among the retained items |
| RingBuffers.ContainsAllOf | src/ring_buffer.rs:170-190 | the tests' `contains_all` check holds whenever the retained items are exactly the expected ones and the capacity is their count |
| RingBuffers.ContainsAll | src/ring_buffer.rs:170-190 | `contains_all` holds exactly when the capacity equals the number of expected items, each expected item is retained, and neither the integer below the least nor the one above the greatest is retained |
| RingBuffers.CanPushItems | src/ring_buffer.rs:67-76 | after pushing 1, 2, 3 into capacity 3, `contains_all([1, 2, 3])` holds |
| RingBuffers.CanPushMoreItemsThanSize | src/ring_buffer.rs:78-88 | pushing 1..4 into capacity 3 leaves `[2, 3, 4]` |
| RingBuffers.CanExpandMoreItemsThanSize | src/ring_buffer.rs:90-109 | the push/extend sequence of the test leaves capacity 5 holding 1, 2, 3, 5, 6 |
| RingBuffers.CorrectlyCalculatesFirst | src/ring_buffer.rs:111-135 | `first` after each step of the test is 1, 2, 3, 4, 5, 6, and still 6 after `extend(7)` |
| RingBuffers.CorrectlyCalculatesLast | src/ring_buffer.rs:137-168 | `last` after each step of the test is 1, 1, 1, 2, 3, 4, and 7 after `extend(7)` |
| SnakeGame.Neighbour | src/snake.rs:91-107 | the computed cell is the neighbour in the chosen direction: Up is y-1, Down y+1, Left x-1, Right x+1 |
| SnakeGame.NewApple | src/snake.rs:68-80 | the apple is the first drawn cell not on the path; it lies in the grid and is not on the path |
| SnakeGame.InitialPath | src/snake.rs:48-54 | the three pushes of `Snake::new` leave a full capacity-3 buffer holding `(w/2, h/2-1), (w/2, h/2), (w/2, h/2+1)`, oldest first |
| SnakeGame.Snake.constructor | src/snake.rs:43-66 | with `height >= 2`: the body is `(w/2, h/2-1), (w/2, h/2), (w/2, h/2+1)`, the head is `(w/2, h/2+1)`, the buffer is full with size 3, the apple is a free cell in the grid, the direction is `Down` and the state `Running` |
| SnakeGame.Snake.Head | src/snake.rs:84 | the head is the newest cell of the body |
| SnakeGame.Snake.Tick | src/snake.rs:81-143 | the old body and apple, the direction, the result and the new body and apple are in `TickRel`: Up from row 0 or Left from column 0 is GameOver with nothing moved; a neighbour outside the grid or on the body (tail included) is GameOver with nothing moved; a free neighbour holding the apple is Apple, with two extra tail copies, the new head, and a new apple in the grid off the old body; any other free neighbour is Ok, dropping the tail and adding the head. The state becomes GameOver exactly on a GameOver result, and the direction is recorded unless the head is at row or column 0 facing out |
| SnakeGame.TickRelOutcomes | src/snake.rs:81-143 | for any tick: GameOver exactly when the head would leave the grid or enter the body, and then nothing moves; otherwise the new head is the neighbour in the chosen direction, in the grid and off the old body; Apple exactly when that neighbour is the apple; Ok keeps the length, Apple adds 3 |
| SnakeGame.TickKeepsBodyInGrid | src/snake.rs:81-143 | a tick from a body within the grid leaves the body within the grid |
| SnakeGame.Snake.EatOrMove | src/snake.rs:130-142 | for a free cell `next`: Apple exactly when it is the apple, with the body `[t, t] + body + [next]` and a fresh apple; otherwise Ok with the body `body[1..] + [next]` |
| SnakeGame.Snake.EatApple | src/snake.rs:130-136 | the apple is replaced by a drawn cell in the grid and off the old body, and the body becomes three copies of its tail followed by the old body, with the capacity grown by 3 |
| SnakeGame.Snake.GrowAtTail | src/snake.rs:133-135 | three `extend(last)` calls put three copies of the tail cell in front of the body and grow the capacity by 3 |
| SnakeGame.Snake.ToVec | src/snake.rs:145-177 | the result `Observes` the game: it has `3 * width * height` entries and, for each cell `(x, y)` of the grid, the entries at `3*(y*width+x)`, `+1` and `+2` are 1 exactly when the cell is on the body, is the apple, is the head, and 0 otherwise |
| NeuralNetworks.Insert | src/neural_network.rs:25-26 | `Vec::insert` puts the item at the index, keeps earlier items, and shifts later ones up one |
| NeuralNetworks.HiddenWeights | src/neural_network.rs:21-25 | layer `after` becomes `in x n`, layer `after+1` is `n x out`, earlier layers keep their shapes and later ones shift up one |
| NeuralNetworks.HiddenBiases | src/neural_network.rs:26 | a `1 x n` bias is inserted at `after`; the old bias at `after` and all later ones shift up one |
| NeuralNetworks.HiddenLayerKeepsChain | src/neural_network.rs:18-27 | after the insertion every layer's output width is the next layer's input width, every bias is as wide as its layer's output, and the network's input and output widths are unchanged |
| NeuralNetworks.NeuralNetwork.constructor | src/neural_network.rs:11-16 | one `input_size x output_size` weight and one `1 x output_size` bias |
| NeuralNetworks.NeuralNetwork.AddHiddenLayer | src/neural_network.rs:18-27 | succeeds exactly when `after < weights.len()` and then gives `HiddenWeights`/`HiddenBiases`; otherwise nothing changes; the chain and the network's input and output widths are kept |
| NeuralNetworks.NeuralNetwork.Forward | src/neural_network.rs:37-47 | one activation per layer; activation `i` has the input's row count and layer `i`'s output width (`1 x out_i` for a row) |
| NeuralNetworks.NeuralNetwork.Backward | src/neural_network.rs:49-68 | layers are visited from the last down to 0; layer `i` uses `x` as input when `i == 0` and `activations[i-1]` otherwise; every product and update is shape-correct; no shape changes |
| Training.DirectionIndex | src/main.rs:69-76 | each direction's output index is below 4 |
| Training.DirectionIndexInjective | src/main.rs:69-76 | distinct directions write distinct output columns |
| Training.SelectDirection | src/main.rs:33-39 | if some index's value is strictly greater than the other three, its direction is chosen (0 Up, 1 Down, 2 Left, 3 Right); if there is no strict unique maximum, Up is chosen |
| Training.SelectDirectionExamples | src/main.rs:33-39 | all-equal outputs and a tie for the maximum give Up; a strict maximum at index 2 gives Left |
| Training.Reward | src/main.rs:43-47 | GameOver gives -10, Apple +20, Ok +1; the reward is negative exactly for GameOver |
| Training.ScoreAppend | src/main.rs:56 | recording one more step adds its score change to the episode score |
| Training.PlayStep | src/main.rs:28-54 | the recorded step is a `StepOf` the game: its observation `Observes` the game before the tick, its activations are `predict` of that observation, its direction is selected from the last activation row, the game moves from its old body and apple to its new ones by `TickRel` in that direction, and the score change is the reward of the tick's result; the state becomes GameOver exactly on GameOver |
| Training.PlayedAppend | src/main.rs:27-61 | appending one more step taken from the last recorded state extends a play |
| Training.PlayedRecords | src/main.rs:49-54 | every step of a play records the reward of its tick, an observation of `3 * width * height` entries, `predict`'s activations for it, and the direction selected from the last row |
| Training.RunEpisode | src/main.rs:27-61 | the steps are `Played` through ghost game states: state 0 is the game at entry, the last state is the game at exit, and step `k` is a `StepOf` the game from state `k` to state `k + 1`, so each recorded step is one real tick. The score is the sum of the recorded score changes. Only the last tick can be GameOver, and it is one exactly when the episode finished, in which case the game's state is GameOver |
| Training.BuildTarget | src/main.rs:67-77 | the target row equals the last activation except at the chosen direction's index, which holds `q_change` |
| Training.QChangeRanksRewards | src/main.rs:66 | within one episode, the `q_change` of a GameOver step is below that of an Ok step, which is below that of an Apple step |
| Training.QChangeMonotone | src/main.rs:66 | for the same step reward, a higher episode score gives a higher `q_change` |
| Training.UnchosenErrorIsZero | src/main.rs:67-79 | with that target, the output error `a - y` is zero at every unchosen index |
| Training.TwoMovesThenGameOver | src/main.rs:66 | two Ok ticks then GameOver score -8, and the q-values are -6.2, -6.2 and -17.2 with discount 0.9 |
| Training.Replay | src/main.rs:65-80 | steps are replayed once each, in order; call `k` gets step `k`'s input and activations and the target whose chosen entry is `score_change + 0.9 * score`, with the same episode total `score` for every step; network shapes are unchanged |
| Training.MainNetwork | src/main.rs:17-19 | `new(300, 4)` then `add_hidden_layer(10, 0)` gives layers `300x10`, `10x4` with biases `1x10`, `1x4` |
| Training.TrainEpisode | src/main.rs:23-80 | one iteration of the training loop: the steps are `Played` through ghost game states, starting from the body `Snake::new(10, 10)` builds and an in-grid apple off it. Only the last tick can be GameOver, and it is one exactly when the episode finished; otherwise `maxTicks` steps were played. Only the last step may carry -10, and it does when finished. The score is the sum of the rewards. Then `backward` is called once per step, in order, with that step's observation and activations and a target that overwrites only the chosen direction with its q-value; network shapes are unchanged |

## Left out

- Floating-point numerics: the leaky ReLU and its derivative, the values of products, error propagation, and the updates of weights and biases. `q_change` is computed over `real`, not `f64`. The learning rate is passed to `Backward` but not used there. Nothing is claimed about the loss decreasing.
- Weight initialisation from `Uniform(-1, 1)`: only shapes are modelled, so the fact that `add_hidden_layer` re-initialises layer `after` (its old values are discarded) is not visible.
- `gen_range` in `new_apple`: the random cells are a parameter sequence tried in order, each within the grid.
- Training.RunEpisode: bounded by `maxTicks` (`finished == false` when it runs out). The source loops until GameOver, and a snake that keeps circling never stops.
- The 200000-episode outer loop of `main`, both `println!` calls, and the unit test's debug print. `TrainEpisode` models one iteration of that loop.
- RingBuffers.RingBuffer.Extend: requires a full buffer. Before the buffer first fills, `first` and `last` would no longer follow push order after an `extend`. No caller extends there: `Snake::new` fills 3 of 3 first.
- RingBuffers.RingBuffer.Push: requires `size > 0`. With capacity 0 the source panics; no caller creates one.
- SnakeGame.Snake.Tick: requires the tick's draw sequence to cover every grid cell (a fair random source). This guarantees the apple retry loop returns. Ticks that eat no apple never use the draws, so for them the requirement is stronger than the source needs.
- SnakeGame.Snake.constructor: requires at least one draw off the starting body. Otherwise the source's retry loop never returns, or `gen_range(0..0)` panics because `width == 0`. It also requires `height >= 2` (as does `SnakeGame.InitialPath`): for heights 0 and 1 the source's `half_height - 1` underflows `usize` and panics.
- NeuralNetworks.NeuralNetwork.Backward: requires the target and activations to have exactly the shapes `forward` produces. ndarray's broadcasting would also accept a few other shapes, and the source never passes them.
- NeuralNetworks.AddRow and Elementwise: allow only the shapes the source uses (a `1 x cols` bias row, equal shapes), not ndarray's general broadcasting.
- Fixed-width integers: `usize` cells and sizes and the `i32` score are unbounded integers here. Overflow of `score` or of `width * height` is not modelled.
- The `preallocate_capacity` argument of `RingBuffer::new` only reserves memory. It is accepted and has no effect.
