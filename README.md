# Horse riding: a Dafny model of the game's core

This project models the core of `horse_riding`, a two-player pygame horse race, and of its HSV
colour-adjustment helper. Each module below follows one source file.

- `ColorSpace`, `Imaging`, `RegionGrowth`, `Recolor`: `color_utils.py`.
  Per-pixel RGB/HSV conversion, the seed mask selected by an RGB box, the mean HSV of the seeds,
  and the breadth-first region growth over similar, non-transparent neighbours.
  The recolouring rotates the hue and scales saturation and value. The alpha channel is copied back.
- `Animations`: `pygame_animation.py`.
  The frame-advance state machine of `Animation` and the frame list `load_animation` builds.
- `Horses`: `horse.py`.
  The gait machine: accelerate, decelerate, barrier jump, the queued animation after a one-shot
  transition, and the random idle variations.
- `Race`: `race_controller.py`. The first winner declared is kept, with its time, and the auto-restart test.
- `Tracks`: `track_plan.py`. `TrackPlan.generate`:
  - grass at random spacings, with heights drawn outside the horse's shadow band;
  - barriers at random spacings;
  - a flag at the total distance;
  - all sorted by distance.
- `Paths`: `path.py`. The bookkeeping of one lane (`Path`):
  - the distance travelled, and the view window around it;
  - one sprite per visible track event, and the sprite group of each kind;
  - the screen-x perspective mapping;
  - the winner check;
  - the progress bar;
  - the sky tiling.
- `Tuning`: `agjust_tolerance.py`. The parameter panel of the adjustment tool:
  - the defaults;
  - the arrow-key step and clamp;
  - the reset;
  - the hit test of the parameter rows.
- `Options`: the `Option` datatype (Python's `None`).

Modelling choices:
- Pure code becomes functions with lemmas. Objects that update fields become classes: `Animation`,
  `Horse`, `RaceController`, `Lane` and `Tuner`.
- Loops become methods with invariants: the flood fill over `array2` masks, the spacing loops, the
  rejection loop, the sprite loops, the sky tiling, the frame loading and the row hit test.
- The clock (`time.time()`) and every random draw are parameters. A stream of `random.uniform`
  draws is a function from the draw's position to its value.
- Floats are exact reals, with Python's truncating `int()`, banker's `round()` and floored `%`
  written out.

## Model

| member | source | states |
|---|---|---|
| ColorSpace.Clip | color_utils.py:75-76 | `np.clip` stays within its bounds and keeps a value already inside them |
| ColorSpace.FloorMod | color_utils.py:205 | Python's float `%` by a positive modulus lies in `[0, m)` |
| ColorSpace.FloorModInPeriod | color_utils.py:205 | for `a` in the k-th period, `a % m == a - k*m` |
| ColorSpace.Hue | color_utils.py:199-207 | the hue of a non-grey colour (tie order blue over green over red) lies in `[0, 360)` |
| ColorSpace.RgbToHsv | color_utils.py:191-214 | the HSV form is valid; value = max channel; grey gives hue 0 and saturation 0; otherwise saturation * max = max - min |
| ColorSpace.ClipRgb | color_utils.py:241 | the clipped colour is in the unit cube and a unit colour is unchanged |
| ColorSpace.HsvToRgb | color_utils.py:216-241 | the result is always a colour in the unit cube |
| ColorSpace.SectorBase | color_utils.py:226-239 | definition: the six half-open 60-degree masks, zero outside [0, 360); stated by SectorBaseChannels |
| ColorSpace.SectorBaseChannels | color_utils.py:226-239 | inside [0, 360) the sector places the chroma, the intermediate value and 0 on the channels, each once; outside it the triple is zero |
| ColorSpace.Unclipped | color_utils.py:218-240 | definition: `c`, `x = c * (1 - abs((h / 60) % 2 - 1))` and the sector, plus `m`; stated by UnclippedRange |
| ColorSpace.UnclippedRange | color_utils.py:218-240 | for a hue in [0, 360) and a non-negative chroma the smallest channel is `m` and the largest `c + m` |
| ColorSpace.HsvRoundTrip | color_utils.py:191-241 | converting any unit RGB colour to HSV and back returns it exactly |
| ColorSpace.RoundTripGrey | color_utils.py:209-212 | the round trip holds for greys (hue 0, saturation 0) |
| ColorSpace.RoundTripBlue | color_utils.py:207 | the sector arithmetic rebuilds a colour whose max channel is blue |
| ColorSpace.RoundTripGreen | color_utils.py:206 | the same when green is the unique max |
| ColorSpace.RoundTripRed | color_utils.py:205 | the same when red is the unique max, including the wrap below 0 |
| ColorSpace.SectorRedHigh | color_utils.py:226-233 | the hue sector [0, 60) yields (c + m, x + m, m) |
| ColorSpace.SectorBlueTop | color_utils.py:237 | hue 300 falls in the magenta sector and yields (c + m, m, c + m) |
| ColorSpace.HsvSimilarSymmetric | color_utils.py:164-176 | the similarity test is symmetric |
| ColorSpace.HueDistance | color_utils.py:169-170 | the short-way distance is at most the plain difference, and in [0, 180] for hues in [0, 360) |
| ColorSpace.HsvSimilar | color_utils.py:164-176 | definition of `hsv_similarity`; stated by HsvSimilarSymmetric and HsvSimilarIff |
| ColorSpace.HueDistanceAtMost180 | color_utils.py:169-170 | the cyclic hue distance is in [0, 180], so tolerance 180 accepts every hue |
| ColorSpace.HsvSimilarIff | color_utils.py:164-176 | definition unfolded: similarity holds exactly when the three inclusive per-component bounds hold, hue taken either way round |
| ColorSpace.CyclicToleranceExample | color_utils.py:169-170 | example: hues 5 and 355 are similar with tolerance 15 and not with tolerance 5 |
| Imaging.ToUnit | color_utils.py:38 | `/ 255` maps every pixel into the unit cube |
| Imaging.ByteRoundTrip | color_utils.py:83 | `(b / 255 * 255).astype(uint8)` gives back b |
| Imaging.PixelRoundTrip | color_utils.py:67-83 | a pixel converted to floats and back is unchanged |
| Imaging.PixelHsv | color_utils.py:127-129 | the HSV form of every pixel is valid |
| Imaging.StartMask | color_utils.py:178-189 | the seed mask is true exactly at pixels inside the RGB box (inclusive) that have no alpha channel or alpha > 0 |
| Imaging.RowCells | color_utils.py:122 | the cells listed are exactly the true cells of the row, left to right |
| Imaging.MaskCells | color_utils.py:122-124 | the cells listed are exactly the true cells of the mask, each once |
| Imaging.AnyIffCells | color_utils.py:32 | `np.any(mask)` holds exactly when the seed list is non-empty |
| Imaging.SumBounds | color_utils.py:41-43 | a sum of n values in [lo, hi] lies in [n*lo, n*hi] |
| Imaging.SumBelow | color_utils.py:41 | a non-empty sum of values below hi is below n*hi |
| Imaging.MeanBounds | color_utils.py:41-43 | `np.mean` of values in [lo, hi] lies in [lo, hi], strictly below hi when every value is |
| Imaging.CellHsvs | color_utils.py:37-39 | the i-th entry is the HSV form of the i-th seed pixel |
| Imaging.MeanHsv | color_utils.py:41-43 | definition: the three per-component `np.mean` values; stated by MeanHsvValid and HueMeanIsArithmetic |
| Imaging.MeanHsvValid | color_utils.py:41-43 | the mean HSV of valid colours is a valid HSV colour |
| Imaging.HueMeanIsArithmetic | color_utils.py:41 | example: the hue mean is arithmetic, so hues 350 and 10 average to 180 |
| RegionGrowth.Directions | color_utils.py:114-118 | 4 offsets for connectivity 4, otherwise 8, none of them (0, 0) |
| RegionGrowth.AdjacentIff | color_utils.py:114-118 | 4-connectivity is Manhattan distance 1; any other setting is Chebyshev distance 1 |
| RegionGrowth.AdjacentSymmetric | color_utils.py:114-118 | adjacency is symmetric for both neighbour lists |
| RegionGrowth.HsvImage | color_utils.py:126-129 | `hsv_array` holds the valid HSV form of every pixel |
| RegionGrowth.AdmissibleIff | color_utils.py:142-153 | a reached pixel is accepted iff it is not transparent and is similar to the target |
| RegionGrowth.SeedInRegion | color_utils.py:109-111 | every seed is in the region |
| RegionGrowth.ExtendRegion | color_utils.py:136-157 | a joinable neighbour of a region cell is in the region |
| RegionGrowth.RegionIsJoinable | color_utils.py:140-159 | every region cell is a seed or an admissible (opaque, similar) pixel |
| RegionGrowth.PathInsideClosed | color_utils.py:133-159 | a set closed under seeding and joinable neighbours holds the end of every growth path |
| RegionGrowth.RegionInsideClosed | color_utils.py:133-159 | the region lies inside every such closed set |
| RegionGrowth.InitialInv | color_utils.py:109-124 | before the loop, visited = region = the seeds, and the invariant holds |
| RegionGrowth.AcceptKeepsInv | color_utils.py:151-157 | accepting a neighbour keeps the loop invariant |
| RegionGrowth.RejectKeepsInv | color_utils.py:142-144 | marking a transparent or dissimilar neighbour visited keeps the invariant |
| RegionGrowth.FinalClosed | color_utils.py:133 | with an empty queue the region set is closed |
| RegionGrowth.GrowRegion | color_utils.py:98-162 | the returned mask holds exactly the cells reachable from a seed through joinable cells |
| RegionGrowth.MaskOf | color_utils.py:162 | the grid has the array's contents |
| RegionGrowth.Flood | color_utils.py:103-162 | the breadth-first loop ends with the region mask equal to reachability |
| RegionGrowth.FinalRegion | color_utils.py:133-162 | after the loop, mask cell true iff in the region |
| RegionGrowth.ExpandCell | color_utils.py:133-159 | one queue pop and its directions keep the invariant and make progress |
| RegionGrowth.ScanStep | color_utils.py:136-140 | one direction step keeps the scan state |
| RegionGrowth.Visit | color_utils.py:140-159 | an unvisited neighbour becomes visited; it joins region and queue or neither |
| Recolor.AdjustHsv | color_utils.py:74-76 | the adjusted colour is valid HSV; scaled saturation and value are kept when already in [0, 1] |
| Recolor.HueShiftPeriodic | color_utils.py:74 | shifting the hue by 360 more degrees changes nothing |
| Recolor.AdjustIdentity | color_utils.py:5-7 | the default arguments (shift 0, scales 1) leave a valid HSV colour unchanged |
| Recolor.WriteBack | color_utils.py:83 | definition: `(x * 255).astype(np.uint8)` per channel; stated by Imaging.PixelRoundTrip |
| Recolor.RecolorPixel | color_utils.py:67-83 | definition: the per-pixel pipeline; stated by RecolorIdentity, ZeroSaturationGrey and DesaturateIsGrey |
| Recolor.RecolorIdentity | color_utils.py:67-83 | with the default arguments every region pixel keeps its colour |
| Recolor.ZeroSaturationGrey | color_utils.py:220-222 | zero saturation converts to the grey of the value, whatever the hue |
| Recolor.DesaturateIsGrey | color_utils.py:75 | a saturation scale of 0 turns every region pixel grey |
| Recolor.RedToGreen | color_utils.py:67-83 | example: pure red with a 120 degree shift becomes pure green |
| Recolor.PipelineGrowth | color_utils.py:30-54 | the growth is built from the seed mask, the image's HSV grid and a valid mean target |
| Recolor.TransparentNeverInRegion | color_utils.py:142-144 | no fully transparent pixel is ever in the recoloured region |
| Recolor.SeedsInRegion | color_utils.py:110-111 | every seed is in the recoloured region |
| Recolor.Recolored | color_utils.py:82-94 | region pixels get the recoloured value, others keep theirs, and alpha is copied back |
| Recolor.AdjustHueSaturation | color_utils.py:5-96 | no seeds gives the surface unchanged; otherwise exactly the grown region is recoloured and alpha is kept |
| Recolor.SeedsAsWritten | color_utils.py:24-30 | as written, the seed search succeeds only on a surface with alpha |
| Recolor.NoAlphaSurface | color_utils.py:24-30 | on a surface without alpha the code as written fails, while the corrected mask is the colour box alone |
| Animations.Advance | pygame_animation.py:29-45 | an update never starts playback, and it sets `finished` only for a non-looping animation that stops on its last frame |
| Animations.AdvanceWhenStopped | pygame_animation.py:29-31 | `update` does nothing while not playing |
| Animations.AdvanceAtMostOneFrame | pygame_animation.py:33-37 | at most one frame forward or a wrap to 0; the time restarts at 0 on a move; otherwise dt is added |
| Animations.LoopingNeverFinishes | pygame_animation.py:39-41 | a looping animation wraps to frame 0 and `update` never sets finished |
| Animations.OneShotStopsOnLast | pygame_animation.py:42-45 | a one-shot run past the end stays on the last frame, finished, not playing |
| Animations.AdvanceInRange | pygame_animation.py:29-45 | every update keeps the frame index in range |
| Animations.Animation.constructor | pygame_animation.py:7-15 | a new animation is on frame 0, neither playing nor finished, with duration 1/fps |
| Animations.Animation.Play | pygame_animation.py:17-19 | playing and not finished; frame and time kept |
| Animations.Animation.Stop | pygame_animation.py:21-22 | only the playing flag is cleared |
| Animations.Animation.Reset | pygame_animation.py:24-27 | frame 0, time 0, not finished, playing flag kept |
| Animations.Animation.Update | pygame_animation.py:29-45 | the new playback state is `Advance` of the old one |
| Animations.Animation.CurrentFrame | pygame_animation.py:47-50 | nothing exactly for an empty frame list, otherwise the current frame |
| Animations.Loaded | pygame_animation.py:63-70 | at most one frame per file, every frame a loaded image, and a non-empty list when any file loaded |
| Animations.LoadedAppend | pygame_animation.py:63-70 | the frames of two runs of files are the frames of the first followed by those of the second, so file order is kept |
| Animations.LoadedOne | pygame_animation.py:65-70 | one file gives its image when it loaded and nothing when it failed |
| Animations.LoadedKeepsEvery | pygame_animation.py:63-70 | every image that loaded is among the frames |
| Animations.LoadAnimation | pygame_animation.py:55-79 | the loaded frames, or the single placeholder when none loaded, so there is always one frame |
| Horses.SetTarget | horse.py:56-57 | `set_animation` switches only to a known animation other than the current one |
| Horses.Accelerated | horse.py:95-102 | definition of `accelerate`; stated by StartThenWalk, PaceSteps, AccelerateThenDecelerate and UnlistedUnchanged |
| Horses.Decelerated | horse.py:104-111 | definition of `decelerate`; stated by StopThenIdle, PaceSteps and AccelerateThenDecelerate |
| Horses.Barriered | horse.py:113-116 | definition of `barrier`; stated by BarrierReturns |
| Horses.Switched | horse.py:45-51 | definition of the queue switch in `update`; stated by UpdatedCases and GaitsStayKnown |
| Horses.IdleChecked | horse.py:75-93 | definition of `_check_idle_random_change` on the gait; stated by UpdatedCases |
| Horses.Updated | horse.py:39-54 | definition of one `update` on the gait; stated by UpdatedCases |
| Horses.Switch | horse.py:56-64 | definition of `set_animation` on one animation's playback; stated by SwitchEffect |
| Horses.StartThenWalk | horse.py:95-98 | from a resting animation: start transition with walk queued, then walk with the queue empty |
| Horses.StopThenIdle | horse.py:104-107 | from walk: stop transition with idle queued, then idle with the queue empty |
| Horses.PaceSteps | horse.py:99-111 | accelerating raises the pace one step up to gallop, decelerating lowers it down to walk; the queue is kept |
| Horses.AccelerateThenDecelerate | horse.py:95-111 | from walk or trot, accelerate then decelerate restores the gait |
| Horses.UnlistedUnchanged | horse.py:95-111 | transitions and the jump are left alone by accelerate and decelerate |
| Horses.BarrierReturns | horse.py:113-116 | the jump acts only in a running gait and returns to that gait when finished |
| Horses.GaitsStayKnown | horse.py:13-23 | every gait change keeps current and queued names among the loaded animations |
| Horses.SwitchEffect | horse.py:58-64 | a switch stops the old animation and restarts the new one at frame 0; others are untouched |
| Horses.UpdatedCases | horse.py:39-54 | a finished transition hands over to the queued gait; a due idle timer starts the drawn variation; a running gait stays |
| Horses.Horse.constructor | horse.py:9-37 | the horse starts in idle, playing, nothing queued, idle timer started at now |
| Horses.Horse.SetAnimation | horse.py:56-69 | the target animation is switched as `Switch` says; the idle timer restarts only on a switch to idle |
| Horses.Horse.Accelerate | horse.py:95-102 | the gait becomes `Accelerated` of the old one; the animations switch accordingly |
| Horses.Horse.Decelerate | horse.py:104-111 | the gait becomes `Decelerated` of the old one |
| Horses.Horse.Barrier | horse.py:113-116 | the gait becomes `Barriered` of the old one |
| Horses.Horse.AdvanceCurrent | horse.py:41-42 | only the current animation advances, and the current frame is shown |
| Horses.Horse.SwitchWhenFinished | horse.py:45-51 | the gait becomes `Switched` on the finished flag of the current animation |
| Horses.Horse.CheckIdleRandomChange | horse.py:75-93 | the current animation becomes `IdleChecked`; the timer restarts whenever it changes |
| Horses.Horse.Update | horse.py:39-54 | the gait becomes `Updated` of the old gait with the advance's finished flag |
| Race.RestartDue | race_controller.py:17-18 | definition of `should_auto_restart`; stated by RestartDueIff and RestartDueMonotone |
| Race.RestartDueIff | race_controller.py:17-18 | no restart without a win; otherwise due exactly when `seconds` have passed |
| Race.RestartDueMonotone | race_controller.py:17-18 | once due, a restart stays due as the clock moves on |
| Race.RaceController.constructor | race_controller.py:5-7 | no winner and no time |
| Race.RaceController.GetWinner | race_controller.py:9-10 | the recorded winner |
| Race.RaceController.DeclareWinner | race_controller.py:12-15 | the first declaration is recorded with its time; later ones change nothing |
| Race.RaceController.ShouldAutoRestart | race_controller.py:17-18 | a win is recorded and at least `seconds` have passed |
| Race.FirstDeclarationWins | race_controller.py:12-15 | of two declarations the first path and its time are kept |
| Tracks.TravelGrows | track_plan.py:34-36 | with steps of at least lo, distance grows by at least lo per step |
| Tracks.SteppedIncreasing | track_plan.py:34-42 | events placed by positive steps have strictly increasing distances, at least lo apart |
| Tracks.DrawHeight | track_plan.py:39-41 | the height returned is the first draw outside the shadow band; all earlier draws were inside it |
| Tracks.GrassEvents | track_plan.py:33-42 | grass at cumulative spacings strictly before the total, the next step reaching it; every height is a draw of the stream, outside the shadow band and inside the grass band |
| Tracks.BarrierEvents | track_plan.py:44-50 | barriers at cumulative spacings strictly before the total, without a height |
| Tracks.Insert | track_plan.py:55 | inserting adds exactly the one element |
| Tracks.InsertSorted | track_plan.py:55 | inserting into a sorted list keeps it sorted |
| Tracks.SortByDistance | track_plan.py:54-55 | the result is sorted by distance and a permutation of the input |
| Tracks.FlagLast | track_plan.py:52-55 | after sorting, the flag is last and every other event is a grass or barrier event |
| Tracks.Generate | track_plan.py:24-56 | the plan is a sorted arrangement of exactly the grass events, the barrier events and the flag at the total; the grass sits at the cumulative grass spacings strictly before the total, with heights drawn from the stream outside the shadow band; the barriers sit at the cumulative barrier spacings strictly before the total; the flag comes last |
| Paths.Trunc | path.py:51-53 | `int()` truncates toward zero |
| Paths.Round | path.py:300 | `round()` is within 0.5, and halves go to the even integer |
| Paths.GeneratedDisplayable | path.py:264-265 | every generated plan gives each grass event a height |
| Paths.IdsAdd | path.py:268-281 | a new sprite joins only its own kind's group |
| Paths.IdsRemove | path.py:303-311 | a removed sprite leaves its kind's group |
| Paths.IdsMove | path.py:300-301 | moving a sprite keeps every group |
| Paths.InWindow | path.py:242-245 | the visible events are exactly the plan events inside [left, right] |
| Paths.RaisesAt | path.py:242-245 | definition: the first loop as written, stopping at the first visible event; stated by UnhashableEventRaises |
| Paths.UnhashableEventRaises | path.py:242-245 | as written, the first loop raises exactly when the window holds an event, and at the first such event |
| Paths.FirstFrameRaises | path.py:242-245 | as written, a plan whose first event lies within 2.5 view ranges of the start fails on the first frame |
| Paths.ViewBounds | path.py:207-215 | the window is 5 view ranges wide and centred on the distance travelled |
| Paths.OnePixelPerDistance | path.py:33-34 | the view range is the screen width, so one pixel per unit of distance |
| Paths.ProgressBar | path.py:146-168 | no bar for a non-positive length; otherwise width is at least max(10, screen width), fill lies in [0, width], 0 at the start and full at the end |
| Paths.Ratio | path.py:164-165 | the clamped ratio is in [0, 1], 0 at the start, 1 at the end, exact in between |
| Paths.Filled | path.py:166 | the filled width is in [0, width] |
| Paths.RatioMonotone | path.py:164-165 | the ratio grows with the distance travelled |
| Paths.FilledMonotone | path.py:166 | the filled width grows with the ratio |
| Paths.Clamp01 | path.py:165 | `max(0, min(1, r))` is in [0, 1] and keeps values inside |
| Paths.ProgressMonotone | path.py:146-168 | the filled part of the bar never shrinks as the horse gets further |
| Paths.Lane.constructor | path.py:12-34 | nothing travelled, no sprites, no win, view range = screen width, one pixel per unit |
| Paths.Lane.Move | path.py:40-49 | facing right adds speed*dt to the distance travelled, otherwise subtracts it |
| Paths.Lane.GroundY | path.py:51-52 | definition: `top_y + int(height * SKY_PROPORTION)` |
| Paths.Lane.HorseY | path.py:53 | definition: `top_y + int(height * HORSE_SHADOW_MAX_Y_FRAC)` |
| Paths.Lane.ScreenX | path.py:217-234 | definition of `_distance_to_screen_x`; stated by ScreenXAtHorse |
| Paths.Lane.ScreenXAtHorse | path.py:217-234 | the horse's distance maps to the horse's column; on the horse's line one unit is one pixel |
| Paths.Lane.CreateSprite | path.py:262-281 | a new numbered sprite at the event's line and column joins its kind's group |
| Paths.Lane.MoveSprite | path.py:283-301 | the sprite keeps its number and moves to the rounded column and the event's line |
| Paths.Lane.RemoveSprite | path.py:303-311 | the sprite leaves the dictionary and its group |
| Paths.Lane.ShowWindow | path.py:242-251 | every event in the window gets a sprite, new or moved |
| Paths.Lane.StaleEvents | path.py:253-257 | lists exactly the sprites outside the window, each once |
| Paths.Lane.RemoveAll | path.py:259-260 | exactly the stale sprites are removed; the others are unchanged |
| Paths.Lane.UpdateVisibleSprites | path.py:236-260 | afterwards there is a sprite for exactly the events in the view window, each placed for its event |
| Paths.Lane.CheckWinner | path.py:68-74 | the lane wins iff neither it nor another lane has won and the horse passed one of its flags |
| Paths.Lane.Update | path.py:39-77 | the distance moves, the sprites match the new window, and the winner rule holds; without a win the race's winner and time are unchanged |
| Paths.FullTilesWidth | path.py:127-140 | n full tiles side by side span n tile widths |
| Paths.CoversWidth | path.py:127-140 | covering tiles add up to exactly the screen width |
| Paths.TileSky | path.py:127-140 | tiles alternate with the mirrored copy and cover the screen without gaps; the last is cut |
| Paths.DrawSky | path.py:116-144 | no picture or zero width gives plain sky; a wide picture is cropped; a narrow one is tiled to cover |
| Paths.ZeroWidthSkyNeverEnds | path.py:129-140 | as written, a tile of width 0 never advances the column, so the loop never exits |
| Tuning.OrderListsEachOnce | agjust_tolerance.py:34-41 | the row order lists each of the six parameters exactly once |
| Tuning.KeysComplete | agjust_tolerance.py:34-41 | every parameter is a key of the defaults |
| Tuning.Defaults | agjust_tolerance.py:34-43 | the defaults map gives each parameter its default value (15, 0.24, 0.26, 30, 1, 1) |
| Tuning.Step | agjust_tolerance.py:160-163 | 1 or 5 for the angle parameters, 0.01 or 0.05 otherwise, the larger with Shift |
| Tuning.Clamp | agjust_tolerance.py:168-173 | the clamp lies in [0, hi] and keeps values inside |
| Tuning.Upper | agjust_tolerance.py:168-173 | definition: the upper bound 180, 1 or 5 per parameter; stated by Adjusted and DefaultsInRange |
| Tuning.Adjusted | agjust_tolerance.py:165-173 | a stepped value stays inside its parameter's range |
| Tuning.DefaultsInRange | agjust_tolerance.py:34-41 | every default lies in its parameter's allowed range |
| Tuning.RowAt | agjust_tolerance.py:143-153 | the row found by arithmetic is a valid row number |
| Tuning.RowAtIff | agjust_tolerance.py:148-150 | a point is in row i exactly when the arithmetic finds row i |
| Tuning.RowsDisjoint | agjust_tolerance.py:148-150 | no point lies in two rows |
| Tuning.Tuner.constructor | agjust_tolerance.py:34-43 | defaults, nothing selected |
| Tuning.Tuner.AdjustParam | agjust_tolerance.py:156-175 | no change without a selection; otherwise only the selected parameter moves by a clamped step |
| Tuning.Tuner.ResetParams | agjust_tolerance.py:178-181 | every parameter returns to its default |
| Tuning.Tuner.HandleParamClick | agjust_tolerance.py:143-153 | a hit iff the point is in a row, which becomes selected; a miss keeps the selection |
| Tuning.StepBackRestores | agjust_tolerance.py:165-173 | away from the top, a step up then a step down restores the value |
| Tuning.StepAtTop | agjust_tolerance.py:168-173 | a further step past either end of the range changes nothing |

## Left out

- Drawing, fonts, blitting, image files, the pygame event loop and `main.py` are I/O. They are
  not modelled beyond the decisions they feed: which sky drawing, which tiles, what the progress
  bar shows, which parameter rows.
- The numpy arithmetic runs in float32 and is rounded at each step. The model uses exact reals,
  so its round-trip and identity results hold for exact arithmetic only.
- Recolor.Recolored: "pixels outside the region keep their value" is proved over exact reals. In
  float32, `(x / 255 * 255)` truncated to `uint8` may fall one unit short, so there it is only the
  intended behaviour.
- `surfarray` indexes a surface `[x][y]`. The model uses one `grid[y][x]` order throughout, which
  changes nothing about which pixels are seeds or region members.
- The `SRCALPHA` surface built for the result is modelled as the input's alpha grid carried over.
  The alpha a surface without alpha would get is not represented.
- The else branch at color_utils.py:84-86 cannot be reached: the seeds are in the region, so the
  region is non-empty whenever there are seeds.
- The clock and the random draws are parameters: `now`, the idle interval, the idle2/idle3 choice,
  the spacing and height streams and the sky picture chosen.
- Tracks.GrassEvents: requires a positive minimum spacing and every draw in [min, max]
  (what `random.uniform` gives). With a non-positive minimum the source loop may never end.
- Tracks.BarrierEvents: the same spacing requirement.
- Tracks.DrawHeight: requires that some later draw always falls outside the shadow band. The
  source loops forever on a stream that never leaves it.
- Tracks.Generate: `_load_sky_background` (listing files, `random.choice`) is left out. The
  background is a parameter.
- Tracks.SortByDistance: Python's Timsort is modelled by its result, a stable insertion sort by
  distance, not by its algorithm.
- The constants `GRASS_MIN_Y_FRAC`, `GRASS_MAX_Y_FRAC`, `HORSE_SHADOW_MIN_Y_FRAC`,
  `HORSE_SHADOW_MAX_Y_FRAC`, `HORSE_OFFSET_X` and `SKY_PROPORTION` are not in `constants.py`.
  They are parameters (`Tracks.Bands`, `Paths.Layout`).
- Paths.Lane.Update:
  - The horse is not part of the lane. Its speed (`get_speed`), its facing (`facing_right`) and
    the flags it has passed (`passed_flag`) are parameters, since `horse.py` defines none of them.
    `horse.update` is not called from the lane.
  - The barrier collision check and `make_fall` (path.py:59-66) are left out. `collide_barrier`,
    `is_near_ground`, `passed_flag` and `make_fall` are not part of this model.
- Paths.Lane.Update: requires the ground line and the horse line to differ. The source divides
  by their difference and would raise `ZeroDivisionError`.
- `handle_event` (path.py:79-93) only maps keys to `accelerate`, `decelerate` and `barrier`, which
  are modelled in `Horses`.
- The flag sprite's own animation update (path.py:288-289) and the sprite classes
  (`grass.py`, `barrier.py`, `flag.py`) are left out.
- Paths.Lane.CreateSprite: a new sprite keeps the exact column. What the sprite constructors do
  with a fractional position is not part of this model.
- Sprites are identified by numbers, and groups are sets of numbers. Pygame's group membership
  by object identity is not modelled.
- `_ensure_sky_scaled` (path.py:181-205) is represented by its result, the scaled tile width.
  Image scaling itself is I/O.
- Animations.Animation.constructor: requires `fps != 0`. The source would raise
  `ZeroDivisionError`.
- Horses: any name other than the nine loaded animations is `Other(text)`.
- Horses.Horse.Update: the stated gait follows from the three steps. The frame shown is left to
  `AdvanceCurrent`.
- Tuning.Tuner.AdjustParam: the arrow-key direction is a real number; the event loop passes +1
  or -1. The binary rounding of 0.01 steps is not modelled.
- Tuning: `update_modified_image`, which re-runs `adjust_hue_saturation` with the current
  parameters (modelled as `Recolor.AdjustHueSaturation`), and the debug drawing are left out.

## Findings

| source | as written | input that shows it | evidently intended | confidence | as-written member | corrected member |
|---|---|---|---|---|---|---|
| color_utils.py:24-30 | `alpha_array` is assigned only when the surface has alpha, but line 30 reads it in every case | a 3-byte-per-pixel surface: `NameError` before any seed is found | a surface without alpha is fully opaque and its seeds are the colour box alone | not executed | Recolor.SeedsAsWritten | Imaging.StartMask |
| path.py:127-140 | the tiling loop advances `x` by the tile width | a sky picture scaled to width 0, for example a very tall picture on a short lane: `x` stays 0 and the loop never ends | a zero-width picture is drawn as plain sky | not executed | Paths.ZeroWidthSkyNeverEnds | Paths.DrawSky |
| path.py:242-248 | `TrackEvent` is a `@dataclass` with the generated `__eq__` and no `frozen`, so its `__hash__` is `None`, yet `visible_events.add(event)` and the lookup in `_sprites_by_event` hash it | any plan with an event inside the view window, for example the first grass tuft within 2.5 screen widths of the start: `TypeError: unhashable type` on the first frame | events are hashable values (a frozen dataclass), and sprites are keyed by the event value | not executed | Paths.UnhashableEventRaises | Paths.Lane.ShowWindow |
