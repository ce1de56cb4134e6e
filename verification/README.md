# Advent of Code 2019 puzzle solvers, modelled in Dafny

This project models the core of the Python solutions to days 1–4, 6, 8 and
11–17 of Advent of Code 2019. Each day gets one Dafny module. The names follow
the Python files.

- `Common` (`common.dfy`): Python behaviour the solvers rely on, namely list
  subscripts and slices with negative indices, `str(int)`, `int(str)`,
  `strip`, and exceptions as a `Result`.
- `Fuel` (`day1.py`): fuel per module and per spacecraft.
- `Intcode` (`day2.py`): the ADD/MUL/HALT interpreter, `operate` and the
  `find_result` search.
- `Wires` (`day3.py`): reading each move from its text, wire paths, their
  intersections and the nearest intersection to the central port.
- `Passwords` (`day4.py`): the password count over a range.
- `Orbits` (`day6.py`): the parent links of the orbit map and the orbit
  checksum. A line `X)X` that names X for the first time links X to a separate
  root object, because both `get` defaults are built before either is stored.
  A real cycle of parents ends in a `RecursionError`.
- `SpaceImage` (`day8.py`): cutting the image into layers, the fewest-zeroes
  layer and its checksum, and decoding the layers.
- `HullRobot` (`day11.py`): the robot's turn-and-move step, and the render of
  the painted panels as text.
- `NBody` (`day12.py`): gravity and velocity, energy, the time steps (which
  conserve momentum), the axis states, the lcm of the periods and the period
  search.
- `Arcade` (`day13.py`): `update_screen`, `count_tiles` and the joystick rule
  of the game loop.
- `Factory` (`day14.py`): the nanofactory's stock, recursive production and
  `parse_reactions`.
- `Droid` (`day15.py`): directions, their opposites and the `Location` value
  type.
- `Fft` (`day16.py`): `fft`, with the pattern generator reduced to an index
  formula and the pattern optional as in the source, and `fft2`, with its
  backward running sum.
- `Scaffold` (`day17.py`): the layout loop of `build_scaffold_view` and
  `find_intersections`. The latter visits the dict in insertion order and
  marks the cells it counts in place.

Python exceptions become `Failure(e)` values of `Result`, so the error paths
are part of each contract. Python's `int` is unbounded like Dafny's. For the
positive divisors used here, Python's `//` and `%` agree with Dafny's `/`
and `%`. Dicts whose iteration order matters are modelled as an insertion-order
key sequence plus a map. This applies to the panels of day 11 and the view of
day 17.

## Model

| member | source | states |
|---|---|---|
| Common.PyIndex | day11.py:39 | a list subscript succeeds exactly for -n <= i < n, and a negative one counts from the end |
| Common.PySlice | day16.py:39 | an in-range slice is the plain slice; one starting at or past the end, or ending at or before -n, is empty; `[:n]` or wider is the whole list; no slice is longer than the list |
| Common.Str | day4.py:29 | `str(n)` has at least one character, starts with '-' exactly for negative n, and is decimal digits after that |
| Common.StrRoundTrip | day4.py:29 | `int(str(n)) == n` |
| Common.RStrip | day8.py:56 | `rstrip` keeps a prefix that does not end in whitespace, and only whitespace is dropped |
| Common.LStrip | day17.py:32 | `lstrip` keeps a suffix that does not start with whitespace, and only whitespace is dropped |
| Common.PyInt | day3.py:57 | `int` fails on text that is blank after stripping |
| Common.PyIntDigits | day13.py:84-86 | plain decimal digits read as their value |
| Common.PyIntNewline | day3.py:57 | the newline that `split(",")` leaves on a line's last move does not change what `int` reads |
| Fuel.ModuleFuel | day1.py:10-12 | the fuel f of a module satisfies 3(f+2) <= mass < 3(f+2)+3, i.e. it is floor(mass/3) - 2 |
| Fuel.ModuleFuelMonotonic | day1.py:10-12 | a heavier module never needs less fuel |
| Fuel.Fuels | day1.py:26 | the per-module fuels keep the module order, one per module |
| Fuel.CraftFuel | day1.py:25-26 | the craft fuel f of n modules satisfies 3(f+2n) <= total mass <= 3(f+2n)+2n, i.e. each module loses less than 3 to the rounding |
| Fuel.FuelMassBounds | day1.py:10-26 | the same bound holds for the sum of the per-module fuels of any module list |
| Fuel.AddModule | day1.py:22-23 | the new module is appended after the existing ones, which are unchanged |
| Fuel.EmptyCraftFuel | day1.py:25-26 | a craft with no modules needs no fuel |
| Fuel.AddModuleFuel | day1.py:22-26 | adding a module raises the craft's fuel by exactly that module's fuel |
| Fuel.CraftFuelSplit | day1.py:25-26 | the craft fuel is additive over any split of the module list |
| Fuel.SampleModules | day1.py:10-12 | masses 12, 14, 1969 and 100756 need 2, 2, 654 and 33583; the craft of 12 and 14 needs 4 |
| Intcode.Load | day2.py:19-20 | `arr[i]` succeeds exactly for -len <= i < len, reading from the end for a negative i |
| Intcode.OpBin | day2.py:14-24 | a binary instruction keeps the tape length, and any failure is an IndexError |
| Intcode.OpBinFrame | day2.py:14-24 | with in-range address words, the destination gets op(old operand 1, old operand 2) and no other cell changes |
| Intcode.OpBinOutOfRange | day2.py:15-23 | an address word pointing off the tape raises IndexError |
| Intcode.Run | day2.py:34-45 | HALT at pc stops on the current tape; an unknown opcode at pc stops with None; a pc past the end of the tape is an IndexError |
| Intcode.RunStops | day2.py:34-45 | a run that halts or meets an unknown opcode does so on a tape of the original length, at a multiple of 4 past the start, at a cell holding HALT or an opcode other than 1, 2, 99 |
| Intcode.RunAdvances | day2.py:42-43 | after a successful ADD or MUL the run continues at pc + 4 on the updated tape |
| Intcode.Intcode | day2.py:29-48 | the result is cell 0 of the halted tape, None for a bad opcode, or IndexError, matching how the run ends |
| Intcode.SamplePrograms | day2.py:29-48 | the four sample programs halt with tapes 2,0,0,0,99 / 2,3,0,6,99 / 2,4,4,5,99,9801 / 30,1,1,4,2,5,6,0,99 |
| Intcode.BadOpcodeKeepsEarlierEffects | day2.py:37-41 | an unknown opcode returns None after earlier instructions have already changed the tape |
| Intcode.Patch | day2.py:51-53 | the copy has noun at 1 and verb at 2, and every other cell is the original's |
| Intcode.Operate | day2.py:50-56 | a program shorter than 3 cells raises IndexError; otherwise the result is intcode of the patched copy |
| Intcode.FindResult | day2.py:58-65 | a returned pair hits the target and every pair before it in lexicographic order runs and misses; None means every pair of 0..99 misses; an error is that of the first pair that fails |
| Wires.ParseMove | day3.py:56-57 | an empty move raises IndexError; otherwise a magnitude `int` rejects raises ValueError; otherwise the move is the first character and the integer after it |
| Wires.MoveRoundTrip | day3.py:56-57 | a letter followed by `str(n)`, with or without the line's newline, reads back as that move |
| Wires.Collect | day3.py:54-57 | results taken in order succeed iff all do, giving all the values; otherwise the error is that of a failing one with none failing before it |
| Wires.ParseWire | day3.py:54-57 | a wire reads iff all its moves read, keeping their order; otherwise the error is that of its first bad move |
| Wires.ParseWires | day3.py:47-57 | all wires read iff each does; otherwise the error is that of the first bad wire |
| Wires.Heading | day3.py:56-85 | exactly the letters R, L, U, D (either case) move: R one column right, L one column left, U one row up, D one row down |
| Wires.Segment | day3.py:60-84 | a move passes over magnitude+1 points, i steps from the cursor, and none for a negative magnitude |
| Wires.SegmentRight | day3.py:58-64 | a right move covers exactly the horizontal run from the cursor to magnitude columns right |
| Wires.SegmentDown | day3.py:79-85 | a down move covers exactly the vertical run from the cursor to magnitude rows below |
| Wires.SegmentIsConnected | day3.py:60-84 | consecutive points of a move are grid neighbours |
| Wires.Manhattan | day3.py:98-99 | the distance of two points is zero exactly when they are the same point (ManhattanMetric adds symmetry and the triangle inequality) |
| Wires.PathStartsAtCursor | day3.py:51-61 | a wire whose first move has a known direction and a magnitude of at least 0 starts at the cursor, which is the central port |
| Wires.ManhattanMetric | day3.py:98-99 | the distance is zero exactly on equal points, symmetric, and obeys the triangle inequality |
| Wires.Visit | day3.py:61-63 | recording a wire at a point adds it to that point's set only, and marks the point once two wires have been there |
| Wires.Tag | day3.py:47-54 | every point of a wire's path is tagged with the wire's number, in order |
| Wires.ReplayRecords | day3.py:45-86 | after any events each point has seen exactly the wires that reached it, and is an intersection iff more than one did |
| Wires.TaggedOwners | day3.py:47-54 | one wire's events reach p from that wire alone, exactly when p is on its path |
| Wires.OwnersAppend | day3.py:47-54 | the wires reaching p from two event lists are the union |
| Wires.EventsOwners | day3.py:47-86 | the events of all wires reach p from exactly the wires whose paths pass over p |
| Wires.TwoMembers | day3.py:62 | a set has more than one element exactly when it holds two different ones |
| Wires.WireIntersections | day3.py:88-90 | the central port is never an intersection |
| Wires.WireIntersectionsExact | day3.py:58-95 | for read moves, the intersections are exactly the points other than (0,0) that two different wires pass over |
| Wires.GetWireIntersections | day3.py:40-95 | the text succeeds iff every move of every wire reads; an error is IndexError or ValueError; the central port is never in the result |
| Wires.GetWireIntersectionsExact | day3.py:40-95 | for text that reads, the intersections are exactly the points other than (0,0) that two different wires' read paths pass over |
| Wires.TwoWiresAt | day3.py:62 | more than one wire passes over p iff two different wires do |
| Wires.OneWireNoIntersections | day3.py:40-95 | a single wire never intersects itself |
| Wires.ClosestIntersection | day3.py:24-38 | no intersections give (None, None); otherwise an intersection at minimal Manhattan distance and that distance |
| Wires.ClosestIntersectionDistance | day3.py:24-38 | the text fails iff reading some move fails, with the same error; otherwise the point and the distance are each None iff the wires do not cross, and else a nearest intersection and its distance |
| Passwords.TooShortRange | day4.py:29-40 | `str(n)` has fewer than six characters exactly for -10000 < n < 100000 |
| Passwords.FindPasswords | day4.py:17-54 | IndexError iff some candidate in the range is shorter than six characters; an empty range counts 0; the count is at most the range size |
| Passwords.FindPasswordsCounts | day4.py:28-51 | a successful count is the number of integers of the range with a double and never-decreasing digits |
| Passwords.SixDigitRangeSucceeds | day4.py:28-40 | ranges from 100000 upwards never raise |
| Passwords.SampleAllEqual | day4.py:28-51 | 111111 matches |
| Passwords.SampleDecreasing | day4.py:46-51 | 223450 does not match: it decreases at the end |
| Passwords.SampleNoDouble | day4.py:30-43 | 123789 does not match: it has no double |
| Orbits.Parents | day6.py:41-49 | every orbiter named by a line has a parent link, and only the stored objects of named orbiters do |
| Orbits.ParentsLastWins | day6.py:41-49 | an orbiter's parent is the center of the last line naming it: the stored center, or a separate root when that line is `X)X` and names X for the first time |
| Orbits.CenterObj | day6.py:42-45 | the center object a line links to carries the center's name, and is a separate unstored root exactly when the line is `X)X` and no earlier line names X |
| Orbits.AddName | day6.py:41-47 | adding a name to the dict's keys keeps them distinct and adds exactly that name |
| Orbits.NamedSnoc | day6.py:41-47 | a name appears in the lines iff it appears before the last line or in the last line |
| Orbits.Names | day6.py:41-49 | the objects are the distinct names of all lines, each once |
| Orbits.ChainLength | day6.py:24-32 | a finished count is 0 exactly for an object without a parent; meeting again an object that has a parent never finishes |
| Orbits.VisitedMembers | day6.py:24-32 | the objects visited in k steps are exactly the first k objects of the walk up the parents |
| Orbits.ChainLengthSeenSmaller | day6.py:24-32 | a finished count does not depend on which already-seen objects are remembered |
| Orbits.ChainLengthWalk | day6.py:24-32 | a count of d means d parent steps reach an object without a parent, and no fewer do |
| Orbits.DepthUnfold | day6.py:24-32 | an object without a parent counts 0; any other counts one more than its parent |
| Orbits.WalkAdd | day6.py:24-32 | a + b parent steps are a steps followed by b steps |
| Orbits.UnfinishedMeansCycle | day6.py:24-32 | a count that never finishes meets an object with a parent twice |
| Orbits.CycleNeverEnds | day6.py:24-32 | on a cycle of parents no later step reaches a root |
| Orbits.DepthNoneIffEndless | day6.py:24-32 | the count fails exactly when the chain of parents never reaches an object without one |
| Orbits.NoRootBefore | day6.py:24-32 | if step j has a parent, so does every earlier step |
| Orbits.FirstRepeat | day6.py:24-32 | between two equal steps of the walk, every step has a parent |
| Orbits.RootStays | day6.py:24-32 | an object without a parent walks nowhere |
| Orbits.SumDepthsFails | day6.py:52-55 | the sum fails with RecursionError exactly when some object's count never finishes |
| Orbits.SumDepthsAtLeastOrbiters | day6.py:52-55 | the sum is at least the number of objects that have a parent |
| Orbits.Checksum | day6.py:38-58 | the checksum raises RecursionError exactly when some object's count never finishes |
| Orbits.ChecksumAtLeastOrbiters | day6.py:38-58 | a successful checksum is at least the number of distinct orbiters |
| Orbits.SelfOrbitSample | day6.py:41-55 | the map `A)A` has checksum 1 |
| Orbits.SelfOrbitMoonSample | day6.py:41-55 | the map `A)A`, `A)B` has checksum 3 |
| Orbits.CycleSample | day6.py:24-55 | the map `A)B`, `B)A` raises RecursionError |
| SpaceImage.Chunk | day8.py:56 | each read is at most 150 characters |
| SpaceImage.ChunkShift | day8.py:55-60 | after the first read, read k of the rest is read k+1 of the line |
| SpaceImage.ReadLayersUnfold | day8.py:55-60 | an empty stripped read stops the reading; any other read is the next layer |
| SpaceImage.LayersAreStrippedChunks | day8.py:52-63 | layer k is the k-th 150-character read with trailing whitespace stripped, and is not empty |
| SpaceImage.ReadingStopsAtEmptyChunk | day8.py:55-60 | the read after the last layer strips to nothing |
| SpaceImage.ReadLayers | day8.py:52-63 | every layer has 1 to 150 characters and does not end in whitespace |
| SpaceImage.OverlayFrom | day8.py:19-21 | one layer fails with IndexError iff it has a visible pixel past the image's width; otherwise only empty positions are filled, with the layer's visible pixel |
| SpaceImage.Compose | day8.py:18-21 | composing keeps the image's width and fails only with IndexError |
| SpaceImage.Decode | day8.py:16-21 | no layers raise IndexError; any error is an IndexError; a decoded image has the first layer's width |
| SpaceImage.FirstVisibleAppend | day8.py:18-21 | the first visible pixel over one more layer is the old one, else the new layer's |
| SpaceImage.ComposeFirstVisible | day8.py:17-21 | composing from an empty image of width w fails iff some layer has a visible pixel at or past w; otherwise each position is the first visible pixel |
| SpaceImage.DecodeFirstVisible | day8.py:16-21 | decoding fails iff a layer shows a pixel past the first layer's width; otherwise it has that width and each position is the first non-'2' pixel |
| SpaceImage.Count | day8.py:42-43 | a character count never exceeds the layer's length |
| SpaceImage.FindFewestZeroes | day8.py:38-49 | None iff there are no layers; otherwise the first layer with the fewest '0's, where every earlier layer has strictly more |
| SpaceImage.CountAppend | day8.py:42-43 | the counts of a text written in two parts add up |
| SpaceImage.CountsDisjoint | day8.py:34-35 | the '1' and '2' counts of a layer add up to at most its length |
| SpaceImage.PhaseOne | day8.py:34-35 | None raises TypeError; otherwise the count of '1' times the count of '2' of the layer, at most a quarter of its length squared |
| SpaceImage.SampleDecode | day8.py:16-21 | layers 0222, 1122, 2212, 0000 decode to 0110 |
| HullRobot.GetMovement | day11.py:110-133 | turn 0 turns left and any other turn turns right, the heading stays in 0..3, and the robot moves one panel in the new direction |
| HullRobot.TurnBack | day11.py:116-121 | a left turn followed by a right turn, or a right followed by a left, restores the heading |
| HullRobot.Ahead | day11.py:124-133 | moving ahead is one unit step, in the heading's own direction: UP is y+1, DOWN y-1, RIGHT x+1 and LEFT x-1, the other coordinate unchanged |
| HullRobot.AheadBack | day11.py:124-133 | a step ahead followed by a step along the opposite heading returns to the starting panel |
| HullRobot.FourTurnsSquare | day11.py:110-133 | four turns the same way trace a unit square back to the start panel and heading |
| HullRobot.SquareLeft | day11.py:116-133 | from any of the four headings, four left turns return to the start panel and heading |
| HullRobot.SquareRight | day11.py:116-133 | from any of the four headings, four right turns return to the start panel and heading |
| HullRobot.Normalize | day11.py:116-121 | only the heading mod 4, and only whether the turn is 0, matter |
| HullRobot.Blank | day11.py:34-36 | the grid starts as 2y+1 rows of 2x+1 zeroes, with Python's empty list for negative counts |
| HullRobot.Paint | day11.py:38-39 | painting keeps the grid's shape, and its only error is IndexError |
| HullRobot.PaintLastWins | day11.py:38-39 | painting succeeds iff every panel's subscripts are in range; then each cell holds the colour of the last panel written there |
| HullRobot.Glyphs | day11.py:45 | the replacement maps the text character by character |
| HullRobot.PanelGlyphs | day11.py:45 | black renders as a blank and white as '#' |
| HullRobot.SingleDigitText | day11.py:45 | a single-digit colour renders as one character |
| HullRobot.RowTextStep | day11.py:43-45 | a row's text grows by the glyph of one cell at a time |
| HullRobot.RowTextLayout | day11.py:43-45 | the text of n single-digit cells has n characters, character j showing cell j |
| HullRobot.LineEnd | day11.py:46 | a line ends at the next newline or at the end of the text |
| HullRobot.NoNewlineEnd | day11.py:46 | a newline-terminated line without inner newlines splits off as one line |
| HullRobot.PaintSucceeds | day11.py:38-39 | painting succeeds iff every panel's row and column subscripts are in range |
| HullRobot.PaintCells | day11.py:38-39 | after a successful paint each cell holds the colour of the last panel written there, or its old value |
| HullRobot.ConcatSingles | day11.py:43-45 | one-character cell texts written one after another give one character per cell, in order |
| HullRobot.OneLineConcat | day11.py:43-45 | two texts without a newline written one after the other hold no newline |
| HullRobot.ConcatOneLine | day11.py:43-45 | any number of texts without a newline written in order hold no newline |
| HullRobot.ColorTextOneLine | day11.py:45 | the text of a colour holds no newline |
| HullRobot.RowTextOneLine | day11.py:43-45 | the text of a row holds no newline |
| HullRobot.DownwardAt | day11.py:42 | `range(i, -1, -1)` visits i+1 rows, the k-th being row i-k |
| HullRobot.RowsDownward | day11.py:42-45 | the k-th row text written is that of grid row i-k |
| HullRobot.RowTextsOneLine | day11.py:43-45 | no row's text holds a newline |
| HullRobot.ReadTerminated | day11.py:42-46 | texts without newlines, each followed by a newline, read back as exactly those lines |
| HullRobot.LinesLayout | day11.py:42-46 | the text has i+1 lines, line k being grid row i-k |
| HullRobot.LastColorDigit | day11.py:38-39 | the last colour painted on a blank cell is a digit when every colour is |
| HullRobot.PaintedDigits | day11.py:34-39 | painting single-digit colours on a blank grid leaves single digits |
| HullRobot.RenderPanels | day11.py:33-53 | the render fails, with IndexError, exactly when some panel's offset row or column is not a valid subscript of the grid |
| HullRobot.RenderIsLines | day11.py:33-53 | with sizes that are not negative, a render that succeeds is the text of the painted grid, top row first |
| HullRobot.PaintedGrid | day11.py:33-53 | the painted grid has 2y+1 rows of 2x+1 cells, each holding its last painted colour |
| HullRobot.GridLine | day11.py:42-46 | line k of the text shows row 2y-k, one glyph per cell |
| HullRobot.RenderLayout | day11.py:33-53 | the render is 2y+1 lines of 2x characters; character j of line k shows the colour last painted at row 2y-k, column j, or a blank |
| HullRobot.PanelsInRange | day11.py:38-39 | panels whose offsets lie within the sizes always render |
| NBody.PullAntisymmetric | day12.py:16-28 | the pull on q from p is the opposite of the pull on p from q |
| NBody.UpdateRelativeVel | day12.py:16-28 | each velocity component moves one unit toward the other moon's coordinate, or stays when they agree; the position is kept |
| NBody.UpdatePos | day12.py:30-33 | the position moves by the velocity, which is kept |
| NBody.Manhattan | day12.py:36 | the sum of absolute coordinates is zero only at the origin |
| NBody.PotentialEnergy | day12.py:35-36 | potential energy is zero exactly for a moon at the origin |
| NBody.KineticEnergy | day12.py:38-39 | kinetic energy is zero exactly for a moon at rest |
| NBody.TotalEnergy | day12.py:41-46 | the total energy is never negative, and zero exactly when the moon is at the origin or at rest |
| NBody.SystemEnergy | day12.py:95-100 | every moon's total energy is at most the system's, and the system energy is 0 exactly when every moon's is, as with no moons |
| NBody.SystemEnergySplit | day12.py:95-100 | the system energy is additive over any split of the moons |
| NBody.PullPair | day12.py:83-87 | one pair pulls moon i toward moon j and moon j toward moon i; other moons and all positions are untouched |
| NBody.PullPairsOf | day12.py:83-87 | after the pairs (i, j), moon i has the pull of every moon, and each later moon has moon i's pull too |
| NBody.ApplyGravity | day12.py:83-87 | over all pairs in `combinations` order, each moon's velocity gains the pull of every moon at the start-of-step positions |
| NBody.TotalAccelNext | day12.py:83-87 | one more pulling moon adds its pull on each moon |
| NBody.PullOnOpposes | day12.py:83-87 | what one moon pulls on the others is the opposite of what they pull on it |
| NBody.PullsCancel | day12.py:83-87 | the pulls among all moons cancel out |
| NBody.VelSumPulled | day12.py:83-87 | the velocity sum after gravity is the old sum plus the total pull |
| NBody.StepConservesMomentum | day12.py:82-90 | one time step keeps the sum of velocities |
| NBody.StepsConserveMomentum | day12.py:81-90 | any number of steps keeps the sum of velocities |
| NBody.Step | day12.py:83-90 | one iteration is gravity over all pairs and then every moon moving, and it keeps the velocity sum |
| NBody.ApplySteps | day12.py:81-90 | `steps` iterations (none for steps < 1), keeping the velocity sum |
| NBody.AxisState | day12.py:102-111 | the coordinates of every moon on axis x, y or z, in moon order; any other axis name gives () |
| NBody.Bezout | day12.py:124-125 | the gcd is an integer combination of the arguments |
| NBody.GcdDivides | day12.py:124-125 | the gcd of numbers not both zero is positive and divides both |
| NBody.Lcm2Multiple | day12.py:124 | for positive x and y, x*y // gcd is a positive common multiple, and times the gcd gives x*y |
| NBody.Lcm2DividesCommon | day12.py:124 | every common multiple of positive x and y is a multiple of x*y // gcd |
| NBody.GetLcmLeast | day12.py:121-126 | for positive periods the result is positive, divisible by each period and divides every common multiple |
| NBody.GetLcm | day12.py:121-126 | the only error is ZeroDivisionError, raised when both x and y are 0 and otherwise only when z is 0 (GetLcmLeast gives the least common multiple for positive periods) |
| NBody.Lcm2Fails | day12.py:124 | x*y // gcd(x, y) raises ZeroDivisionError exactly when both numbers are 0 |
| NBody.GetLcmZero | day12.py:124 | two zero periods divide by zero |
| NBody.SamplePeriods | day12.py:121-126 | periods 18, 28 and 44 give 2772 |
| NBody.StepsSucc | day12.py:133-136 | s+1 steps are s steps followed by one more |
| NBody.RecordFound | day12.py:137-142 | an axis's period is recorded once, as one more than the first step it repeats at |
| NBody.FoundStays | day12.py:137-142 | a period once recorded stays valid at every later step |
| NBody.FoundNow | day12.py:137-142 | a period newly recorded at step s means s is the axis's first repeat |
| NBody.StillMissing | day12.py:137-142 | an axis with no period recorded at step s has not repeated in steps 1..s |
| NBody.StepsUntilRepeated | day12.py:128-153 | the result is positive, and it is the lcm of one plus each axis's first repeat step; None means some axis did not repeat within the bound |
| NBody.FindPeriods | day12.py:129-146 | the search stops with every axis period found or the step bound reached; each found period is one more than that axis's first repeat step, and a missing one means no repeat so far |
| Arcade.Game | day13.py:75-79 | no more lines are kept than given, and no kept line is empty |
| Arcade.GameOne | day13.py:76-79 | one line is kept, right-stripped, exactly when it is not blank |
| Arcade.GameSplit | day13.py:76-79 | keeping lines is additive over any split of the output, so the kept lines are the non-blank ones, right-stripped and in order |
| Arcade.Readings | day13.py:84-86 | each kept line is read with Python's `int`, None standing for ValueError |
| Arcade.Triples | day13.py:83-87 | the values split into len/3 triples, triple i being values 3i, 3i+1 and 3i+2 |
| Arcade.LastTileAppend | day13.py:87 | the tile at a position is that of the last write there |
| Arcade.LastXAppend | day13.py:88-91 | the column noted for a tile is that of its last triple |
| Arcade.WrittenStep | day13.py:87 | writing one more triple keeps the screen equal to writing all of them in order |
| Arcade.TailReading | day13.py:83-86 | after three integer values, the rest of the reading is that of the tail |
| Arcade.ConsumeTriples | day13.py:83-100 | the loop succeeds iff all values are integers, the count is a multiple of 3 and every logged tile subscripts `TILE_NAMES`; then the screen, paddle and ball come from the triples written in order |
| Arcade.Consume | day13.py:83-95 | the loop raises nothing but ValueError and IndexError |
| Arcade.UpdateScreen | day13.py:72-102 | `update_screen` raises nothing but ValueError and IndexError |
| Arcade.UpdateScreenSpec | day13.py:72-103 | `update_screen` succeeds exactly under those conditions; each position then holds the last tile written there, other entries are unchanged, and pad and ball are the x of the last paddle and ball tiles |
| Arcade.RaggedFails | day13.py:83-86 | a line count that is not a multiple of 3 always fails |
| Arcade.CountTiles | day13.py:26-31 | the count is the number of positions holding the id, at most the screen size |
| Arcade.AddToSeen | day13.py:26-31 | counting one more new position adds one exactly when it holds the id |
| Arcade.TwoCountsFit | day13.py:26-31 | the counts of two different ids add up to at most the screen size |
| Arcade.Joystick | day13.py:59-67 | no ball stops the game; a ball but no paddle is a TypeError; otherwise the input is 1, -1 or 0 as the ball is right of, left of or above the paddle |
| Arcade.JoystickFollowsBall | day13.py:62-67 | moving the paddle by the input brings it one column closer to the ball, or keeps it under the ball |
| Factory.OreUsed | day14.py:49-50 | the ORE used is how far ORE has been drawn below zero |
| Factory.Consume | day14.py:57-59 | consuming lowers the named stock by the amount and leaves every other stock as it was |
| Factory.HasInStock | day14.py:52-55 | ORE is always in stock; any other chemical is in stock exactly when its stock reaches the amount |
| Factory.InStockIffConsumable | day14.py:52-59 | a chemical other than ORE is in stock exactly when consuming the amount leaves its stock at zero or more; then any smaller amount is in stock too |
| Factory.Add | day14.py:68 | a finished batch raises only the product's stock |
| Factory.Produce | day14.py:61-68 | a finished production has the amount in stock; an unknown chemical raises AttributeError |
| Factory.Ingredients | day14.py:65-67 | producing a recipe raises nothing but AttributeError |
| Factory.ProduceKeeps | day14.py:61-68 | with non-negative recipes, production never adds ORE and never leaves another chemical below zero |
| Factory.IngredientsKeep | day14.py:65-67 | the same holds for each pass over a recipe |
| Factory.OreUsedFromEmpty | day14.py:49-68 | from an empty stock, the ORE used is exactly the ORE drawn down |
| Factory.SampleProduction | day14.py:61-68 | with 10 ORE => 10 A and 7 A, 1 ORE => 1 B, one B leaves 3 A over and uses 11 ORE |
| Factory.ParseReactions | day14.py:39-47 | every reaction is filed under its own product's name |
| Factory.ParseLastWins | day14.py:42-46 | a product has a reaction iff some rule names it, and that reaction is the last such rule's |
| Factory.ParseNonNegative | day14.py:42-46 | rules with non-negative amounts give non-negative reactions |
| Droid.Code | day15.py:14-18 | the command numbers are 1..4 |
| Droid.OppositeInvolution | day15.py:20-28 | the opposite of the opposite is the direction itself, and no direction is its own opposite |
| Droid.SameIsEquivalence | day15.py:98-105 | location equality is an equivalence that compares the coordinates only |
| Droid.Opposite | day15.py:20-28 | no direction is its own opposite (OppositeInvolution: taking the opposite twice gives the direction back) |
| Droid.Same | day15.py:98-105 | two locations are equal exactly when both coordinates are equal |
| Droid.Update | day15.py:73-81 | north is y+1, south y-1, east x+1 and west x-1; one step, nothing else changes |
| Droid.UpdateThenBack | day15.py:20-28 | a step followed by a step in the opposite direction returns to the same location |
| Droid.Neighbors | day15.py:83-89 | four fresh locations, one step away in the order north, south, west, east, each paired with its direction |
| Droid.NeighborsAround | day15.py:83-89 | the neighbours are four different locations next to the location, and stepping back from each reaches it |
| Droid.Copy | day15.py:92-96 | a copy equals the location and keeps its type and predecessor, but not the direction back |
| Droid.CopyIdempotent | day15.py:92-96 | copying twice is copying once, and a location with no direction back is its own copy |
| Fft.Expand | day16.py:28 | one cycle for output digit i repeats each pattern element i+1 times |
| Fft.ExpandAt | day16.py:28 | element r of one cycle is pattern element r / times |
| Fft.CycleIndex | day16.py:28 | the cycle position of a generator index reduces to the element index within one cycle |
| Fft.CycledIsWeight | day16.py:28-32 | after the discarded first element, the k-th value drawn is the weight of input position k |
| Fft.Digit | day16.py:32 | each output digit is in 0..9 |
| Fft.Phase | day16.py:29-33 | a phase gives `num_values` digits, digit i being the last digit of the absolute weighted sum |
| Fft.PhasesAreDigits | day16.py:27-38 | after at least one phase there are `num_values` entries, all single digits |
| Fft.JoinStr | day16.py:39 | single digits join to one character each |
| Fft.JoinDigits | day16.py:39 | character i of the joined text is digit i |
| Fft.FftRun | day16.py:24-41 | success iff there is a phase and the pattern is not empty (or no digit is asked for); no phase raises UnboundLocalError |
| Fft.FftFirstEight | day16.py:24-41 | a successful run gives min(8, num_values) characters, character i being digit i after the phases |
| Fft.Fft | day16.py:24-41 | with a pattern, `fft` is the run over it; with the default None, TypeError as soon as a phase asks for a digit, UnboundLocalError with no phase, and "" when no digit is asked for |
| Fft.FftDefaults | day16.py:24 | `fft(values, n)` with every default raises TypeError for n >= 1 and returns "" for n = 0 |
| Fft.FftOfMain | day16.py:13 | the call `main` makes succeeds with min(8, len) characters, each the digit after 100 phases |
| Fft.Lowest | day16.py:46-50 | the scan stops at index offset-1, at 0 for offset <= 0, and at the last index when offset is past the end |
| Fft.Phase2Loop | day16.py:45-50 | the backward loop writes, from its lowest index on, the suffix sum of each index mod 10 and leaves the rest |
| Fft.Fft2 | day16.py:43-53 | 100 phases, then `values[offset:offset+8]` of the rewritten list |
| Fft.Phases2KeepPrefix | day16.py:46-50 | indices below the lowest rewritten one never change |
| Fft.Phases2Digits | day16.py:46-48 | after a phase every rewritten index holds a single digit |
| Fft.Phase2Recurrence | day16.py:46-48 | each rewritten digit is its old value plus the next digit, mod 10 |
| Scaffold.Put | day17.py:38 | a dict write appends a new key to the insertion order and keeps an old key's place |
| Scaffold.Build | day17.py:29-42 | the loop ends on the row after the last newline, y being the number of newlines, and neither size is negative |
| Scaffold.Step | day17.py:33-41 | one pixel is stored at the next cell (column 0 of the next row after a newline), the cursor moves one column past it, and the sizes only grow, enough to cover its column and any row a newline ends |
| Scaffold.PositionPrefix | day17.py:31-41 | where a pixel lands does not depend on the pixels after it |
| Scaffold.PositionStep | day17.py:33-41 | a newline lands at column 0 of the next row; any other pixel one column right of the previous one, or at (0,0) first |
| Scaffold.CursorStep | day17.py:33-41 | the loop's x and y put each pixel at its position and move past it |
| Scaffold.StepFresh | day17.py:38-41 | each write is to a cell not yet written, so no key is overwritten |
| Scaffold.EarlierKeysKept | day17.py:38 | a new write leaves the earlier keys and their pixels in place |
| Scaffold.PlacedStep | day17.py:38 | after one more pixel the whole stream is placed |
| Scaffold.LayoutStep | day17.py:31-41 | one more pixel keeps the layout invariant |
| Scaffold.BuildLayout | day17.py:29-42 | pixel k is the k-th key, stored at its own cell: row = newlines so far, column = distance from the last newline |
| Scaffold.WidthBounds | day17.py:39-40 | the width is at least every column written and equals one of them |
| Scaffold.BuildSizes | day17.py:33-40 | xsize is the largest column written; ysize is the row the last newline ended (one less than the newline count), 0 without newlines |
| Scaffold.FirstPixel | day17.py:29-38 | the first pixel lands at (0,0), or at (0,1) if it is a newline |
| Scaffold.NewlineStartsRow | day17.py:33-41 | a newline is stored at column 0 of the row it starts, and the next pixel at column 1 |
| Scaffold.Visit | day17.py:62-67 | visiting a cell adds no key |
| Scaffold.Marked | day17.py:61-67 | the loop adds no key while it marks |
| Scaffold.Parameters | day17.py:61-66 | at most one parameter per visited key, none negative |
| Scaffold.FindIntersections | day17.py:59-70 | the calibration code is not negative; the order and the keys of the view are kept |
| Scaffold.MarkedCell | day17.py:61-67 | after i keys, a visited counted key holds 73 and every other key its original pixel |
| Scaffold.ScaffoldWasScaffold | day17.py:64-67 | a cell that is scaffold when visited was scaffold from the start |
| Scaffold.CountedIsCrossing | day17.py:61-66 | a counted key is '#' with four '#' neighbours in the original view |
| Scaffold.AdjacentNotBothCounted | day17.py:61-67 | of two orthogonally adjacent keys the later is not counted when the earlier was, since it sees 73 |
| Scaffold.CountedIffCrossing | day17.py:61-67 | when no two crossings touch, a key is counted exactly when it is a crossing of the original view |
| Scaffold.CalibrationOfCrossings | day17.py:61-70 | when no two crossings touch, the code sums |(x-1)*y| over all the crossings in insertion order |
| Scaffold.FindIntersectionsMarks | day17.py:61-67 | after the search exactly the counted keys hold 73, every other key keeps its pixel, and every counted key was a crossing |

## Left out

- The Intcode virtual machine of the later days is not part of this model.
  That covers `Program`, `standalone`, modes, input and output. So is every
  loop that drives it: `hull_painting` and `main` of day 11, `run_game`
  beyond its joystick rule, `init_game`, `render_game`, the `RepairDroid`
  search of day 15, and the program call in `build_scaffold_view`. Their
  inputs become parameters: the painted panels, the output lines, and the
  pixel stream.
- Reading files and standard input, `logging`, printing, `render_view`,
  `render`, `print_layer` and the `isatty` printing of `render_panels` are
  left out. They are I/O.
- Some text parsing is done before the model. That covers the line
  splitting of `parse_input` of day 3, the `eval` of day 12, the regex and
  `split` of `parse_reactions` and `parse_recipe`, and the `int(line.strip())`
  of each day-17 pixel. Each model takes the already split values. Day 3's
  reading of each move and day 13's `int` on its output lines are modelled.
- Fuel.ModuleFuel: `floor(mass / 3)` goes through a float in Python. For
  very large masses the float loses precision; the model uses exact
  division.
- Common.PyInt: Python's `int` also accepts underscores between digits and
  non-ASCII digits. Only ASCII digits with an optional sign and surrounding
  whitespace are modelled.
- Factory.Produce: the recursion of `produce_chemical` is bounded by a step
  budget, and Python's recursion limit is not modelled. A run that needs
  more steps is `Unfinished`. On a cyclic recipe, or a recipe chain deeper
  than the limit, the source raises RecursionError; the model reports it as
  `Unfinished`, so `Raised` only ever carries AttributeError. A recipe whose
  batches never bring the stock up to the amount (batch size 0 or less)
  loops forever in the source, and is `Unfinished` here too.
- NBody.StepsUntilRepeated: the search is bounded by `fuel` steps. None
  means the bound was reached; the source would keep searching.
- Orbits: only `get_orbit_checksum` and `get_direct_indirect_orbits` are
  modelled, not `process_input`. Objects are told apart by name and by
  whether they were stored, which is all the eager `get` defaults can
  create. The recursion limit is modelled as the
  chain meeting an object again, so a very long but acyclic chain is not
  reported as a RecursionError.
- Arcade.UpdateScreenSpec: when `update_screen` raises, the source has
  already written part of the screen in place. The model returns only the
  error.
- The energy totals 179 and 1940 of the day-12 samples, and the full
  `fft`/`fft2` samples, are not stated as lemmas. Unfolding that many steps
  symbolically is beyond the verifier's budget here. The step functions
  they follow from are modelled and proved.
- Scaffold.CountedIffCrossing and Scaffold.CalibrationOfCrossings assume no
  two crossings touch. When two do, the later one sees the 73 mark and is
  skipped, as Scaffold.AdjacentNotBothCounted states.
