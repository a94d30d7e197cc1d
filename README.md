# ChaseAndRun: a verified model of the simulation core

ChaseAndRun simulates several populations of individuals that walk on a
`box_width × box_height` lattice. Each tick, every individual of every
population moves one step up, down, left or right. The step is biased by a
sum over all individuals of all populations: each neighbour within the
radius δ of a population pair pulls (a_ij > 0) or pushes (a_ij < 0) the
mover. The lattice is absorbing, or periodic when the compile-time switch
`KCR_PBC` is set. A lattice one cell high uses a one-dimensional walk.
Before the run, `kcr_init` reads the a_ij and δ tables and the environment
table from tab/newline text files, and builds the populations.
`kcr_set_init_conds` then places the individuals, at random or from a start
file.

The model has nine modules, one per part of the program:

- `Lattice`: the movement sampler of `kcr_move_individual` and
  `kcr_move_individual1d`. It covers the feasibility flags, the clamp, the
  direction weights, the fixed partition of the draw and the position update.
- `Kernel`: the bias sums over the roster (sx, sy, popsum), the packing term,
  and the whole move of one individual.
- `Stepping`: the outer loop of `kcr_perform_simulation` as a specification.
  It includes what is written to stdout and to the end file, and the abort
  of the bounds asserts.
- `TableParser`: the character reader shared by `kcr_setup_array` and
  `kcr_setup_env`, as a state machine (`Step`, `Run`, `Parse`) and as the
  array loop (`ReadTable`).
- `StartParser`: the start-file reader and the random placement of
  `kcr_set_init_conds`.
- `Simulator`: the control blocks as classes (`Individual`, `Population`,
  `Simulation`) and the imperative operations `kcr_init`,
  `kcr_set_init_conds` and `kcr_perform_simulation`. Each is proved equal to
  the specification functions above.
- `ListJrp`, `ListV2`: the singly and doubly linked lists of `listjrp.h`,
  `listjrp.c` and `listv2.c`, as classes over nodes with a ghost `Nodes`
  sequence and a `Contents` sequence.
- `Wrappers`: `Option`.

The key proved results:

- the array loops compute exactly the specification functions;
- a run that starts in bounds never trips a bounds assert and stays in
  bounds, under both boundary conditions;
- the end file is written only on the tick whose clock equals total_time,
  and then holds every final position in roster order and the newline;
- while measuring, each tick writes every new position in roster order and
  then the newline;
- popsum is the number of cellmates over l²;
- packing with κ ≥ 0 only damps the bias;
- negating every a_ij negates the bias;
- tables and start files written in the expected format read back to
  themselves.

The random numbers are parameters. A move takes a draw `u = rand()/RAND_MAX`
in [0, 1]. The random placement takes the raw `rand()` values.

## Model

| member | source | states |
|---|---|---|
| Lattice.Wrap | kcrproc.c:246 | KCR_MOD lands in [0, extent) and differs from its argument by a multiple of extent |
| Lattice.Diff | kcrproc.c:193-196 | KCR_DIFF is a − b on an absorbing lattice. On a periodic one it is congruent to a − b modulo the extent and is the shortest displacement, in (−extent/2, extent/2] |
| Lattice.Clamp | kcrproc.c:223-224 | max(−1, min(1, s)) lies in [−1, 1], equals s inside that interval and saturates outside it |
| Lattice.Feasibility2D | kcrproc.c:133-179 | all four flags are 1 under KCR_PBC; otherwise a flag is 0 exactly at its own edge (y = 0 down, y = height−1 up, x = 0 left, x = width−1 right) |
| Lattice.Choose2D | kcrproc.c:241-268 | for non-negative weights the draw selects Down on [0, down), Up on [down, down+up), Left on the next interval, and Right from down+up+left on |
| Lattice.Step | kcrproc.c:242-281 | Down is y−1, Up y+1, Left x−1, Right x+1, each through KCR_MOD when periodic. An absorbing Right at x = width−1 leaves the position alone. The new position is adjacent to the old |
| Lattice.Feasibility1D | kcrproc.c:318-342 | both flags are 1 under KCR_PBC; otherwise left is 0 exactly at x = 0 and right exactly at x = width−1 |
| Lattice.Choose1D | kcrproc.c:385-406 | the draw selects Left exactly below the left weight, and Right otherwise |
| Lattice.Sample1D | kcrproc.c:382-409 | the 1D move always ends with y = 0 |
| Lattice.Weights2DInUnitInterval | kcrproc.c:225-238 | from a clamped bias, each of the four weights the asserts check is in [0, 1], and so is their total |
| Lattice.Weights1DInUnitInterval | kcrproc.c:374-381 | from a clamped bias, the left and right weights the asserts check are in [0, 1], and so is their sum |
| Lattice.ScaledDraw | kcrproc.c:239 | rand()·total/RAND_MAX lies in [0, total] |
| Lattice.ChosenDirectionHasMass | kcrproc.c:239-268 | the chosen direction has positive weight, unless the draw equals the total and falls through to Right |
| Lattice.ClosedDirectionHasNoMass | kcrproc.c:139-178 | on an absorbing lattice a direction closed by an edge gets weight 0, whatever the bias |
| Lattice.StepOfChoiceStaysInBounds | kcrproc.c:242-281 | a step chosen by the partition from an in-bounds position stays in bounds, when every edge-closed direction has weight 0 |
| Lattice.DrawIsNonNegative | kcrproc.c:239 | the draw scaled by non-negative weights is non-negative |
| Lattice.WeightsAdmitStep | kcrproc.c:225-238 | the weights of an in-bounds position are non-negative, and zero in every direction an absorbing edge closes |
| Lattice.Sample2DStaysInBounds | kcrproc.c:239-281 | the 2D move keeps an in-bounds individual in bounds under both boundary conditions, including a draw equal to the total |
| Lattice.Sample1DStaysInBounds | kcrproc.c:382-409 | the 1D move keeps x in [0, width) under both boundary conditions |
| Lattice.ZeroMassCornerMovesRight | kcrproc.c:276-280 | at the absorbing corner (0, 0) with both biases at −1, all four weights are 0 and the individual still moves right |
| Lattice.ZeroMassWallMovesRight | kcrproc.c:401-405 | at x = 0 of an absorbing 1D lattice with sx = −1, both weights are 0 and the individual moves right |
| Kernel.CellIndex | kcrproc.c:192 | the index source + responder·no_pops of a P×P table is in range |
| Kernel.Contribution1D | kcrproc.c:353-368 | an individual at the mover's own x (offset 0) contributes nothing to sx |
| Kernel.Distance2 | kcrproc.c:193-196 | the squared scaled distance of an individual to itself is 0 |
| Kernel.Contribution2D | kcrproc.c:193-206 | an individual in the mover's cell contributes nothing to (sx, sy) |
| Kernel.Cellmates | kcrproc.c:207-211 | the count of individuals sharing the mover's cell is at most the number scanned |
| Kernel.PopsumNext | kcrproc.c:207-211 | one more individual adds 1/l² to popsum exactly when it is in the mover's cell |
| Kernel.PopsumIsCount | kcrproc.c:184-215 | popsum is the number of individuals in the mover's cell over l², hence ≥ 0 |
| Kernel.PopsumIncludesMover | kcrproc.c:207-211 | the mover counts itself, so popsum ≥ 1/l² once the scan has passed it |
| Kernel.PackingDamps | kcrproc.c:217-222 | with packing_term ≠ 1 the bias is unchanged. With κ ≥ 0 the packed bias keeps its sign and is no larger, and strictly smaller when κ·popsum > 0 |
| Kernel.CrowdExertsNoBias | kcrproc.c:193-211 | when every individual is in the mover's cell, sx and sy stay 0 and every one of them counts in popsum |
| Kernel.Contribution1DIsOddInStrength | kcrproc.c:358-367 | negating a_ij negates one neighbour's 1D contribution |
| Kernel.Contribution2DIsOddInStrength | kcrproc.c:198-205 | negating a_ij negates both components of one neighbour's 2D contribution |
| Kernel.Kernel2DIsOddInStrength | kcrproc.c:198-205 | the 2D kernel is odd in the strength |
| Kernel.BiasSum1DIsOddInStrength | kcrproc.c:345-372 | negating every a_ij negates the 1D bias sum |
| Kernel.BiasSum2DIsOddInStrength | kcrproc.c:182-215 | negating every a_ij negates both components of the 2D bias sum |
| Kernel.MirroredNeighbour1D | kcrproc.c:353-368 | on an absorbing lattice, two neighbours mirrored through the mover contribute opposite amounts |
| Kernel.Move1D | kcrproc.c:300-413 | the 1D move sets y to 0, whatever it was before (kcrproc.c:409) |
| Kernel.Move | kcrproc.c:47-55 | a lattice one cell high takes the 1D move, and then y is 0 |
| Kernel.KernelMoverMovesAsKernel | kcrproc.c:47-55 | the move rule handed to the loop is the kernel's move for every roster of the populations |
| Kernel.MoveStaysInBounds | kcrproc.c:47-72 | an in-bounds individual is still in bounds after its move, so the asserts at 69-72 hold |
| Kernel.Move1DNeedsOnlyX | kcrproc.c:300-409 | on a lattice one cell high, an individual whose x alone is in range is in bounds after its move, whatever its y was |
| Kernel.KernelMoverStaysInBounds | kcrproc.c:47-72 | the kernel's move rule keeps every in-bounds individual in bounds |
| Stepping.MoveAndRecord | kcrproc.c:47-72 | only the mover's position changes, to its move, and the tick goes on exactly when that position passes the bounds asserts |
| Stepping.TickCount | kcrproc.c:37-39 | the clock values 0, 1, … below total_time are exactly those below the tick count |
| Stepping.TickPrefix | kcrproc.c:41-80 | handling the first n individuals of a tick keeps the roster's size |
| Stepping.Tick | kcrproc.c:40-90 | one iteration of the outer loop keeps the roster's size |
| Stepping.RunFrom | kcrproc.c:37-91 | the whole run keeps the roster's size |
| Stepping.TickPrefixShape | kcrproc.c:45-76 | individuals not yet handled are where the tick found them, and while measuring one record is written per individual handled |
| Stepping.AbortedStays | kcrproc.c:69-72 | after a failed bounds assert nothing more is moved or written |
| Stepping.TickPrefixStaysInBounds | kcrproc.c:41-80 | from an in-bounds roster, every prefix of a tick runs and stays in bounds |
| Stepping.Locations | kcrproc.c:57-60 | one "%i\t%i\t" record per position, in roster order, holding that position's x and y |
| Stepping.TickPrefixRecords | kcrproc.c:45-65 | while measuring, the first n moves of a running tick write the new positions of the first n individuals in roster order, and the same to the end file on the last tick |
| Stepping.TickRecords | kcrproc.c:40-90 | a tick that runs to the end writes, while measuring, every new position in roster order and then the newline, and the same to the end file on the last tick; otherwise it writes nothing there |
| Stepping.TickStaysInBounds | kcrproc.c:40-90 | a whole tick from an in-bounds roster runs and stays in bounds. While measuring it writes every new position in roster order and then the newline; otherwise it writes nothing |
| Stepping.RunStaysInBounds | kcrproc.c:37-91 | a run from an in-bounds roster never aborts and ends in bounds |
| Stepping.EndFileOnlyOnLastTick | kcrproc.c:61-65 | when total_time is not a whole number, or there is no end file, nothing is written to the end file |
| Stepping.EndFileOnLastTick | kcrproc.c:37-91 | with an end file and a whole-number total_time, a completed run writes to the end file only on the tick whose clock equals total_time: every final position in roster order and then the newline, or nothing when that tick is before start_measure_time |
| Stepping.NothingBeforeStart | kcrproc.c:57-60 | when every tick is below start_measure_time, nothing is written to stdout |
| TableParser.DigitValue | kcrinit.c:297 | curr_char − '0' of a digit is its value, in 0..9 |
| TableParser.Step | kcrinit.c:294-370 | one character fails exactly when a bounds assert fails. Otherwise only cell [x + y·cols] can change, and prev_char becomes the character's class |
| TableParser.Run | kcrinit.c:292-371 | the reading loop keeps the table's size |
| TableParser.Finish | kcrinit.c:372-385 | at end of file a number pending after a digit fails exactly when it lies outside the table |
| TableParser.Parse | kcrinit.c:289-385 | a successful read keeps the table's size |
| TableParser.ReadTable | kcrinit.c:289-385 | the array loop succeeds exactly when Parse does, and then leaves the parsed table in the array |
| TableParser.SetupArray | kcrinit.c:272-390 | a P×P table is read as Parse describes |
| TableParser.Zeros | kcrinit.c:656-662 | the zero-filled table has every cell 0 |
| TableParser.SetupEnv | kcrinit.c:640-769 | with no file the environment is all zeros. With a file it is the file parsed over zeros, failing exactly when Parse does |
| TableParser.ParseRender | kcrinit.c:292-385 | an integer matrix written as tab-separated rows reads back into the table, and the rows not written keep their value |
| TableParser.RunRowTabbedFrom | kcrinit.c:334-363 | a row's remaining cells, each followed by a tab and the row ended by a newline, fill row y from column x and move to the start of row y + 1 |
| TableParser.RunRowsTabbed | kcrinit.c:334-346 | rows with a tab before each newline are read exactly as the same rows without it |
| TableParser.ParseRenderTabbed | kcrinit.c:292-385 | an integer matrix written with a tab after every cell reads back into the table as the matrix without trailing tabs does |
| TableParser.DigitIgnoresPrev | kcrinit.c:294-304 | a digit is read the same whatever the previous character was |
| TableParser.DigitsIgnoreSign | kcrinit.c:294-309 | digits never fail and do not depend on the sign read so far |
| TableParser.MinusAnywhere | kcrinit.c:305-309 | a '-' anywhere among a number's digits makes the number negative |
| TableParser.RunFraction | kcrinit.c:299-314 | the k-th digit after the decimal point adds d/10^k |
| TableParser.DecimalExample | kcrinit.c:294-314 | "2.75" reads as 2.75 |
| TableParser.CarriageReturnExample | kcrinit.c:315-346 | with "\r\n" line ends, the number before the line end is not stored and runs on into the next line's digits |
| StartParser.StartStep | kcrinit.c:448-498 | a character fails exactly when a tab or newline after a digit meets a NULL cursor. It changes only the position under the cursor, moves the cursor only forward, and breaks only after the last individual |
| StartParser.StartRun | kcrinit.c:444-499 | the reading loop keeps the roster's size and moves the cursor only forward |
| StartParser.StartFinish | kcrinit.c:500-515 | at end of file only the individual under the cursor can change |
| StartParser.ParseStart | kcrinit.c:441-516 | a start file keeps the roster's size, and fails when there is no population |
| StartParser.RandomPlacement | kcrinit.c:421-439 | individual j gets x = rand() % box_width and then y = rand() % box_height, from draws 2j and 2j+1 |
| StartParser.RandomPlacementInBounds | kcrinit.c:430-431 | random placement puts every individual inside the lattice |
| StartParser.ParseStartPrefix | kcrinit.c:441-516 | a start file with lines for the first n individuals gives them those positions; the rest keep the sentinel of kcrinit.c:245-246 |
| StartParser.ParseStartAll | kcrinit.c:479-493 | a start file with a line for every individual places them all, and the loop leaves before reading anything after the last line |
| StartParser.SkippedCharacterExample | kcrinit.c:450-455 | other characters are skipped inside a number: "12 34\t5\n" gives (1234, 5) |
| StartParser.NoIndividualsFails | kcrinit.c:455-461 | with no individual to take it, the first number ended by a tab or newline fails the assert |
| ListJrp.ListRoot.constructor | listjrp.h:69 | LIST_CREATE gives an empty list |
| ListJrp.ListRoot.IsEmpty | listjrp.h:113 | LIST_EMPTY holds exactly for the empty list |
| ListJrp.ListRoot.GetFirst | listjrp.c:21-47 | NULL for an empty list, otherwise the first element's data |
| ListJrp.ListRoot.GetNext | listjrp.c:61-87 | NULL after the last element, otherwise the next element's data |
| ListJrp.ListRoot.AddToStart | listjrp.h:78-81 | the new element becomes first, with the old first as its successor, and its data is prepended to the contents |
| ListJrp.ListRoot.DeleteFirst | listjrp.h:88-90 | the root moves to the second element, and the contents lose their head |
| ListJrp.ListRoot.Traverse | listjrp.c:21-87 | LIST_GET_FIRST then LIST_GET_NEXT until NULL visits exactly the contents, in order |
| ListJrp.ListRoot.AddThenDelete | listjrp.h:78-90 | adding an element and deleting the first leaves the list as it was |
| ListJrp.BuildByPrepending | listjrp.h:78-81 | adding d0 … dn−1 in turn to the start gives a list holding them reversed |
| ListJrp.PrependThenTraverse | listjrp.h:78-81 | traversing a list built by adding to the start gives the data in reverse order of insertion |
| ListV2.ListV2Root.GetFirst | listv2.c:22-48 | NULL for an empty list, otherwise the first element's data |
| ListV2.ListV2Root.GetNext | listv2.c:62-88 | NULL after the last element, otherwise the next element's data |
| ListV2.ListV2Root.GetPrevious | listv2.c:102-128 | NULL before the first element, otherwise the previous element's data |
| ListV2.ListV2Root.AddToStart | listv2.c:189-215 | the element is prepended with a NULL previous link, and the old first now links back to it |
| ListV2.ListV2Root.DeleteCurrent | listv2.c:142-174 | element i is unlinked from both neighbours, or the root moves on when it was first. The list stays well-formed, and the removed element keeps its own links |
| ListV2.ListV2Root.TraverseForward | listv2.c:22-88 | following next from the first element visits the contents in order |
| ListV2.ListV2Root.TraverseBackward | listv2.c:102-128 | following previous from the last element visits the contents in reverse |
| Simulator.Individual.constructor | kcrinit.c:220-251 | a new individual has its index and the position (box_width, box_height), outside the lattice |
| Simulator.Population.constructor | kcrinit.c:157-204 | a population of n new, distinct individuals, listed from index n−1 down to 0, all outside the lattice |
| Simulator.RosterLayout | kcrproc.c:40-79 | the nested traversal lists individual i of population p at entry Offset(p) + i, with its population's index and its position |
| Simulator.RosterBias1D | kcrproc.c:345-372 | the nested loop accumulates exactly the 1D bias sum over the roster |
| Simulator.RosterBias2D | kcrproc.c:182-215 | the nested loop accumulates exactly the 2D bias sum and popsum over the roster |
| Simulator.NewPopulations | kcrinit.c:127-137 | P new populations, listed from index P−1 down to 0. Each has no_indivs individuals listed from no_indivs−1 down to 0, none shared, all outside the lattice |
| Simulator.Simulation.constructor | kcrinit.c:101-112 | the root holds the given parameters and tables, and its clock is 0 |
| Simulator.Simulation.Init | kcrinit.c:36-142 | succeeds exactly when both table files exist and parse and the environment file, if any, parses. The root then holds those tables and the parameters, with the clock at 0. Its populations run P−1..0, individuals no_indivs−1..0, all at the sentinel position |
| Simulator.Simulation.Assemble | kcrinit.c:101-137 | the root built after the tables: parameters, clock 0, populations and individuals in list order, all at the sentinel |
| Simulator.Simulation.MoveIndividual | kcrproc.c:110-285 | only the mover's position changes, to the 2D kernel move of the current roster |
| Simulator.Simulation.MoveIndividual1D | kcrproc.c:300-413 | only the mover's position changes, to the 1D kernel move, with y set to 0 |
| Simulator.Simulation.HandleIndividual | kcrproc.c:47-75 | one pass of the inner loop is one step of the tick specification, including its records and its bounds asserts |
| Simulator.Simulation.MovePopulation | kcrproc.c:44-76 | the loop over one population's individuals carries the tick from its first individual to the next population's |
| Simulator.Simulation.MoveAll | kcrproc.c:40-80 | the loop over all populations is the tick specification over the whole roster |
| Simulator.Simulation.PerformSimulation | kcrproc.c:23-95 | the simulation equals the run specification for the kernel's move. From an in-bounds start it completes, ends in bounds, and the clock ends at the tick count |
| Simulator.Simulation.PlaceRandomly | kcrinit.c:421-439 | the positions become the random placement, in list order, and the clock is 0 |
| Simulator.Simulation.PlacePopulation | kcrinit.c:427-435 | the individuals of population p get their random positions, and no one else moves |
| Simulator.Simulation.EndNumber | kcrinit.c:455-496 | a tab or newline after a digit does what the start-file step does: it stores x or y under the cursor, advances the cursor, and breaks or fails as the step does |
| Simulator.Simulation.StorePending | kcrinit.c:500-515 | the number pending at end of file is stored as the specification's finish stores it |
| Simulator.Simulation.ReadStart | kcrinit.c:441-519 | the file loop succeeds exactly when ParseStart does, and then leaves its positions, with the clock at 0 |
| Simulator.Simulation.SetInitConds | kcrinit.c:405-523 | with no start file the placement is random. With one, it is ParseStart's result, failing exactly when ParseStart does. The clock is 0 |

## Left out

- I/O is replaced by values. Files are `Option<seq<char>>`: `None` is a NULL `FILE *` and `Some` is the file's characters. What `printf` and `fprintf` write is a sequence of `Record`s.
- Randomness is replaced by parameters. `rand()/RAND_MAX` is a draw in [0, 1], and `rand()` for placement is a `nat`. Only that one scaling is modelled.
- Doubles are real numbers. Rounding, overflow to ±∞ and NaN are not modelled.
- Simulator.Simulation.Init: l_val (`spacing`) must be non-zero. With l_val = 0 the source divides by zero in `1/pow(l_val,2)` and compares `KCR_DIFF·l_val` against δ, which gives IEEE ±∞ or NaN. Real arithmetic cannot represent that.
- Kernel.Packed: when 1 + κ·popsum is 0, the quotient is taken as ±1 for a non-zero bias and as 0 for a zero bias. The source's IEEE ±∞ and 0/0 = NaN then pass through the `max`/`min` macros, whose definition is not part of this model.
- Lattice.Grid.Valid: requires box_width and box_height > 0. The source reads them with no check. A zero extent makes `rand() % box_width` and KCR_MOD divide by zero, which C leaves undefined.
- Lattice.Wrap: KCR_MOD is taken to be the non-negative remainder. For a coordinate inside the lattice moved by ±1, the argument lies in [−1, extent], and there a truncating `%` differs from the Euclidean one only at −1. The header defining KCR_MOD is not part of this model, so this case is assumed to give extent − 1, as a periodic lattice needs.
- Lattice.Diff: the header defining KCR_DIFF is not part of this model. It is taken as a − b on an absorbing lattice and as the shortest periodic displacement under KCR_PBC. When the displacement is exactly half the extent, it is taken as positive.
- The 2D kernel's radial factor 1/(2π·sqrt(dx² + dy²)) is the parameter `radial`: π, `sqrt` and `pow` are floating-point library calls.
- StartParser.StartStep: curr_val is a `nat`. The source accumulates into `unsigned long`, which wraps, and stores the result into an `int` position, which truncates. Neither is modelled.
- TableParser.Step: as in `StartParser.StartStep`, `curr_char` is a `char` compared with EOF. Where `char` is signed, a 0xFF byte equals EOF and ends the read early. The inputs here are sequences of characters, with no EOF inside them.
- `prev_char` is uninitialised before the first character in all three readers. It is taken as "not a digit and not a tab".
- The widths of `unsigned short` (no_pops, no_indivs, packing_term) and `unsigned long` (box sizes, x_val, y_val, current_time) are not modelled. Counts and indices are unbounded.
- The simulator holds each population's list and the population list as sequences in list order. The linked lists themselves are modelled and proved separately in `ListJrp` and `ListV2`, and are not wired into `Simulator`.
- Memory allocation failure (the `NULL` returns and `goto EXIT_LABEL` in kcr_init, kcr_pop_init and kcr_indiv_init) is not modelled. kcr_term, kcr_pop_term and kcr_indiv_term free memory and are not modelled.
- `kcr_setup_array` always returns `KCR_RC_OK`, and kcr_init ignores that value. A failed bounds assert or a NULL file ends the program, and `Simulation.Init` models that by returning `None`. The other asserts that input can trip are modelled the same way: `None`, `false` or `Aborted`. Two asserts are preconditions that every caller meets instead: kcrproc.c:32 (the clock is 0) is `requires currentTime == 0` on `Simulator.Simulation.PerformSimulation`, which kcrmain.c runs right after `kcr_set_init_conds` sets the clock to 0; listjrp.h:89 (a non-NULL root) is `requires Contents != []` on `ListJrp.ListRoot.DeleteFirst`, which kcr_term and kcr_pop_term call only after `LIST_GET_FIRST` returned an element. The weight asserts at kcrproc.c:231-238 and :378-381 are not modelled as aborts: `Lattice.Weights2DInUnitInterval` and `Lattice.Weights1DInUnitInterval` prove that they hold.
- env_weight is stored but never read by the movement, and the environment table does not enter the bias. The model keeps both as data.
- The a_ij and δ tables are indexed at [source + responder·no_pops], as kcrproc.c:192 and :354 do. Since the reader stores cell (x, y) at [x + y·no_pops], a row of the file is a responder and a column is a source.
- At an absorbing corner or wall with the bias saturated into it, every weight is 0, and the final `else` still moves the individual right. `Lattice.ZeroMassCornerMovesRight` and `Lattice.ZeroMassWallMovesRight` state what the code does, and the model follows it.
- `rand()` can equal `RAND_MAX`, so the draw lies in [0, total]. The model's draw u lies in [0, 1], and the bounds lemmas cover a draw equal to the total.
- Windows "\r\n" line ends are not special-cased by the readers. `TableParser.CarriageReturnExample` states what the code then does.
