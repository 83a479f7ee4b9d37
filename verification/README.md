# Plummer test-particle integrator and its configuration reader, in Dafny

This project models the two pieces of logic in the Plummer-sphere
test-particle program.

- **The configuration reader of `config-reader.h`.** It covers:
  - `classify_string`;
  - the constructor's line loop, which removes whitespace, skips blank and comment lines, splits at the first divider and stores the pair (later duplicates win);
  - the lookups `get` and `auto_get`;
  - the argument-count check of `read_command_line`.
- **The control structure of `plummer.cpp`.** It covers:
  - `calc_acceleration`, with the square root as a parameter `d` where `d * d = x² + y² + z² + a²` and `d > 0`;
  - `advance_coordinates`, the drift–kick–drift step, with the acceleration field as a function parameter;
  - `to_cartesian`, with the sines and cosines as a `Trig` record of four reals satisfying `sin² + cos² = 1`;
  - the driver loop `evolve`, with its time cursor and output cursor.

Doubles are exact `real`s throughout, so the lemmas state algebraic and
structural facts about the code, not numerical accuracy.

Three errors of the reader call `exit(0)`. Each becomes a `Failure`
carrying a `ConfigError`:

- `CannotOpenConfigFile`
- `InvalidKey`
- `WrongArgsNumber`

The model records that the run stops, and with which error.

`ConversionFailed` stands for the exception that `std::stoi` or
`std::stod` throws in `auto_get` when a value does not convert or is out of
range. Nothing catches it, so the program ends through `std::terminate`,
not `exit(0)`. The model records it as a `Failure` like the others.

Two quirks of the reader are kept, not fixed:

- **A line without a divider stores the whole line as both key and value.** `find` answers `npos`, and `npos + 1` wraps to 0. `NPOS` is 2^64 − 1 and the wrap is written out as `(split + 1) % 2^64`.
- **`classify_string` never answers `Float`.** Its digit loop stops at `'.'` before the point flag can be set.

`auto_get` picks its branch by classifying the key, not the value.

With `end_time = 1`, `time_step = 0.1` and `out_interval = 0.25`, the loop
writes at 0, 0.3, 0.5 and 0.8 over exact reals. It fires whenever
`t >= output_time`. A write then moves the cursor one interval from its
previous value, not from the time of the write (`Evolution.OutputTimesExample`).

Modules:

- `Outcomes`: `Option`, `Result` and map `Lookup`.
- `ConfigReader`: all of config-reader.h that is modelled.
- `Coordinates`: the `Coord` triple, vector algebra and `to_cartesian`.
- `PlummerSystem`: the `Plummer` record, `calc_acceleration` and `advance_coordinates`.
- `Evolution`: `evolve`.

## Model

| member | source | states |
|---|---|---|
| ConfigReader.ScanDigits | config-reader.h:24-29 | The digit loop stops at the first non-digit, with all characters before it digits; the point flag leaves the loop unchanged, because the loop never visits a '.'. |
| ConfigReader.ClassifyString | config-reader.h:21-44 | `Empty` exactly for the empty token; `Integer` exactly for a non-empty all-digit token; `String` exactly when some character is not a digit; never `Float`. |
| ConfigReader.ClassifyDecimalIsString | config-reader.h:21-44 | "1.5" is classified `String`, "15" `Integer` and "" `Empty`. |
| ConfigReader.StripSpaces | config-reader.h:53 | The result has no whitespace, is no longer than the line, and is the line itself when the line had none. |
| ConfigReader.StripSpacesConcat | config-reader.h:53 | Removing whitespace distributes over concatenation. |
| ConfigReader.StripSpacesKeepsOthers | config-reader.h:53 | Every non-whitespace character keeps its number of occurrences, so only whitespace is removed. |
| ConfigReader.StripSpacesIdempotent | config-reader.h:53 | Stripping twice is stripping once. |
| ConfigReader.StripLeadingSpace | config-reader.h:53 | A leading whitespace character is dropped. |
| ConfigReader.Substr | config-reader.h:59-60 | `substr(pos, count)` returns the characters of the string from `pos` on, `count` of them or as many as remain, whichever is fewer. |
| ConfigReader.Find | config-reader.h:58 | `NPOS` exactly when the character is absent; otherwise the first position holding it. |
| ConfigReader.SplitLine | config-reader.h:58-60 | With a divider, the line is key + divider + value and the key has no divider; without one, key and value are both the whole line (the `npos + 1` wrap). |
| ConfigReader.SplitLineUnique | config-reader.h:58-60 | Splitting key + divider + value with a divider-free key recovers exactly that key and value, so the value may contain further dividers. |
| ConfigReader.LineEntry | config-reader.h:53-60 | A line is skipped exactly when it is empty after stripping or starts with the comment character. Otherwise it yields a whitespace-free key without the divider and a whitespace-free value, split at the first divider or both equal to the line. |
| ConfigReader.LineEntryOfPair | config-reader.h:53-60 | A line that strips to key + divider + value, with a divider-free key and no comment mark in front, contributes exactly (key, value). |
| ConfigReader.ProcessLine | config-reader.h:55-61 | A skipped line leaves the map unchanged. Otherwise the key is set to the value, no other key changes, and the key set grows by at most that key. |
| ConfigReader.ParseLines | config-reader.h:52-62 | No contract of its own. The `getline` loop folds `ProcessLine` over the lines in order; `ParseLinesSnoc`, `ParseLinesSpaceFree` and `ParseLinesLastWins` state its properties. |
| ConfigReader.ParseLinesSpaceFree | config-reader.h:52-62 | After parsing, no stored key or value contains whitespace. |
| ConfigReader.ParseLinesSnoc | config-reader.h:52-62 | Parsing one more line is processing it after the others. |
| ConfigReader.ParseSingleLine | config-reader.h:52-62 | Parsing a one-line file is processing that line. |
| ConfigReader.ParseLinesLastWins | config-reader.h:52-62 | For every key, the parsed map holds the value given by the last line that defines it, found by scanning from the end. |
| ConfigReader.ReadConfig | config-reader.h:48-68 | The file fails to open exactly when the result is `CannotOpenConfigFile`. Otherwise the map is whitespace-free and agrees with last-definition-wins for every key. |
| ConfigReader.StripSpacesExample | config-reader.h:53 | "a = 1" strips to "a=1". |
| ConfigReader.DuplicateExampleEntries | config-reader.h:53-60 | "a = 1" and "a=2" yield the pairs (a, 1) and (a, 2). |
| ConfigReader.ReadConfigDuplicateExample | config-reader.h:52-62 | "a = 1" followed by "a=2" leaves a ↦ 2. |
| ConfigReader.ReadConfigNoDividerExample | config-reader.h:58-61 | The line "novalue" maps "novalue" to itself. |
| ConfigReader.ReadConfigFirstDividerExample | config-reader.h:58-61 | "x=y=z" maps x to "y=z". |
| ConfigReader.ReadConfigSkipsExample | config-reader.h:53-56 | An indented comment line and a whitespace-only line leave the map empty. |
| ConfigReader.Get | config-reader.h:73-85 | Fails, with `InvalidKey`, exactly when the key is absent; otherwise it returns the extraction of the stored text. |
| ConfigReader.GetStringWhole | config-reader.h:73-85 | On a whitespace-free map, as the constructor builds, `get<std::string>` returns a present key's stored value whole and fails with `InvalidKey` on an absent one. |
| ConfigReader.AutoGet | config-reader.h:87-102 | `InvalidKey` exactly when the key is absent. Never a double. A key not classified `Integer` returns the stored text. An `Integer` key returns `stoi` of the value, or `ConversionFailed`. |
| ConfigReader.AutoGetDispatchesOnKey | config-reader.h:88-97 | A numeric value under key "M" comes back as text; a missing key fails; key "7" is converted by `stoi` whatever the value. |
| ConfigReader.JoinArgs | config-reader.h:123-126 | The stream text is non-empty and ends in a space whenever there are arguments. |
| ConfigReader.Word | config-reader.h:127 | The word read is the longest whitespace-free prefix of the text: it has no whitespace, the next character (if any) is whitespace, and it is non-empty when the text starts with a non-space. |
| ConfigReader.Tokens | config-reader.h:127 | Each string that successive `>>` extractions read from the text is a non-empty, whitespace-free word. `TokensOfJoinArgs` shows that they are the arguments. |
| ConfigReader.WordBeforeSpace | config-reader.h:123-127 | Reading a word from word + " " + rest gives back the word. |
| ConfigReader.TokensOfWordBeforeSpace | config-reader.h:123-127 | One extraction from word + " " + rest reads the word and leaves the rest to the following extractions. |
| ConfigReader.TokensOfJoinArgs | config-reader.h:123-127 | Extracting whitespace-separated words from the joined arguments gives back the arguments, when each is a single word. |
| ConfigReader.ReadCommandLine | config-reader.h:115-129 | Fails, with `WrongArgsNumber`, exactly when argc ≠ n + 1; otherwise the stream text reads back as argv[1..] when each argument is a single word. |
| Coordinates.SphericalFrameOrthonormal | plummer.cpp:104-116 | Given sin² + cos² = 1 for both angles, the radial, polar and azimuthal unit vectors are orthonormal. |
| Coordinates.ToCartesian | plummer.cpp:104-119 | No contract of its own. It is the conversion, with the trigonometric values as parameters; `ToCartesianFrame`, `ToCartesianPosition`, `ToCartesianRadialVelocity` and `ToCartesianSpeed` state its properties. |
| Coordinates.PositionInFrame | plummer.cpp:110-112 | The position is r times the radial unit vector. |
| Coordinates.VelocityInFrame | plummer.cpp:114-116 | The velocity is v_r along the radial vector, plus r·v_phi along the polar vector, plus r·sin(phi)·v_theta along the azimuthal vector (the chain rule). |
| Coordinates.ToCartesianFrame | plummer.cpp:104-119 | The two frame decompositions, for whole position and velocity records. |
| Coordinates.ToCartesianPosition | plummer.cpp:110-112 | The position has squared length r² and z = r cos(phi), and r = 0 gives the origin. |
| Coordinates.ToCartesianAtOrigin | plummer.cpp:110-116 | At r = 0 the position is the origin and the velocity is v_r times the radial unit vector. |
| Coordinates.ToCartesianRadialVelocity | plummer.cpp:104-116 | Position · velocity = r · v_r. |
| Coordinates.ToCartesianSpeed | plummer.cpp:114-116 | Squared speed = v_r² + r² (v_phi² + sin²(phi) v_theta²). |
| PlummerSystem.Strength | plummer.cpp:69-71 | The coefficient −G M / d³ is ≤ 0 for M ≥ 0 and < 0 for M > 0, and times d³ it gives −G M. |
| PlummerSystem.AccelerationComponent | plummer.cpp:69-71 | Each component −G M q / d³ is the coefficient times q. |
| PlummerSystem.CentralPull | plummer.cpp:69-72 | A multiple c of the position has no torque. For c ≤ 0 it points inward, and strictly so off the origin when c < 0. |
| PlummerSystem.CalcAcceleration | plummer.cpp:66-73 | The acceleration is (−G M / d³) times the position. It has no torque about the centre, points inward for M ≥ 0, and points strictly inward for M > 0 away from the origin. |
| PlummerSystem.Drift | plummer.cpp:48-50 | The componentwise update `p += v * h` is p + h·v. |
| PlummerSystem.Kick | plummer.cpp:53-55 | The componentwise update `v += a * dt` is v + dt·a: the drift update applied to the velocity. |
| PlummerSystem.MidPoint | plummer.cpp:47-50 | The position after the first half drift is p + (dt/2)·v, the point where the acceleration is evaluated. |
| PlummerSystem.AdvanceCoordinates | plummer.cpp:46-60 | t, M and a are unchanged. The new velocity is v + dt · acc(p + v dt/2). The new position is p + (v_old + v_new) dt/2. |
| PlummerSystem.DriftBack | plummer.cpp:48-50 | A drift for −h undoes a drift for h. |
| PlummerSystem.KickBack | plummer.cpp:53-55 | A kick for −dt with the same acceleration undoes a kick for dt. |
| PlummerSystem.AdvanceReversible | plummer.cpp:46-60 | A step with dt followed by a step with −dt returns exactly the starting state. |
| PlummerSystem.AdvanceFreeDrift | plummer.cpp:46-60 | With zero acceleration at the midpoint, the velocity is kept and the position moves by dt·v. |
| PlummerSystem.DriftKeepsMoment | plummer.cpp:48-50 | A drift leaves p × v unchanged. |
| PlummerSystem.KickKeepsMoment | plummer.cpp:53-55 | A kick parallel to the position leaves p × v unchanged. |
| PlummerSystem.AdvanceConservesAngularMomentum | plummer.cpp:46-60 | A step conserves p × v whenever the midpoint acceleration is parallel to the midpoint. |
| PlummerSystem.PlummerStepConservesAngularMomentum | plummer.cpp:46-73 | A step driven by `calc_acceleration` at the midpoint conserves p × v. |
| Evolution.StepsLeftDrops | plummer.cpp:131 | With a positive step, time is left exactly when a positive number of steps is left (both directions), and each step uses up exactly one. |
| Evolution.StrideIsMultiple | plummer.cpp:130-135 | Moving k times by a step is moving by k times the step, so after k writes the cursor is k · out_interval. |
| Evolution.StrideShift | plummer.cpp:130-135 | k + 1 strides from c are k strides from c + step. |
| Evolution.Tick | plummer.cpp:131-137 | A pass advances the clock by exactly one time step. |
| Evolution.Iterate | plummer.cpp:131-137 | After n passes the clock has moved n steps. |
| Evolution.Run | plummer.cpp:129-139 | The loop ends in the state reached after its number of passes, at or after the end time. Entered at or after the end time it does nothing. It writes at most once per pass. |
| Evolution.RunUnfold | plummer.cpp:131-137 | One pass before the end time writes the current state if the output cursor is reached, moving the cursor one interval, and then continues from the advanced state. |
| Evolution.RunMovesCursor | plummer.cpp:130-136 | After k writes, the output cursor has moved exactly k intervals. |
| Evolution.RunStopsAtEnd | plummer.cpp:131 | The loop overshoots the end time by less than one step. |
| Evolution.RunWritesBeforeEnd | plummer.cpp:131-136 | Every state written has a time in [start, end_time). |
| Evolution.RunFollowsCadence | plummer.cpp:130-136 | The k-th state written (from 0) has time at least cursor₀ + k · out_interval. |
| Evolution.RunWritesOncePerStep | plummer.cpp:131-137 | Consecutive writes are at least one step apart, and the step is positive whenever anything is written, so write times strictly increase. |
| Evolution.RunWritesEntryStateFirst | plummer.cpp:130-137 | Entered before the end time with the cursor reached, the loop writes the entry state first. For a run starting at t = 0, that is the initial state. |
| Evolution.RunOutputTimes | plummer.cpp:130-137 | The times of the written states are exactly the times listed by the clock-only model of the cadence. |
| Evolution.OutputTimesExample | plummer.cpp:130-137 | With end 1, step 0.1 and interval 0.25 the writes are at 0, 0.3, 0.5 and 0.8. |
| Evolution.StepperKeepsTime | plummer.cpp:46-60 | `advance_coordinates` leaves the clock alone. |
| Evolution.Stepper | plummer.cpp:137 | No contract of its own. It is `advance_coordinates(time_step)` as a step function; `StepperKeepsTime` and `Evolution.Evolve` state its properties. |
| Evolution.EvolveLoop | plummer.cpp:130-139 | The loop's final state and written states are those of `Run` with the output cursor starting at 0. |
| Evolution.Evolve | plummer.cpp:125-143 | If the output cannot be opened, nothing is written and the system is unchanged. Otherwise the final state and the written states are those of `Run` with the `advance_coordinates` step. |

## Left out

- **File and stream I/O.** Opening and reading the configuration file, the output `fstream`, the console messages and `operator<<` are not modelled. The file is a sequence of lines plus a "was opened" flag. The output is the sequence of states written.
- **Stream extraction and library conversions.** `ss >> value` in `get` is the parameter `extract`. `std::stoi` and `std::stod` in `auto_get` are parameters returning `None` when the library would throw. `>>` into a string in `read_command_line` is modelled as reading whitespace-separated words; extraction into other types is not modelled.
- **`config_map` and `CONFIG_MAPPING`.** This variadic template machinery is unused (its only use in plummer.cpp is commented out), and it returns nothing.
- **The empty `calc_angular_momentum` stub, and `main`.** `main` only wires the configuration values into `to_cartesian`, the `Plummer` constructor and `evolve`.
- **Floating point.** Rounding, NaN and infinity are not modelled; in particular the NaN that `calc_acceleration` produces at a = 0 on the origin. `d > 0` is required instead.
- **`sqrt`, `sin` and `cos`.** They are constrained parameters, not computed. The inverse conversion from Cartesian to spherical coordinates needs `atan2`, so it is not modelled.
- **Energy conservation and symplecticity.** These are numerical claims about a floating-point integrator and are not stated.
- **A loop that never ends.** With a time step ≤ 0 and time left, `evolve` loops forever. `Evolution.Evolve` requires a positive step in that case (`Finite`).
- **Evolution.Tick: does not re-read the clock after the step.** It sets t to the old t plus the step, while the source adds the step to the time left by `advance_coordinates`. The two agree because `advance_coordinates` never changes t (`PlummerSystem.AdvanceCoordinates`, `Evolution.StepperKeepsTime`). `Evolution.EvolveLoop`, which runs the source's statements, requires `KeepsTime`.
- **The `Coord` union.** The union that overlays (x, y, z) and (r, phi, theta) is two records, `Coord` and `Spherical`, of three reals each.
- **Characters, not bytes.** Strings are sequences of Unicode characters, while `std::string` holds bytes. For an ASCII divider and comment character no result changes, because the C-locale `isdigit` and `isspace` tests reject every non-ASCII byte.
- **Default arguments.** The constructor's defaults `divider = '='` and `commenter = '#'` become ordinary parameters of `ReadConfig`, `LineEntry` and the functions between them; a caller relying on the defaults passes '=' and '#'.
- **Size limits.** Lines are assumed shorter than 2^64 − 1 characters (`Representable`), so that `find` can answer with a real position.
