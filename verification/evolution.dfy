/** The driver loop `evolve` of plummer.cpp: a time cursor that advances the
    system by one step per pass, and an output cursor that decides when the
    current state is written before the step. The output file is reduced to
    whether it could be opened and the sequence of states written to it. */
module Evolution {
  import opened Outcomes
  import opened Coordinates
  import opened PlummerSystem

  /** The run parameters: end time, time step, output interval and the name
      of the output file. */
  datatype Args = Args(endTime: real, timeStep: real, outInterval: real, fileName: string)

  /** What a run of the loop leaves behind: the final state, the states
      written in order, the output cursor and the number of passes. */
  datatype Outcome = Outcome(final: Plummer, written: seq<Plummer>, outputTime: real, steps: nat)

  /** The loop stops: either the step is positive or there is nothing to do.
      With a zero or negative step and time left the source loops forever. */
  predicate Finite(t: real, args: Args)
  {
    args.timeStep > 0.0 || t >= args.endTime
  }

  /** The remaining time measured in steps: the loop's termination measure. */
  function StepsLeft(t: real, args: Args): real
  {
    (args.endTime - t) / (if args.timeStep > 0.0 then args.timeStep else 1.0)
  }

  lemma DivUnique(x: real, s: real, y: real)
    requires s != 0.0 && y * s == x
    ensures x / s == y
  {
  }

  /** Time is left exactly when a positive number of steps is left, and one
      step less remains after a step. */
  lemma {:induction false} StepsLeftDrops(t: real, args: Args)
    requires args.timeStep > 0.0
    ensures t < args.endTime ==> StepsLeft(t, args) > 0.0
    ensures StepsLeft(t, args) > 0.0 ==> t < args.endTime
    ensures StepsLeft(t + args.timeStep, args) == StepsLeft(t, args) - 1.0
  {
    var e, s := args.endTime, args.timeStep;
    var q := (e - t) / s;
    DivUnique(e - t, s, q);
    if q > 0.0 { assert q * s > 0.0; }
    assert q * s == e - t;
    DivUnique(e - (t + s), s, q - 1.0);
  }

  /** `c` moved on k times by `step`, one step at a time: the clock after k
      passes of the loop, or the output cursor after k writes. */
  function Stride(c: real, step: real, k: nat): real
  {
    if k == 0 then c else Stride(c, step, k - 1) + step
  }

  /** k strides are k times the step. */
  lemma {:induction false} StrideIsMultiple(c: real, step: real, k: nat)
    ensures Stride(c, step, k) == c + k as real * step
  {
    if k > 0 {
      StrideIsMultiple(c, step, k - 1);
      assert (k - 1) as real * step + step == k as real * step;
    }
  }

  /** k + 1 strides from `c` are k strides from `c + step`. */
  lemma {:induction false} StrideShift(c: real, step: real, k: nat)
    ensures Stride(c + step, step, k) == Stride(c, step, k + 1)
  {
    if k > 0 {
      StrideShift(c, step, k - 1);
    }
  }

  /** One pass of the loop after the optional output: the step
      `advance_coordinates(time_step)`, then `t += time_step`. The loop is
      stated for any step `advance` (one that keeps `t`, as
      `AdvanceCoordinates` does, makes `advance(sys).t` equal to `sys.t`). */
  function Tick(sys: Plummer, dt: real, advance: Plummer -> Plummer): (next: Plummer)
    ensures next.t == sys.t + dt
  {
    advance(sys).(t := sys.t + dt)
  }

  /** The step leaves the clock alone, as `advance_coordinates` does; the
      loop moves it. */
  ghost predicate KeepsTime(advance: Plummer -> Plummer)
  {
    forall s :: advance(s).t == s.t
  }

  /** The state after n passes of the loop body. */
  function Iterate(sys: Plummer, dt: real, advance: Plummer -> Plummer, n: nat): (s: Plummer)
    ensures s.t == Stride(sys.t, dt, n)
    decreases n
  {
    if n == 0 then sys
    else
      StrideShift(sys.t, dt, n - 1);
      Iterate(Tick(sys, dt, advance), dt, advance, n - 1)
  }

  /** The loop of `evolve` entered with state `sys` and output cursor
      `outputTime`: it stops at the first state at or after the end time,
      reached by iterating the loop body, and writes at most once per pass. */
  function Run(sys: Plummer, args: Args, advance: Plummer -> Plummer, outputTime: real): (r: Outcome)
    requires Finite(sys.t, args)
    ensures r.final == Iterate(sys, args.timeStep, advance, r.steps)
    ensures r.final.t >= args.endTime
    ensures sys.t >= args.endTime ==> r.steps == 0 && r.written == []
    ensures |r.written| <= r.steps
    decreases StepsLeft(sys.t, args)
  {
    if !(sys.t < args.endTime) then Outcome(sys, [], outputTime, 0)
    else
      StepsLeftDrops(sys.t, args);
      var next := Tick(sys, args.timeStep, advance);
      if sys.t >= outputTime then
        var rest := Run(next, args, advance, outputTime + args.outInterval);
        Outcome(rest.final, [sys] + rest.written, rest.outputTime, rest.steps + 1)
      else
        var rest := Run(next, args, advance, outputTime);
        Outcome(rest.final, rest.written, rest.outputTime, rest.steps + 1)
  }

  /** After k writes the output cursor has moved k intervals. */
  lemma {:induction false} RunMovesCursor(sys: Plummer, args: Args, advance: Plummer -> Plummer, outputTime: real)
    requires Finite(sys.t, args)
    ensures var r := Run(sys, args, advance, outputTime);
            r.outputTime == Stride(outputTime, args.outInterval, |r.written|)
    decreases StepsLeft(sys.t, args)
  {
    if sys.t < args.endTime {
      StepsLeftDrops(sys.t, args);
      var next := Tick(sys, args.timeStep, advance);
      if sys.t >= outputTime {
        var c := outputTime + args.outInterval;
        RunMovesCursor(next, args, advance, c);
        var rest := Run(next, args, advance, c);
        assert |Run(sys, args, advance, outputTime).written| == |rest.written| + 1;
        StrideShift(outputTime, args.outInterval, |rest.written|);
      } else {
        RunMovesCursor(next, args, advance, outputTime);
      }
    }
  }

  /** One pass of the loop before the end time: write if the output cursor
      has been reached, then continue from the next state. */
  lemma RunUnfold(sys: Plummer, args: Args, advance: Plummer -> Plummer, outputTime: real)
    requires Finite(sys.t, args) && sys.t < args.endTime
    ensures var next := Tick(sys, args.timeStep, advance);
            var c := if sys.t >= outputTime then outputTime + args.outInterval else outputTime;
            Finite(next.t, args) &&
            Run(sys, args, advance, outputTime).final == Run(next, args, advance, c).final &&
            Run(sys, args, advance, outputTime).written
              == (if sys.t >= outputTime then [sys] else []) + Run(next, args, advance, c).written
  {
  }

  /** The loop overshoots the end time by less than one step. */
  lemma {:induction false} RunStopsAtEnd(sys: Plummer, args: Args, advance: Plummer -> Plummer, outputTime: real)
    requires Finite(sys.t, args)
    ensures var r := Run(sys, args, advance, outputTime);
            r.steps > 0 ==> r.final.t - args.timeStep < args.endTime
    decreases StepsLeft(sys.t, args)
  {
    if sys.t < args.endTime {
      StepsLeftDrops(sys.t, args);
      var next := Tick(sys, args.timeStep, advance);
      if sys.t >= outputTime {
        RunStopsAtEnd(next, args, advance, outputTime + args.outInterval);
      } else {
        RunStopsAtEnd(next, args, advance, outputTime);
      }
    }
  }

  /** Every state in `w` has a time in [lo, hi). */
  predicate TimesWithin(w: seq<Plummer>, lo: real, hi: real)
  {
    forall k :: 0 <= k < |w| ==> lo <= w[k].t < hi
  }

  /** The k-th state in `w` is at or after slot k of the cadence from `c`. */
  predicate OnCadence(w: seq<Plummer>, c: real, interval: real)
  {
    forall k :: 0 <= k < |w| ==> w[k].t >= Stride(c, interval, k)
  }

  /** Consecutive states in `w` are at least `dt` apart in time. */
  predicate StepApart(w: seq<Plummer>, dt: real)
  {
    forall k :: 0 < k < |w| ==> w[k - 1].t + dt <= w[k].t
  }

  /** Every state written has a time between the start and the end time. */
  lemma {:induction false} RunWritesBeforeEnd(sys: Plummer, args: Args, advance: Plummer -> Plummer, outputTime: real)
    requires Finite(sys.t, args)
    ensures TimesWithin(Run(sys, args, advance, outputTime).written, sys.t, args.endTime)
    decreases StepsLeft(sys.t, args)
  {
    if sys.t < args.endTime {
      StepsLeftDrops(sys.t, args);
      var next := Tick(sys, args.timeStep, advance);
      var c := if sys.t >= outputTime then outputTime + args.outInterval else outputTime;
      RunWritesBeforeEnd(next, args, advance, c);
      var w := Run(sys, args, advance, outputTime).written;
      var rest := Run(next, args, advance, c).written;
      assert TimesWithin(rest, next.t, args.endTime);
      if sys.t >= outputTime {
        assert w == [sys] + rest;
        forall k | 0 < k < |w|
          ensures sys.t <= w[k].t < args.endTime
        {
          assert w[k] == rest[k - 1];
        }
      } else {
        assert w == rest;
      }
    }
  }

  /** The k-th state written (from 0) is at or after slot k of the output
      cadence, `outputTime + k * out_interval` by `StrideIsMultiple`. */
  lemma {:induction false} RunFollowsCadence(sys: Plummer, args: Args, advance: Plummer -> Plummer, outputTime: real)
    requires Finite(sys.t, args)
    ensures OnCadence(Run(sys, args, advance, outputTime).written, outputTime, args.outInterval)
    decreases StepsLeft(sys.t, args)
  {
    if sys.t < args.endTime {
      StepsLeftDrops(sys.t, args);
      var next := Tick(sys, args.timeStep, advance);
      var w := Run(sys, args, advance, outputTime).written;
      if sys.t >= outputTime {
        var c := outputTime + args.outInterval;
        RunFollowsCadence(next, args, advance, c);
        var rest := Run(next, args, advance, c).written;
        assert OnCadence(rest, c, args.outInterval);
        assert w == [sys] + rest;
        forall k | 0 < k < |w|
          ensures w[k].t >= Stride(outputTime, args.outInterval, k)
        {
          assert w[k] == rest[k - 1];
          assert rest[k - 1].t >= Stride(c, args.outInterval, k - 1);
          StrideShift(outputTime, args.outInterval, k - 1);
        }
      } else {
        RunFollowsCadence(next, args, advance, outputTime);
        assert w == Run(next, args, advance, outputTime).written;
      }
    }
  }

  /** Consecutive writes are at least one step apart, so at most one state
      is written per pass and, the step being positive whenever anything is
      written, the times written strictly increase. */
  lemma {:induction false} RunWritesOncePerStep(sys: Plummer, args: Args, advance: Plummer -> Plummer, outputTime: real)
    requires Finite(sys.t, args)
    ensures StepApart(Run(sys, args, advance, outputTime).written, args.timeStep)
    ensures |Run(sys, args, advance, outputTime).written| > 0 ==> args.timeStep > 0.0
    decreases StepsLeft(sys.t, args)
  {
    if sys.t < args.endTime {
      StepsLeftDrops(sys.t, args);
      var next := Tick(sys, args.timeStep, advance);
      var c := if sys.t >= outputTime then outputTime + args.outInterval else outputTime;
      RunWritesOncePerStep(next, args, advance, c);
      var w := Run(sys, args, advance, outputTime).written;
      var rest := Run(next, args, advance, c).written;
      assert StepApart(rest, args.timeStep);
      if sys.t >= outputTime {
        RunWritesBeforeEnd(next, args, advance, c);
        assert TimesWithin(rest, next.t, args.endTime);
        assert w == [sys] + rest;
        forall k | 0 < k < |w|
          ensures w[k - 1].t + args.timeStep <= w[k].t
        {
          assert w[k] == rest[k - 1];
          if k > 1 {
            assert w[k - 1] == rest[k - 2];
          }
        }
      } else {
        assert w == rest;
      }
    }
  }

  /** When the loop is entered before the end time with the output cursor
      already reached, the first state written is the entry state. */
  lemma RunWritesEntryStateFirst(sys: Plummer, args: Args, advance: Plummer -> Plummer, outputTime: real)
    requires Finite(sys.t, args)
    requires outputTime <= sys.t < args.endTime
    ensures var w := Run(sys, args, advance, outputTime).written;
            |w| > 0 && w[0] == sys
  {
  }

  /** The times alone: the loop of `evolve` with every state replaced by its
      time, listing the times at which a state is written. */
  function OutputTimes(t: real, args: Args, outputTime: real): (times: seq<real>)
    requires Finite(t, args)
    decreases StepsLeft(t, args)
  {
    if !(t < args.endTime) then []
    else
      StepsLeftDrops(t, args);
      if t >= outputTime then [t] + OutputTimes(t + args.timeStep, args, outputTime + args.outInterval)
      else OutputTimes(t + args.timeStep, args, outputTime)
  }

  /** The states `Run` writes carry exactly the times `OutputTimes` lists:
      the cadence depends on the clock alone, not on the motion. */
  lemma {:induction false} RunOutputTimes(sys: Plummer, args: Args, advance: Plummer -> Plummer, outputTime: real)
    requires Finite(sys.t, args)
    ensures |Run(sys, args, advance, outputTime).written| == |OutputTimes(sys.t, args, outputTime)|
    ensures forall k :: 0 <= k < |Run(sys, args, advance, outputTime).written| ==>
              Run(sys, args, advance, outputTime).written[k].t == OutputTimes(sys.t, args, outputTime)[k]
    decreases StepsLeft(sys.t, args)
  {
    if sys.t < args.endTime {
      StepsLeftDrops(sys.t, args);
      var next := Tick(sys, args.timeStep, advance);
      if sys.t >= outputTime {
        RunOutputTimes(next, args, advance, outputTime + args.outInterval);
      } else {
        RunOutputTimes(next, args, advance, outputTime);
      }
    }
  }

  /** From t = 0 to 1 with step 0.1 and output interval 0.25 the states at
      0, 0.3, 0.5 and 0.8 are written: a write at time t moves the output
      cursor one interval on from its previous value, not from t. */
  lemma OutputTimesExample()
    ensures OutputTimes(0.0, Args(1.0, 0.1, 0.25, "out.txt"), 0.0) == [0.0, 0.3, 0.5, 0.8]
  {
    var args := Args(1.0, 0.1, 0.25, "out.txt");
    assert OutputTimes(0.8, args, 0.75) == [0.8];
    assert OutputTimes(0.5, args, 0.5) == [0.5, 0.8];
    assert OutputTimes(0.3, args, 0.25) == [0.3, 0.5, 0.8];
  }

  /** `advance_coordinates` with a fixed time step and acceleration field,
      as a step function. */
  function Stepper(dt: real, accel: Coord -> Coord): Plummer -> Plummer
  {
    s => AdvanceCoordinates(s, dt, accel)
  }

  /** `advance_coordinates` leaves the clock alone. */
  lemma StepperKeepsTime(dt: real, accel: Coord -> Coord)
    ensures KeepsTime(Stepper(dt, accel))
  {
    forall s: Plummer
      ensures Stepper(dt, accel)(s).t == s.t
    {
      assert Stepper(dt, accel)(s) == AdvanceCoordinates(s, dt, accel);
    }
  }

  /** The loop of `evolve` with the output cursor starting at 0, for the
      step `advance`: the state is written when the time has reached the
      output cursor, which then moves one interval; then the state is
      advanced and its time moves one step. */
  method EvolveLoop(sys: Plummer, args: Args, advance: Plummer -> Plummer)
    returns (final: Plummer, written: seq<Plummer>)
    requires Finite(sys.t, args)
    requires KeepsTime(advance)
    ensures final == Run(sys, args, advance, 0.0).final
    ensures written == Run(sys, args, advance, 0.0).written
  {
    var outputTime := 0.0;
    var cur := sys;
    var snaps: seq<Plummer> := [];
    while cur.t < args.endTime
      invariant Finite(cur.t, args)
      invariant Run(sys, args, advance, 0.0).final == Run(cur, args, advance, outputTime).final
      invariant Run(sys, args, advance, 0.0).written == snaps + Run(cur, args, advance, outputTime).written
      decreases if cur.t < args.endTime then StepsLeft(cur.t, args) + 1.0 else 0.0
    {
      StepsLeftDrops(cur.t, args);
      RunUnfold(cur, args, advance, outputTime);
      ghost var next := Tick(cur, args.timeStep, advance);
      if cur.t >= outputTime {
        snaps := snaps + [cur];
        outputTime := outputTime + args.outInterval;
      }
      cur := advance(cur);
      cur := cur.(t := cur.t + args.timeStep);
      assert cur == next;
    }
    assert Run(cur, args, advance, outputTime).written == [];
    assert snaps + [] == snaps;
    return cur, snaps;
  }

  /** `evolve`. If the output file cannot be opened nothing is written and
      the system is left as it is; otherwise the loop runs with the step
      `advance_coordinates(time_step)` and the states written are
      recorded. */
  method Evolve(sys: Plummer, args: Args, outputOpened: bool, accel: Coord -> Coord)
    returns (final: Plummer, written: Option<seq<Plummer>>)
    requires outputOpened ==> Finite(sys.t, args)
    ensures !outputOpened ==> final == sys && written == None
    ensures outputOpened ==> final == Run(sys, args, Stepper(args.timeStep, accel), 0.0).final
    ensures outputOpened ==> written == Some(Run(sys, args, Stepper(args.timeStep, accel), 0.0).written)
  {
    if !outputOpened {
      return sys, None;
    }
    var snaps;
    StepperKeepsTime(args.timeStep, accel);
    final, snaps := EvolveLoop(sys, args, Stepper(args.timeStep, accel));
    written := Some(snaps);
  }
}
