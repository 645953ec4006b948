/** Progress of a stage: outer steps, each refined by the ticks of its backend call. */
module Progress {

  const PROGRESS_SCALE := 4
  const U64 := 0x1_0000_0000_0000_0000

  type Emission = (nat, nat)   // completed, total

  function Mul64(a: nat, b: nat): nat {
    a * b % U64
  }

  function EmitScaled(outerTotal: nat, kMinus1: nat, i: nat, n: nat): Emission {
    var inner := if n == 0 then 0 else Mul64(i, PROGRESS_SCALE) / n;
    ((Mul64(kMinus1, PROGRESS_SCALE) + inner) % U64, Mul64(outerTotal, PROGRESS_SCALE))
  }

  datatype Call = StartStep | Tick(i: nat, n: nat) | Finish

  /** The step counter after a call. */
  function NextStep(step: nat, call: Call): nat {
    if call.StartStep? then (step + 1) % U64 else step
  }

  /** What a call emits, given the step counter before it. */
  function EmissionOf(outerTotal: nat, step: nat, call: Call): Emission {
    match call
    case StartStep => EmitScaled(outerTotal, step, 0, 1)
    case Tick(i, n) => EmitScaled(outerTotal, if step > 0 then step - 1 else 0, i, n)
    case Finish => EmitScaled(outerTotal, outerTotal, 0, 1)
  }

  function Emissions(outerTotal: nat, step: nat, calls: seq<Call>): seq<Emission>
    decreases |calls|
  {
    if |calls| == 0 then []
    else [EmissionOf(outerTotal, step, calls[0])] + Emissions(outerTotal, NextStep(step, calls[0]), calls[1..])
  }

  class ScaledProgress {
    const outerTotal: nat
    var outerStep: nat
    var emitted: seq<Emission>

    constructor (outerTotal: nat)
      ensures this.outerTotal == outerTotal && outerStep == 0 && emitted == []
    {
      this.outerTotal := outerTotal;
      outerStep, emitted := 0, [];
    }

    method Emit(kMinus1: nat, i: nat, n: nat)
      modifies this`emitted
      ensures emitted == old(emitted) + [EmitScaled(outerTotal, kMinus1, i, n)]
    {
      emitted := emitted + [EmitScaled(outerTotal, kMinus1, i, n)];
    }

    method Start()
      modifies this
      ensures outerStep == NextStep(old(outerStep), StartStep)
      ensures emitted == old(emitted) + [EmissionOf(outerTotal, old(outerStep), StartStep)]
    {
      var before := outerStep;
      outerStep := (outerStep + 1) % U64;
      Emit(before, 0, 1);
    }

    method TickInner(i: nat, n: nat)
      modifies this`emitted
      ensures emitted == old(emitted) + [EmissionOf(outerTotal, outerStep, Tick(i, n))]
    {
      var k := if outerStep > 0 then outerStep - 1 else 0;
      Emit(k, i, n);
    }

    method Done()
      modifies this`emitted
      ensures emitted == old(emitted) + [EmissionOf(outerTotal, outerStep, Finish)]
    {
      Emit(outerTotal, 0, 1);
    }
  }

  // ----- A stage's calls

  function TickCalls(ticks: seq<(nat, nat)>): seq<Call> {
    seq(|ticks|, k requires 0 <= k < |ticks| => Tick(ticks[k].0, ticks[k].1))
  }

  /** One start per step, each followed by its ticks, and a finish. */
  function StageCalls(steps: seq<seq<(nat, nat)>>): seq<Call> {
    if |steps| == 0 then [Finish] else [StartStep] + TickCalls(steps[0]) + StageCalls(steps[1..])
  }

  /** Ticks stay within their step and do not go back. */
  ghost predicate Forward(ticks: seq<(nat, nat)>) {
    && (forall k :: 0 <= k < |ticks| ==>
        ticks[k].0 <= ticks[k].1 && ticks[k].1 > 0 && ticks[k].0 * 4 < U64)
    && (forall k :: 0 <= k < |ticks| - 1 ==> ticks[k].0 * ticks[k + 1].1 <= ticks[k + 1].0 * ticks[k].1)
  }

  /** From `low` on the bar never goes back, never passes the constant total, and ends there. */
  ghost predicate Rises(events: seq<Emission>, low: nat, outerTotal: nat) {
    && |events| > 0
    && (forall k :: 0 <= k < |events| ==>
        low <= events[k].0 <= outerTotal * 4 && events[k].1 == outerTotal * 4)
    && (forall k :: 0 <= k < |events| - 1 ==> events[k].0 <= events[k + 1].0)
    && events[|events| - 1].0 == outerTotal * 4
  }

  lemma MulMonotone(a: nat, b: nat, c: nat)
    requires a <= b
    ensures a * c <= b * c
  {
  }

  lemma MulCancel(a: nat, b: nat, c: nat)
    requires c > 0 && a * c < b * c
    ensures a < b
  {
  }

  lemma Quotient(x: nat, n: nat) returns (q: nat)
    requires n > 0
    ensures q == x / n && q * n <= x < (q + 1) * n
  {
    q := x / n;
  }

  /** A larger ratio has a larger floor. */
  lemma FloorMonotone(x: nat, n: nat, y: nat, m: nat)
    requires n > 0 && m > 0 && x * m <= y * n
    ensures x / n <= y / m
  {
    var a := Quotient(x, n);
    var b := Quotient(y, m);
    BoundsInOrder(x, n, a, y, m, b);
  }

  lemma BoundsInOrder(x: nat, n: nat, a: nat, y: nat, m: nat, b: nat)
    requires n > 0 && m > 0 && x * m <= y * n && a * n <= x && y < (b + 1) * m
    ensures a <= b
  {
    MulMonotone(a * n, x, m);
    MulMonotone(y + 1, (b + 1) * m, n);
    Associate(a, n, m);
    Associate(b + 1, m, n);
    assert n * m == m * n > 0;
    assert (y + 1) * n == y * n + n;
    MulCancel(a, b + 1, n * m);
  }

  lemma Associate(a: nat, b: nat, c: nat)
    ensures a * b * c == a * (b * c)
  {
  }

  lemma ScaledRatio(i: nat, n: nat, j: nat, m: nat)
    requires i * m <= j * n
    ensures i * PROGRESS_SCALE * m <= j * PROGRESS_SCALE * n
  {
    assert i * PROGRESS_SCALE * m == i * m * PROGRESS_SCALE && j * PROGRESS_SCALE * n == j * n * PROGRESS_SCALE;
  }

  lemma SmallEmission(outerTotal: nat, kMinus1: nat, i: nat, n: nat, inner: nat)
    requires n > 0 && inner == i * PROGRESS_SCALE / n && i * PROGRESS_SCALE < U64
    requires kMinus1 * PROGRESS_SCALE + inner < U64 && outerTotal * PROGRESS_SCALE < U64
    ensures EmitScaled(outerTotal, kMinus1, i, n) == (kMinus1 * PROGRESS_SCALE + inner, outerTotal * PROGRESS_SCALE)
  {
    SmallProduct(i);
    SmallProduct(kMinus1);
    SmallProduct(outerTotal);
    SmallModulus(kMinus1 * PROGRESS_SCALE + inner);
  }

  lemma SmallProduct(k: nat)
    requires k * PROGRESS_SCALE < U64
    ensures Mul64(k, PROGRESS_SCALE) == k * PROGRESS_SCALE
  {
    SmallModulus(k * PROGRESS_SCALE);
  }

  lemma SmallModulus(x: nat)
    requires x < U64
    ensures x % U64 == x
  {
  }

  /** The part of a step that a tick reports. */
  lemma TickWithinStep(outerTotal: nat, step: nat, i: nat, n: nat)
    requires 0 < step <= outerTotal && outerTotal * PROGRESS_SCALE < U64 && i <= n && n > 0 && i * PROGRESS_SCALE < U64
    ensures EmissionOf(outerTotal, step, Tick(i, n)) ==
            ((step - 1) * PROGRESS_SCALE + i * PROGRESS_SCALE / n, outerTotal * PROGRESS_SCALE)
    ensures i * PROGRESS_SCALE / n <= PROGRESS_SCALE
  {
    FloorMonotone(i * PROGRESS_SCALE, n, PROGRESS_SCALE, 1);
    SmallEmission(outerTotal, step - 1, i, n, i * PROGRESS_SCALE / n);
  }

  /** What is emitted in the `k`-th of `n` steps, counted from 1: four parts a step, the floor of the step at
      its start, the floor of the tick's share of four parts within it, and everything at the end. */
  lemma EmissionsOfStep(outerTotal: nat, k: nat, i: nat, n: nat)
    requires 0 < k <= outerTotal && outerTotal * 4 < U64 && i <= n && n > 0 && i * 4 < U64
    ensures EmissionOf(outerTotal, k - 1, StartStep) == (4 * (k - 1), 4 * outerTotal) && NextStep(k - 1, StartStep) == k
    ensures EmissionOf(outerTotal, k, Tick(i, n)) == (4 * (k - 1) + 4 * i / n, 4 * outerTotal)
    ensures EmissionOf(outerTotal, k, Tick(0, 0)) == EmissionOf(outerTotal, k - 1, StartStep)
    ensures EmissionOf(outerTotal, k, Finish) == (4 * outerTotal, 4 * outerTotal)
  {
    TickWithinStep(outerTotal, k, i, n);
    SmallEmission(outerTotal, k - 1, 0, 1, 0);
    SmallEmission(outerTotal, outerTotal, 0, 1, 0);
    SmallModulus(k);
  }

  lemma {:induction false} TicksRise(outerTotal: nat, step: nat, ticks: seq<(nat, nat)>, more: seq<Call>, low: nat)
    requires 0 < step <= outerTotal && outerTotal * PROGRESS_SCALE < U64 && Forward(ticks)
    requires (step - 1) * PROGRESS_SCALE <= low <= step * PROGRESS_SCALE
    requires |ticks| > 0 ==> low <= (step - 1) * PROGRESS_SCALE + ticks[0].0 * PROGRESS_SCALE / ticks[0].1
    requires Rises(Emissions(outerTotal, step, more), step * PROGRESS_SCALE, outerTotal)
    ensures Rises(Emissions(outerTotal, step, TickCalls(ticks) + more), low, outerTotal)
    decreases |ticks|
  {
    if |ticks| == 0 {
      assert TickCalls(ticks) + more == more;
    } else {
      var (i, n) := ticks[0];
      TickWithinStep(outerTotal, step, i, n);
      var first := (step - 1) * PROGRESS_SCALE + i * PROGRESS_SCALE / n;
      if |ticks| > 1 {
        TicksInOrder(ticks[0], ticks[1]);
      }
      TicksRise(outerTotal, step, ticks[1..], more, first);
      assert TickCalls(ticks) + more == [Tick(i, n)] + (TickCalls(ticks[1..]) + more);
      EmissionsCons(outerTotal, step, Tick(i, n), TickCalls(ticks[1..]) + more);
      RisesCons((first, outerTotal * PROGRESS_SCALE), Emissions(outerTotal, step, TickCalls(ticks[1..]) + more), low,
                outerTotal);
    }
  }

  lemma TicksInOrder(a: (nat, nat), b: (nat, nat))
    requires a.1 > 0 && b.1 > 0 && a.0 * b.1 <= b.0 * a.1
    ensures a.0 * PROGRESS_SCALE / a.1 <= b.0 * PROGRESS_SCALE / b.1
  {
    ScaledRatio(a.0, a.1, b.0, b.1);
    FloorMonotone(a.0 * PROGRESS_SCALE, a.1, b.0 * PROGRESS_SCALE, b.1);
  }

  lemma {:induction false} StepsRise(outerTotal: nat, step: nat, steps: seq<seq<(nat, nat)>>)
    requires step + |steps| == outerTotal && outerTotal * PROGRESS_SCALE < U64
    requires forall k :: 0 <= k < |steps| ==> Forward(steps[k])
    ensures Rises(Emissions(outerTotal, step, StageCalls(steps)), step * PROGRESS_SCALE, outerTotal)
    decreases |steps|
  {
    if |steps| == 0 {
      FinishRises(outerTotal);
    } else {
      var rest := StageCalls(steps[1..]);
      StepsRise(outerTotal, step + 1, steps[1..]);
      StepRises(outerTotal, step, steps[0], rest);
      assert [StartStep] + TickCalls(steps[0]) + rest == [StartStep] + (TickCalls(steps[0]) + rest);
    }
  }

  lemma StepRises(outerTotal: nat, step: nat, ticks: seq<(nat, nat)>, more: seq<Call>)
    requires step < outerTotal && outerTotal * PROGRESS_SCALE < U64 && Forward(ticks)
    requires Rises(Emissions(outerTotal, step + 1, more), (step + 1) * PROGRESS_SCALE, outerTotal)
    ensures Rises(Emissions(outerTotal, step, [StartStep] + (TickCalls(ticks) + more)), step * PROGRESS_SCALE,
                  outerTotal)
  {
    if |ticks| > 0 {
      var q := Quotient(ticks[0].0 * PROGRESS_SCALE, ticks[0].1);
    }
    TicksRise(outerTotal, step + 1, ticks, more, step * PROGRESS_SCALE);
    StartRises(outerTotal, step, TickCalls(ticks) + more);
  }

  lemma FinishRises(outerTotal: nat)
    requires outerTotal * PROGRESS_SCALE < U64
    ensures Rises(Emissions(outerTotal, outerTotal, [Finish]), outerTotal * PROGRESS_SCALE, outerTotal)
  {
    assert [Finish][1..] == [];
  }

  lemma StartRises(outerTotal: nat, step: nat, more: seq<Call>)
    requires step < outerTotal && outerTotal * PROGRESS_SCALE < U64
    requires Rises(Emissions(outerTotal, step + 1, more), step * PROGRESS_SCALE, outerTotal)
    ensures Rises(Emissions(outerTotal, step, [StartStep] + more), step * PROGRESS_SCALE, outerTotal)
  {
    SmallEmission(outerTotal, step, 0, 1, 0);
    assert NextStep(step, StartStep) == step + 1 by { SmallModulus(step + 1); }
    EmissionsCons(outerTotal, step, StartStep, more);
    RisesCons((step * PROGRESS_SCALE, outerTotal * PROGRESS_SCALE), Emissions(outerTotal, step + 1, more),
              step * PROGRESS_SCALE, outerTotal);
  }

  lemma EmissionsCons(outerTotal: nat, step: nat, call: Call, more: seq<Call>)
    ensures Emissions(outerTotal, step, [call] + more) ==
            [EmissionOf(outerTotal, step, call)] + Emissions(outerTotal, NextStep(step, call), more)
  {
    assert ([call] + more)[1..] == more;
  }

  /** An emission in front of ones that rise from it on. */
  lemma RisesCons(first: Emission, rest: seq<Emission>, low: nat, outerTotal: nat)
    requires Rises(rest, first.0, outerTotal)
    requires low <= first.0 && first.1 == outerTotal * PROGRESS_SCALE
    ensures Rises([first] + rest, low, outerTotal)
  {
    var all := [first] + rest;
    forall k | 0 <= k < |all| - 1 ensures all[k].0 <= all[k + 1].0 {
      if k > 0 { assert all[k] == rest[k - 1] && all[k + 1] == rest[k]; }
    }
  }

  /** The total a stage emits first is the announced one only while it fits 64 bits. */
  lemma FirstTotal(steps: seq<seq<(nat, nat)>>)
    ensures var events := Emissions(|steps|, 0, StageCalls(steps));
            |events| > 0 && events[0].1 == Mul64(|steps|, PROGRESS_SCALE) < U64
  {
    var calls := StageCalls(steps);
    assert |calls| > 0;
    EmissionsCons(|steps|, 0, calls[0], calls[1..]);
    assert calls == [calls[0]] + calls[1..];
  }

  /** A stage that starts as many steps as it announced, ticks forward within each and finishes, moves
      the bar from 0 to the total without going back, exactly when the scaled total fits 64 bits. */
  lemma ProgressRises(steps: seq<seq<(nat, nat)>>)
    requires forall k :: 0 <= k < |steps| ==> Forward(steps[k])
    ensures Rises(Emissions(|steps|, 0, StageCalls(steps)), 0, |steps|) <==> |steps| * 4 < 0x1_0000_0000_0000_0000
  {
    if |steps| * PROGRESS_SCALE < U64 { StepsRise(|steps|, 0, steps); } else { FirstTotal(steps); }
  }

  /** Makes the calls, one after the other. */
  method MakeCalls(progress: ScaledProgress, calls: seq<Call>)
    modifies progress
    ensures progress.emitted == old(progress.emitted) + Emissions(progress.outerTotal, old(progress.outerStep), calls)
  {
    assert calls[0..] == calls;
    for k := 0 to |calls|
      invariant progress.emitted + Emissions(progress.outerTotal, progress.outerStep, calls[k..]) ==
                old(progress.emitted) + Emissions(progress.outerTotal, old(progress.outerStep), calls)
    {
      ghost var before, step, first := progress.emitted, progress.outerStep,
        EmissionOf(progress.outerTotal, progress.outerStep, calls[k]);
      assert calls[k..] == [calls[k]] + calls[k + 1..];
      EmissionsCons(progress.outerTotal, step, calls[k], calls[k + 1..]);
      AppendAssociates(before, [first], Emissions(progress.outerTotal, NextStep(step, calls[k]), calls[k + 1..]));
      match calls[k]
      case StartStep => progress.Start();
      case Tick(i, n) => progress.TickInner(i, n);
      case Finish => progress.Done();
    }
    assert calls[|calls|..] == [];
  }

  lemma AppendAssociates<T>(a: seq<T>, b: seq<T>, c: seq<T>)
    ensures a + b + c == a + (b + c)
  {
  }

  /** A stage reported through a new `ScaledProgress` fills the bar without going back. */
  method ReportStage(steps: seq<seq<(nat, nat)>>) returns (progress: ScaledProgress)
    requires |steps| * PROGRESS_SCALE < U64 && forall k :: 0 <= k < |steps| ==> Forward(steps[k])
    ensures fresh(progress) && progress.outerTotal == |steps| && Rises(progress.emitted, 0, |steps|)
  {
    ProgressRises(steps);
    var calls := StageCalls(steps);
    progress := new ScaledProgress(|steps|);
    MakeCalls(progress, calls);
    assert progress.emitted == Emissions(|steps|, 0, calls);
  }
}
