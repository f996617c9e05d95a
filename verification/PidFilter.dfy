/** The generated PID controllers over the reals: the discrete recurrence, the
    state move, the limiter, and what they do over whole runs. */
module PidFilter {

  /** Parameters of the PID1 and SignalLimiter2 blocks, and the step size. */
  datatype Gains = Gains(kp: real, tauD: real, beta: real, tauI: real, minimum: real, maximum: real, h: real)

  const YAW := Gains(2.6, 0.05, 0.17, 9.0, -0.99, 0.99, 0.01)
  const PITCH := Gains(1.6, 0.05, 0.001, 10.5, -0.99, 0.99, 0.01)

  predicate Sensible(g: Gains) {
    g.kp >= 0.0 && g.tauD >= 0.0 && g.beta >= 0.0 && g.tauI > 0.0 && g.h > 0.0 && g.minimum <= g.maximum
  }

  lemma Denominator(g: Gains)
    requires Sensible(g)
    ensures g.h + g.tauD * g.beta > 0.0
  {
  }

  /** The three states (equivalently, the three rates) in array order. */
  datatype State = State(uD: real, error: real, uI: real)

  const START := State(0.0, 0.0, 0.0)

  /** New rates from the previous states and the present error. */
  function Rates(g: Gains, prev: State, error: real): State
    requires Sensible(g)
  {
    Denominator(g);
    var factor := 1.0 / (g.h + g.tauD * g.beta);
    var uD := factor * (((g.tauD * prev.uD) * g.beta + (g.tauD * g.kp) * (error - prev.error)) + (g.h * g.kp) * error);
    State(uD, error, prev.uI + (g.h * uD) / g.tauI)
  }

  /** y is the point of [minimum, maximum] nearest to x. */
  predicate Saturated(g: Gains, x: real, y: real) {
    && (x < g.minimum ==> y == g.minimum)
    && (g.minimum <= x <= g.maximum ==> y == x)
    && (g.maximum < x ==> y == g.maximum)
  }

  function Limit(g: Gains, x: real): (y: real)
    requires Sensible(g)
    ensures Saturated(g, x, y)
  {
    if x < g.minimum then g.minimum else if x > g.maximum then g.maximum else x
  }

  /** The rates after a run of errors, the first being the initialisation call. */
  function After(g: Gains, errors: seq<real>): State
    requires Sensible(g)
  {
    if errors == [] then START else Rates(g, After(g, errors[..|errors| - 1]), errors[|errors| - 1])
  }

  class Controller {
    const gains: Gains
    const s: array<real>
    const R: array<real>
    var setPoint: real
    var position: real
    var pidOutput: real
    var limited: real
    var output: real
    var time: real
    var steps: nat
    ghost var errors: seq<real>

    ghost function States(): State
      reads this, s
      requires s.Length == 3
    {
      State(s[0], s[1], s[2])
    }

    ghost function NewRates(): State
      reads this, R
      requires R.Length == 3
    {
      State(R[0], R[1], R[2])
    }

    /** The arrays are in place, and the rates are those of the recurrence over
        all the errors seen. */
    ghost predicate Valid()
      reads this, s, R
    {
      && s.Length == 3 && R.Length == 3 && s != R && Sensible(gains)
      && NewRates() == After(gains, errors)
      && output == Limit(gains, NewRates().uI + NewRates().uD)
    }

    constructor (g: Gains, setPoint: real, position: real, t: real)
      requires Sensible(g)
      ensures Valid() && gains == g && errors == [setPoint - position] && fresh(s) && fresh(R)
    {
      gains := g;
      s, R := new real[3], new real[3];
      this.setPoint, this.position := setPoint, position;
      pidOutput, limited, output, time, steps := 0.0, 0.0, 0.0, t, 0;
      errors := [setPoint - position];
      new;
      InitializeSubmodel(setPoint, position, t);
    }

    /** Start a new run: states to zero, then the first rates. */
    method InitializeSubmodel(wanted: real, actual: real, t: real)
      requires s.Length == 3 && R.Length == 3 && s != R && Sensible(gains)
      modifies this, s, R
      ensures Valid() && errors == [wanted - actual] && time == t && steps == 1
      ensures NewRates() == After(gains, errors) && Saturated(gains, NewRates().uI + NewRates().uD, output)
    {
      steps := 0;
      s[0], s[1], s[2] := 0.0, 0.0, 0.0;
      time := t;
      setPoint, position := wanted, actual;
      CalculateDynamic();
      output := limited;
      errors := [wanted - actual];
      assert errors[..0] == [];
    }

    method CalculateDynamic()
      requires s.Length == 3 && R.Length == 3 && s != R && Sensible(gains)
      modifies R, this`pidOutput, this`limited, this`steps
      ensures NewRates() == Rates(gains, States(), setPoint - position)
      ensures limited == Limit(gains, NewRates().uI + NewRates().uD)
      ensures steps == old(steps) + 1
    {
      Denominator(gains);
      var factor := 1.0 / (gains.h + gains.tauD * gains.beta);
      R[1] := setPoint - position;
      R[0] := factor * (((gains.tauD * s[0]) * gains.beta + (gains.tauD * gains.kp) * (R[1] - s[1]))
                        + (gains.h * gains.kp) * R[1]);
      R[2] := s[2] + (gains.h * R[0]) / gains.tauI;
      pidOutput := R[2] + R[0];
      limited := if pidOutput < gains.minimum then gains.minimum
                 else if pidOutput > gains.maximum then gains.maximum else pidOutput;
      steps := steps + 1;
    }

    /** Move the rates into the states, advance time, and compute new rates. */
    method DiscreteStep()
      requires s.Length == 3 && R.Length == 3 && s != R && Sensible(gains)
      modifies s, R, this`pidOutput, this`limited, this`steps, this`time
      ensures States() == old(NewRates())
      ensures NewRates() == Rates(gains, old(NewRates()), setPoint - position)
      ensures limited == Limit(gains, NewRates().uI + NewRates().uD) && steps == old(steps) + 1
      ensures time == old(time) + gains.h
    {
      for index := 0 to 3
        invariant forall i :: 0 <= i < index ==> s[i] == R[i]
        invariant R[..] == old(R[..]) && time == old(time) && steps == old(steps)
      {
        s[index] := R[index];
      }
      time := time + gains.h;
      CalculateDynamic();
    }

    method CalculateSubmodel(wanted: real, actual: real, t: real) returns (y: real)
      requires Valid()
      modifies this, s, R
      ensures Valid() && errors == old(errors) + [wanted - actual]
      ensures y == output && gains.minimum <= y <= gains.maximum
      ensures NewRates() == After(gains, errors) && Saturated(gains, NewRates().uI + NewRates().uD, y)
      ensures time == t + gains.h && steps == old(steps) + 1
    {
      time := t;
      setPoint, position := wanted, actual;
      DiscreteStep();
      output := limited;
      y := output;
      assert (errors + [wanted - actual])[..|errors|] == errors;
      errors := errors + [wanted - actual];
    }
  }

  // ------------------------------------------------------------ whole runs

  function Abs(x: real): (y: real)
    ensures y >= 0.0
  {
    if x < 0.0 then -x else x
  }

  /** The recurrence with its divisions cleared. */
  ghost predicate Advances(g: Gains, prev: State, error: real, next: State) {
    && next.error == error
    && next.uD * (g.h + g.tauD * g.beta)
       == g.tauD * g.beta * prev.uD + g.tauD * g.kp * (error - prev.error) + g.h * g.kp * error
    && g.tauI * next.uI == g.tauI * prev.uI + g.h * next.uD
  }

  lemma RatesAdvance(g: Gains, prev: State, error: real)
    requires Sensible(g)
    ensures Advances(g, prev, error, Rates(g, prev, error))
  {
    Denominator(g);
    var d := g.h + g.tauD * g.beta;
    var n := ((g.tauD * prev.uD) * g.beta + (g.tauD * g.kp) * (error - prev.error)) + (g.h * g.kp) * error;
    Reciprocal(d, n);
    assert (g.tauD * prev.uD) * g.beta == g.tauD * g.beta * prev.uD;
    ClearDivision(g.tauI, prev.uI, g.h * Rates(g, prev, error).uD);
  }

  lemma Reciprocal(d: real, n: real)
    requires d > 0.0
    ensures (1.0 / d) * n * d == n
  {
    assert (1.0 / d) * d == 1.0;
    assert (1.0 / d) * n * d == ((1.0 / d) * d) * n;
  }

  lemma ClearDivision(t: real, x: real, y: real)
    requires t > 0.0
    ensures t * (x + y / t) == t * x + y
  {
  }

  /** What a step discretises, by backward differences: a derivative action
      filtered with time constant tauD * beta, and the integral of its output. */
  ghost predicate BackwardDifferences(g: Gains, prev: State, error: real, next: State)
    requires Sensible(g)
  {
    && next.error == error
    && next.uD + g.tauD * g.beta * ((next.uD - prev.uD) / g.h)
       == g.kp * (error + g.tauD * ((error - prev.error) / g.h))
    && (next.uI - prev.uI) / g.h == next.uD / g.tauI
  }

  lemma BackwardEuler(g: Gains, prev: State, error: real)
    requires Sensible(g)
    ensures BackwardDifferences(g, prev, error, Rates(g, prev, error))
  {
    RatesAdvance(g, prev, error);
    AdvanceIsEuler(g, prev, error, Rates(g, prev, error));
  }

  lemma AdvanceIsEuler(g: Gains, prev: State, error: real, next: State)
    requires Sensible(g) && Advances(g, prev, error, next)
    ensures BackwardDifferences(g, prev, error, next)
  {
    EulerAction(g.h, g.tauD * g.beta, g.tauD, g.kp, next.uD, prev.uD, error, prev.error);
    EulerIntegral(g.h, g.tauI, prev.uI, next.uI, next.uD);
  }

  lemma EulerAction(h: real, b: real, t: real, k: real, y: real, x: real, e: real, e': real)
    requires h > 0.0 && y * (h + b) == b * x + t * k * (e - e') + h * k * e
    ensures y + b * ((y - x) / h) == k * (e + t * ((e - e') / h))
  {
    var dy, de := (y - x) / h, (e - e') / h;
    assert h * dy == y - x && h * de == e - e';
    ScaledSides(h, b, t, k, y, x, e, e', dy, de);
    Cancel(h, y + b * dy, k * (e + t * de));
  }

  lemma ScaledSides(h: real, b: real, t: real, k: real, y: real, x: real, e: real, e': real, dy: real, de: real)
    requires h * dy == y - x && h * de == e - e' && y * (h + b) == b * x + t * k * (e - e') + h * k * e
    ensures h * (y + b * dy) == h * (k * (e + t * de))
  {
    assert h * (y + b * dy) == h * y + b * (h * dy);
    assert b * (y - x) == b * y - b * x;
    assert h * (k * (e + t * de)) == h * k * e + t * k * (h * de);
    assert y * (h + b) == h * y + b * y;
  }

  lemma Cancel(h: real, x: real, y: real)
    requires h > 0.0 && h * x == h * y
    ensures x == y
  {
    assert h * (x - y) == 0.0;
  }

  lemma EulerIntegral(h: real, t: real, prev: real, next: real, u: real)
    requires h > 0.0 && t > 0.0 && t * next == t * prev + h * u
    ensures (next - prev) / h == u / t
  {
    var d, q := (next - prev) / h, u / t;
    assert h * d == next - prev && t * q == u;
    assert t * (h * d) == t * next - t * prev;
    assert h * (t * d) == t * (h * d);
    Cancel(h, t * d, u);
    Cancel(t, d, q);
  }

  /** The states of a run, before the first error and after each one. */
  ghost predicate Trajectory(g: Gains, errors: seq<real>, states: seq<State>) {
    && |states| == |errors| + 1 && states[0] == START
    && forall k :: 0 < k < |states| ==> Advances(g, states[k - 1], errors[k - 1], states[k])
  }

  /** The states are those of the recurrence. */
  ghost predicate Tracks(g: Gains, errors: seq<real>, states: seq<State>)
    requires Sensible(g)
  {
    |states| == |errors| + 1 && forall k :: 0 <= k <= |errors| ==> states[k] == After(g, errors[..k])
  }

  lemma AfterAdvances(g: Gains, errors: seq<real>)
    requires Sensible(g) && errors != []
    ensures Advances(g, After(g, errors[..|errors| - 1]), errors[|errors| - 1], After(g, errors))
  {
    RatesAdvance(g, After(g, errors[..|errors| - 1]), errors[|errors| - 1]);
  }

  lemma TrajectoryGrows(g: Gains, errors: seq<real>, states: seq<State>, error: real, next: State)
    requires Trajectory(g, errors, states) && Advances(g, states[|errors|], error, next)
    ensures Trajectory(g, errors + [error], states + [next])
  {
  }

  lemma TracksGrows(g: Gains, errors: seq<real>, states: seq<State>, error: real)
    requires Sensible(g) && Tracks(g, errors, states)
    ensures Tracks(g, errors + [error], states + [After(g, errors + [error])])
  {
    forall k | 0 <= k <= |errors| ensures (errors + [error])[..k] == errors[..k] {
    }
    assert (errors + [error])[..|errors| + 1] == errors + [error];
  }

  lemma {:induction false} RunStates(g: Gains, errors: seq<real>) returns (states: seq<State>)
    requires Sensible(g)
    ensures Trajectory(g, errors, states) && Tracks(g, errors, states)
  {
    if errors == [] {
      states := [START];
    } else {
      var before, error := errors[..|errors| - 1], errors[|errors| - 1];
      states := RunStates(g, before);
      assert before + [error] == errors && before[..|before|] == before;
      AfterAdvances(g, errors);
      TrajectoryGrows(g, before, states, error, After(g, errors));
      TracksGrows(g, before, states, error);
      states := states + [After(g, errors)];
    }
  }

  lemma StateAfter(g: Gains, errors: seq<real>, states: seq<State>, before: seq<real>)
    requires Sensible(g) && Tracks(g, errors, states) && before <= errors
    ensures states[|before|] == After(g, before)
  {
    assert errors[..|before|] == before;
  }

  // ------------------------------------------------------ bounded errors

  lemma ScaleBound(c: real, x: real, bound: real)
    requires c >= 0.0 && -bound <= x <= bound
    ensures -(c * bound) <= c * x <= c * bound
  {
    assert c * (bound - x) >= 0.0 && c * (bound + x) >= 0.0;
    assert c * (bound - x) == c * bound - c * x;
    assert c * (bound + x) == c * bound + c * x;
  }

  lemma PositiveProduct(x: real, d: real)
    requires x > 0.0 && d > 0.0
    ensures x * d > 0.0
  {
  }

  lemma NonNegative(x: real, y: real)
    requires x >= 0.0 && y >= 0.0
    ensures x * y >= 0.0
  {
  }

  lemma CancelBound(y: real, d: real, bound: real)
    requires d > 0.0 && -(bound * d) <= y * d <= bound * d
    ensures -bound <= y <= bound
  {
    assert (y - bound) * d == y * d - bound * d;
    assert (-bound - y) * d == -(bound * d) - y * d;
    if y > bound {
      PositiveProduct(y - bound, d);
    } else if y < -bound {
      PositiveProduct(-bound - y, d);
    }
  }

  /** A sum of three bounded terms, divided by d. */
  lemma QuotientBound(y: real, d: real, bound: real, t0: real, t1: real, t2: real, b0: real, b1: real, b2: real)
    requires d > 0.0 && y * d == t0 + t1 + t2 && bound * d == b0 + b1 + b2
    requires -b0 <= t0 <= b0 && -b1 <= t1 <= b1 && -b2 <= t2 <= b2
    ensures -bound <= y <= bound
  {
    CancelBound(y, d, bound);
  }

  lemma ThreeTerms(a: real, c: real, f: real, d: real, y: real, x: real, change: real, error: real,
                   b: real, e2: real, e: real)
    requires a >= 0.0 && c >= 0.0 && f >= 0.0 && d > 0.0
    requires -b <= x <= b && -e2 <= change <= e2 && -e <= error <= e
    requires y * d == a * x + c * change + f * error && b * d == a * b + c * e2 + f * e
    ensures -b <= y <= b
  {
    ScaleBound(a, x, b);
    ScaleBound(c, change, e2);
    ScaleBound(f, error, e);
    QuotientBound(y, d, b, a * x, c * change, f * error, a * b, c * e2, f * e);
  }

  lemma SplitProduct(b: real, h: real, a: real)
    ensures b * (h + a) == h * b + a * b
  {
  }

  lemma BoundStep(g: Gains, prev: State, error: real, next: State, e: real, b: real)
    requires Sensible(g) && e >= 0.0 && -e <= error <= e && -e <= prev.error <= e && -b <= prev.uD <= b
    requires g.h * b == g.tauD * g.kp * (2.0 * e) + g.h * g.kp * e
    requires Advances(g, prev, error, next)
    ensures -b <= next.uD <= b
  {
    Denominator(g);
    SplitProduct(b, g.h, g.tauD * g.beta);
    NonNegative(g.tauD, g.beta);
    NonNegative(g.tauD, g.kp);
    NonNegative(g.h, g.kp);
    ThreeTerms(g.tauD * g.beta, g.tauD * g.kp, g.h * g.kp, g.h + g.tauD * g.beta,
               next.uD, prev.uD, error - prev.error, error, b, 2.0 * e, e);
  }

  /** kp * (2 * tauD + h) / h * e */
  function DerivativeBound(g: Gains, e: real): real
    requires Sensible(g)
  {
    g.kp * (2.0 * g.tauD + g.h) / g.h * e
  }

  ghost predicate ErrorsWithin(errors: seq<real>, e: real) {
    forall k :: 0 <= k < |errors| ==> -e <= errors[k] <= e
  }

  lemma BoundIdentity(g: Gains, e: real)
    requires Sensible(g) && e >= 0.0
    ensures g.h * DerivativeBound(g, e) == g.tauD * g.kp * (2.0 * e) + g.h * g.kp * e
    ensures DerivativeBound(g, e) >= 0.0
  {
    NonNegative(g.kp, 2.0 * g.tauD + g.h);
    Quotient(g.kp * (2.0 * g.tauD + g.h), g.h, e);
    Expand(g.kp, g.tauD, g.h, e);
  }

  lemma Quotient(n: real, h: real, e: real)
    requires h > 0.0 && n >= 0.0 && e >= 0.0
    ensures h * (n / h * e) == n * e && n / h * e >= 0.0
  {
    var q := n / h;
    assert h * q == n;
    assert h * (q * e) == (h * q) * e;
    assert q >= 0.0;
    NonNegative(q, e);
  }

  lemma Expand(k: real, t: real, h: real, e: real)
    ensures (k * (2.0 * t + h)) * e == t * k * (2.0 * e) + h * k * e
  {
  }

  lemma {:induction false} StatesBounded(g: Gains, errors: seq<real>, states: seq<State>, e: real, b: real, n: nat)
    requires Sensible(g) && e >= 0.0 && b >= 0.0 && ErrorsWithin(errors, e)
    requires g.h * b == g.tauD * g.kp * (2.0 * e) + g.h * g.kp * e
    requires Trajectory(g, errors, states) && n <= |errors|
    ensures -b <= states[n].uD <= b && -e <= states[n].error <= e
  {
    if n > 0 {
      StatesBounded(g, errors, states, e, b, n - 1);
      BoundStep(g, states[n - 1], errors[n - 1], states[n], e, b);
    }
  }

  ghost predicate WithinBound(bound: real, x: real) {
    -bound <= x <= bound
  }

  lemma StatesWithin(g: Gains, errors: seq<real>, states: seq<State>, e: real)
    requires Sensible(g) && e >= 0.0 && ErrorsWithin(errors, e) && Trajectory(g, errors, states)
    ensures WithinBound(DerivativeBound(g, e), states[|errors|].uD) && WithinBound(e, states[|errors|].error)
  {
    BoundIdentity(g, e);
    StatesBounded(g, errors, states, e, DerivativeBound(g, e), |errors|);
  }

  /** Bounded errors give a bounded filtered action, at every step of every run. */
  lemma DerivativeStaysBounded(g: Gains, errors: seq<real>, e: real)
    requires Sensible(g) && e >= 0.0 && ErrorsWithin(errors, e)
    ensures WithinBound(DerivativeBound(g, e), After(g, errors).uD) && WithinBound(e, After(g, errors).error)
  {
    var states := RunStates(g, errors);
    StateAfter(g, errors, states, errors);
    StatesWithin(g, errors, states, e);
  }

  /** For the generated gains: errors within e keep the filtered action within
      28.6 e for yaw and 17.6 e for pitch. */
  lemma GeneratedBounds(errors: seq<real>, e: real)
    requires e >= 0.0 && ErrorsWithin(errors, e)
    ensures Sensible(YAW) && Abs(After(YAW, errors).uD) <= 28.6 * e
    ensures Sensible(PITCH) && Abs(After(PITCH, errors).uD) <= 17.6 * e
  {
    DerivativeStaysBounded(YAW, errors, e);
    DerivativeStaysBounded(PITCH, errors, e);
  }

  // ------------------------------------------------------ constant errors

  /** x multiplied n times by a. */
  function Shrunk(a: real, n: nat, x: real): real {
    if n == 0 then x else a * Shrunk(a, n - 1, x)
  }

  ghost predicate IsDecay(g: Gains, a: real) {
    a * (g.h + g.tauD * g.beta) == g.tauD * g.beta
  }

  /** The contraction factor tauD * beta / (h + tauD * beta). */
  lemma DecayFactor(g: Gains) returns (a: real)
    requires Sensible(g)
    ensures 0.0 <= a < 1.0 && IsDecay(g, a)
  {
    Denominator(g);
    NonNegative(g.tauD, g.beta);
    var d := g.h + g.tauD * g.beta;
    a := g.tauD * g.beta / d;
    DividesBack(g.tauD * g.beta, d);
    DecayRange(a, d, g.tauD * g.beta);
  }

  /** The factors of the generated controllers are 17/37 for yaw and 1/201 for
      pitch; their integral gains are 1/900 and 1/1050, and both limit to 0.99. */
  lemma GeneratedFactors(a: real, x: real)
    ensures IsDecay(YAW, a) <==> 37.0 * a == 17.0
    ensures IsDecay(PITCH, a) <==> 201.0 * a == 1.0
    ensures 900.0 * YAW.h == YAW.tauI && 1050.0 * PITCH.h == PITCH.tauI
    ensures Limit(YAW, x) == Limit(PITCH, x) == if x > 0.99 then 0.99 else if x < -0.99 then -0.99 else x
  {
  }

  lemma DividesBack(n: real, d: real)
    requires d > 0.0
    ensures n / d * d == n
  {
  }

  lemma DecayRange(a: real, d: real, n: real)
    requires d > 0.0 && a * d == n && 0.0 <= n < d
    ensures 0.0 <= a < 1.0
  {
    assert (a - 1.0) * d == n - d;
    if a < 0.0 {
      PositiveProduct(-a, d);
    } else if a > 1.0 {
      PositiveProduct(a - 1.0, d);
    }
  }

  /** One step under an unchanged error: the gap to kp * error shrinks by exactly a. */
  lemma GapStep(g: Gains, prev: State, error: real, next: State, a: real)
    requires Sensible(g) && prev.error == error && Advances(g, prev, error, next) && IsDecay(g, a)
    ensures next.uD - g.kp * error == a * (prev.uD - g.kp * error)
  {
    Denominator(g);
    assert g.tauD * g.kp * (error - prev.error) == 0.0;
    assert g.h * g.kp * error == g.h * (g.kp * error);
    GapReal(next.uD, prev.uD, g.kp * error, g.h, g.tauD * g.beta, g.h + g.tauD * g.beta, a);
  }

  lemma GapReal(y: real, x: real, k: real, h: real, t: real, d: real, a: real)
    requires d > 0.0 && d == h + t && a * d == t && y * d == t * x + h * k
    ensures y - k == a * (x - k)
  {
    var z := a * (x - k) + k;
    assert z * d == (a * d) * (x - k) + k * d;
    assert t * (x - k) + k * d == t * x + h * k;
    assert (y - z) * d == 0.0;
    assert y == z;
  }

  lemma {:induction false} Geometric(gaps: seq<real>, a: real, m: nat, n: nat)
    requires m + n < |gaps| && forall k :: m <= k < m + n ==> gaps[k + 1] == a * gaps[k]
    ensures gaps[m + n] == Shrunk(a, n, gaps[m])
  {
    if n > 0 {
      Geometric(gaps, a, m, n - 1);
    }
  }

  /** How far a filtered action is from kp * error. */
  function Gap(g: Gains, error: real, uD: real): real { uD - g.kp * error }

  lemma GapAt(g: Gains, errors: seq<real>, states: seq<State>, error: real, k: nat, a: real)
    requires Sensible(g) && IsDecay(g, a) && Trajectory(g, errors, states)
    requires 0 < k < |errors| && errors[k - 1] == errors[k] == error
    ensures Gap(g, error, states[k + 1].uD) == a * Gap(g, error, states[k].uD)
  {
    assert Advances(g, states[k - 1], errors[k - 1], states[k]);
    assert Advances(g, states[k], errors[k], states[k + 1]);
    GapStep(g, states[k], error, states[k + 1], a);
  }

  lemma GapShrinks(g: Gains, errors: seq<real>, states: seq<State>, error: real, m: nat, n: nat, a: real)
    requires Sensible(g) && IsDecay(g, a) && Trajectory(g, errors, states) && 0 < m && m + n <= |errors|
    requires forall k :: m - 1 <= k < m + n ==> errors[k] == error
    ensures Gap(g, error, states[m + n].uD) == Shrunk(a, n, Gap(g, error, states[m].uD))
  {
    var gaps := Gaps(g, error, states);
    forall k | m <= k < m + n ensures gaps[k + 1] == a * gaps[k] {
      GapAt(g, errors, states, error, k, a);
    }
    Geometric(gaps, a, m, n);
  }

  function Gaps(g: Gains, error: real, states: seq<State>): (gaps: seq<real>)
    ensures |gaps| == |states| && forall k :: 0 <= k < |gaps| ==> gaps[k] == Gap(g, error, states[k].uD)
  {
    seq(|states|, k requires 0 <= k < |states| => Gap(g, error, states[k].uD))
  }

  /** A run, then n more samples of one error. */
  function Held(before: seq<real>, error: real, n: nat): seq<real> {
    before + seq(n, _ => error)
  }

  lemma HeldErrors(before: seq<real>, error: real, n: nat)
    requires before != [] && before[|before| - 1] == error
    ensures var errors := Held(before, error, n);
      && |errors| == |before| + n && before <= errors
      && forall k :: |before| - 1 <= k < |before| + n ==> errors[k] == error
  {
  }

  lemma RunEnds(g: Gains, errors: seq<real>, before: seq<real>) returns (states: seq<State>)
    requires Sensible(g) && before <= errors
    ensures Trajectory(g, errors, states)
    ensures states[|before|] == After(g, before) && states[|errors|] == After(g, errors)
  {
    states := RunStates(g, errors);
    StateAfter(g, errors, states, before);
    StateAfter(g, errors, states, errors);
  }

  lemma GapOfRun(g: Gains, errors: seq<real>, before: seq<real>, error: real, n: nat, a: real)
    requires Sensible(g) && IsDecay(g, a) && before != [] && before <= errors && |errors| == |before| + n
    requires forall k :: |before| - 1 <= k < |before| + n ==> errors[k] == error
    ensures Gap(g, error, After(g, errors).uD) == Shrunk(a, n, Gap(g, error, After(g, before).uD))
  {
    var states := RunEnds(g, errors, before);
    GapShrinks(g, errors, states, error, |before|, n, a);
  }

  /** Under a constant error the gap shrinks by exactly the factor a at every step. */
  lemma ConstantErrorConverges(g: Gains, before: seq<real>, error: real, n: nat, a: real)
    requires Sensible(g) && before != [] && before[|before| - 1] == error && IsDecay(g, a)
    ensures Gap(g, error, After(g, Held(before, error, n)).uD) == Shrunk(a, n, Gap(g, error, After(g, before).uD))
  {
    HeldErrors(before, error, n);
    GapOfRun(g, Held(before, error, n), before, error, n, a);
  }

  // ------------------------------------------------------ the integral part

  /** The running sum of the filtered actions of a run. */
  function SumOfActions(g: Gains, errors: seq<real>): real
    requires Sensible(g)
  {
    if errors == [] then 0.0 else SumOfActions(g, errors[..|errors| - 1]) + After(g, errors).uD
  }

  function Actions(states: seq<State>, n: nat): real
    requires n < |states|
  {
    if n == 0 then 0.0 else Actions(states, n - 1) + states[n].uD
  }

  lemma {:induction false} ActionsOfRun(g: Gains, errors: seq<real>, states: seq<State>, n: nat)
    requires Sensible(g) && n <= |errors| && Tracks(g, errors, states)
    ensures Actions(states, n) == SumOfActions(g, errors[..n])
  {
    if n > 0 {
      ActionsOfRun(g, errors, states, n - 1);
      assert errors[..n][..n - 1] == errors[..n - 1];
    }
  }

  lemma {:induction false} StatesIntegrate(g: Gains, errors: seq<real>, states: seq<State>, n: nat)
    requires Trajectory(g, errors, states) && n <= |errors|
    ensures g.tauI * states[n].uI == g.h * Actions(states, n)
  {
    if n > 0 {
      StatesIntegrate(g, errors, states, n - 1);
      assert Advances(g, states[n - 1], errors[n - 1], states[n]);
      SumStep(g.h, Actions(states, n - 1), states[n].uD);
    }
  }

  lemma SumStep(h: real, sum: real, u: real)
    ensures h * (sum + u) == h * sum + h * u
  {
  }

  /** h / tauI times a sum. */
  ghost predicate ScaledSum(g: Gains, uI: real, sum: real)
    requires Sensible(g)
  {
    uI == g.h / g.tauI * sum
  }

  lemma DivideBy(g: Gains, uI: real, sum: real)
    requires Sensible(g) && g.tauI * uI == g.h * sum
    ensures ScaledSum(g, uI, sum)
  {
    var t, q := g.tauI, g.h / g.tauI;
    assert q * t == g.h;
    assert t * (q * sum) == (q * t) * sum;
    assert t * (uI - q * sum) == 0.0;
  }

  /** The integral part is h / tauI times the sum of all filtered actions. */
  lemma IntegralIsScaledSum(g: Gains, errors: seq<real>)
    requires Sensible(g)
    ensures ScaledSum(g, After(g, errors).uI, SumOfActions(g, errors))
  {
    var states := RunStates(g, errors);
    StateAfter(g, errors, states, errors);
    ActionsOfRun(g, errors, states, |errors|);
    assert errors[..|errors|] == errors;
    StatesScaled(g, errors, states);
  }

  lemma StatesScaled(g: Gains, errors: seq<real>, states: seq<State>)
    requires Sensible(g) && Trajectory(g, errors, states)
    ensures ScaledSum(g, states[|errors|].uI, Actions(states, |errors|))
  {
    StatesIntegrate(g, errors, states, |errors|);
    DivideBy(g, states[|errors|].uI, Actions(states, |errors|));
  }
}
