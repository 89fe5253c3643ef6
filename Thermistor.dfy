/**
 * Conversion of an ADC count to a temperature for an NTC thermistor read
 * through a voltage divider (convert_a2d_to_temp), and the Celsius to
 * Fahrenheit conversion (convert_to_fahrenheit).
 *
 * The divider algebra and the two thermistor curves (Steinhart-Hart and
 * Beta, with their coefficients) are modelled exactly over the reals. The
 * natural logarithm is a function parameter. The special IEEE values the
 * chain produces are kept: a full-scale count makes the divider denominator
 * zero, a zero count takes the logarithm of zero, and a curve whose
 * denominator vanishes has a pole.
 */
module Thermistor {

  /** Divider and logic reference voltage. */
  const V_REF: real := 3.3
  /** The fixed divider resistor, tied to the reference. */
  const R_F: real := 1100.0
  /** Thermistor resistance at 25 degrees Celsius. */
  const R_25: real := 2252.0
  /** 0 degrees Celsius in kelvin. */
  const T_K_0: real := 273.15
  /** 25 degrees Celsius in kelvin. */
  const T_K_25: real := 298.15
  /** Full scale of the 10-bit converter. */
  const FULL_SCALE: int := 1023

  /** Steinhart-Hart coefficients of the thermistor material. */
  const SH_A: real := 0.0033540154
  const SH_B: real := 0.00025627725
  const SH_C: real := 0.0000020829210
  const SH_D: real := 0.000000073003206
  /** Beta value of the thermistor material. */
  const BETA: real := 3895.0

  /** A floating-point value of the conversion chain: rounding is abstracted
      away, the special values are kept. */
  datatype Float = Num(v: real) | PosInf | NegInf | NaN

  /** v_t: the voltage across the thermistor for a count. */
  function DividerVoltage(a2d: int): (v: real)
    ensures 0 <= a2d <= FULL_SCALE ==> 0.0 <= v <= V_REF
    ensures v == V_REF <==> a2d == FULL_SCALE
  {
    a2d as real * V_REF / FULL_SCALE as real
  }

  /** r_t: the thermistor resistance solved from the divider. At full scale
      the denominator V_REF - v_t is zero and the positive numerator makes
      the quotient +infinity. */
  function DividerResistance(a2d: int): (r: Float)
    ensures r.Num? || r.PosInf?
    ensures r.PosInf? <==> a2d == FULL_SCALE
  {
    var v := DividerVoltage(a2d);
    if V_REF - v == 0.0 then PosInf else Num(R_F * v / (V_REF - v))
  }

  /** r_norm = log(r_t / R_25), with the logarithm's special cases: log of
      zero is -infinity, of a negative number NaN. */
  function LogRatio(r: Float, ln: real -> real): (n: Float)
    ensures n.PosInf? <==> r.PosInf?
    ensures n.NegInf? <==> r == Num(0.0)
    ensures n.NaN? <==> r.NaN? || r.NegInf? || (r.Num? && r.v < 0.0)
  {
    match r
    case Num(x) => if x > 0.0 then Num(ln(x / R_25)) else if x == 0.0 then NegInf else NaN
    case PosInf => PosInf
    case NegInf => NaN
    case NaN => NaN
  }

  /** 1 / d for a finite denominator. A zero denominator is the sum of terms
      that cancel, which IEEE addition makes +0, so the quotient is
      +infinity. */
  function Reciprocal(d: real): (q: Float)
    ensures q.Num? || q.PosInf?
    ensures q.PosInf? <==> d == 0.0
    ensures q.Num? ==> q.v * d == 1.0
  {
    if d == 0.0 then PosInf else Num(1.0 / d)
  }

  /** A + B r + C r^2 + D r^3. */
  function SteinhartHartSum(x: real): real
  {
    SH_A + SH_B * x + SH_C * x * x + SH_D * x * x * x
  }

  /** r / beta + 1 / T_K_25. */
  function BetaSum(x: real): real
  {
    x / BETA + 1.0 / T_K_25
  }

  /** temp_K by Steinhart-Hart. At r = +infinity the sum is +infinity and
      the quotient 0; at r = -infinity the sum adds -infinity to +infinity,
      which is NaN. */
  function SteinhartHartKelvin(rNorm: Float): (k: Float)
    ensures !k.NegInf?
    ensures k.NaN? <==> rNorm.NaN? || rNorm.NegInf?
    ensures k.PosInf? <==> rNorm.Num? && SteinhartHartSum(rNorm.v) == 0.0
  {
    match rNorm
    case Num(x) => Reciprocal(SteinhartHartSum(x))
    case PosInf => Num(0.0)
    case NegInf => NaN
    case NaN => NaN
  }

  /** temp_K by the Beta equation: both infinities give a zero quotient. */
  function BetaKelvin(rNorm: Float): (k: Float)
    ensures !k.NegInf?
    ensures k.NaN? <==> rNorm.NaN?
    ensures k.PosInf? <==> rNorm.Num? && BetaSum(rNorm.v) == 0.0
  {
    match rNorm
    case Num(x) => Reciprocal(BetaSum(x))
    case PosInf => Num(0.0)
    case NegInf => Num(0.0)
    case NaN => NaN
  }

  /** temp_K after the solver branch; it keeps its initial 0 when the solver
      name is neither "S-H" nor "Beta". */
  function SolveKelvin(solver: string, rNorm: Float): (k: Float)
    ensures !k.NegInf?
    ensures rNorm.NaN? && (solver == "S-H" || solver == "Beta") ==> k.NaN?
    ensures k.PosInf? ==> rNorm.Num? && (solver == "S-H" || solver == "Beta")
  {
    if solver == "S-H" then SteinhartHartKelvin(rNorm)
    else if solver == "Beta" then BetaKelvin(rNorm)
    else Num(0.0)
  }

  /** The unit switch on the returned value. */
  function InUnits(units: char, tempK: Float): (t: Float)
    ensures t.Num? <==> tempK.Num?
    ensures !tempK.Num? ==> t == tempK
    ensures units != 'C' && units != 'F' ==> t == tempK
  {
    match tempK
    case Num(k) =>
      if units == 'C' then Num(k - T_K_0)
      else if units == 'F' then Num((k - T_K_0) * 9.0 / 5.0 + 32.0)
      else Num(k)
    case _ => tempK
  }

  /** convert_a2d_to_temp, with its default units and solver. */
  function ConvertA2dToTemp(a2d: int, ln: real -> real, units: char := 'C', solver: string := "S-H"): (t: Float)
    ensures !t.NegInf?
  {
    InUnits(units, SolveKelvin(solver, LogRatio(DividerResistance(a2d), ln)))
  }

  /** convert_to_fahrenheit. */
  function ConvertToFahrenheit(tempC: real): (f: real)
    ensures (f - 32.0) * 5.0 / 9.0 == tempC
  {
    tempC * 9.0 / 5.0 + 32.0
  }

  /** Its inverse. */
  function FahrenheitToCelsius(tempF: real): real
  {
    (tempF - 32.0) * 5.0 / 9.0
  }

  /** The Fahrenheit conversion is a bijection with FahrenheitToCelsius as
      its inverse, and strictly increasing. */
  lemma FahrenheitRoundTrip(c: real, f: real)
    ensures FahrenheitToCelsius(ConvertToFahrenheit(c)) == c
    ensures ConvertToFahrenheit(FahrenheitToCelsius(f)) == f
    ensures c < FahrenheitToCelsius(f) <==> ConvertToFahrenheit(c) < f
  {
  }

  /** Inside the range of the converter, v_t lies strictly between 0 and
      V_REF, and r_t is the positive quantity R_F * a2d / (1023 - a2d). */
  lemma DividerInRange(a2d: int)
    requires 0 < a2d < FULL_SCALE
    ensures 0.0 < DividerVoltage(a2d) < V_REF
    ensures DividerResistance(a2d) == Num(R_F * a2d as real / (FULL_SCALE - a2d) as real)
    ensures DividerResistance(a2d).v > 0.0
  {
    DividerAlgebra(a2d);
  }

  /** For every count below full scale, the resistance is finite and equals
      R_F * a2d / (1023 - a2d). */
  lemma DividerAlgebra(a2d: int)
    requires a2d < FULL_SCALE
    ensures V_REF - DividerVoltage(a2d) == V_REF * (FULL_SCALE - a2d) as real / FULL_SCALE as real
    ensures DividerResistance(a2d) == Num(R_F * a2d as real / (FULL_SCALE - a2d) as real)
  {
    var a := a2d as real;
    var d := (FULL_SCALE - a2d) as real;
    var v := DividerVoltage(a2d);
    assert v == a * V_REF / 1023.0;
    assert V_REF - v == V_REF * d / 1023.0;
    var q := R_F * a / d;
    assert q * (V_REF - v) == R_F * v by {
      calc {
        q * (V_REF - v);
        (R_F * a / d) * (V_REF * d / 1023.0);
        R_F * a * V_REF / 1023.0;
        R_F * v;
      }
    }
  }

  /** The sign of r_t follows the count: negative outside the converter's
      range, zero at 0, positive between the ends. */
  lemma DividerSign(a2d: int)
    requires a2d != FULL_SCALE
    ensures a2d < 0 || a2d > FULL_SCALE ==> DividerResistance(a2d).v < 0.0
    ensures a2d == 0 ==> DividerResistance(a2d).v == 0.0
    ensures 0 < a2d < FULL_SCALE ==> DividerResistance(a2d).v > 0.0
  {
    var v := DividerVoltage(a2d);
    var n, d := R_F * v, V_REF - v;
    if a2d < 0 {
      assert n < 0.0 && d > 0.0;
    } else if a2d > FULL_SCALE {
      assert n > 0.0 && d < 0.0;
      assert n / d < 0.0;
    } else if a2d > 0 {
      DividerInRange(a2d);
    }
  }

  /** The conversion yields NaN exactly when a known solver meets a count
      outside 0..1023 (negative r_t), or Steinhart-Hart meets a zero count. */
  lemma NaNExactly(a2d: int, ln: real -> real, units: char, solver: string)
    ensures ConvertA2dToTemp(a2d, ln, units, solver).NaN?
            <==> (solver == "S-H" || solver == "Beta")
                 && (a2d < 0 || a2d > FULL_SCALE || (a2d == 0 && solver == "S-H"))
  {
    if a2d != FULL_SCALE {
      DividerSign(a2d);
    }
  }

  /** At full scale the divider denominator is zero and r_t is +infinity. */
  lemma DividerOpenAtFullScale()
    ensures V_REF - DividerVoltage(FULL_SCALE) == 0.0
    ensures DividerResistance(FULL_SCALE) == PosInf
  {
  }

  /** r_t is strictly increasing in the count from 0 up to full scale. */
  lemma DividerMonotone(a: int, b: int)
    requires 0 <= a < b < FULL_SCALE
    ensures DividerResistance(a).Num? && DividerResistance(b).Num?
    ensures DividerResistance(a).v < DividerResistance(b).v
  {
    DividerAlgebra(a);
    DividerAlgebra(b);
    var da := (FULL_SCALE - a) as real;
    var db := (FULL_SCALE - b) as real;
    QuotientIncreasing(a as real, b as real, da, db);
    assert R_F * a as real / da == R_F * (a as real / da);
    assert R_F * b as real / db == R_F * (b as real / db);
  }

  /** A larger numerator over a smaller positive denominator gives a larger
      quotient. */
  lemma QuotientIncreasing(a: real, b: real, da: real, db: real)
    requires 0.0 <= a < b && 0.0 < db < da
    ensures a / da < b / db
  {
    var x, y := a / da, b / db;
    assert x * da == a && y * db == b;
    assert x >= 0.0;
    assert x * db <= x * da;
    assert (y - x) * db > 0.0;
  }

  /** Between the ends of the range, r_t lies between R_F / 1022 (count 1)
      and 1022 R_F (count 1022). */
  lemma DividerBounds(a2d: int)
    requires 0 < a2d < FULL_SCALE
    ensures R_F / 1022.0 <= DividerResistance(a2d).v <= R_F * 1022.0
  {
    DividerAlgebra(a2d);
    var a := a2d as real;
    var d := (FULL_SCALE - a2d) as real;
    assert a * 1022.0 >= d;
    assert a <= 1022.0 * d;
    assert a / d >= 1.0 / 1022.0;
    assert a / d <= 1022.0;
    assert R_F * a / d == R_F * (a / d);
  }

  /** Two facts of the natural logarithm: it is increasing, and the log of
      2^-12 (about -8.32) is at least -10. */
  ghost predicate LogBounds(ln: real -> real)
  {
    (forall x, y :: 0.0 < x < y ==> ln(x) < ln(y)) && ln(1.0 / 4096.0) >= -10.0
  }

  /** The Beta curve has its pole at r_norm = -beta / T_K_25 (about -13.06)
      and is positive above it. */
  lemma BetaPole(x: real)
    ensures BetaKelvin(Num(x)).PosInf? <==> x == -BETA / T_K_25
    ensures x > -BETA / T_K_25 ==> BetaKelvin(Num(x)).Num? && BetaKelvin(Num(x)).v > 0.0
  {
    if x > -BETA / T_K_25 {
      assert BetaSum(x) > 0.0;
    }
  }

  /** The Steinhart-Hart sum changes sign between r_norm = -14 and -13, so
      the curve has a pole there. */
  lemma SteinhartHartPoleBracket()
    ensures SteinhartHartSum(-14.0) < 0.0 < SteinhartHartSum(-13.0)
  {
  }

  /** The Steinhart-Hart sum is positive for r_norm >= -10, so the curve
      is finite and positive there. */
  lemma SteinhartHartPositive(x: real)
    requires x >= -10.0
    ensures SteinhartHartSum(x) > 0.0
    ensures SteinhartHartKelvin(Num(x)).Num? && SteinhartHartKelvin(Num(x)).v > 0.0
  {
    if x >= 0.0 {
      assert x * x >= 0.0;
      assert x * x * x >= 0.0;
    } else {
      var y := -x;
      assert 0.0 < y * y <= 10.0 * y <= 100.0;
      assert y * y * y <= 100.0 * y <= 1000.0;
      assert x * x * x == -(y * y * y) >= -1000.0;
      assert SH_C * x * x == SH_C * (y * y) >= 0.0;
      assert SH_D * x * x * x == SH_D * (x * x * x) >= -SH_D * 1000.0;
    }
  }

  /** A solver name other than "S-H" or "Beta" leaves temp_K at 0 kelvin,
      whatever the count. */
  lemma UnknownSolverKeepsZero(a2d: int, ln: real -> real, units: char, solver: string)
    requires solver != "S-H" && solver != "Beta"
    ensures ConvertA2dToTemp(a2d, ln, units, solver) == InUnits(units, Num(0.0))
    ensures ConvertA2dToTemp(a2d, ln, 'C', solver) == Num(-273.15)
  {
  }

  /** 'C' returns temp_K - 273.15, 'F' the Fahrenheit conversion of the
      'C' result, and any other character temp_K unchanged. */
  lemma UnitDispatch(a2d: int, ln: real -> real, units: char, solver: string)
    ensures var k := SolveKelvin(solver, LogRatio(DividerResistance(a2d), ln));
            var c := ConvertA2dToTemp(a2d, ln, 'C', solver);
            && (k.Num? <==> c.Num?)
            && (k.Num? ==> c.v == k.v - T_K_0)
            && (units != 'C' && units != 'F' ==> ConvertA2dToTemp(a2d, ln, units, solver) == k)
            && ConvertA2dToTemp(a2d, ln, 'F', solver)
               == (if c.Num? then Num(ConvertToFahrenheit(c.v)) else c)
  {
  }

  /** With no units and no solver given, the conversion is the Celsius
      Steinhart-Hart temperature. */
  lemma Defaults(a2d: int, ln: real -> real)
    ensures ConvertA2dToTemp(a2d, ln) == ConvertA2dToTemp(a2d, ln, 'C', "S-H")
  {
  }

  /** Between the ends of the range, a known solver yields its curve at
      r_norm = log(r_t / R_25). */
  lemma InRangeSolved(a2d: int, ln: real -> real, solver: string)
    requires 0 < a2d < FULL_SCALE
    requires solver == "S-H" || solver == "Beta"
    ensures var rNorm := ln(R_F * a2d as real / (FULL_SCALE - a2d) as real / R_25);
            SolveKelvin(solver, LogRatio(DividerResistance(a2d), ln))
            == Reciprocal(if solver == "S-H" then SteinhartHartSum(rNorm) else BetaSum(rNorm))
  {
    DividerInRange(a2d);
  }

  /** The result is +infinity exactly when a count between the ends of the
      range puts r_norm on the chosen curve's pole. */
  lemma PosInfExactly(a2d: int, ln: real -> real, units: char, solver: string)
    ensures ConvertA2dToTemp(a2d, ln, units, solver).PosInf?
            <==> 0 < a2d < FULL_SCALE
                 && var rNorm := ln(R_F * a2d as real / (FULL_SCALE - a2d) as real / R_25);
                    (solver == "S-H" && SteinhartHartSum(rNorm) == 0.0)
                    || (solver == "Beta" && BetaSum(rNorm) == 0.0)
  {
    if 0 < a2d < FULL_SCALE && (solver == "S-H" || solver == "Beta") {
      InRangeSolved(a2d, ln, solver);
    } else if a2d != FULL_SCALE {
      DividerSign(a2d);
    }
  }

  /** For every count between the ends of the range r_norm is at least
      log(R_F / 1022 / R_25), about -7.65, well above both poles: a known
      solver yields a finite, positive temp_K. */
  lemma InRangeIsNumber(a2d: int, ln: real -> real, units: char, solver: string)
    requires 0 < a2d < FULL_SCALE
    requires solver == "S-H" || solver == "Beta"
    requires LogBounds(ln)
    ensures SolveKelvin(solver, LogRatio(DividerResistance(a2d), ln)).Num?
    ensures SolveKelvin(solver, LogRatio(DividerResistance(a2d), ln)).v > 0.0
    ensures ConvertA2dToTemp(a2d, ln, units, solver).Num?
  {
    DividerInRange(a2d);
    DividerBounds(a2d);
    var rt := DividerResistance(a2d).v;
    assert rt / R_25 > 1.0 / 4096.0;
    var rNorm := ln(rt / R_25);
    assert rNorm >= -10.0;
    InRangeSolved(a2d, ln, solver);
    if solver == "S-H" {
      SteinhartHartPositive(rNorm);
    } else {
      BetaPole(rNorm);
    }
  }

  /** A full-scale count (thermistor open) reads as 0 kelvin for both
      solvers: -273.15 degrees Celsius. */
  lemma FullScaleIsAbsoluteZero(ln: real -> real, solver: string)
    requires solver == "S-H" || solver == "Beta"
    ensures ConvertA2dToTemp(FULL_SCALE, ln, 'K', solver) == Num(0.0)
    ensures ConvertA2dToTemp(FULL_SCALE, ln, 'C', solver) == Num(-273.15)
  {
    DividerOpenAtFullScale();
  }

  /** A zero count (thermistor shorted) gives NaN with Steinhart-Hart and
      0 kelvin with Beta. */
  lemma ZeroCount(ln: real -> real, units: char)
    ensures ConvertA2dToTemp(0, ln, units, "S-H") == NaN
    ensures ConvertA2dToTemp(0, ln, 'K', "Beta") == Num(0.0)
  {
    assert DividerVoltage(0) == 0.0;
    assert DividerResistance(0) == Num(0.0);
  }
}
