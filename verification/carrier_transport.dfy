/**
 Drift of one charge carrier: the right-hand side dx/dt = f(x) that the ODE
 stepper integrates to move an electron or a hole through the sensor.

 The field evaluator of the finite-element solution, the mobility law and
 `sqrt` are external to this component; they enter as function values.
 */
module CarrierTransport {
  import opened Plane

  /** The drift sign `_sign`: -1 moves against the field, +1 along it. */
  type Sign = s: int | s == -1 || s == 1 witness 1

  /** The solver's field evaluator `(*_d_f_grad)(e_field, point)`, sampled at z = 0. */
  type FieldSampler = Vec2 -> Vec2

  /** The law behind `obtain_mobility`: carrier type, temperature and |E| give a mobility. */
  type MobilityLaw = (char, real, real) -> real

  /** The `_mu` member: a mobility law bound to one carrier type and temperature. */
  datatype Mobility = Mobility(carrierType: char, temperature: real, law: MobilityLaw)

  function ObtainMobility(mu: Mobility, eFieldMod: real): real
  {
    mu.law(mu.carrierType, mu.temperature, eFieldMod)
  }

  /**
   The drift evaluator. `diffusion`, `dt` and `temp` are stored configuration
   that the velocity does not read.
   */
  datatype DriftTransport = DriftTransport(
    mu: Mobility,
    diffusion: int,
    dt: real,
    temp: real,
    field: FieldSampler,
    sign: Sign)

  /** Only the indicator 'e' selects the electron sign; every other character is a hole. */
  function DriftSign(carrierType: char): (s: Sign)
    ensures s == -1 <==> carrierType == 'e'
    ensures s == 1 <==> carrierType != 'e'
  {
    if carrierType == 'e' then -1 else 1
  }

  /** The constructor `DriftTransport(carrier_type, d_f_grad, givenT, diffusion, dt)`. */
  function NewDriftTransport(carrierType: char, field: FieldSampler, givenT: real, diffusion: int, dt: real,
                             law: MobilityLaw): (d: DriftTransport)
    ensures d.sign == -1 <==> carrierType == 'e'
    ensures d.mu.carrierType == carrierType && d.mu.temperature == givenT && d.mu.law == law
    ensures d.temp == givenT && d.diffusion == diffusion && d.dt == dt && d.field == field
  {
    DriftTransport(Mobility(carrierType, givenT, law), diffusion, dt, givenT, field, DriftSign(carrierType))
  }

  /** The mobility the evaluator uses for the field `e`: the law at |E| = sqrt(Ex^2 + Ey^2). */
  function MobilityAt(d: DriftTransport, sqrt: real -> real, e: Vec2): real
  {
    ObtainMobility(d.mu, sqrt(Dot(e, e)))
  }

  /**
   `operator()`: sample the field at the position, take its magnitude, and
   return sign * mobility * E. The time argument is accepted and ignored.
   */
  function Velocity(d: DriftTransport, sqrt: real -> real, x: Vec2, t: real): (v: Vec2)
    ensures v.x * d.field(x).y == v.y * d.field(x).x
    ensures d.field(x).x == 0.0 ==> v.x == 0.0
    ensures d.field(x).y == 0.0 ==> v.y == 0.0
    ensures Dot(v, d.field(x)) == (d.sign as real) * MobilityAt(d, sqrt, d.field(x)) * Dot(d.field(x), d.field(x))
  {
    var e := d.field(x);
    var s, m := d.sign as real, MobilityAt(d, sqrt, e);
    var k := s * m;
    var v := Vec2(k * e.x, k * e.y);
    assert v.x * e.y == k * (e.x * e.y) == v.y * e.x;
    assert Dot(v, e) == k * Dot(e, e);
    v
  }

  /** The drift speed is |mobility| times |E|: |v|^2 = mu^2 |E|^2, whatever the sign. */
  lemma DriftSpeed(d: DriftTransport, sqrt: real -> real, x: Vec2, t: real)
    ensures var v, e, m := Velocity(d, sqrt, x, t), d.field(x), MobilityAt(d, sqrt, d.field(x));
            Dot(v, v) == m * m * Dot(e, e)
  {
  }

  /**
   An evaluator built for a carrier type and temperature evaluates the law at
   exactly that carrier type and temperature, whatever the diffusion flag, time
   step and sampler it was given.
   */
  lemma ConstructedMobility(carrierType: char, field: FieldSampler, givenT: real, diffusion: int,
                            dt: real, law: MobilityLaw, sqrt: real -> real, e: Vec2)
    ensures MobilityAt(NewDriftTransport(carrierType, field, givenT, diffusion, dt, law), sqrt, e)
            == law(carrierType, givenT, sqrt(Dot(e, e)))
  {
  }

  /** The mobility sees the field only through its magnitude: fields of equal |E| get equal mobility. */
  lemma MobilityDependsOnlyOnMagnitude(d: DriftTransport, sqrt: real -> real, e1: Vec2, e2: Vec2)
    requires Dot(e1, e1) == Dot(e2, e2)
    ensures MobilityAt(d, sqrt, e1) == MobilityAt(d, sqrt, e2)
  {
  }

  /** With equal sampled field and equal mobility value, an electron drifts exactly opposite to a hole. */
  lemma ElectronOpposesHole(holeType: char, field: FieldSampler, givenT: real, diffusion: int, dt: real,
                            law: MobilityLaw, sqrt: real -> real, x: Vec2, t: real)
    requires holeType != 'e'
    requires var e := field(x); law('e', givenT, sqrt(Dot(e, e))) == law(holeType, givenT, sqrt(Dot(e, e)))
    ensures Velocity(NewDriftTransport('e', field, givenT, diffusion, dt, law), sqrt, x, t)
            == Neg(Velocity(NewDriftTransport(holeType, field, givenT, diffusion, dt, law), sqrt, x, t))
  {
  }

  /** The velocity reads neither the time, nor `dt`, `diffusion` or the stored `temp`. */
  lemma VelocityIgnoresTimeAndStoredConfig(d: DriftTransport, sqrt: real -> real, x: Vec2, t1: real, t2: real,
                                           diffusion: int, dt: real, temp: real)
    ensures Velocity(d.(diffusion := diffusion, dt := dt, temp := temp), sqrt, x, t1) == Velocity(d, sqrt, x, t2)
  {
  }

  /** The position matters only through the sampled field: equal samples give equal velocities. */
  lemma VelocityDependsOnlyOnSampledField(d1: DriftTransport, d2: DriftTransport, sqrt: real -> real,
                                          x1: Vec2, x2: Vec2, t1: real, t2: real)
    requires d1.sign == d2.sign && d1.mu == d2.mu
    requires d1.field(x1) == d2.field(x2)
    ensures Velocity(d1, sqrt, x1, t1) == Velocity(d2, sqrt, x2, t2)
  {
  }

  /** Scaling the mobility value by k scales both velocity components by k. */
  lemma VelocityLinearInMobility(d1: DriftTransport, d2: DriftTransport, sqrt: real -> real, x: Vec2, t: real, k: real)
    requires d1.sign == d2.sign
    requires d1.field(x) == d2.field(x)
    requires MobilityAt(d2, sqrt, d2.field(x)) == k * MobilityAt(d1, sqrt, d1.field(x))
    ensures Velocity(d2, sqrt, x, t) == Scale(k, Velocity(d1, sqrt, x, t))
  {
  }

  /** Reversing the sampled field reverses the velocity: |E|, hence the mobility, is unchanged. */
  lemma ReversedFieldReversesVelocity(d1: DriftTransport, d2: DriftTransport, sqrt: real -> real, x: Vec2, t: real)
    requires d1.sign == d2.sign && d1.mu == d2.mu
    requires d2.field(x) == Neg(d1.field(x))
    ensures Velocity(d2, sqrt, x, t) == Neg(Velocity(d1, sqrt, x, t))
  {
    var e := d1.field(x);
    assert Dot(Neg(e), Neg(e)) == Dot(e, e);
    MobilityDependsOnlyOnMagnitude(d1, sqrt, e, Neg(e));
  }

  /**
   An electron at 300 K in the field (1000, 0) with mobility 1450 drifts at
   (-1450000, 0); the y component is 0 because Ey is.
   */
  lemma ElectronWorkedExample(field: FieldSampler, law: MobilityLaw, sqrt: real -> real, x: Vec2, t: real)
    requires field(x) == Vec2(1000.0, 0.0)
    requires law('e', 300.0, sqrt(1000000.0)) == 1450.0
    ensures Velocity(NewDriftTransport('e', field, 300.0, 0, 0.001, law), sqrt, x, t) == Vec2(-1450000.0, 0.0)
  {
  }
}
