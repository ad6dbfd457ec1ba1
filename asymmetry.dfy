/**
 * The guard and dispatch skeleton of `_asymmetry_function` (eq. 10 of
 * Lotz et al. 2004) for its three kinds, and the validity guard of the CAS
 * fraction-of-light radii. Rotating the image, the symmetric mask and the
 * aperture photometry are a parameter that maps an aperture to its sums.
 */
module Asymmetry {
  import opened Values

  /** Traditional CAS asymmetry, outer asymmetry, shape asymmetry. */
  datatype Kind = Cas | Outer | Shape

  /** The aperture the asymmetry is measured in, around the trial centre. */
  datatype Aperture = Circle(r: real) | Annulus(rIn: real, rOut: real)

  /**
   * What the photometry yields for an aperture: the sum of |image|, the sum
   * of |rotated image - image|, and the aperture area outside the
   * symmetric mask.
   */
  datatype ApertureSums = ApertureSums(absSum: real, absDiff: real, area: real)

  /**
   * The three ways `_asymmetry_function` returns: a measured asymmetry, the
   * trial centre outside the image (100.0, to push the minimiser back), or
   * the invalid sentinel -99.0.
   */
  datatype AsymmetryValue = Measured(v: real) | OutOfBounds | InvalidAsymmetry {
    function AsFloat(): real {
      match this
      case Measured(v) => v
      case OutOfBounds => 100.0
      case InvalidAsymmetry => -99.0
    }

    /** Every return other than a measured value raises the flag. */
    predicate RaisesFlag() {
      !Measured?
    }
  }

  /** A radius usable for an aperture: not NaN and positive. */
  predicate PositiveRadius(r: Num) {
    r.Real? && r.v > 0.0
  }

  /** The aperture for `kind`, or None when its radii are invalid. */
  function ApertureFor(kind: Kind, rCas: real, halfLight: Num, rmax: Num): (a: Option<Aperture>)
    ensures a.None? <==> ((kind == Outer && !(PositiveRadius(halfLight) && PositiveRadius(rmax)))
                          || (kind == Shape && !PositiveRadius(rmax)))
    ensures kind == Cas ==> a == Some(Circle(rCas))
    ensures kind == Outer && a.Some? ==> a.value == Annulus(halfLight.v, rmax.v) && 0.0 < a.value.rIn && 0.0 < a.value.rOut
    ensures kind == Shape && a.Some? ==> a.value == Circle(rmax.v) && a.value.r > 0.0
  {
    match kind
    case Cas => Some(Circle(rCas))
    case Outer =>
      if halfLight.NaN? || rmax.NaN? || halfLight.v <= 0.0 || rmax.v <= 0.0 then None
      else Some(Annulus(halfLight.v, rmax.v))
    case Shape =>
      if rmax.NaN? || rmax.v <= 0.0 then None else Some(Circle(rmax.v))
  }

  /** The trial centre lies within the image. */
  predicate CentreInside(xc: real, yc: real, nx: nat, ny: nat) {
    0.0 <= xc < nx as real && 0.0 <= yc < ny as real
  }

  /**
   * `_asymmetry_function` at trial centre (xc, yc) of an ny x nx image:
   * the bounds check, the radius guards of the outer and shape kinds, the
   * zero-sum guard, then (|I_180 - I| - area * B_180) / |I| with the sky
   * term only for the CAS and outer kinds and only when the sky asymmetry
   * B_180 is finite.
   */
  function AsymmetryFunction(kind: Kind, xc: real, yc: real, nx: nat, ny: nat,
                             rCas: real, halfLight: Num, rmax: Num, skyAsymmetry: Num,
                             photometry: Aperture -> ApertureSums): (a: AsymmetryValue)
    ensures a.OutOfBounds? <==> !CentreInside(xc, yc, nx, ny)
    ensures a.InvalidAsymmetry? <==> (
      CentreInside(xc, yc, nx, ny) &&
      match ApertureFor(kind, rCas, halfLight, rmax)
      case None => true
      case Some(ap) => photometry(ap).absSum == 0.0)
    ensures a.Measured? ==>
      var ap := ApertureFor(kind, rCas, halfLight, rmax).value;
      var sums := photometry(ap);
      var sky := if kind != Shape && skyAsymmetry.Real? then sums.area * skyAsymmetry.v else 0.0;
      sums.absSum != 0.0 && a.v * sums.absSum == sums.absDiff - sky
  {
    if xc < 0.0 || xc >= nx as real || yc < 0.0 || yc >= ny as real then OutOfBounds
    else
      match ApertureFor(kind, rCas, halfLight, rmax)
      case None => InvalidAsymmetry
      case Some(ap) =>
        var sums := photometry(ap);
        if sums.absSum == 0.0 then InvalidAsymmetry
        else if kind == Shape then Measured(sums.absDiff / sums.absSum)
        else if skyAsymmetry.Real? then Measured((sums.absDiff - sums.area * skyAsymmetry.v) / sums.absSum)
        else Measured(sums.absDiff / sums.absSum)
  }

  /** The bounds check comes first: outside the image the radii and sums are never looked at. */
  lemma OutOfBoundsIgnoresRadii(kind: Kind, xc: real, yc: real, nx: nat, ny: nat,
                                rCas: real, halfLight: Num, rmax: Num, skyAsymmetry: Num,
                                photometry: Aperture -> ApertureSums)
    requires !CentreInside(xc, yc, nx, ny)
    ensures AsymmetryFunction(kind, xc, yc, nx, ny, rCas, halfLight, rmax, skyAsymmetry, photometry).AsFloat() == 100.0
  {
  }

  /**
   * A source identical to its rotation has shape asymmetry 0, and a shape
   * asymmetry is never negative when the photometry sums of absolute
   * values are non-negative.
   */
  lemma ShapeAsymmetryOfSymmetricSource(xc: real, yc: real, nx: nat, ny: nat,
                                        rCas: real, halfLight: Num, rmax: Num, skyAsymmetry: Num,
                                        photometry: Aperture -> ApertureSums)
    requires CentreInside(xc, yc, nx, ny) && PositiveRadius(rmax)
    requires photometry(Circle(rmax.v)).absSum > 0.0
    ensures var a := AsymmetryFunction(Shape, xc, yc, nx, ny, rCas, halfLight, rmax, skyAsymmetry, photometry);
      a.Measured? && (photometry(Circle(rmax.v)).absDiff == 0.0 ==> a.v == 0.0)
      && (photometry(Circle(rmax.v)).absDiff >= 0.0 ==> a.v >= 0.0)
  {
    var sums := photometry(Circle(rmax.v));
    assert sums.absDiff >= 0.0 ==> sums.absDiff / sums.absSum >= 0.0;
  }

  /**
   * The guard of `_radius_at_fraction_of_total_cas`: a NaN or non-positive
   * radius becomes the invalid sentinel and raises the flag.
   */
  function CasRadius(r: Num): (s: Stat)
    ensures s.Invalid? <==> !PositiveRadius(r)
    ensures s.Valid? ==> s.v > 0.0 && r == Real(s.v)
  {
    if r.NaN? || r.v <= 0.0 then Invalid else Valid(r.v)
  }
}
