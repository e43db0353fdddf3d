/** What a solve returns: the object whose quality measures, certificates and IIS are rewritten
    after the engines are done with it. */
module Solutions {
  import opened Vectors
  import opened LpModel
  import Farkas
  import Rays
  import Quality

  datatype Status =
    | NotSolved | Optimal | Feasible | Infeasible | Unbounded | InfeasibleOrUnbounded
    | IterationLimit | TimeLimit | NodeLimit | Interrupted | NumericalError | ModelError

  /** The verdicts that hand back a point. */
  predicate ClaimsAPoint(status: Status) {
    status in {Optimal, Feasible, Unbounded, IterationLimit, TimeLimit, NodeLimit, Interrupted}
  }

  /** The certificate that survives the check: itself, its negation, or none. */
  function KeptFarkas(m: Model, y: seq<real>): (kept: seq<real>)
    requires m.Valid()
    ensures kept != [] ==> Farkas.Proves(m, kept) && (kept == y || kept == Negated(y))
    ensures kept == [] <==> !Farkas.Proves(m, y) && !Farkas.Proves(m, Negated(y))
  {
    if Farkas.Proves(m, y) then y else if Farkas.Proves(m, Negated(y)) then Negated(y) else []
  }

  lemma RatioTimes(a: real, scale: real)
    requires scale >= 1.0
    ensures a / scale * scale == a
  {
  }

  class Solution {
    var status: Status
    var colValue: seq<real>
    var rowActivity: seq<real>
    var colDual: seq<real>
    var rowDual: seq<real>
    var objective: real
    var primalInfeasibility: real
    var primalInfeasibilityScaled: real
    var dualInfeasibility: real
    var dualInfeasibilityScaled: real
    var complementarityViolation: real
    var dualBound: real
    var absoluteGap: real
    var relativeGap: real
    var farkasDual: seq<real>
    var primalRay: seq<real>
    var iisRows: seq<nat>
    var iisColLower: seq<nat>
    var iisColUpper: seq<nat>
    var iisWitnesses: seq<seq<real>>
    var iisInconclusive: bool

    function PrimalMeasures(): Quality.PrimalQuality
      reads this
    {
      Quality.PrimalQuality(rowActivity, primalInfeasibility, primalInfeasibilityScaled, objective)
    }

    function DualMeasures(): Quality.DualQuality
      reads this
    {
      Quality.DualQuality(dualInfeasibility, dualInfeasibilityScaled, complementarityViolation)
    }

    /** Recompute every measure from the point and the duals. Without a point of the right size
        nothing changes; without duals of the right size the dual measures keep their values. */
    method RecomputeQuality(m: Model)
      requires m.Valid()
      modifies this`rowActivity, this`objective, this`primalInfeasibility, this`primalInfeasibilityScaled,
               this`dualInfeasibility, this`dualInfeasibilityScaled, this`complementarityViolation,
               this`absoluteGap, this`relativeGap
      ensures PrimalMeasures() == if |colValue| == |m.cols| then Quality.PrimalQualityOf(m, colValue)
        else old(PrimalMeasures())
      ensures DualMeasures() ==
        if |colValue| == |colDual| == |m.cols| && |rowDual| == m.numRows
        then Quality.DualQualityOf(m, colValue, rowDual, colDual) else old(DualMeasures())
      ensures if |colValue| == |m.cols|
              then absoluteGap == Abs(objective - dualBound) == relativeGap * Max(1.0, Abs(objective))
              else absoluteGap == old(absoluteGap) && relativeGap == old(relativeGap)
    {
      hide Quality.PrimalQualityOf, Quality.DualQualityOf, Times, Max, Abs;
      if |colValue| != |m.cols| { return; }
      var p := Quality.MeasurePrimal(m, colValue);
      rowActivity, primalInfeasibility, primalInfeasibilityScaled, objective := p.activity, p.infeasibility, p.scaled,
          p.objective;
      if |rowDual| == m.numRows && |colDual| == |m.cols| {
        var d := Quality.MeasureDual(m, colValue, p.activity, rowDual, colDual);
        dualInfeasibility, dualInfeasibilityScaled, complementarityViolation := d.infeasibility, d.scaled,
            d.complementarity;
      }
      absoluteGap := Abs(objective - dualBound);
      var scale := Max(1.0, Abs(objective));
      AtLeastOne(Abs(objective));
      relativeGap := absoluteGap / scale;
      RatioTimes(absoluteGap, scale);
    }

    /** Keep a certificate only if it proves what the status claims, against the original model.
        Both signs of a Farkas vector are tried; a ray has only one. */
    method VerifyAndKeepCertificate(m: Model)
      requires m.Valid()
      modifies this`farkasDual, this`primalRay
      ensures farkasDual ==
        if status.Infeasible? && old(farkasDual) != [] then KeptFarkas(m, old(farkasDual)) else old(farkasDual)
      ensures primalRay ==
        if status.Unbounded? && old(primalRay) != [] && !Rays.Proves(m, old(primalRay)) then [] else old(primalRay)
    {
      if status.Infeasible? && farkasDual != [] {
        var proven := Farkas.FarkasProvesInfeasible(m, farkasDual);
        if proven { return; }
        var flipped := Negated(farkasDual);
        proven := Farkas.FarkasProvesInfeasible(m, flipped);
        if proven {
          farkasDual := flipped;
          return;
        }
        farkasDual := [];
        return;
      }
      if status.Unbounded? && primalRay != [] {
        var proven := Rays.RayProvesUnbounded(m, primalRay);
        if proven { return; }
        primalRay := [];
      }
    }
  }

  /** After the check, whatever certificate of infeasibility is left is a proof at the solver's
      thresholds: a feasible point, if there is one, is more than 10,000 away in the columns
      whose aggregate coefficient was read as zero. */
  lemma KeptCertificateProves(m: Model, y: seq<real>, x: seq<real>)
    requires m.Valid() && KeptFarkas(m, y) != [] && LpModel.Feasible(m, x)
    ensures var kept := KeptFarkas(m, y);
      |kept| == m.numRows
      && Farkas.DroppedNorm(TransposeTimes(m, kept), x, Farkas.ZeroLevel(m, kept, Farkas.ZERO_DROP)) > 10000.0
  {
    Farkas.AcceptedMeansFarAway(m, KeptFarkas(m, y), x);
  }
}
