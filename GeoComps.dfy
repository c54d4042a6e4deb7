/**
 * The geometry links: two explicit components that set one nacelle diameter
 * from another, so that those two diameters are not free design variables.
 * The outer trailing-edge diameter is the inner one plus 0.2; the fan-face
 * diameter equals the fan-exit diameter.
 */
module GeoComps {

  /** The variable names of the two links: each is the name of the cross-section group it stands for. */
  const TeLinkInputName: string := "XSecCurve_0"
  const TeLinkOutputName: string := "XSecCurve_8"
  const FanLinkInputName: string := "XSecCurve_1"
  const FanLinkOutputName: string := "XSecCurve_2"

  /** Thickness added to the inner trailing-edge diameter. */
  const TrailingEdgeOffset: real := 0.2

  /** The declared partial of `XSecCurve_8` with respect to `XSecCurve_0`. */
  const TeLinkPartial: real := 1.0

  /** The declared partial of `XSecCurve_2` with respect to `XSecCurve_1`. */
  const FanLinkPartial: real := 1.0

  /** `TELink.compute`: the outer trailing-edge diameter from the inner one. */
  function TeLink(xsecCurve0: real): (xsecCurve8: real)
    ensures xsecCurve8 - TrailingEdgeOffset == xsecCurve0
    ensures xsecCurve8 > xsecCurve0
  {
    xsecCurve0 + TrailingEdgeOffset
  }

  /** `FanLink.compute`: the fan face keeps the fan-exit diameter. */
  function FanLink(xsecCurve1: real): (xsecCurve2: real)
    ensures xsecCurve2 == xsecCurve1
  {
    xsecCurve1
  }

  /** The declared constant partial of `TELink` is its exact slope. */
  lemma TeLinkSlope(x: real, h: real)
    ensures TeLink(x + h) - TeLink(x) == TeLinkPartial * h
  {
  }

  /** The declared constant partial of `FanLink` is its exact slope. */
  lemma FanLinkSlope(x: real, h: real)
    ensures FanLink(x + h) - FanLink(x) == FanLinkPartial * h
  {
  }

  /** The inputs and outputs of the `GeoLink` group, which promotes both links' variables. */
  datatype LinkInputs = LinkInputs(xsecCurve0: real, xsecCurve1: real)
  datatype LinkOutputs = LinkOutputs(xsecCurve8: real, xsecCurve2: real)

  /** `GeoLink`: both links side by side. */
  function GeoLink(i: LinkInputs): (o: LinkOutputs)
    ensures o.xsecCurve8 - TrailingEdgeOffset == i.xsecCurve0
    ensures o.xsecCurve8 > i.xsecCurve0
    ensures o.xsecCurve2 == i.xsecCurve1
  {
    LinkOutputs(TeLink(i.xsecCurve0), FanLink(i.xsecCurve1))
  }

  /**
   * The two links do not interact: each output of the group is determined by
   * its own link's input alone.
   */
  lemma GeoLinkIndependent(i: LinkInputs, j: LinkInputs)
    ensures i.xsecCurve0 == j.xsecCurve0 ==> GeoLink(i).xsecCurve8 == GeoLink(j).xsecCurve8
    ensures i.xsecCurve1 == j.xsecCurve1 ==> GeoLink(i).xsecCurve2 == GeoLink(j).xsecCurve2
  {
  }
}
