/**
 * The choice made by `scale_image_if_needed`: thresholds 400, 600, 800 and
 * 1200 are tried in ascending order and the first one that the width or the
 * height reaches selects its factor (0.2, 0.4, 0.5, 0.6); the loop then
 * breaks, so at most one rescale happens. Only the choice is modelled; the
 * resampled image is the imaging library's business.
 */
module Scaling {
  import opened Wrappers

  /** A scale factor num/den, exact where the source writes a float literal. */
  datatype Factor = Factor(num: nat, den: nat)

  const Thresholds: seq<nat> := [400, 600, 800, 1200]
  const Factors: seq<Factor> := [Factor(1, 5), Factor(2, 5), Factor(1, 2), Factor(3, 5)]

  /** Row `i` of the table applies to a width x height image. */
  predicate Reaches(width: nat, height: nat, i: nat)
    requires i < |Thresholds|
  {
    width >= Thresholds[i] || height >= Thresholds[i]
  }

  /** The index of the first table row from `i` on that applies, if any. */
  function FirstMatch(width: nat, height: nat, i: nat): (k: Option<nat>)
    requires i <= |Thresholds|
    ensures k.Some? ==> i <= k.value < |Thresholds| && Reaches(width, height, k.value)
    decreases |Thresholds| - i
  {
    if i == |Thresholds| then None
    else if Reaches(width, height, i) then Some(i)
    else FirstMatch(width, height, i + 1)
  }

  /** The decision over the whole table. */
  function ChosenRow(width: nat, height: nat): (k: Option<nat>)
    ensures k.Some? ==> k.value < |Factors| && Reaches(width, height, k.value)
  {
    FirstMatch(width, height, 0)
  }

  /**
   * The loop of `scale_image_if_needed`, returning the table row whose factor
   * the image is scaled by, or None when it is returned unscaled.
   */
  method ScaleImageIfNeeded(width: nat, height: nat) returns (row: Option<nat>, factor: Option<Factor>)
    ensures row == ChosenRow(width, height)
    ensures row.None? <==> factor.None?
    ensures row.Some? ==> row.value < |Factors| && factor.value == Factors[row.value]
  {
    row, factor := None, None;
    var i := 0;
    while i < |Thresholds|
      invariant 0 <= i <= |Thresholds|
      invariant row.None? && factor.None?
      invariant ChosenRow(width, height) == FirstMatch(width, height, i)
    {
      if width >= Thresholds[i] || height >= Thresholds[i] {
        row, factor := Some(i), Some(Factors[i]);
        break;
      }
      i := i + 1;
    }
  }

  /** The chosen row, when there is one, applies and no earlier row does. */
  lemma {:induction false} FirstMatchIsFirst(width: nat, height: nat, i: nat)
    requires i <= |Thresholds|
    ensures FirstMatch(width, height, i).Some? ==>
      var k := FirstMatch(width, height, i).value;
      i <= k < |Thresholds| && Reaches(width, height, k) &&
      forall j :: i <= j < k ==> !Reaches(width, height, j)
    ensures FirstMatch(width, height, i).None? ==>
      forall j :: i <= j < |Thresholds| ==> !Reaches(width, height, j)
    decreases |Thresholds| - i
  {
    if i < |Thresholds| && !Reaches(width, height, i) {
      FirstMatchIsFirst(width, height, i + 1);
    }
  }

  /** No scaling happens exactly when both sides are below 400. */
  lemma NoScaleIffSmall(width: nat, height: nat)
    ensures ChosenRow(width, height).None? <==> width < 400 && height < 400
  {
    FirstMatchIsFirst(width, height, 0);
  }

  /**
   * Because the thresholds ascend and the first match wins, every image that
   * is scaled at all is scaled by 0.2: the 600, 800 and 1200 rows are dead.
   */
  lemma OnlyFirstFactorUsed(width: nat, height: nat)
    ensures ChosenRow(width, height).Some? ==>
      ChosenRow(width, height) == Some(0) && Factors[ChosenRow(width, height).value] == Factor(1, 5)
  {
    FirstMatchIsFirst(width, height, 0);
  }

  /** A 500 x 100 image is scaled by 0.2, a 300 x 300 image is not scaled. */
  lemma ScaleExamples()
    ensures ChosenRow(500, 100) == Some(0)
    ensures ChosenRow(300, 300) == None
  {
    NoScaleIffSmall(300, 300);
  }
}
