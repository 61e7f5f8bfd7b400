/**
 * The per-face match decision: the nearest enrolled encoding by distance
 * (`np.argmin`, first occurrence on ties), accepted only when the library's
 * `compare_faces` flags it as within the tolerance.
 */
module Matcher {

  /** The `tolerance=0.6` passed to `compare_faces`. */
  const Tolerance: real := 0.6

  /** Outcome for one probe: no match, or the index of the matched enrolled encoding. */
  datatype Decision = NoMatch | Match(index: nat)

  /** `k` is the first index at which `ds` takes its minimum. */
  ghost predicate IsFirstMin(ds: seq<real>, k: int)
  {
    0 <= k < |ds| &&
    (forall j :: 0 <= j < |ds| ==> ds[k] <= ds[j]) &&
    (forall j :: 0 <= j < k ==> ds[k] < ds[j])
  }

  /** `np.argmin` over a non-empty list of distances. */
  function ArgMin(ds: seq<real>): (k: nat)
    requires |ds| > 0
    ensures IsFirstMin(ds, k)
  {
    if |ds| == 1 then 0
    else
      var k := ArgMin(ds[..|ds| - 1]);
      if ds[|ds| - 1] < ds[k] then |ds| - 1 else k
  }

  /** `compare_faces`: one flag per known encoding, set when its distance is within `tolerance`. */
  function CompareFaces(ds: seq<real>, tolerance: real): (flags: seq<bool>)
  {
    seq(|ds|, i requires 0 <= i < |ds| => ds[i] <= tolerance)
  }

  /** The decision for one probe, given its distances to every known encoding. */
  function Decide(ds: seq<real>): Decision
  {
    if |ds| == 0 then NoMatch
    else
      var best := ArgMin(ds);
      if CompareFaces(ds, Tolerance)[best] then Match(best) else NoMatch
  }

  /**
   * The decision is a match exactly when some known encoding is within the
   * tolerance; the matched index is then the first minimum-distance index,
   * and it is itself within the tolerance. No known encodings: no match.
   */
  lemma DecideSpec(ds: seq<real>)
    ensures |ds| == 0 ==> Decide(ds) == NoMatch
    ensures Decide(ds).Match? <==> exists j :: 0 <= j < |ds| && ds[j] <= Tolerance
    ensures Decide(ds).Match? ==> IsFirstMin(ds, Decide(ds).index) && ds[Decide(ds).index] <= Tolerance
    ensures forall k :: IsFirstMin(ds, k) && ds[k] <= Tolerance ==> Decide(ds) == Match(k)
  {
    if |ds| > 0 {
      var best := ArgMin(ds);
      if ds[best] <= Tolerance {
        assert 0 <= best < |ds| && ds[best] <= Tolerance;
      }
    }
  }
}
