/**
 * The request validation rules of the chartas service: which requests to create a charta, to put a
 * fragment on it and to get a fragment from it are accepted, and which rejection wins when several
 * rules are broken at once.
 */
module Validation {

  /** Configured maximum width and height (of a charta or of a fragment). */
  datatype Limits = Limits(maxWidth: int, maxHeight: int)

  /** A requested fragment: upper left corner (x, y), which may be negative, and its size. */
  datatype Rect = Rect(x: int, y: int, width: int, height: int)

  /** The kinds of rejected request, one per exception class of the service. */
  datatype Rejection =
    | NegativeDimensions     // a width or height that is zero or negative
    | TooBigCharta           // a charta larger than the configured maxima
    | TooBigFragment         // a fragment larger than the configured maxima
    | FragmentNegativePlane  // a fragment that lies entirely left of or above the origin
    | NoIntersection         // a fragment whose upper left corner is at or beyond the far edge

  datatype Verdict = Accepted | Rejected(reason: Rejection)

  predicate ExceedsLimits(width: int, height: int, limits: Limits) {
    width > limits.maxWidth || height > limits.maxHeight
  }

  predicate NonPositive(width: int, height: int) {
    width <= 0 || height <= 0
  }

  /** The rectangle ends at or before column 0 or at or before row 0. */
  predicate InNegativePlane(r: Rect) {
    r.x + r.width <= 0 || r.y + r.height <= 0
  }

  /** The intersection test: it looks only at the upper left corner. */
  predicate CornerInside(r: Rect, chartaWidth: int, chartaHeight: int) {
    r.x < chartaWidth && r.y < chartaHeight
  }

  /** The size check shared by create and get: the maxima are checked before positivity. */
  function CheckDimensions(width: int, height: int, limits: Limits, tooBig: Rejection): Verdict {
    if ExceedsLimits(width, height, limits) then Rejected(tooBig)
    else if NonPositive(width, height) then Rejected(NegativeDimensions)
    else Accepted
  }

  /** Validation of `createCharta(width, height)`. */
  function ValidateCreate(width: int, height: int, limits: Limits): (v: Verdict)
    ensures v == Accepted <==> 1 <= width <= limits.maxWidth && 1 <= height <= limits.maxHeight
    ensures v.Rejected? ==> v.reason == TooBigCharta || v.reason == NegativeDimensions
    ensures v == Rejected(TooBigCharta) <==> ExceedsLimits(width, height, limits)
    ensures !ExceedsLimits(width, height, limits) && NonPositive(width, height) ==>
              v == Rejected(NegativeDimensions)
  {
    CheckDimensions(width, height, limits, TooBigCharta)
  }

  /**
   * Validation of `putFragment(id, r, data)` against a charta of the given size: only the negative
   * plane test and then the intersection test; the requested size itself is not checked.
   */
  function ValidatePut(r: Rect, chartaWidth: int, chartaHeight: int): (v: Verdict)
    ensures v == Accepted <==> !InNegativePlane(r) && CornerInside(r, chartaWidth, chartaHeight)
    ensures v.Rejected? ==> v.reason == FragmentNegativePlane || v.reason == NoIntersection
    ensures v == Rejected(FragmentNegativePlane) <==> InNegativePlane(r)
  {
    if InNegativePlane(r) then Rejected(FragmentNegativePlane)
    else if !CornerInside(r, chartaWidth, chartaHeight) then Rejected(NoIntersection)
    else Accepted
  }

  /**
   * Validation of `getFragment(id, r)` against a charta of the given size: the fragment maxima, then
   * positivity, then the negative plane, then the intersection.
   */
  function ValidateGet(r: Rect, limits: Limits, chartaWidth: int, chartaHeight: int): (v: Verdict)
    ensures v == Accepted <==>
              && 1 <= r.width <= limits.maxWidth && 1 <= r.height <= limits.maxHeight
              && !InNegativePlane(r) && CornerInside(r, chartaWidth, chartaHeight)
    ensures v == Rejected(TooBigFragment) <==> ExceedsLimits(r.width, r.height, limits)
    ensures v == Rejected(NegativeDimensions) <==>
              !ExceedsLimits(r.width, r.height, limits) && NonPositive(r.width, r.height)
    ensures v == Rejected(FragmentNegativePlane) <==>
              !ExceedsLimits(r.width, r.height, limits) && !NonPositive(r.width, r.height) && InNegativePlane(r)
    ensures v.Rejected? ==> v.reason != TooBigCharta
  {
    match CheckDimensions(r.width, r.height, limits, TooBigFragment)
    case Rejected(why) => Rejected(why)
    case Accepted => ValidatePut(r, chartaWidth, chartaHeight)
  }

  /**
   * An accepted get always overlaps a (non-empty) charta: the pixel (max(x, 0), max(y, 0)) lies both
   * in the charta and in the requested rectangle.
   */
  lemma GetAcceptedOverlaps(r: Rect, limits: Limits, chartaWidth: int, chartaHeight: int)
    requires chartaWidth >= 1 && chartaHeight >= 1
    requires ValidateGet(r, limits, chartaWidth, chartaHeight) == Accepted
    ensures var px, py := if r.x < 0 then 0 else r.x, if r.y < 0 then 0 else r.y;
            && 0 <= px < chartaWidth && 0 <= py < chartaHeight
            && r.x <= px < r.x + r.width && r.y <= py < r.y + r.height
  {
  }

  /**
   * With put checking no size (the tests show none ahead of its two tests), a put, unlike a get, may
   * be accepted with a rectangle of no area: an empty 0 x 0 request at (1, 1) passes both of its
   * tests on any charta larger than 1 x 1.
   */
  lemma PutAcceptsEmptyRect(chartaWidth: int, chartaHeight: int)
    requires chartaWidth >= 2 && chartaHeight >= 2
    ensures ValidatePut(Rect(1, 1, 0, 0), chartaWidth, chartaHeight) == Accepted
  {
  }
}
