/**
 * The load band that selects the report's colour: low, medium or high
 * cargo, decided by strict comparisons of the load percentage with 30 and 80.
 */
module LoadState {

  /** Low load: the report is drawn in green. */
  const Low: int := 0
  /** Medium load: the report is drawn in yellow. */
  const Medium: int := 1
  /** High load: the report is drawn in red. */
  const High: int := 2

  /**
   * The band of a load percentage: at most 30 is low, above 30 up to 80
   * is medium, above 80 is high, so exactly 30 is still low and exactly
   * 80 still medium.
   */
  method CargoState(capacityInPercent: real) returns (state: int)
    ensures state == Low <==> capacityInPercent <= 30.0
    ensures state == Medium <==> 30.0 < capacityInPercent <= 80.0
    ensures state == High <==> capacityInPercent > 80.0
  {
    state := Low;
    if capacityInPercent > 30.0 {
      state := Medium;
    }
    if capacityInPercent > 80.0 {
      state := High;
    }
  }
}
