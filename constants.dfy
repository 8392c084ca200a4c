/** The constants of `Constants.java` and the Java `double` limits the code relies on. */
module Constants {

  /** The value of a pixel for which no triangle is found. */
  const INVALID_RSSI: real := 0.0

  /** How far outside a triangle a point may lie and still be inside it. */
  const FUZZY_WIDTH: real := 0.000000001

  /** A rectangle with more pixels than this is split into four tasks. */
  const MAX_VALUES_PER_THREAD: int := 10000

  /** The power given to synthetic edge samples by the low and high strategies. */
  const MAX_POWER: real := 0.0001
  const MIN_POWER: real := 0.0

  /**
   * The float literal `0.1f`, exactly: 13421773 * 2^-27. Two world positions
   * closer than this on the floor plane count as the same position.
   */
  const FUZZY_TARGET_DETECTION_DISTANCE: real := 13421773.0 / 134217728.0

  /** `Double.MAX_VALUE`, exactly: (2^53 - 1) * 2^971. */
  const DOUBLE_MAX_VALUE: real :=
    179769313486231570814527423731704356798070567525844996598917476803157260780028538760589558632766878171540458953514382464234321326889464182768467546703537516986049910576551282076245490090389328944075868508455133942304583236903222948165808559332123348274797826204144723168738177180919299881250404026184124858368.0

  /** `Double.MIN_VALUE`, exactly: 2^-1074, the smallest POSITIVE double. */
  const DOUBLE_MIN_VALUE: real :=
    1.0 / 202402253307310618352495346718917307049556649764142118356901358027430339567995346891960383701437124495187077864316811911389808737385793476867013399940738509921517424276566361364466907742093216341239767678472745068562007483424692698618103355649159556340810056512358769552333414615230502532186327508646006263307707741093494784.0
}
