/** `RssiAggregate`: a running sum and count of signal readings taken at one place. */
module Aggregation {
  import opened Geometry
  import opened Wrappers

  /** The sum of the readings. */
  function RealSum(s: seq<real>): real
  {
    if s == [] then 0.0 else RealSum(s[..|s| - 1]) + s[|s| - 1]
  }

  class RssiAggregate {
    var rssiSum: real
    var numberOfValues: int
    var worldLocation: Option<Vector3>
    /** The readings added so far, in order. */
    ghost var readings: seq<real>

    /** The sum and the count are those of the readings added. */
    ghost predicate Valid()
      reads this`rssiSum, this`numberOfValues, this`readings
    {
      numberOfValues == |readings| && rssiSum == RealSum(readings)
    }

    constructor ()
      ensures Valid()
      ensures rssiSum == 0.0 && numberOfValues == 0 && worldLocation == None && readings == []
    {
      rssiSum, numberOfValues := 0.0, 0;
      worldLocation := None;
      readings := [];
    }

    constructor At(location: Vector3)
      ensures Valid()
      ensures rssiSum == 0.0 && numberOfValues == 0 && worldLocation == Some(location) && readings == []
    {
      rssiSum, numberOfValues := 0.0, 0;
      worldLocation := Some(location);
      readings := [];
    }

    /** `addValue`: the sum grows by the reading, the count by exactly one. */
    method AddValue(rssi: real)
      requires Valid()
      modifies this`rssiSum, this`numberOfValues, this`readings
      ensures Valid()
      ensures rssiSum == old(rssiSum) + rssi && numberOfValues == old(numberOfValues) + 1
      ensures readings == old(readings) + [rssi]
      ensures worldLocation == old(worldLocation)
    {
      rssiSum := rssiSum + rssi;
      numberOfValues := numberOfValues + 1;
      readings := readings + [rssi];
      assert readings[..|readings| - 1] == old(readings);
    }

    /**
     * `getAverage`: the sum divided by the count; with no value yet this is
     * `0.0 / 0.0`, which is NaN.
     */
    function GetAverage(): (r: Cell)
      reads this`rssiSum, this`numberOfValues, this`readings
      requires Valid()
      ensures r.NaN? <==> readings == []
      ensures r.Val? ==> r.v * |readings| as real == RealSum(readings)
    {
      if numberOfValues == 0 then NaN else Val(rssiSum / numberOfValues as real)
    }

    function GetNumberOfValues(): (n: int)
      reads this`numberOfValues, this`rssiSum, this`readings
      requires Valid()
      ensures n == |readings|
    {
      numberOfValues
    }

    function GetWorldLocation(): (l: Option<Vector3>)
      reads this`worldLocation
      ensures l == worldLocation
    {
      worldLocation
    }

    method SetWorldLocation(location: Option<Vector3>)
      modifies this`worldLocation
      ensures GetWorldLocation() == location
    {
      worldLocation := location;
    }
  }

  /** Readings 1, 2, 3 average to 2; a fourth reading 4 moves the average to 2.5. */
  method AverageOfReadings() returns (afterThree: Cell, afterFour: Cell)
    ensures afterThree == Val(2.0) && afterFour == Val(2.5)
  {
    var aggregate := new RssiAggregate();
    aggregate.AddValue(1.0);
    aggregate.AddValue(2.0);
    aggregate.AddValue(3.0);
    afterThree := aggregate.GetAverage();
    aggregate.AddValue(4.0);
    afterFour := aggregate.GetAverage();
  }
}
