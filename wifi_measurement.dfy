/** `WifiMeasurement`: a point of the floor plan carrying a signal power and a wavelength. */
module Measurements {
  import opened Geometry

  /** The state of a measurement at one moment. */
  datatype Sample = Sample(position: Vector2D, power: real, wavelength: real)

  /**
   * A measurement object. It extends the library's `Vector2D`, whose public
   * fields `x` and `y` other code moves in place; its power can be reset, its
   * wavelength never changes after construction.
   */
  class WifiMeasurement {
    var x: real
    var y: real
    var power: real
    const wavelength: real

    function Position(): Vector2D
      reads this`x, this`y
    {
      Vector2D(x, y)
    }

    /** The whole state of the object as a value. */
    function Value(): Sample
      reads this
    {
      Sample(Position(), power, wavelength)
    }

    function GetPower(): (p: real)
      reads this
      ensures p == Value().power
    {
      power
    }

    function GetWavelength(): (w: real)
      reads this
      ensures w == Value().wavelength
    {
      wavelength
    }

    constructor (power: real, wavelength: real, x: real, y: real)
      ensures Value() == Sample(Vector2D(x, y), power, wavelength)
    {
      this.x, this.y := x, y;
      this.power := power;
      this.wavelength := wavelength;
    }

    /** `new WifiMeasurement(power, wavelength, position)`. */
    constructor AtPosition(power: real, wavelength: real, position: Vector2D)
      ensures Value() == Sample(position, power, wavelength)
    {
      this.x, this.y := position.x, position.y;
      this.power := power;
      this.wavelength := wavelength;
    }

    /** The copy constructor: a new object with the same power, wavelength and position. */
    constructor Copy(other: WifiMeasurement)
      ensures Value() == other.Value()
      ensures GetPower() == other.GetPower() && GetWavelength() == other.GetWavelength()
    {
      this.x, this.y := other.x, other.y;
      this.power := other.power;
      this.wavelength := other.wavelength;
    }

    /** `setPower`: only the power changes. */
    method SetPower(power: real)
      modifies this`power
      ensures Value() == old(Value()).(power := power)
      ensures GetPower() == power
    {
      this.power := power;
    }

    /** `moveTo`: only the position changes. */
    method MoveTo(position: Vector2D)
      modifies this`x, this`y
      ensures Value() == old(Value()).(position := position)
    {
      this.x, this.y := position.x, position.y;
    }
  }
}
