/**
 * `Preferences`: the application's persisted flags and settings, read with
 * defaults, and the process-wide instance that must be initialized first.
 */
module Settings {
  import opened Wrappers
  import opened JavaNumbers
  import opened ColorSelection

  // Keys of the settings store.
  const SETTING_DEBUG_LINES: string := "debug_lines"
  const SETTING_PIXEL_PER_METER: string := "pixel_meter"
  const SETTING_GRADIENT_WIDTH: string := "gradient_width"
  const SETTING_HEATMAP_MODE: string := "heatmap_mode"
  const SETTING_HEATMAP_COLOR: string := "heatmap_color"
  const SETTING_ACCURATE_RSSI: string := "accurate_rssi"
  const SETTING_NUMBER_OF_MEASUREMENTS: string := "number_of_measurements"
  const SETTING_AUTO_AREA: string := "auto_area"

  /** The one-time hints whose "already shown" flags the flag store keeps. */
  datatype Tip = AreaPoint | AreaDone | MakeMeasurement | Generate

  function TipKey(tip: Tip): string
  {
    match tip
    case AreaPoint => "tip_area_point"
    case AreaDone => "tip_area_done"
    case MakeMeasurement => "tip_make_measurement"
    case Generate => "tip_generate"
  }

  /** Distinct hints are stored under distinct keys. */
  lemma TipKeyIsInjective(a: Tip, b: Tip)
    requires TipKey(a) == TipKey(b)
    ensures a == b
  {
  }

  /** A key-value store: string entries and boolean entries under string keys. */
  datatype Store = Store(strings: map<string, string>, booleans: map<string, bool>)

  /** `getString(key, default)`. */
  function GetString(store: Store, key: string, default: string): string
  {
    if key in store.strings then store.strings[key] else default
  }

  /** `getBoolean(key, default)`. */
  function GetBoolean(store: Store, key: string, default: bool): bool
  {
    if key in store.booleans then store.booleans[key] else default
  }

  /** `putString(key, value).apply()`. */
  function PutString(store: Store, key: string, value: string): (s: Store)
    ensures GetString(s, key, "") == value
    ensures forall k :: k != key ==> (k in s.strings <==> k in store.strings)
    ensures forall k :: k != key && k in store.strings ==> s.strings[k] == store.strings[k]
    ensures s.booleans == store.booleans
  {
    store.(strings := store.strings[key := value])
  }

  /** `putBoolean(key, value).apply()`. */
  function PutBoolean(store: Store, key: string, value: bool): (s: Store)
    ensures GetBoolean(s, key, false) == value
    ensures forall k :: k != key ==> GetBoolean(s, k, false) == GetBoolean(store, k, false)
    ensures s.strings == store.strings
  {
    store.(booleans := store.booleans[key := value])
  }

  /**
   * `getNumberOfMeasurements` on a settings store: the stored count, `"3"` when
   * unset. A count outside 1..9 is replaced by 3, and 3 is written back;
   * text that is not a number throws and writes nothing.
   */
  function NumberOfMeasurements(settings: Store): (r: (Result<int>, Store))
    ensures r.0.Ok? ==> 1 <= r.0.value <= 9
    ensures r.0.Err? ==> r.0 == Err(NumberFormat) && r.1 == settings
    ensures r.1 == settings || r.1 == PutString(settings, SETTING_NUMBER_OF_MEASUREMENTS, "3")
  {
    match ParseInt(GetString(settings, SETTING_NUMBER_OF_MEASUREMENTS, "3"))
    case Err(e) => (Err(e), settings)
    case Ok(number) =>
      if number < 1 || number > 9 then (Ok(3), PutString(settings, SETTING_NUMBER_OF_MEASUREMENTS, "3"))
      else (Ok(number), settings)
  }

  /** The default texts parse to the default numbers. */
  lemma ParseDefaults()
    ensures ParseInt("3") == Ok(3)
    ensures ParseInt("100") == Ok(100)
  {
    ParseIntToStringRoundTrip(3);
    assert IntToString(3) == "3";
    ParseIntToStringRoundTrip(100);
    assert IntToString(100) == "100";
  }

  /** Unset, the count is the default 3 and nothing is written. */
  lemma NumberOfMeasurementsDefault(settings: Store)
    requires SETTING_NUMBER_OF_MEASUREMENTS !in settings.strings
    ensures NumberOfMeasurements(settings) == (Ok(3), settings)
  {
    ParseDefaults();
  }

  /** A count in range is returned as stored, and nothing is written. */
  lemma NumberOfMeasurementsInRange(settings: Store, n: int)
    requires 1 <= n <= 9
    requires GetString(settings, SETTING_NUMBER_OF_MEASUREMENTS, "3") == IntToString(n)
    ensures NumberOfMeasurements(settings) == (Ok(n), settings)
  {
    ParseIntToStringRoundTrip(n);
  }

  /** A stored count outside 1..9 reads as 3, and "3" is written back in its place. */
  lemma NumberOfMeasurementsOutOfRange(settings: Store, n: int)
    requires IsInt32(n) && !(1 <= n <= 9)
    requires GetString(settings, SETTING_NUMBER_OF_MEASUREMENTS, "3") == IntToString(n)
    ensures NumberOfMeasurements(settings) == (Ok(3), PutString(settings, SETTING_NUMBER_OF_MEASUREMENTS, "3"))
    ensures GetString(NumberOfMeasurements(settings).1, SETTING_NUMBER_OF_MEASUREMENTS, "3") == "3"
  {
    ParseIntToStringRoundTrip(n);
  }

  /** After one read the setting is valid: reading again gives the same count and writes nothing. */
  lemma {:induction false} NumberOfMeasurementsIsIdempotent(settings: Store)
    requires NumberOfMeasurements(settings).0.Ok?
    ensures var (first, after) := NumberOfMeasurements(settings);
            NumberOfMeasurements(after) == (first, after)
  {
    var (first, after) := NumberOfMeasurements(settings);
    if after != settings {
      ParseDefaults();
      assert GetString(after, SETTING_NUMBER_OF_MEASUREMENTS, "3") == "3";
    }
  }

  class Preferences {
    /** The application's private store of hint flags. */
    var flags: Store
    /** The store written by the settings screen. */
    var settings: Store

    constructor (flags: Store, settings: Store)
      ensures this.flags == flags && this.settings == settings
    {
      this.flags := flags;
      this.settings := settings;
    }

    /** `wasNewAreaPointTipShown` and its siblings: false until set. */
    function WasTipShown(tip: Tip): (shown: bool)
      reads this`flags
      ensures TipKey(tip) !in flags.booleans ==> !shown
    {
      GetBoolean(flags, TipKey(tip), false)
    }

    /** `setNewAreaPointTipShown` and its siblings: only that hint's flag changes. */
    method SetTipShown(tip: Tip, shown: bool)
      modifies this`flags
      ensures flags == PutBoolean(old(flags), TipKey(tip), shown)
      ensures WasTipShown(tip) == shown
      ensures forall other :: other != tip ==> WasTipShown(other) == old(WasTipShown(other))
    {
      flags := PutBoolean(flags, TipKey(tip), shown);
      forall other | other != tip
        ensures WasTipShown(other) == old(WasTipShown(other))
      {
        if TipKey(other) == TipKey(tip) {
          TipKeyIsInjective(other, tip);
          assert false;
        }
      }
    }

    function ShouldDrawDebugLines(): (r: bool)
      reads this`settings
      ensures SETTING_DEBUG_LINES !in settings.booleans ==> !r
      ensures SETTING_DEBUG_LINES in settings.booleans ==> r == settings.booleans[SETTING_DEBUG_LINES]
    {
      GetBoolean(settings, SETTING_DEBUG_LINES, false)
    }

    /** `getPixelsPerMeter`: the stored text parsed as an `int`, 100 when unset. */
    function GetPixelsPerMeter(): (r: Result<int>)
      reads this`settings
      ensures SETTING_PIXEL_PER_METER !in settings.strings ==> r == Ok(100)
      ensures SETTING_PIXEL_PER_METER in settings.strings ==> r == ParseInt(settings.strings[SETTING_PIXEL_PER_METER])
    {
      ParseDefaults();
      ParseInt(GetString(settings, SETTING_PIXEL_PER_METER, "100"))
    }

    /** `getGradientWidth`: the stored text parsed as an `int`, 100 when unset. */
    function GetGradientWidth(): (r: Result<int>)
      reads this`settings
      ensures SETTING_GRADIENT_WIDTH !in settings.strings ==> r == Ok(100)
      ensures SETTING_GRADIENT_WIDTH in settings.strings ==> r == ParseInt(settings.strings[SETTING_GRADIENT_WIDTH])
    {
      ParseDefaults();
      ParseInt(GetString(settings, SETTING_GRADIENT_WIDTH, "100"))
    }

    /** `setGradientWidth`: stores the decimal text; reading it back gives the same width. */
    method SetGradientWidth(gradientWidth: int)
      requires IsInt32(gradientWidth)
      modifies this`settings
      ensures settings == PutString(old(settings), SETTING_GRADIENT_WIDTH, IntToString(gradientWidth))
      ensures GetGradientWidth() == Ok(gradientWidth)
    {
      settings := PutString(settings, SETTING_GRADIENT_WIDTH, IntToString(gradientWidth));
      ParseIntToStringRoundTrip(gradientWidth);
    }

    /** `getColorSelectionMode`: the stored mode name, bounds when unset or unknown. */
    function GetColorSelectionMode(): (mode: Mode)
      reads this`settings
      ensures SETTING_HEATMAP_MODE !in settings.strings ==> mode == Bounds
      ensures mode == WifiBars <==> GetString(settings, SETTING_HEATMAP_MODE, "BOUNDS") == ModeName(WifiBars)
    {
      GetMode(GetString(settings, SETTING_HEATMAP_MODE, "BOUNDS"))
    }

    /** `getHeatmapColors`: the stored gradient mode number, 0 when unset. */
    function GetHeatmapColors(): (r: Result<int>)
      reads this`settings
      ensures SETTING_HEATMAP_COLOR !in settings.strings ==> r == Ok(0)
      ensures SETTING_HEATMAP_COLOR in settings.strings ==> r == ParseInt(settings.strings[SETTING_HEATMAP_COLOR])
    {
      ParseInt(GetString(settings, SETTING_HEATMAP_COLOR, "0"))
    }

    function ShouldWaitForNewWifiScan(): (r: bool)
      reads this`settings
      ensures SETTING_ACCURATE_RSSI !in settings.booleans ==> !r
      ensures SETTING_ACCURATE_RSSI in settings.booleans ==> r == settings.booleans[SETTING_ACCURATE_RSSI]
    {
      GetBoolean(settings, SETTING_ACCURATE_RSSI, false)
    }

    function IsAreaAutoDefinitionEnabled(): (r: bool)
      reads this`settings
      ensures SETTING_AUTO_AREA !in settings.booleans ==> !r
      ensures SETTING_AUTO_AREA in settings.booleans ==> r == settings.booleans[SETTING_AUTO_AREA]
    {
      GetBoolean(settings, SETTING_AUTO_AREA, false)
    }

    /** `getNumberOfMeasurements`: always 1..9, correcting the stored value when it is not. */
    method GetNumberOfMeasurements() returns (r: Result<int>)
      modifies this`settings
      ensures (r, settings) == NumberOfMeasurements(old(settings))
      ensures r.Ok? ==> 1 <= r.value <= 9
      ensures settings == old(settings) || settings == PutString(old(settings), SETTING_NUMBER_OF_MEASUREMENTS, "3")
      ensures r.Ok? && r.value != 3 ==> settings == old(settings)
    {
      var value := GetString(settings, SETTING_NUMBER_OF_MEASUREMENTS, "3");
      var parsed := ParseInt(value);
      if parsed.Err? {
        return Err(parsed.error);
      }
      var number := parsed.value;
      if number < 1 || number > 9 {
        number := 3;
        settings := PutString(settings, SETTING_NUMBER_OF_MEASUREMENTS, "3");
      }
      r := Ok(number);
    }
  }

  /** The static `INSTANCE` slot of `Preferences`. */
  class PreferencesRegistry {
    var instance: Preferences?

    constructor ()
      ensures instance == null
    {
      instance := null;
    }

    /** `init`: creates the instance the first time only; later calls keep it. */
    method Init(flags: Store, settings: Store)
      modifies this`instance
      ensures old(instance) != null ==> instance == old(instance)
      ensures old(instance) == null ==>
                instance != null && fresh(instance) && instance.flags == flags && instance.settings == settings
    {
      if instance == null {
        instance := new Preferences(flags, settings);
      }
    }

    /** `getInstance`: throws until `init` has run. */
    function GetInstance(): (r: Result<Preferences>)
      reads this`instance
      ensures r.Err? <==> instance == null
      ensures r.Err? ==> r.error == NotInitialized
      ensures r.Ok? ==> r.value == instance
    {
      if instance == null then Err(NotInitialized) else Ok(instance)
    }
  }
}
