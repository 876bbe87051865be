/**
 * The run-wide timestamp: the first construction of the time manager
 * creates the one instance and records the current time as
 * "YYYY-mm-dd-HH_MM_SS"; later constructions return that instance and
 * `get_timestamp` returns the recorded text, creating the instance first if
 * needed. The clock reading is an input.
 */
module TimeManagement {
  import opened Wrappers
  import opened Text

  // ---------------------------------------------------------------------------
  // strftime("%Y-%m-%d-%H_%M_%S")

  /** A clock reading with a four-digit year. */
  datatype DateTime = DateTime(year: nat, month: nat, day: nat, hour: nat, minute: nat, second: nat)

  predicate ValidDateTime(t: DateTime) {
    && 1000 <= t.year <= 9999 && 1 <= t.month <= 12 && 1 <= t.day <= 31
    && t.hour < 24 && t.minute < 60 && t.second < 60
  }

  function Pow10(width: nat): nat {
    if width == 0 then 1 else 10 * Pow10(width - 1)
  }

  /** The last `width` decimal digits of `n`, zero-padded: the `%m`, `%d`, ... fields. */
  function Padded(n: nat, width: nat): (r: String)
    ensures |r| == width && AllDigits(r)
  {
    if width == 0 then [] else Padded(n / 10, width - 1) + [DigitChar(n % 10)]
  }

  /** A number below `10^width` is read back from its padded digits. */
  lemma {:induction false} PaddedRoundTrip(n: nat, width: nat)
    requires n < Pow10(width)
    ensures DecimalValue(Padded(n, width)) == n
  {
    if width > 0 {
      PaddedRoundTrip(n / 10, width - 1);
      var r := Padded(n, width);
      assert r[..|r| - 1] == Padded(n / 10, width - 1);
    }
  }

  /** `now.strftime("%Y-%m-%d-%H_%M_%S")` */
  function Format(t: DateTime): (r: String)
    ensures |r| == 19
  {
    Padded(t.year, 4) + "-" + Padded(t.month, 2) + "-" + Padded(t.day, 2) + "-"
      + Padded(t.hour, 2) + "_" + Padded(t.minute, 2) + "_" + Padded(t.second, 2)
  }

  /** Reads a timestamp back: the six digit fields at their fixed places between the separators. */
  function Parse(s: String): (r: Option<DateTime>)
    ensures r.Some? ==> |s| == 19
  {
    if |s| == 19 && s[4] == '-' && s[7] == '-' && s[10] == '-' && s[13] == '_' && s[16] == '_'
       && AllDigits(s[0..4]) && AllDigits(s[5..7]) && AllDigits(s[8..10])
       && AllDigits(s[11..13]) && AllDigits(s[14..16]) && AllDigits(s[17..19])
    then Some(DateTime(DecimalValue(s[0..4]), DecimalValue(s[5..7]), DecimalValue(s[8..10]),
                       DecimalValue(s[11..13]), DecimalValue(s[14..16]), DecimalValue(s[17..19])))
    else None
  }

  /** Where the fields and separators sit in a formatted timestamp. */
  lemma FormatLayout(t: DateTime)
    ensures var s := Format(t);
            && s[4] == '-' && s[7] == '-' && s[10] == '-' && s[13] == '_' && s[16] == '_'
            && s[0..4] == Padded(t.year, 4) && s[5..7] == Padded(t.month, 2) && s[8..10] == Padded(t.day, 2)
            && s[11..13] == Padded(t.hour, 2) && s[14..16] == Padded(t.minute, 2) && s[17..19] == Padded(t.second, 2)
  {
    var y, mo, d := Padded(t.year, 4), Padded(t.month, 2), Padded(t.day, 2);
    var h, mi, se := Padded(t.hour, 2), Padded(t.minute, 2), Padded(t.second, 2);
    var s := Format(t);
    assert s == y + "-" + mo + "-" + d + "-" + h + "_" + mi + "_" + se;
    assert s[0..4] == y;
    assert s[5..7] == mo;
    assert s[8..10] == d;
    assert s[11..13] == h;
    assert s[14..16] == mi;
    assert s[17..19] == se;
  }

  /** The recorded timestamp determines the clock reading it came from. */
  lemma ParseFormat(t: DateTime)
    requires ValidDateTime(t)
    ensures Parse(Format(t)) == Some(t)
  {
    FormatLayout(t);
    assert Pow10(2) == 100 && Pow10(4) == 10000 by {
      assert Pow10(1) == 10;
      assert Pow10(3) == 1000;
    }
    PaddedRoundTrip(t.year, 4);
    PaddedRoundTrip(t.month, 2);
    PaddedRoundTrip(t.day, 2);
    PaddedRoundTrip(t.hour, 2);
    PaddedRoundTrip(t.minute, 2);
    PaddedRoundTrip(t.second, 2);
  }

  // ---------------------------------------------------------------------------
  // TimeManager

  /** The one object `TimeManager()` hands out. */
  class Instance {
    constructor () {}
  }

  /** The class-level state: the instance and the timestamp, both unset until first use. */
  class TimeManager {
    var instance: Instance?
    var timestamp: Option<String>

    /** The instance and the timestamp are set together. */
    predicate Valid()
      reads this
    {
      (instance == null) == timestamp.None?
    }

    /** The state before the class is first used. */
    constructor ()
      ensures instance == null && timestamp == None
      ensures Valid()
    {
      instance := null;
      timestamp := None;
    }

    /** `TimeManager()`: the first call creates the instance and records `now`; later calls change nothing. */
    method New(now: DateTime) returns (inst: Instance)
      requires Valid()
      modifies this
      ensures Valid() && instance == inst
      ensures old(instance) != null ==> inst == old(instance) && timestamp == old(timestamp)
      ensures old(instance) == null ==> fresh(inst) && timestamp == Some(Format(now))
    {
      if instance == null {
        instance := new Instance();
        timestamp := Some(Format(now));
      }
      inst := instance;
    }

    /** `get_timestamp`: the recorded timestamp, creating the instance first when there is none. */
    method GetTimestamp(now: DateTime) returns (ts: String)
      requires Valid()
      modifies this
      ensures Valid() && timestamp == Some(ts) && instance != null
      ensures old(timestamp).Some? ==> ts == old(timestamp).value && instance == old(instance)
      ensures old(timestamp).None? ==> ts == Format(now)
    {
      if timestamp.None? {
        var inst := New(now);
        instance := inst;
      }
      ts := timestamp.value;
    }
  }
}
