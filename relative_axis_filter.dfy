/**
 * The relative-axis filter: the axis deflection is read as a velocity and
 * integrated, tick by tick, into an accumulated position held in `[-1, 1]`.
 * The `float` fields are modelled as exact reals.
 */
module RelativeAxis {
  import opened Wrappers
  import opened Decimal
  import opened Helper
  import opened Normalization

  /** The speed `from_string` starts from before it reads its one argument. */
  const DefaultSpeed: int := 20000

  const Name: string := "relativeaxis"

  /** One tick of integration: speed times deflection times elapsed seconds, clamped. */
  function Integrate(state: real, floatSpeed: real, value: real, msecDelta: int): (r: real)
    ensures -1.0 <= r <= 1.0
  {
    Clamp(state + floatSpeed * value * msecDelta as real / 1000.0)
  }

  /** With no deflection or no elapsed time an in-range state stays where it is. */
  lemma IntegrateAtRest(state: real, floatSpeed: real, value: real, msecDelta: int)
    requires -1.0 <= state <= 1.0
    requires value == 0.0 || msecDelta == 0
    ensures Integrate(state, floatSpeed, value, msecDelta) == state
  {
    assert floatSpeed * value * msecDelta as real == 0.0;
  }

  /** A non-negative increment never lowers an in-range state. */
  lemma IntegrateMonotone(state: real, floatSpeed: real, value: real, msecDelta: int)
    requires -1.0 <= state <= 1.0
    requires floatSpeed * value * msecDelta as real >= 0.0
    ensures Integrate(state, floatSpeed, value, msecDelta) >= state
  {
  }

  /**
   * `ParseSpeed(str)`: the argument list `from_string` accepts, or the error it
   * throws; an accepted list is one number, which is the speed.
   */
  function ParseSpeed(str: string): (r: Result<int, ConfigError>)
    ensures r.Ok? ==> Some(r.value) == ParseInt(str)
  {
    var tokens := Split(str, ":");
    JoinSplit(str, ":");
    match ParseInt(tokens[0])
    case None => Err(InvalidNumber(tokens[0]))
    case Some(speed) => if |tokens| > 1 then Err(TooManyArguments) else Ok(speed)
  }

  /** Exactly one well-formed number is accepted; the default speed is never what comes out. */
  lemma ParseSpeedAccepts(str: string)
    ensures ParseSpeed(str).Ok? <==> |Split(str, ":")| == 1 && ParseInt(Split(str, ":")[0]).Some?
  {
  }

  /** A surplus argument after a valid speed is "to many arguments". */
  lemma ParseSpeedTooMany(str: string)
    requires |Split(str, ":")| > 1 && ParseInt(Split(str, ":")[0]).Some?
    ensures ParseSpeed(str) == Err(TooManyArguments)
  {
  }

  /** Reading back the printed speed gives the speed. */
  lemma ParsePrintedSpeed(speed: int)
    ensures ParseSpeed(IntToString(speed)) == Ok(speed)
  {
    IntToStringChars(speed);
    var s := IntToString(speed);
    assert ':' !in s;
    SplitJoin([s], ':');
    ParseIntToString(speed);
  }

  /** A speed followed by a surplus argument is refused with "to many arguments". */
  lemma ParseSpeedExample()
    ensures ParseSpeed("1:2") == Err(TooManyArguments)
  {
    assert Split("1:2", ":") == ["1", "2"] by {
      assert Join(["1", "2"], ":") == "1:2" by {
        assert ["1", "2"][1..] == ["2"];
      }
      SplitJoin(["1", "2"], ':');
    }
    assert ParseInt("1").Some? by {
      assert AllDigits("1");
    }
    ParseSpeedTooMany("1:2");
  }

  class RelativeAxisFilter {
    var speed: int
    var floatSpeed: real
    var value: real
    var state: real

    ghost predicate Valid()
      reads this
    {
      -1.0 <= state <= 1.0
    }

    /** `RelativeAxisFilter(speed)`: at rest, nothing read yet. */
    constructor (speed: int)
      ensures this.speed == speed
      ensures floatSpeed == 0.0 && value == 0.0 && state == 0.0
      ensures Valid()
    {
      this.speed := speed;
      floatSpeed := 0.0;
      value := 0.0;
      state := 0.0;
    }

    /** `update(msec_delta)`: integrate the last deflection over the elapsed time. */
    method Update(msecDelta: int)
      modifies this
      ensures state == Integrate(old(state), floatSpeed, value, msecDelta)
      ensures speed == old(speed) && floatSpeed == old(floatSpeed) && value == old(value)
      ensures Valid()
    {
      state := state + floatSpeed * value * msecDelta as real / 1000.0;
      state := Clamp(state);
    }

    /**
     * `filter(value, min, max)`: remember the deflection and the speed for the next
     * update, and return the position accumulated so far (one tick behind).
     */
    method Filter(value: int, min: int, max: int) returns (r: int)
      requires Valid()
      modifies this
      ensures this.value == ToFloat(value, min, max)
      ensures floatSpeed == ToFloatNoRangeCheck(speed, min, max)
      ensures state == old(state) && speed == old(speed)
      ensures r == FromFloat(state, min, max)
      ensures min <= max ==> min <= r <= max
      ensures Valid()
    {
      this.value := ToFloat(value, min, max);
      floatSpeed := ToFloatNoRangeCheck(speed, min, max);
      r := FromFloat(state, min, max);
    }

    /**
     * `str()`: the configuration text, which depends on the speed alone; reading
     * back its argument gives the speed.
     */
    function Str(): (s: string)
      reads this
      ensures |s| > |Name| && s[..|Name| + 1] == Name + ":" && ParseSpeed(s[|Name| + 1..]) == Ok(speed)
    {
      var s := Name + ":" + IntToString(speed);
      assert s[|Name| + 1..] == IntToString(speed);
      ParsePrintedSpeed(speed);
      s
    }
  }

  /**
   * `from_string(str)`: the one `:`-separated argument is the speed; a second one
   * is an error.
   */
  method FromString(str: string) returns (r: Result<RelativeAxisFilter, ConfigError>)
    ensures r.Err? ==> ParseSpeed(str) == Err(r.error)
    ensures r.Ok? ==> ParseSpeed(str) == Ok(r.value.speed) && fresh(r.value)
    ensures r.Ok? ==> r.value.state == 0.0 && r.value.value == 0.0 && r.value.floatSpeed == 0.0
  {
    var speed := DefaultSpeed;
    var tokens := StringSplit(str, ":");
    var idx := 0;
    while idx < |tokens|
      invariant 0 <= idx <= 1
      invariant idx == 1 ==> ParseInt(tokens[0]) == Some(speed)
    {
      if idx == 0 {
        var n := ParseInt(tokens[0]);
        if n.None? {
          return Err(InvalidNumber(tokens[0]));
        }
        speed := n.value;
      } else {
        return Err(TooManyArguments);
      }
      idx := idx + 1;
    }
    var filter := new RelativeAxisFilter(speed);
    return Ok(filter);
  }
}
