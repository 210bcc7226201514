/**
 * The response-curve filter: a piecewise-linear map of the axis range onto a
 * list of sample values placed at equal distances.  The `float` arithmetic of
 * `filter` is modelled over exact reals; the implicit conversions back to `int`
 * are truncations, and the reads of `m_samples` are checked against its size.
 */
module ResponseCurve {
  import opened Wrappers
  import opened CArith
  import opened Decimal
  import opened Helper

  const Name: string := "responsecurve"

  /** What one call to `filter` comes to. */
  datatype CurveOutput =
    | Value(v: int)
      /** `max == min`: the bucket size is zero and the position is undefined. */
    | DivisionByZero
      /**
       * An index of `m_samples` that is read outside the vector: `bucket_index`
       * when that is out of range already, otherwise `bucket_index + 1`.
       */
    | OutOfBounds(index: int)

  /** `(max - min) / float(bucket_count)`. */
  function BucketSize(bucketCount: nat, min: int, max: int): real
    requires bucketCount > 0
  {
    (max - min) as real / bucketCount as real
  }

  /** Where `value` falls, measured in buckets from `min`. */
  function Position(bucketCount: nat, value: int, min: int, max: int): real
    requires bucketCount > 0 && min != max
  {
    (value - min) as real / BucketSize(bucketCount, min, max)
  }

  /** `(1 - t) * a + t * b`, truncated back to `int` on return. */
  function Mix(a: int, b: int, t: real): int
  {
    Trunc((1.0 - t) * a as real + t * b as real)
  }

  /** A curve holds its samples for its whole life; nothing updates them. */
  datatype ResponseCurveAxisFilter = ResponseCurveAxisFilter(samples: seq<int>)
  {
    /**
     * `filter(value, min, max)`. An index it reports really lies outside the
     * samples, and a zero bucket size is exactly an empty range.
     */
    function Filter(value: int, min: int, max: int): (r: CurveOutput)
      ensures r.OutOfBounds? ==> |samples| >= 2 && (r.index < 0 || r.index >= |samples|)
      ensures r.DivisionByZero? <==> |samples| >= 2 && min == max
    {
      if |samples| == 0 then Value(value)
      else if |samples| == 1 then Value(samples[0])
      else
        var bucketSize := BucketSize(|samples| - 1, min, max);
        if bucketSize == 0.0 then DivisionByZero
        else Interpolate(samples, (value - min) as real, bucketSize)
    }
  }

  /** `t`: how far into bucket `k` a value `offset` above `min` lies, in buckets. */
  function BucketOffset(offset: real, k: int, bucketSize: real): real
    requires bucketSize != 0.0
  {
    (offset - k as real * bucketSize) / bucketSize
  }

  /**
   * The bucket index, the offset `t` into it and the mix of its two samples,
   * for a value lying `offset` above `min`.
   */
  function Interpolate(samples: seq<int>, offset: real, bucketSize: real): (r: CurveOutput)
    requires bucketSize != 0.0
    ensures r.OutOfBounds? ==> r.index < 0 || r.index >= |samples|
    ensures !r.DivisionByZero?
  {
    var bucketIndex := Trunc(offset / bucketSize);
    var t := BucketOffset(offset, bucketIndex, bucketSize);
    if bucketIndex < 0 || bucketIndex >= |samples| then OutOfBounds(bucketIndex)
    else if bucketIndex + 1 >= |samples| then OutOfBounds(bucketIndex + 1)
    else Value(Mix(samples[bucketIndex], samples[bucketIndex + 1], t))
  }

  /** Without samples the curve is the identity. */
  lemma FilterEmpty(value: int, min: int, max: int)
    ensures ResponseCurveAxisFilter([]).Filter(value, min, max) == Value(value)
  {
  }

  /** With one sample the curve is constant. */
  lemma FilterSingle(sample: int, value: int, min: int, max: int)
    ensures ResponseCurveAxisFilter([sample]).Filter(value, min, max) == Value(sample)
  {
  }

  /** An empty range leaves the bucket size zero. */
  lemma FilterEmptyRange(samples: seq<int>, value: int, bound: int)
    requires |samples| >= 2
    ensures ResponseCurveAxisFilter(samples).Filter(value, bound, bound) == DivisionByZero
  {
  }

  /** The curve read at position `q`, counted in buckets: the sample pair of bucket `Trunc(q)`, mixed. */
  function AtPosition(samples: seq<int>, q: real): CurveOutput
  {
    var k := Trunc(q);
    var t := q - k as real;
    if k < 0 || k >= |samples| then OutOfBounds(k)
    else if k + 1 >= |samples| then OutOfBounds(k + 1)
    else Value(Mix(samples[k], samples[k + 1], t))
  }

  /** Dividing by a positive bucket size keeps strict order. */
  lemma DivLess(x: real, y: real, s: real)
    requires s > 0.0 && x < y
    ensures x / s < y / s
  {
    assert y / s - x / s == (y - x) / s;
    assert (y - x) / s * s == y - x;
  }

  /** `t` is the distance of the position into its bucket. */
  lemma InterpolateAtPosition(samples: seq<int>, offset: real, bucketSize: real)
    requires bucketSize != 0.0
    ensures Interpolate(samples, offset, bucketSize) == AtPosition(samples, offset / bucketSize)
  {
    Offset(offset, Trunc(offset / bucketSize), bucketSize);
  }

  /** `(v - k * s) / s` is `v / s - k`. */
  lemma Offset(offset: real, k: int, bucketSize: real)
    requires bucketSize != 0.0
    ensures BucketOffset(offset, k, bucketSize) == offset / bucketSize - k as real
  {
  }

  /** With at least two samples and a non-empty range, `filter` reads the curve at the position of `value`. */
  lemma FilterAtPosition(samples: seq<int>, value: int, min: int, max: int)
    requires |samples| >= 2 && min != max
    ensures ResponseCurveAxisFilter(samples).Filter(value, min, max) ==
      AtPosition(samples, Position(|samples| - 1, value, min, max))
  {
    var bucketSize := BucketSize(|samples| - 1, min, max);
    assert bucketSize != 0.0;
    InterpolateAtPosition(samples, (value - min) as real, bucketSize);
  }

  /** `max` sits at position `bucket_count`, `min` at position 0, and bucket boundaries on whole positions. */
  lemma PositionOfAnchor(bucketCount: nat, k: nat, value: int, min: int, max: int)
    requires bucketCount > 0 && min != max
    requires (value - min) as real == k as real * BucketSize(bucketCount, min, max)
    ensures Position(bucketCount, value, min, max) == k as real
  {
    assert BucketSize(bucketCount, min, max) != 0.0;
  }

  /** Inside `[min, max)` the position lies in `[0, bucket_count)`. */
  lemma PositionInRange(bucketCount: nat, value: int, min: int, max: int)
    requires bucketCount > 0 && min <= value < max
    ensures 0.0 <= Position(bucketCount, value, min, max) < bucketCount as real
  {
    var bucketSize := BucketSize(bucketCount, min, max);
    assert bucketSize > 0.0;
    PositionOfAnchor(bucketCount, bucketCount, max, min, max);
    DivLess((value - min) as real, (max - min) as real, bucketSize);
  }

  /** The product of two non-negative reals is non-negative. */
  lemma ProductNonNegative(p: real, q: real)
    requires 0.0 <= p && 0.0 <= q
    ensures 0.0 <= p * q
  {
  }

  /** A convex combination lies between its ends: its distances to them are the weights times the gap. */
  lemma ConvexBetween(lo: real, hi: real, t: real, x: real)
    requires 0.0 <= t <= 1.0 && lo <= hi
    requires x - lo == t * (hi - lo) && hi - x == (1.0 - t) * (hi - lo)
    ensures lo <= x <= hi
  {
    ProductNonNegative(t, hi - lo);
    ProductNonNegative(1.0 - t, hi - lo);
  }

  /** A value that is a convex combination of two integers truncates to one between them. */
  lemma MixBetween(a: int, b: int, t: real)
    requires 0.0 <= t <= 1.0
    ensures var r := Mix(a, b, t);
      (a <= b ==> a <= r <= b) && (b <= a ==> b <= r <= a)
  {
    var x, ra, rb := (1.0 - t) * a as real + t * b as real, a as real, b as real;
    assert Mix(a, b, t) == Trunc(x);
    if a <= b {
      assert x - ra == t * (rb - ra);
      assert rb - x == (1.0 - t) * (rb - ra);
      ConvexBetween(ra, rb, t, x);
      TruncBetween(x, a, b);
    } else {
      assert x - rb == (1.0 - t) * (ra - rb);
      var u := 1.0 - t;
      assert ra - x == (1.0 - u) * (ra - rb);
      ConvexBetween(rb, ra, u, x);
      TruncBetween(x, b, a);
    }
  }

  /**
   * For `min <= value < max` both reads are inside the sample vector, and the
   * result lies between the two samples around `value`.
   */
  lemma FilterInRange(samples: seq<int>, value: int, min: int, max: int)
    requires |samples| >= 2 && min <= value < max
    ensures var out := ResponseCurveAxisFilter(samples).Filter(value, min, max);
      var k := Trunc(Position(|samples| - 1, value, min, max));
      out.Value? && 0 <= k < |samples| - 1 &&
      (samples[k] <= samples[k + 1] ==> samples[k] <= out.v <= samples[k + 1]) &&
      (samples[k + 1] <= samples[k] ==> samples[k + 1] <= out.v <= samples[k])
  {
    var q := Position(|samples| - 1, value, min, max);
    PositionInRange(|samples| - 1, value, min, max);
    FilterAtPosition(samples, value, min, max);
    var k := Trunc(q);
    MixBetween(samples[k], samples[k + 1], q - k as real);
  }

  /** A value exactly on the `k`-th bucket boundary yields the `k`-th sample. */
  lemma FilterAtAnchor(samples: seq<int>, k: nat, value: int, min: int, max: int)
    requires |samples| >= 2 && min != max && k < |samples| - 1
    requires (value - min) as real == k as real * BucketSize(|samples| - 1, min, max)
    ensures ResponseCurveAxisFilter(samples).Filter(value, min, max) == Value(samples[k])
  {
    PositionOfAnchor(|samples| - 1, k, value, min, max);
    FilterAtPosition(samples, value, min, max);
    assert Trunc(k as real) == k;
  }

  /** `filter(min)` is the first sample. */
  lemma FilterAtMin(samples: seq<int>, min: int, max: int)
    requires |samples| >= 2 && min != max
    ensures ResponseCurveAxisFilter(samples).Filter(min, min, max) == Value(samples[0])
  {
    FilterAtAnchor(samples, 0, min, min, max);
  }

  /**
   * `filter(max)` lands in bucket `bucket_count` and then reads one sample past
   * the end: there is no clamp for the top of the range.
   */
  lemma FilterAtMax(samples: seq<int>, min: int, max: int)
    requires |samples| >= 2 && min < max
    ensures ResponseCurveAxisFilter(samples).Filter(max, min, max) == OutOfBounds(|samples|)
  {
    PositionOfAnchor(|samples| - 1, |samples| - 1, max, min, max);
    FilterAtPosition(samples, max, min, max);
    assert Trunc((|samples| - 1) as real) == |samples| - 1;
  }

  /** Every value at or above `max` reads outside the samples. */
  lemma FilterAboveRange(samples: seq<int>, value: int, min: int, max: int)
    requires |samples| >= 2 && min < max <= value
    ensures ResponseCurveAxisFilter(samples).Filter(value, min, max).OutOfBounds?
  {
    var bucketCount := |samples| - 1;
    var q := Position(bucketCount, value, min, max);
    PositionOfAnchor(bucketCount, bucketCount, max, min, max);
    if max < value {
      DivLess((max - min) as real, (value - min) as real, BucketSize(bucketCount, min, max));
    }
    assert q >= bucketCount as real;
    TruncBetween(q, bucketCount, Trunc(q) + 1);
    FilterAtPosition(samples, value, min, max);
  }

  /**
   * A value a whole bucket or more below `min` truncates to a negative index;
   * one less than a bucket below `min` still truncates to bucket 0 and is
   * extrapolated from the first two samples.
   */
  lemma FilterBelowRange(samples: seq<int>, value: int, min: int, max: int)
    requires |samples| >= 2 && value < min < max
    ensures var bucketSize := BucketSize(|samples| - 1, min, max);
      var q := Position(|samples| - 1, value, min, max);
      var out := ResponseCurveAxisFilter(samples).Filter(value, min, max);
      ((min - value) as real >= bucketSize ==> out.OutOfBounds? && out.index < 0) &&
      ((min - value) as real < bucketSize ==>
        -1.0 < q < 0.0 && out == Value(Mix(samples[0], samples[1], q)))
  {
    var bucketCount := |samples| - 1;
    var bucketSize := BucketSize(bucketCount, min, max);
    var q := Position(bucketCount, value, min, max);
    assert bucketSize > 0.0;
    assert -bucketSize / bucketSize == -1.0;
    FilterAtPosition(samples, value, min, max);
    if (min - value) as real > bucketSize {
      DivLess((value - min) as real, -bucketSize, bucketSize);
      assert q <= -1.0;
    } else if (min - value) as real < bucketSize {
      DivLess(-bucketSize, (value - min) as real, bucketSize);
      DivLess((value - min) as real, 0.0, bucketSize);
      assert -1.0 < q < 0.0;
      assert Trunc(q) == 0;
      assert q - 0 as real == q;
    } else {
      assert q == -1.0;
    }
  }

  /** A curve through `-100, 0, 100` over `[-100, 100]`. */
  lemma FilterExample()
    ensures ResponseCurveAxisFilter([-100, 0, 100]).Filter(-100, -100, 100) == Value(-100)
    ensures ResponseCurveAxisFilter([-100, 0, 100]).Filter(0, -100, 100) == Value(0)
    ensures ResponseCurveAxisFilter([-100, 0, 100]).Filter(100, -100, 100) == OutOfBounds(3)
  {
    FilterAtAnchor([-100, 0, 100], 0, -100, -100, 100);
    FilterAtAnchor([-100, 0, 100], 1, 0, -100, 100);
    FilterAtMax([-100, 0, 100], -100, 100);
  }

  /** The samples `from_string` reads from its tokens; the first bad one is the error. */
  function ParseSamples(tokens: seq<string>): (r: Result<seq<int>, ConfigError>)
    ensures r.Ok? ==> |r.value| == |tokens|
  {
    if |tokens| == 0 then Ok([])
    else match ParseInt(tokens[0])
      case None => Err(InvalidNumber(tokens[0]))
      case Some(n) =>
        match ParseSamples(tokens[1..])
        case Err(e) => Err(e)
        case Ok(rest) => Ok([n] + rest)
  }

  /** `ParseSamples` succeeds exactly when every token is a number, and then keeps them in order. */
  lemma {:induction false} ParseSamplesSpec(tokens: seq<string>)
    ensures ParseSamples(tokens).Ok? <==> forall k :: 0 <= k < |tokens| ==> ParseInt(tokens[k]).Some?
    ensures ParseSamples(tokens).Ok? ==>
      |ParseSamples(tokens).value| == |tokens| &&
      forall k :: 0 <= k < |tokens| ==> Some(ParseSamples(tokens).value[k]) == ParseInt(tokens[k])
    ensures ParseSamples(tokens).Err? ==>
      exists j :: 0 <= j < |tokens| && ParseInt(tokens[j]).None? &&
        ParseSamples(tokens).error == InvalidNumber(tokens[j]) &&
        forall k :: 0 <= k < j ==> ParseInt(tokens[k]).Some?
  {
    if |tokens| > 0 {
      ParseSamplesSpec(tokens[1..]);
      assert forall k :: 1 <= k < |tokens| ==> tokens[k] == tokens[1..][k - 1];
      match ParseInt(tokens[0])
      case None =>
      case Some(n) =>
        match ParseSamples(tokens[1..])
        case Err(e) =>
          var j :| 0 <= j < |tokens[1..]| && ParseInt(tokens[1..][j]).None? &&
            e == InvalidNumber(tokens[1..][j]) &&
            forall k :: 0 <= k < j ==> ParseInt(tokens[1..][k]).Some?;
          assert ParseInt(tokens[j + 1]).None?;
          assert forall k :: 0 <= k < j + 1 ==> ParseInt(tokens[k]).Some? by {
            forall k | 0 <= k < j + 1 ensures ParseInt(tokens[k]).Some? {
              if k > 0 { assert tokens[k] == tokens[1..][k - 1]; }
            }
          }
        case Ok(rest) =>
    }
  }

  /**
   * The curve a configuration text is read as: one sample per `:`-token.  No text
   * yields a curve without samples, since `""` is one token and not a number.
   */
  function ParseCurve(str: string): (r: Result<seq<int>, ConfigError>)
    ensures r.Ok? ==> |r.value| == |Split(str, ":")| >= 1
  {
    ParseSamples(Split(str, ":"))
  }

  /**
   * `from_string(str)`: one sample per `:`-separated token, in order; the first
   * token that is not a number is an error.
   */
  method FromString(str: string) returns (r: Result<ResponseCurveAxisFilter, ConfigError>)
    ensures r.Ok? <==> ParseCurve(str).Ok?
    ensures r.Ok? ==> r.value.samples == ParseCurve(str).value
    ensures r.Err? ==> r.error == ParseCurve(str).error
  {
    var tokens := StringSplit(str, ":");
    var samples: seq<int> := [];
    var i := 0;
    ParseSamplesSpec(tokens);
    while i < |tokens|
      invariant 0 <= i <= |tokens| && |samples| == i
      invariant forall k :: 0 <= k < i ==> Some(samples[k]) == ParseInt(tokens[k])
    {
      var n := ParseInt(tokens[i]);
      if n.None? {
        assert ParseSamples(tokens).Err?;
        var j :| 0 <= j < |tokens| && ParseInt(tokens[j]).None? &&
          ParseSamples(tokens).error == InvalidNumber(tokens[j]) &&
          forall k :: 0 <= k < j ==> ParseInt(tokens[k]).Some?;
        assert j == i;
        return Err(InvalidNumber(tokens[i]));
      }
      samples := samples + [n.value];
      i := i + 1;
    }
    assert samples == ParseSamples(tokens).value;
    return Ok(ResponseCurveAxisFilter(samples));
  }

  /** The decimal text of every sample. */
  function Texts(samples: seq<int>): (texts: seq<string>)
    ensures |texts| == |samples|
  {
    seq(|samples|, k requires 0 <= k < |samples| => IntToString(samples[k]))
  }

  /** `":" + text` for each text, in order. */
  function Fields(texts: seq<string>): string
  {
    if |texts| == 0 then "" else ":" + texts[0] + Fields(texts[1..])
  }

  /** Appending one text appends one field. */
  lemma {:induction false} FieldsSnoc(texts: seq<string>, t: string)
    ensures Fields(texts + [t]) == Fields(texts) + ":" + t
  {
    if |texts| > 0 {
      assert (texts + [t])[1..] == texts[1..] + [t];
      FieldsSnoc(texts[1..], t);
    } else {
      assert [t][1..] == [];
    }
  }

  /** The fields of one more text of a sequence are one more field. */
  lemma FieldsPrefix(texts: seq<string>, i: nat)
    requires i < |texts|
    ensures Name + Fields(texts[..i + 1]) == Name + Fields(texts[..i]) + ":" + texts[i]
  {
    FieldsSnoc(texts[..i], texts[i]);
    assert texts[..i + 1] == texts[..i] + [texts[i]];
  }

  /** The fields are the texts, joined with and preceded by `:`. */
  lemma {:induction false} FieldsJoin(texts: seq<string>)
    requires |texts| >= 1
    ensures Fields(texts) == ":" + Join(texts, ":")
  {
    if |texts| > 1 {
      var head, tail := texts[0], texts[1..];
      FieldsJoin(tail);
      assert texts == [head] + tail;
      JoinCons(head, tail, ":");
    } else {
      assert Fields(texts[1..]) == "";
    }
  }

  /** `str()`: the name, then the decimal texts of the samples, each behind a `:`. */
  function Serialize(samples: seq<int>): (s: string)
    ensures |samples| == 0 ==> s == Name
    ensures |samples| >= 1 ==> s == Name + ":" + Join(Texts(samples), ":")
  {
    if |samples| == 0 then Name
    else
      FieldsJoin(Texts(samples));
      Name + Fields(Texts(samples))
  }

  /** The decimal texts of the samples read back as the samples. */
  lemma {:induction false} ParseTexts(samples: seq<int>)
    ensures ParseSamples(Texts(samples)) == Ok(samples)
  {
    if |samples| > 0 {
      ParseIntToString(samples[0]);
      assert Texts(samples)[1..] == Texts(samples[1..]);
      ParseTexts(samples[1..]);
      assert [samples[0]] + samples[1..] == samples;
    }
  }

  /** Reading back the arguments `str()` prints gives the same non-empty curve. */
  lemma SerializeRoundTrip(samples: seq<int>)
    requires |samples| >= 1
    ensures Serialize(samples)[..|Name| + 1] == Name + ":"
    ensures ParseCurve(Serialize(samples)[|Name| + 1..]) == Ok(samples)
  {
    var texts := Texts(samples);
    var args := Join(texts, ":");
    assert Serialize(samples)[|Name| + 1..] == args;
    forall k | 0 <= k < |texts| ensures ':' !in texts[k] {
      IntToStringChars(samples[k]);
    }
    SplitJoin(texts, ':');
    ParseTexts(samples);
  }

  /** The empty configuration is rejected. */
  lemma ParseCurveEmptyText()
    ensures ParseCurve("") == Err(InvalidNumber(""))
  {
    assert Split("", ":") == [""];
    ParseIntEmpty();
  }

  /** `str()`: the name and then `:` and the decimal text of each sample. */
  method Str(curve: ResponseCurveAxisFilter) returns (out: string)
    ensures out == Serialize(curve.samples)
  {
    ghost var texts := Texts(curve.samples);
    out := Name;
    var i := 0;
    while i < |curve.samples|
      invariant 0 <= i <= |curve.samples|
      invariant out == Name + Fields(texts[..i])
    {
      FieldsPrefix(texts, i);
      out := out + ":" + IntToString(curve.samples[i]);
      i := i + 1;
    }
    assert texts[..i] == texts;
  }
}
