/** The integer draws of KRandom, each a function of the one raw 32-bit value
    the shared generator hands out (`r.nextInt()`), so that what the code does
    with that value can be stated for every possible value. */
module BoundedInts {
  import opened JavaInt
  import opened Exceptions

  const BadBoundsMessage: string := "right bound must be bigger then left bound."
  const NoEvenMessage: string := "can't find even number in those bounds."

  /** nextPositiveInt(): `Math.abs` of the draw, which is negative for exactly
      one draw, `Integer.MIN_VALUE`. */
  function NextPositiveInt(raw: Int32): (r: Int32)
    ensures r >= 0 <==> raw != MIN_INT
    ensures raw != MIN_INT ==> r == Magnitude(raw)
    ensures raw == MIN_INT ==> r == MIN_INT
  {
    Abs(raw)
  }

  /** nextInt(start, end): `(nextPositiveInt() % (end - start)) + start` in `int`
      arithmetic. Although documented as drawing from [start, end], it never
      returns `end`, it divides by zero when `end == start`, and the one draw
      whose absolute value is negative can land outside the range. */
  function NextIntBetween(raw: Int32, start: Int32, end: Int32): (r: Result<Int32>)
    ensures end < start ==> r == Err(IllegalArgument(BadBoundsMessage))
    ensures end == start ==> r == Err(Arithmetic)
    ensures r.Ok? <==> start < end
    ensures r.Ok? && raw != MIN_INT ==> start <= r.value < end
  {
    if end < start then Err(IllegalArgument(BadBoundsMessage))
    else
      var span := Sub(end, start);
      if span == 0 then Err(Arithmetic)
      else Ok(Add(Rem(NextPositiveInt(raw), span), start))
  }

  /** Every value of [start, end) is drawn by some raw value when the width of
      the range fits in an `int`; with the contract of NextIntBetween this makes
      [start, end) exactly the values it returns for draws other than
      MIN_VALUE. */
  lemma NextIntBetweenReaches(v: Int32, start: Int32, end: Int32)
    requires start <= v < end && end - start <= MAX_INT
    ensures NextIntBetween(v - start, start, end) == Ok(v)
  {
    RemOfSmall(v - start, end - start);
  }

  /** A range wider than `Integer.MAX_VALUE` wraps `end - start` negative: for
      draws other than MIN_VALUE the result still stays in [start, end), but
      only its first 2^32 - (end - start) values can be drawn. */
  lemma WideRangeUnderCovers(raw: Int32, start: Int32, end: Int32)
    requires start < end && end - start > MAX_INT && raw != MIN_INT
    ensures NextIntBetween(raw, start, end).Ok?
    ensures NextIntBetween(raw, start, end).value - start < TWO_32 - (end - start)
  {
  }

  /** The widest range of all collapses to its left bound: nextInt(MIN_VALUE,
      MAX_VALUE) returns MIN_VALUE whatever the draw. */
  lemma FullRangeAlwaysStart(raw: Int32)
    ensures NextIntBetween(raw, MIN_INT, MAX_INT) == Ok(MIN_INT)
  {
    assert Sub(MAX_INT, MIN_INT) == -1;
  }

  /** The draw MIN_VALUE never lands strictly inside the range, however wide:
      the result is at most `start` (below it unless the width divides 2^31),
      or it wraps past `end`. */
  lemma MinDrawOutsideRange(start: Int32, end: Int32)
    requires start < end
    ensures NextIntBetween(MIN_INT, start, end).Ok?
    ensures var v := NextIntBetween(MIN_INT, start, end).value;
            v <= start || v > end
  {
    var span := Sub(end, start);
    var m := Rem(MIN_INT, span);
    if end - start <= MAX_INT {
      assert -span < m <= 0;
    } else {
      assert span == end - start - TWO_32 && span < m <= 0;
    }
  }

  /** Two draws the guard lets through: [0, 10) yields -8, and near the bottom
      of the `int` range the sum wraps round to MAX_VALUE, above `end`. */
  lemma MinDrawExamples()
    ensures NextIntBetween(MIN_INT, 0, 10) == Ok(-8)
    ensures NextIntBetween(MIN_INT, MIN_INT + 1, MIN_INT + 10) == Ok(MAX_INT)
  {
    assert Rem(MIN_INT, 10) == -8 by {
      assert Quot(MIN_INT, 10) == -214748364;
    }
    assert Rem(MIN_INT, 9) == -2 by {
      assert Quot(MIN_INT, 9) == -238609294;
    }
  }

  /** nextEvenInt(): an odd draw is moved up by one, which for MAX_VALUE wraps
      round to MIN_VALUE, itself even. */
  function NextEvenInt(raw: Int32): (r: Int32)
    ensures IsEven(r)
    ensures IsEven(raw) ==> r == raw
    ensures !IsEven(raw) && raw != MAX_INT ==> r == raw + 1
    ensures raw == MAX_INT ==> r == MIN_INT
  {
    if Rem(raw, 2) != 0 then Add(raw, 1) else raw
  }

  /** nextOddInt(): one more than the even draw of the same raw value; the sum
      never overflows, since no even `int` is MAX_VALUE. */
  function NextOddInt(raw: Int32): (r: Int32)
    ensures !IsEven(r)
    ensures r == NextEvenInt(raw) + 1
  {
    Add(NextEvenInt(raw), 1)
  }

  /** The parity correction shared by the ranged parity draws: a drawn value
      `v` whose remainder `v % 2` shows the wrong parity steps up while below
      `end`, else steps down while above `start`. */
  function FixParity(v: Int32, start: Int32, end: Int32, even: bool): (r: Int32)
    ensures IsEven(v) == even ==> r == v
    ensures IsEven(v) != even && v < end ==> r == v + 1
    ensures IsEven(v) != even && end <= v && start < v ==> r == v - 1
    ensures start < end ==> IsEven(r) == even
    ensures start <= v <= end ==> start <= r <= end
  {
    if (Rem(v, 2) == 0) == even then v
    else if v < end then Add(v, 1)
    else if v > start then Sub(v, 1)
    else v
  }

  /** nextEvenInt(start, end). The degenerate range [s, s] is rejected when `s`
      is odd and divides by zero in nextInt when `s` is even; every other valid
      range yields an even value, which lies in [start, end] unless the draw was
      MIN_VALUE. For any other draw the drawn value is at most `end - 1`, so the
      step down is never taken. */
  function NextEvenIntBetween(raw: Int32, start: Int32, end: Int32): (r: Result<Int32>)
    ensures end < start ==> r == Err(IllegalArgument(BadBoundsMessage))
    ensures end == start ==>
              r == (if IsEven(start) then Err(Arithmetic) else Err(IllegalArgument(NoEvenMessage)))
    ensures r.Ok? <==> start < end
    ensures r.Ok? ==> IsEven(r.value)
    ensures r.Ok? && raw != MIN_INT ==>
              var v := NextIntBetween(raw, start, end).value;
              start <= r.value <= end && r.value == (if IsEven(v) then v else v + 1)
  {
    if end < start then Err(IllegalArgument(BadBoundsMessage))
    else if end == start && Rem(start, 2) != 0 then Err(IllegalArgument(NoEvenMessage))
    else match NextIntBetween(raw, start, end)
      case Err(e) => Err(e)
      case Ok(v) => Ok(FixParity(v, start, end, true))
  }

  /** nextOddInt(start, end): the same algorithm for odd values, but with the
      degenerate-range guard of the even version copied unchanged, message
      included: [3, 3] is rejected although 3 is odd, and [4, 4] passes the
      guard only to divide by zero. */
  function NextOddIntBetween(raw: Int32, start: Int32, end: Int32): (r: Result<Int32>)
    ensures end < start ==> r == Err(IllegalArgument(BadBoundsMessage))
    ensures end == start ==>
              r == (if IsEven(start) then Err(Arithmetic) else Err(IllegalArgument(NoEvenMessage)))
    ensures r.Ok? <==> start < end
    ensures r.Ok? ==> !IsEven(r.value)
    ensures r.Ok? && raw != MIN_INT ==>
              var v := NextIntBetween(raw, start, end).value;
              start <= r.value <= end && r.value == (if IsEven(v) then v + 1 else v)
  {
    if end < start then Err(IllegalArgument(BadBoundsMessage))
    else if end == start && Rem(start, 2) != 0 then Err(IllegalArgument(NoEvenMessage))
    else match NextIntBetween(raw, start, end)
      case Err(e) => Err(e)
      case Ok(v) => Ok(FixParity(v, start, end, false))
  }

  /** With the draw MIN_VALUE the drawn value can wrap above `end`, and then the
      step down of nextEvenInt(start, end) is taken after all. */
  lemma EvenStepDownNeedsMinDraw()
    ensures NextIntBetween(MIN_INT, MIN_INT + 1, MIN_INT + 10) == Ok(MAX_INT)
    ensures NextEvenIntBetween(MIN_INT, MIN_INT + 1, MIN_INT + 10) == Ok(MAX_INT - 1)
  {
    MinDrawExamples();
  }

  /** Every even value of [start, end], `end` included, is drawn by some value
      other than MIN_VALUE when the width fits in an `int`. */
  lemma NextEvenIntBetweenReaches(w: Int32, start: Int32, end: Int32)
    requires start < end && end - start <= MAX_INT
    requires start <= w <= end && IsEven(w)
    ensures exists raw: Int32 :: raw != MIN_INT && NextEvenIntBetween(raw, start, end) == Ok(w)
  {
    var v := if w < end then w else w - 1;
    NextIntBetweenReaches(v, start, end);
    assert NextEvenIntBetween(v - start, start, end) == Ok(w);
  }

  /** Every odd value of [start, end], `end` included, is drawn by some value
      other than MIN_VALUE when the width fits in an `int`. */
  lemma NextOddIntBetweenReaches(w: Int32, start: Int32, end: Int32)
    requires start < end && end - start <= MAX_INT
    requires start <= w <= end && !IsEven(w)
    ensures exists raw: Int32 :: raw != MIN_INT && NextOddIntBetween(raw, start, end) == Ok(w)
  {
    var v := if w < end then w else w - 1;
    NextIntBetweenReaches(v, start, end);
    assert NextOddIntBetween(v - start, start, end) == Ok(w);
  }

  /* Corrected draws: what the documentation of nextInt(start, end) and
     nextOddInt(start, end) promises, an inclusive range and a guard that tests
     for the parity asked for. */

  const NoOddMessage: string := "can't find odd number in those bounds."

  /** An inclusive draw from [start, end]: the offset is the draw reduced
      modulo the width plus one, computed without overflow (as `Math.floorMod`
      on `long` values would). */
  function NextIntInclusive(raw: Int32, start: Int32, end: Int32): (r: Result<Int32>)
    ensures r.Ok? <==> start <= end
    ensures r.Err? ==> r.error == IllegalArgument(BadBoundsMessage)
    ensures r.Ok? ==> start <= r.value <= end
  {
    if end < start then Err(IllegalArgument(BadBoundsMessage))
    else Ok(start + raw % (end - start + 1))
  }

  /** Every value of [start, end], both bounds included, is drawn by some raw
      value, even for the widest range. */
  lemma NextIntInclusiveOnto(v: Int32, start: Int32, end: Int32)
    requires start <= v <= end
    ensures exists raw: Int32 :: NextIntInclusive(raw, start, end) == Ok(v)
  {
    var width, offset := end - start + 1, v - start;
    if offset <= MAX_INT {
      RemOfSmall(offset, width);
      assert NextIntInclusive(offset, start, end) == Ok(v);
    } else {
      var raw := offset - width;
      ModOfNegativeSmall(raw, width);
      assert NextIntInclusive(raw, start, end) == Ok(v);
    }
  }

  /** Dafny's `%` of a value in [-m, 0) adds `m` once. */
  lemma ModOfNegativeSmall(x: int, m: int)
    requires -m <= x < 0
    ensures x % m == x + m
  {
    assert x / m == -1;
  }

  /** A ranged parity draw built on the inclusive draw, rejecting exactly the
      ranges that hold no value of the parity asked for. */
  function NextParityIntInclusive(raw: Int32, start: Int32, end: Int32, even: bool): (r: Result<Int32>)
    ensures end < start ==> r == Err(IllegalArgument(BadBoundsMessage))
    ensures end == start && IsEven(start) != even ==>
              r == Err(IllegalArgument(if even then NoEvenMessage else NoOddMessage))
    ensures r.Ok? ==> start <= r.value <= end && IsEven(r.value) == even
  {
    if end < start then Err(IllegalArgument(BadBoundsMessage))
    else if end == start && (Rem(start, 2) == 0) != even then
      Err(IllegalArgument(if even then NoEvenMessage else NoOddMessage))
    else
      var v := NextIntInclusive(raw, start, end).value;
      Ok(FixParity(v, start, end, even))
  }

  /** The corrected parity draw fails exactly when [start, end] holds no value
      of the requested parity. */
  lemma ParityIntInclusiveOkIff(raw: Int32, start: Int32, end: Int32, even: bool)
    ensures NextParityIntInclusive(raw, start, end, even).Ok? <==>
            exists k: int :: start <= k <= end && IsEven(k) == even
  {
    if start < end {
      var k := if IsEven(start) == even then start else start + 1;
      assert start <= k <= end && IsEven(k) == even;
    } else if start == end && IsEven(start) == even {
      assert start <= start <= end && IsEven(start) == even;
    }
  }

  /** The copied guard rejects [3, 3] and lets [4, 4] through to a division by
      zero; the corrected draw returns 3 for the first and rejects the second. */
  lemma OddGuardExamples()
    ensures NextOddIntBetween(0, 3, 3) == Err(IllegalArgument(NoEvenMessage))
    ensures NextOddIntBetween(0, 4, 4) == Err(Arithmetic)
    ensures NextParityIntInclusive(0, 3, 3, false) == Ok(3)
    ensures NextParityIntInclusive(0, 4, 4, false) == Err(IllegalArgument(NoOddMessage))
  {
  }
}
