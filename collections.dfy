/** The array, matrix and string builders of KRandom. Each loops over the
    shared generator `r`, which is modelled as an object that hands out the
    draws of a fixed stream one at a time, so that a builder's result can be
    stated in terms of the draws it consumed. */
module Collections {
  import opened JavaInt
  import opened Exceptions
  import opened BoundedInts

  /** The shared generator. Its k-th draw reads as `ints(k)` through
      `nextInt()` and as `longs(k)` through `nextLong()`; `pos` counts the draws
      taken so far, and every draw advances it by one. */
  class Entropy {
    const ints: nat -> Int32
    const longs: nat -> Int64
    var pos: nat

    constructor (intDraws: nat -> Int32, longDraws: nat -> Int64)
      ensures ints == intDraws && longs == longDraws && pos == 0
    {
      ints := intDraws;
      longs := longDraws;
      pos := 0;
    }

    /** r.nextInt() */
    method NextInt() returns (x: Int32)
      modifies this
      ensures x == ints(old(pos)) && pos == old(pos) + 1
    {
      x := ints(pos);
      pos := pos + 1;
    }

    /** r.nextLong() */
    method NextLong() returns (x: Int64)
      modifies this
      ensures x == longs(old(pos)) && pos == old(pos) + 1
    {
      x := longs(pos);
      pos := pos + 1;
    }
  }

  /** The `n` draws of a stream starting at position `from`. */
  function Window<T>(s: nat -> T, from: nat, n: nat): (w: seq<T>)
    ensures |w| == n && forall i :: 0 <= i < n ==> w[i] == s(from + i)
  {
    seq(n, i requires 0 <= i < n => s(from + i))
  }

  /* ---------------------------------------------------------------------- */
  /* Arrays and matrices                                                      */

  /** nextIntArray(size): a new array whose i-th element is the i-th draw. */
  method NextIntArray(e: Entropy, size: Int32) returns (r: Result<array<Int32>>)
    modifies e
    ensures size < 0 ==> r == Err(NegativeArraySize) && e.pos == old(e.pos)
    ensures size >= 0 ==>
              r.Ok? && fresh(r.value) && e.pos == old(e.pos) + size &&
              r.value[..] == Window(e.ints, old(e.pos), size)
  {
    if size < 0 {
      return Err(NegativeArraySize);
    }
    var a := new Int32[size];
    var i := 0;
    while i < a.Length
      invariant 0 <= i <= a.Length == size
      invariant e.pos == old(e.pos) + i
      invariant forall k :: 0 <= k < i ==> a[k] == e.ints(old(e.pos) + k)
    {
      a[i] := e.NextInt();
      i := i + 1;
    }
    return Ok(a);
  }

  /** nextLongArray(size): a new array whose i-th element is the i-th draw. */
  method NextLongArray(e: Entropy, size: Int32) returns (r: Result<array<Int64>>)
    modifies e
    ensures size < 0 ==> r == Err(NegativeArraySize) && e.pos == old(e.pos)
    ensures size >= 0 ==>
              r.Ok? && fresh(r.value) && e.pos == old(e.pos) + size &&
              r.value[..] == Window(e.longs, old(e.pos), size)
  {
    if size < 0 {
      return Err(NegativeArraySize);
    }
    var a := new Int64[size];
    var i := 0;
    while i < a.Length
      invariant 0 <= i <= a.Length == size
      invariant e.pos == old(e.pos) + i
      invariant forall k :: 0 <= k < i ==> a[k] == e.longs(old(e.pos) + k)
    {
      a[i] := e.NextLong();
      i := i + 1;
    }
    return Ok(a);
  }

  /** next2DIntArray(rows, cols): `rows` distinct new rows of length `cols`,
      row i filled by its own nextIntArray call from the next `cols` draws.
      Allocating `new int[rows][cols]` fails when either count is negative. */
  method Next2DIntArray(e: Entropy, rows: Int32, cols: Int32) returns (r: Result<array<array<Int32>>>)
    modifies e
    ensures rows < 0 || cols < 0 ==> r == Err(NegativeArraySize) && e.pos == old(e.pos)
    ensures rows >= 0 && cols >= 0 ==>
              r.Ok? && fresh(r.value) && r.value.Length == rows &&
              e.pos == old(e.pos) + rows * cols &&
              (forall i :: 0 <= i < rows ==>
                 fresh(r.value[i]) && r.value[i][..] == Window(e.ints, old(e.pos) + i * cols, cols)) &&
              (forall i, j :: 0 <= i < j < rows ==> r.value[i] != r.value[j])
  {
    if rows < 0 || cols < 0 {
      return Err(NegativeArraySize);
    }
    var blank := new Int32[cols];
    var m := new array<Int32>[rows](_ => blank);
    var i := 0;
    while i < rows
      invariant 0 <= i <= rows
      invariant e.pos == old(e.pos) + i * cols
      invariant forall k :: 0 <= k < i ==>
                  fresh(m[k]) && m[k][..] == Window(e.ints, old(e.pos) + k * cols, cols)
      invariant forall k, l :: 0 <= k < l < i ==> m[k] != m[l]
    {
      var row := NextIntArray(e, cols);
      m[i] := row.value;
      i := i + 1;
    }
    return Ok(m);
  }

  /** next2DLongArray(rows, cols): as next2DIntArray, over nextLongArray. */
  method Next2DLongArray(e: Entropy, rows: Int32, cols: Int32) returns (r: Result<array<array<Int64>>>)
    modifies e
    ensures rows < 0 || cols < 0 ==> r == Err(NegativeArraySize) && e.pos == old(e.pos)
    ensures rows >= 0 && cols >= 0 ==>
              r.Ok? && fresh(r.value) && r.value.Length == rows &&
              e.pos == old(e.pos) + rows * cols &&
              (forall i :: 0 <= i < rows ==>
                 fresh(r.value[i]) && r.value[i][..] == Window(e.longs, old(e.pos) + i * cols, cols)) &&
              (forall i, j :: 0 <= i < j < rows ==> r.value[i] != r.value[j])
  {
    if rows < 0 || cols < 0 {
      return Err(NegativeArraySize);
    }
    var blank := new Int64[cols];
    var m := new array<Int64>[rows](_ => blank);
    var i := 0;
    while i < rows
      invariant 0 <= i <= rows
      invariant e.pos == old(e.pos) + i * cols
      invariant forall k :: 0 <= k < i ==>
                  fresh(m[k]) && m[k][..] == Window(e.longs, old(e.pos) + k * cols, cols)
      invariant forall k, l :: 0 <= k < l < i ==> m[k] != m[l]
    {
      var row := NextLongArray(e, cols);
      m[i] := row.value;
      i := i + 1;
    }
    return Ok(m);
  }

  /* ---------------------------------------------------------------------- */
  /* Strings                                                                  */

  /** The three character sets a string builder picks from. */
  datatype Charset = Printable | Letters | Digits

  /** `alphabet`: the 26 upper-case letters, then the 26 lower-case ones. */
  function Alphabet(): (t: seq<Char16>)
    ensures |t| == 52
    ensures forall i :: 0 <= i < 26 ==> t[i] == 'A' as int + i
    ensures forall i :: 26 <= i < 52 ==> t[i] == 'a' as int + (i - 26)
  {
    seq(52, i requires 0 <= i < 52 => if i < 26 then 'A' as int + i else 'a' as int + (i - 26))
  }

  /** `numeric`: the ten decimal digits in order. */
  function Numeric(): (t: seq<Char16>)
    ensures |t| == 10
    ensures forall i :: 0 <= i < 10 ==> t[i] == '0' as int + i
  {
    seq(10, i requires 0 <= i < 10 => '0' as int + i)
  }

  /** The visible ASCII characters [32, 126], ' ' to '~'. */
  function Visible(): seq<Char16> {
    seq(95, i requires 0 <= i < 95 => 32 + i)
  }

  /** The tables hold exactly the ASCII letters and the ASCII digits. */
  lemma TablesHoldExactly(c: Char16)
    ensures c in Alphabet() <==> 'A' as int <= c <= 'Z' as int || 'a' as int <= c <= 'z' as int
    ensures c in Numeric() <==> '0' as int <= c <= '9' as int
  {
    var a, n := Alphabet(), Numeric();
    if 'A' as int <= c <= 'Z' as int {
      assert a[c - 'A' as int] == c;
    } else if 'a' as int <= c <= 'z' as int {
      assert a[26 + (c - 'a' as int)] == c;
    }
    if '0' as int <= c <= '9' as int {
      assert n[c - '0' as int] == c;
    }
    if c in a {
      var k :| 0 <= k < 52 && a[k] == c;
      if k >= 26 {
        assert a[26 + (k - 26)] == c;
      }
    }
  }

  /** The characters each builder is documented to choose from. */
  function Codes(cs: Charset): seq<Char16> {
    match cs
    case Printable => Visible()
    case Letters => Alphabet()
    case Digits => Numeric()
  }

  /** `table[i]`, which throws for an index outside the array. */
  function Lookup(table: seq<Char16>, i: Int32): (r: Result<Char16>)
    ensures r.Ok? <==> 0 <= i < |table|
    ensures r.Ok? ==> r.value == table[i]
    ensures r.Err? ==> r.error == ArrayIndexOutOfBounds
  {
    if 0 <= i < |table| then Ok(table[i]) else Err(ArrayIndexOutOfBounds)
  }

  /** The character one loop iteration appends for the draw `raw`:
      `(char) nextInt(32, 126)`, `alphabet[nextInt(0, alphabet.length)]` or
      `numeric[nextInt(0, numeric.length)]`. The three bounded draws have
      valid, non-degenerate ranges, so they always return a value. */
  function PickChar(cs: Charset, raw: Int32): (r: Result<Char16>)
    ensures r.Err? ==> cs != Printable && r.error == ArrayIndexOutOfBounds
  {
    match cs
    case Printable => Ok(CharCast(NextIntBetween(raw, 32, 126).value))
    case Letters => Lookup(Alphabet(), NextIntBetween(raw, 0, |Alphabet()| as Int32).value)
    case Digits => Lookup(Numeric(), NextIntBetween(raw, 0, |Numeric()| as Int32).value)
  }

  /** Any draw but MIN_VALUE yields a character of the set. For the visible
      set it is never its last one, '~': nextInt(32, 126) stops at 125, where
      the tables are indexed by nextInt(0, length), which covers every index. */
  lemma PickCharInCharset(cs: Charset, raw: Int32)
    requires raw != MIN_INT
    ensures PickChar(cs, raw).Ok? && PickChar(cs, raw).value in Codes(cs)
    ensures cs == Printable ==> PickChar(cs, raw).value != '~' as int
  {
    match cs
    case Printable =>
      var v := NextIntBetween(raw, 32, 126).value;
      assert Codes(cs)[v - 32] == v;
    case Letters =>
      var v := NextIntBetween(raw, 0, 52).value;
      assert Codes(cs)[v] == Alphabet()[v];
    case Digits =>
      var v := NextIntBetween(raw, 0, 10).value;
      assert Codes(cs)[v] == Numeric()[v];
  }

  /** The draw MIN_VALUE yields U+FFDC for the visible set and an
      out-of-bounds index (-24, -8) for the two tables. */
  lemma PickCharMinDraw(cs: Charset)
    ensures PickChar(cs, MIN_INT) == (if cs == Printable then Ok(0xFFDC) else Err(ArrayIndexOutOfBounds))
  {
    match cs
    case Printable =>
      assert Rem(MIN_INT, 94) == -68 by {
        assert Quot(MIN_INT, 94) == -22845570;
      }
    case Letters =>
      assert Rem(MIN_INT, 52) == -24 by {
        assert Quot(MIN_INT, 52) == -41297762;
      }
    case Digits =>
      assert Rem(MIN_INT, 10) == -8 by {
        assert Quot(MIN_INT, 10) == -214748364;
      }
  }

  /** Every character of the set, '~' of the visible set excepted, is picked
      by some draw. */
  lemma PickCharReaches(cs: Charset, c: Char16)
    requires c in Codes(cs) && (cs == Printable ==> c != '~' as int)
    ensures exists raw: Int32 :: PickChar(cs, raw) == Ok(c)
  {
    var k :| 0 <= k < |Codes(cs)| && Codes(cs)[k] == c;
    match cs
    case Printable =>
      NextIntBetweenReaches(32 + k, 32, 126);
      assert PickChar(cs, k) == Ok(c);
    case Letters =>
      NextIntBetweenReaches(k, 0, 52);
      assert PickChar(cs, k) == Ok(c);
    case Digits =>
      NextIntBetweenReaches(k, 0, 10);
      assert PickChar(cs, k) == Ok(c);
  }

  /** The StringBuilder after appending the picked characters `p` in order:
      the first failing pick ends the loop with its exception. */
  function Joined(p: seq<Result<Char16>>): (r: Result<JavaString>)
    ensures r.Ok? ==> |r.value| == |p|
    ensures r.Err? ==> p != []
    decreases |p|
  {
    if p == [] then Ok([])
    else match Joined(p[..|p| - 1])
      case Err(e) => Err(e)
      case Ok(s) =>
        match p[|p| - 1]
        case Err(e) => Err(e)
        case Ok(c) => Ok(s + [c])
  }

  /** Joined succeeds exactly when every pick does, and then holds one
      character per pick, in order. */
  lemma {:induction false} JoinedChars(p: seq<Result<Char16>>)
    ensures Joined(p).Ok? <==> forall k :: 0 <= k < |p| ==> p[k].Ok?
    ensures Joined(p).Ok? ==>
              |Joined(p).value| == |p| &&
              forall k :: 0 <= k < |p| ==> Joined(p).value[k] == p[k].value
    decreases |p|
  {
    if p != [] {
      var q := p[..|p| - 1];
      JoinedChars(q);
      assert forall k :: 0 <= k < |q| ==> q[k] == p[k];
    }
  }

  /** The exception Joined ends with is that of one of the picks. */
  lemma {:induction false} JoinedError(p: seq<Result<Char16>>)
    ensures Joined(p).Err? ==> exists k :: 0 <= k < |p| && p[k] == Err(Joined(p).error)
    decreases |p|
  {
    if p != [] {
      var q := p[..|p| - 1];
      JoinedError(q);
      if Joined(q).Err? {
        var k :| 0 <= k < |q| && q[k] == Err(Joined(q).error);
        assert p[k] == q[k];
      }
    }
  }

  /** Appending one more pick extends the string or ends it with that pick's
      exception. */
  lemma JoinedSnoc(p: seq<Result<Char16>>, x: Result<Char16>)
    ensures Joined(p + [x]) ==
              match Joined(p)
              case Err(e) => Err(e)
              case Ok(s) =>
                match x
                case Err(e) => Err(e)
                case Ok(c) => Ok(s + [c])
  {
    assert (p + [x])[..|p|] == p;
  }

  /** The loop body of the builder for `cs`, as a function of the draw. */
  function PickOf(cs: Charset): Int32 -> Result<Char16> {
    (raw: Int32) => PickChar(cs, raw)
  }

  /** The characters picked for the draws `d`, one per draw. */
  function Picks(pick: Int32 -> Result<Char16>, d: seq<Int32>): (q: seq<Result<Char16>>)
    ensures |q| == |d| && forall k :: 0 <= k < |d| ==> q[k] == pick(d[k])
  {
    seq(|d|, k requires 0 <= k < |d| => pick(d[k]))
  }

  /** The string the builder for `cs` produces from the draws `d`. */
  function StringOf(cs: Charset, d: seq<Int32>): Result<JavaString> {
    Joined(Picks(PickOf(cs), d))
  }

  /** StringOf succeeds exactly when every draw's character does, and then its
      i-th character is that of the i-th draw. */
  lemma StringOfChars(cs: Charset, d: seq<Int32>)
    ensures StringOf(cs, d).Ok? <==> forall k :: 0 <= k < |d| ==> PickChar(cs, d[k]).Ok?
    ensures StringOf(cs, d).Ok? ==>
              |StringOf(cs, d).value| == |d| &&
              forall k :: 0 <= k < |d| ==> StringOf(cs, d).value[k] == PickChar(cs, d[k]).value
  {
    var p := Picks(PickOf(cs), d);
    JoinedChars(p);
    assert forall k :: 0 <= k < |d| ==> p[k] == PickChar(cs, d[k]);
  }

  /** A pick fails only for a MIN_VALUE draw from one of the two tables, and
      then with ArrayIndexOutOfBoundsException. */
  lemma PickCharFails(cs: Charset, raw: Int32)
    ensures PickChar(cs, raw).Err? <==> cs != Printable && raw == MIN_INT
    ensures PickChar(cs, raw).Err? ==> PickChar(cs, raw).error == ArrayIndexOutOfBounds
  {
    if raw == MIN_INT {
      PickCharMinDraw(cs);
    } else {
      PickCharInCharset(cs, raw);
    }
  }

  /** If the k-th draw is the first whose pick fails, the prefixes of up to k
      draws build a string and the longer ones fail. */
  lemma StringOfFirstFailure(cs: Charset, d: seq<Int32>, k: nat)
    requires k < |d| && PickChar(cs, d[k]).Err?
    requires forall j :: 0 <= j < k ==> PickChar(cs, d[j]).Ok?
    ensures forall n :: 0 <= n <= |d| ==> (StringOf(cs, d[..n]).Ok? <==> n <= k)
  {
    forall n | 0 <= n <= |d|
      ensures StringOf(cs, d[..n]).Ok? <==> n <= k
    {
      StringOfChars(cs, d[..n]);
      if n > k {
        assert d[..n][k] == d[k];
      }
    }
  }

  /** Every error StringOf returns comes from a table lookup. */
  lemma ErrorIsIndexOutOfBounds(cs: Charset, d: seq<Int32>)
    ensures StringOf(cs, d).Err? ==> StringOf(cs, d).error == ArrayIndexOutOfBounds
  {
    JoinedError(Picks(PickOf(cs), d));
    if StringOf(cs, d).Err? {
      var k :| 0 <= k < |d| && Picks(PickOf(cs), d)[k] == Err(StringOf(cs, d).error);
      PickCharFails(cs, d[k]);
    }
  }

  /** One more draw extends the string built so far by that draw's pick, or
      fails with the pick's error. */
  lemma JoinedNextDraw(ints: nat -> Int32, pick: Int32 -> Result<Char16>, p0: nat, i: nat, sb: JavaString)
    requires Joined(Picks(pick, Window(ints, p0, i))) == Ok(sb)
    ensures Joined(Picks(pick, Window(ints, p0, i + 1))) ==
              match pick(ints(p0 + i))
              case Err(e) => Err(e)
              case Ok(c) => Ok(sb + [c])
  {
    var before := Picks(pick, Window(ints, p0, i));
    var x := pick(ints(p0 + i));
    assert Picks(pick, Window(ints, p0, i + 1)) == before + [x];
    JoinedSnoc(before, x);
  }

  /** What a string builder with loop body `pick` returns, and how far it
      moved the generator from `p0` to `p1`, when asked for `len` characters:
      a negative length fails before any draw; otherwise the result is the
      string of the draws taken, which are all `len` of them on success, and
      end at the first failing one on an error. */
  predicate StringBuilt(ints: nat -> Int32, pick: Int32 -> Result<Char16>, len: int, p0: nat, p1: nat,
                        r: Result<JavaString>) {
    if len < 0 then r == Err(NegativeArraySize) && p1 == p0
    else
      && p0 <= p1 <= p0 + len
      && r == Joined(Picks(pick, Window(ints, p0, p1 - p0)))
      && (r.Ok? ==> p1 == p0 + len)
      && (r.Err? ==> p0 < p1 && Joined(Picks(pick, Window(ints, p0, p1 - p0 - 1))).Ok?)
  }

  /** The loop the three string builders share: `new StringBuilder(len)`,
      then `len` appends of the character `pick` makes of one draw each. */
  method BuildString(e: Entropy, len: Int32, pick: Int32 -> Result<Char16>) returns (r: Result<JavaString>)
    modifies e
    ensures StringBuilt(e.ints, pick, len, old(e.pos), e.pos, r)
  {
    if len < 0 {
      return Err(NegativeArraySize);
    }
    var sb: JavaString := [];
    var i := 0;
    while i < len
      invariant 0 <= i <= len
      invariant e.pos == old(e.pos) + i
      invariant Joined(Picks(pick, Window(e.ints, old(e.pos), i))) == Ok(sb)
    {
      var raw := e.NextInt();
      var c := pick(raw);
      JoinedNextDraw(e.ints, pick, old(e.pos), i, sb);
      if c.Err? {
        return Err(c.error);
      }
      sb := sb + [c.value];
      i := i + 1;
    }
    return Ok(sb);
  }

  /** nextString(len): characters `(char) nextInt(32, 126)`. */
  method NextString(e: Entropy, len: Int32) returns (r: Result<JavaString>)
    modifies e
    ensures StringBuilt(e.ints, PickOf(Printable), len, old(e.pos), e.pos, r)
  {
    r := BuildString(e, len, PickOf(Printable));
  }

  /** nextAlphabeticString(len): characters `alphabet[nextInt(0, 52)]`. */
  method NextAlphabeticString(e: Entropy, len: Int32) returns (r: Result<JavaString>)
    modifies e
    ensures StringBuilt(e.ints, PickOf(Letters), len, old(e.pos), e.pos, r)
  {
    r := BuildString(e, len, PickOf(Letters));
  }

  /** nextNumericString(len): characters `numeric[nextInt(0, 10)]`. */
  method NextNumericString(e: Entropy, len: Int32) returns (r: Result<JavaString>)
    modifies e
    ensures StringBuilt(e.ints, PickOf(Digits), len, old(e.pos), e.pos, r)
  {
    r := BuildString(e, len, PickOf(Digits));
  }

  /** A builder that met no MIN_VALUE draw returns `len` characters, each the
      pick of its draw and so from its set, and never '~' for nextString. */
  lemma BuiltStringInCharset(ints: nat -> Int32, cs: Charset, len: nat, p0: nat, p1: nat, r: Result<JavaString>)
    requires StringBuilt(ints, PickOf(cs), len, p0, p1, r)
    requires forall k :: p0 <= k < p0 + len ==> ints(k) != MIN_INT
    ensures r.Ok? && |r.value| == len && p1 == p0 + len
    ensures forall i :: 0 <= i < len ==> r.value[i] == PickChar(cs, ints(p0 + i)).value
    ensures forall i :: 0 <= i < len ==>
              r.value[i] in Codes(cs) && (cs == Printable ==> r.value[i] != '~' as int)
  {
    var w := Window(ints, p0, p1 - p0);
    forall j | 0 <= j < |w|
      ensures PickChar(cs, w[j]).Ok? && PickChar(cs, w[j]).value in Codes(cs)
      ensures cs == Printable ==> PickChar(cs, w[j]).value != '~' as int
    {
      PickCharInCharset(cs, w[j]);
    }
    StringOfChars(cs, w);
  }

  /** nextString always returns `len` characters: its picks never fail, even
      for the draw MIN_VALUE, so the loop runs to the end. Character i is the
      pick of draw i. */
  lemma NextStringFullLength(ints: nat -> Int32, len: nat, p0: nat, p1: nat, r: Result<JavaString>)
    requires StringBuilt(ints, PickOf(Printable), len, p0, p1, r)
    ensures r.Ok? && |r.value| == len && p1 == p0 + len
    ensures forall i :: 0 <= i < len ==> r.value[i] == PickChar(Printable, ints(p0 + i)).value
  {
    var w := Window(ints, p0, p1 - p0);
    var picks := Picks(PickOf(Printable), w);
    forall j | 0 <= j < |picks|
      ensures picks[j].Ok?
    {
      PickCharFails(Printable, w[j]);
    }
    JoinedChars(picks);
  }

  /** A builder whose first failing pick is that of draw `k` stops right
      after it and returns that pick's exception. */
  lemma BuiltStopsAtFirstFailure(ints: nat -> Int32, pick: Int32 -> Result<Char16>, len: nat,
                                 p0: nat, p1: nat, r: Result<JavaString>, k: nat)
    requires StringBuilt(ints, pick, len, p0, p1, r)
    requires p0 <= k < p0 + len && pick(ints(k)).Err?
    requires forall j :: p0 <= j < k ==> pick(ints(j)).Ok?
    ensures r == Err(pick(ints(k)).error) && p1 == k + 1
  {
    var n := p1 - p0;
    var all := Picks(pick, Window(ints, p0, n));
    JoinedChars(all);
    if k - p0 < n {
      assert all[k - p0] == pick(ints(k));
    }
    var m: int := n - 1;
    var before := Picks(pick, Window(ints, p0, m));
    JoinedChars(before);
    JoinedNextDraw(ints, pick, p0, m, Joined(before).value);
    assert r == Err(pick(ints(p0 + m)).error);
    forall j | p0 <= j < p0 + m
      ensures pick(ints(j)).Ok?
    {
      assert before[j - p0] == pick(ints(j));
    }
  }

  /** For the two table sets, a MIN_VALUE draw among the first `len` makes the
      builder throw ArrayIndexOutOfBoundsException, and the generator stops
      right after the first such draw. */
  lemma BuiltStringFailsAtMinDraw(ints: nat -> Int32, cs: Charset, len: nat, p0: nat, p1: nat,
                                  r: Result<JavaString>, k: nat)
    requires StringBuilt(ints, PickOf(cs), len, p0, p1, r)
    requires cs != Printable && p0 <= k < p0 + len && ints(k) == MIN_INT
    requires forall j :: p0 <= j < k ==> ints(j) != MIN_INT
    ensures r == Err(ArrayIndexOutOfBounds) && p1 == k + 1
  {
    PickCharFails(cs, ints(k));
    forall j | p0 <= j < k
      ensures PickOf(cs)(ints(j)).Ok?
    {
      PickCharFails(cs, ints(j));
    }
    BuiltStopsAtFirstFailure(ints, PickOf(cs), len, p0, p1, r, k);
  }
}
