/** The batch payload `{"x": [..], "y": [..], "z": [..]}`: its text as a
    reference definition, a reader for it (the JSON arrays of integers of
    RFC 8259, sections 5 and 6, in the spacing the firmware emits), the
    round trip between the two, and the sizes of the buffers it passes through. */
module Payload {
  import opened CTypes
  import opened Decimal

  /** Buffer sizes of `send_sensor_data_to_proxy` (lines 310-313). */
  const TX_BUFFER_SIZE: nat := 100000
  const AXIS_BUFFER_SIZE: nat := 9999
  const AUX_BUFFER_SIZE: nat := 10

  const ELEMENT_SEPARATOR: string := ", "

  /** The values printed with `%d` and separated by ", ", with no trailing separator. */
  function Join(vs: seq<int>): string
    requires |vs| > 0
  {
    if |vs| == 1 then FormatInt(vs[0]) else FormatInt(vs[0]) + ELEMENT_SEPARATOR + Join(vs[1..])
  }

  /** One axis as a JSON array: `[v0, v1, ..., vn-1]`. */
  function ArrayText(vs: seq<int>): string
    requires |vs| > 0
  {
    "[" + Join(vs) + "]"
  }

  const X_KEY: string := "{\"x\": "
  const Y_KEY: string := ", \"y\": "
  const Z_KEY: string := ", \"z\": "
  const CLOSE: string := "}"

  /** The payload of line 336, axes in the order x, y, z. */
  function PayloadText(xs: seq<int>, ys: seq<int>, zs: seq<int>): string
    requires |xs| > 0 && |ys| > 0 && |zs| > 0
  {
    X_KEY + (ArrayText(xs) + (Y_KEY + (ArrayText(ys) + (Z_KEY + (ArrayText(zs) + CLOSE)))))
  }

  /** The text s starts with lit; what follows it. */
  function ReadLiteral(lit: string, s: string): (r: Option<string>)
    ensures r.Some? ==> |r.value| <= |s| && s[|s| - |r.value|..] == r.value
  {
    if |lit| <= |s| && s[..|lit|] == lit then Some(s[|lit|..]) else None
  }

  /** Reads `v, v, ..., v]` off the front of s. */
  function ReadElements(s: string): (r: Option<(seq<int>, string)>)
    ensures r.Some? ==> |r.value.0| > 0 && |r.value.1| < |s|
    decreases |s|
  {
    match ReadInt(s)
    case None => None
    case Some((v, rest)) =>
      if |rest| >= 1 && rest[0] == ']' then Some(([v], rest[1..]))
      else
        match ReadLiteral(ELEMENT_SEPARATOR, rest)
        case None => None
        case Some(more) =>
          match ReadElements(more)
          case None => None
          case Some((vs, rest')) => Some(([v] + vs, rest'))
  }

  /** Reads `[v, v, ..., v]` off the front of s. */
  function ReadArray(s: string): (r: Option<(seq<int>, string)>)
    ensures r.Some? ==> |r.value.0| > 0 && |r.value.1| < |s|
  {
    match ReadLiteral("[", s)
    case None => None
    case Some(rest) => ReadElements(rest)
  }

  /** Reads `key` and then an array off the front of s. */
  function ReadField(key: string, s: string): (r: Option<(seq<int>, string)>)
  {
    match ReadLiteral(key, s)
    case None => None
    case Some(rest) => ReadArray(rest)
  }

  /** Reads a whole payload: the three arrays, or None for any other text. */
  function ReadPayload(s: string): Option<(seq<int>, seq<int>, seq<int>)>
  {
    match ReadField(X_KEY, s)
    case None => None
    case Some((xs, s1)) =>
      match ReadField(Y_KEY, s1)
      case None => None
      case Some((ys, s2)) =>
        match ReadField(Z_KEY, s2)
        case None => None
        case Some((zs, s3)) => if s3 == CLOSE then Some((xs, ys, zs)) else None
  }

  lemma ReadLiteralPrefix(lit: string, rest: string)
    ensures ReadLiteral(lit, lit + rest) == Some(rest)
  {
    assert (lit + rest)[..|lit|] == lit;
    assert (lit + rest)[|lit|..] == rest;
  }

  lemma ReadLastElement(v: int, rest: string)
    ensures ReadElements(FormatInt(v) + ("]" + rest)) == Some(([v], rest))
  {
    ReadFormatInt(v, "]" + rest);
    assert ("]" + rest)[1..] == rest;
  }

  lemma ReadNextElement(v: int, tail: string, vs: seq<int>, rest: string)
    requires ReadElements(tail) == Some((vs, rest))
    ensures ReadElements(FormatInt(v) + (ELEMENT_SEPARATOR + tail)) == Some(([v] + vs, rest))
  {
    ReadFormatInt(v, ELEMENT_SEPARATOR + tail);
    ReadLiteralPrefix(ELEMENT_SEPARATOR, tail);
  }

  /** Reading the elements back: the values, and exactly the text after the `]`. */
  lemma {:induction false} ReadJoin(vs: seq<int>, rest: string)
    requires |vs| > 0
    ensures ReadElements(Join(vs) + ("]" + rest)) == Some((vs, rest))
    decreases |vs|
  {
    if |vs| == 1 {
      ReadLastElement(vs[0], rest);
      assert vs == [vs[0]];
    } else {
      var tail := Join(vs[1..]) + ("]" + rest);
      assert Join(vs) + ("]" + rest) == FormatInt(vs[0]) + (ELEMENT_SEPARATOR + tail);
      ReadJoin(vs[1..], rest);
      ReadNextElement(vs[0], tail, vs[1..], rest);
      assert [vs[0]] + vs[1..] == vs;
    }
  }

  lemma ReadArrayText(vs: seq<int>, rest: string)
    requires |vs| > 0
    ensures ReadArray(ArrayText(vs) + rest) == Some((vs, rest))
  {
    assert ArrayText(vs) + rest == "[" + (Join(vs) + ("]" + rest));
    ReadLiteralPrefix("[", Join(vs) + ("]" + rest));
    ReadJoin(vs, rest);
  }

  lemma ReadFieldText(key: string, vs: seq<int>, rest: string)
    requires |vs| > 0
    ensures ReadField(key, key + (ArrayText(vs) + rest)) == Some((vs, rest))
  {
    ReadLiteralPrefix(key, ArrayText(vs) + rest);
    ReadArrayText(vs, rest);
  }

  /** Round trip: reading the payload gives back the three arrays it was built from,
      whatever the values (so in particular -32768 and 32767). */
  lemma PayloadRoundTrip(xs: seq<int>, ys: seq<int>, zs: seq<int>)
    requires |xs| > 0 && |ys| > 0 && |zs| > 0
    ensures ReadPayload(PayloadText(xs, ys, zs)) == Some((xs, ys, zs))
  {
    var s3 := CLOSE;
    var s2 := Z_KEY + (ArrayText(zs) + s3);
    var s1 := Y_KEY + (ArrayText(ys) + s2);
    ReadFieldText(X_KEY, xs, s1);
    ReadFieldText(Y_KEY, ys, s2);
    ReadFieldText(Z_KEY, zs, s3);
  }

  /** Different batches give different payloads. */
  lemma PayloadInjective(xs: seq<int>, ys: seq<int>, zs: seq<int>, xs': seq<int>, ys': seq<int>, zs': seq<int>)
    requires |xs| > 0 && |ys| > 0 && |zs| > 0 && |xs'| > 0 && |ys'| > 0 && |zs'| > 0
    requires PayloadText(xs, ys, zs) == PayloadText(xs', ys', zs')
    ensures xs == xs' && ys == ys' && zs == zs'
  {
    PayloadRoundTrip(xs, ys, zs);
    PayloadRoundTrip(xs', ys', zs');
  }

  /** Number of occurrences of the character ch in s. */
  function CountChar(s: string, ch: char): nat
  {
    if s == [] then 0 else (if s[0] == ch then 1 else 0) + CountChar(s[1..], ch)
  }

  lemma {:induction false} CountCharAppend(a: string, b: string, ch: char)
    ensures CountChar(a + b, ch) == CountChar(a, ch) + CountChar(b, ch)
    decreases |a|
  {
    if a == [] {
      assert a + b == b;
    } else {
      assert (a + b)[1..] == a[1..] + b;
      CountCharAppend(a[1..], b, ch);
    }
  }

  lemma {:induction false} CountCharAbsent(s: string, ch: char)
    requires forall i :: 0 <= i < |s| ==> s[i] != ch
    ensures CountChar(s, ch) == 0
    decreases |s|
  {
    if s != [] {
      CountCharAbsent(s[1..], ch);
    }
  }

  lemma NoCommaInNumber(v: int)
    ensures CountChar(FormatInt(v), ',') == 0
  {
    FormatIntShape(v);
    CountCharAbsent(FormatInt(v), ',');
  }

  /** The elements are separated by exactly |vs| - 1 commas. */
  lemma {:induction false} JoinCommas(vs: seq<int>)
    requires |vs| > 0
    ensures CountChar(Join(vs), ',') == |vs| - 1
    decreases |vs|
  {
    NoCommaInNumber(vs[0]);
    if |vs| > 1 {
      JoinCommas(vs[1..]);
      CountCharAppend(FormatInt(vs[0]), ELEMENT_SEPARATOR, ',');
      CountCharAppend(FormatInt(vs[0]) + ELEMENT_SEPARATOR, Join(vs[1..]), ',');
      assert CountChar(ELEMENT_SEPARATOR, ',') == 1;
    }
  }

  lemma {:induction false} JoinEndsInDigit(vs: seq<int>)
    requires |vs| > 0
    ensures |Join(vs)| > 0 && IsDigit(Join(vs)[|Join(vs)| - 1])
    decreases |vs|
  {
    FormatIntShape(vs[0]);
    if |vs| > 1 {
      JoinEndsInDigit(vs[1..]);
    }
  }

  /** An axis array of n values holds exactly n - 1 separators, and no separator
      trails the last value: the character before the closing bracket is a digit. */
  lemma ArrayShape(vs: seq<int>)
    requires |vs| > 0
    ensures CountChar(ArrayText(vs), ',') == |vs| - 1
    ensures var t := ArrayText(vs); t[0] == '[' && t[|t| - 1] == ']' && IsDigit(t[|t| - 2])
  {
    JoinCommas(vs);
    CountCharAppend("[", Join(vs), ',');
    CountCharAppend("[" + Join(vs), "]", ',');
    JoinEndsInDigit(vs);
  }

  /** Every element token `%d, ` or `%d]` of a `short`, with its terminating NUL,
      fits the 10-byte `aux` buffer. */
  lemma TokenFitsAux(v: int16)
    ensures |FormatInt(v) + ELEMENT_SEPARATOR| + 1 <= AUX_BUFFER_SIZE
    ensures |FormatInt(v) + "]"| + 1 <= AUX_BUFFER_SIZE
  {
    FormatIntLength(v);
  }

  /** n values of type `short` join into at most 8n - 2 characters. */
  lemma {:induction false} JoinLength(vs: seq<int16>)
    requires |vs| > 0
    ensures |Join(vs)| <= 8 * |vs| - 2
    decreases |vs|
  {
    FormatIntLength(vs[0]);
    if |vs| > 1 {
      JoinLength(vs[1..]);
    }
  }

  /** An axis of 60 `short` values fits, with its NUL, in the 9999-byte axis string,
      and the payload in the 100000-byte transmit buffer. */
  lemma PayloadFits(xs: seq<int16>, ys: seq<int16>, zs: seq<int16>)
    requires |xs| == 60 && |ys| == 60 && |zs| == 60
    ensures |ArrayText(xs)| + 1 <= 481 <= AXIS_BUFFER_SIZE
    ensures |ArrayText(ys)| + 1 <= 481 && |ArrayText(zs)| + 1 <= 481
    ensures |PayloadText(xs, ys, zs)| + 1 <= 1462 <= TX_BUFFER_SIZE
  {
    JoinLength(xs);
    JoinLength(ys);
    JoinLength(zs);
  }
}
