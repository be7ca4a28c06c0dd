/** The transmitting side: the serialisation loop of `send_sensor_data_to_proxy`
    over the filled batch buffer, and the heartbeat token of `send_alive_to_proxy`. */
module Transmitter {
  import opened CTypes
  import opened Decimal
  import opened Payload
  import opened Sampler

  /** `"%d, "` for each value: the text the loop has appended after `[`. */
  function Tokens(ws: seq<int>): string
  {
    if ws == [] then "" else FormatInt(ws[0]) + ELEMENT_SEPARATOR + Tokens(ws[1..])
  }

  lemma {:induction false} TokensSnoc(ws: seq<int>, w: int)
    ensures Tokens(ws + [w]) == Tokens(ws) + FormatInt(w) + ELEMENT_SEPARATOR
    decreases |ws|
  {
    if ws == [] {
      assert [w][1..] == [];
    } else {
      var ws' := ws + [w];
      assert ws'[0] == ws[0] && ws'[1..] == ws[1..] + [w];
      TokensSnoc(ws[1..], w);
      calc {
        Tokens(ws');
        FormatInt(ws[0]) + ELEMENT_SEPARATOR + Tokens(ws[1..] + [w]);
        FormatInt(ws[0]) + ELEMENT_SEPARATOR + (Tokens(ws[1..]) + FormatInt(w) + ELEMENT_SEPARATOR);
        Tokens(ws) + FormatInt(w) + ELEMENT_SEPARATOR;
      }
    }
  }

  lemma OneMoreToken(ws: seq<int>, i: nat)
    requires i < |ws|
    ensures "[" + Tokens(ws[..i + 1]) == ("[" + Tokens(ws[..i])) + (FormatInt(ws[i]) + ELEMENT_SEPARATOR)
  {
    assert ws[..i + 1] == ws[..i] + [ws[i]];
    TokensSnoc(ws[..i], ws[i]);
  }

  /** The tokens of all but the last value, then the last value, are the joined values. */
  lemma {:induction false} TokensThenLast(ws: seq<int>, v: int)
    ensures Tokens(ws) + FormatInt(v) == Join(ws + [v])
    decreases |ws|
  {
    if ws == [] {
      assert [v] == ws + [v];
    } else {
      TokensThenLast(ws[1..], v);
      assert (ws + [v])[1..] == ws[1..] + [v];
    }
  }

  /** `sprintf(aux, "%d<suffix>", v)`: the token, which with its NUL fits `aux`. */
  method FormatToken(v: int16, suffix: string) returns (token: string)
    requires suffix == ELEMENT_SEPARATOR || suffix == "]"
    ensures token == FormatInt(v) + suffix
    ensures |token| <= 6 + |suffix| && |token| + 1 <= AUX_BUFFER_SIZE
  {
    TokenFitsAux(v);
    FormatIntLength(v);
    token := FormatInt(v) + suffix;
  }

  /** Lines 323-328, one axis: print slot i as `%d, ` into `aux` and append it. */
  method AppendElement(acc: string, ws: seq<int16>, i: nat) returns (acc': string)
    requires i < |ws| && acc == "[" + Tokens(ws[..i]) && |acc| <= 1 + 8 * i
    ensures acc' == "[" + Tokens(ws[..i + 1])
    ensures |acc'| <= 1 + 8 * (i + 1)
  {
    var aux := FormatToken(ws[i], ELEMENT_SEPARATOR);
    acc' := acc + aux;
    OneMoreToken(ws, i);
  }

  /** Lines 330-335, one axis: print the last slot as `%d]` into `aux` and append it,
      completing the axis array. */
  method CloseArray(acc: string, ws: seq<int16>) returns (acc': string)
    requires |ws| > 0 && acc == "[" + Tokens(ws[..|ws| - 1])
    ensures acc' == ArrayText(ws)
  {
    var aux := FormatToken(ws[|ws| - 1], "]");
    acc' := acc + aux;
    var init, last := ws[..|ws| - 1], ws[|ws| - 1];
    assert ws == init + [last];
    TokensThenLast(init, last);
    assert acc' == "[" + (Tokens(init) + FormatInt(last)) + "]";
  }

  /** Lines 319-336: build the three axis arrays in one loop over slots 0..58, close
      each with slot 59, and wrap them as `{"x": X, "y": Y, "z": Z}`. The result is
      the payload text of the buffer's contents and fits the transmit buffer. */
  method Serialise(b: AccelBuffer) returns (payload: string)
    requires b.Valid()
    ensures payload == PayloadText(b.x[..], b.y[..], b.z[..])
    ensures |payload| + 1 <= TX_BUFFER_SIZE
  {
    var xs, ys, zs := b.x[..], b.y[..], b.z[..];
    var x, y, z := "[", "[", "[";
    var i := 0;
    while i < N - 1
      invariant 0 <= i <= N - 1
      invariant x == "[" + Tokens(xs[..i]) && |x| <= 1 + 8 * i
      invariant y == "[" + Tokens(ys[..i]) && |y| <= 1 + 8 * i
      invariant z == "[" + Tokens(zs[..i]) && |z| <= 1 + 8 * i
    {
      x := AppendElement(x, xs, i);
      y := AppendElement(y, ys, i);
      z := AppendElement(z, zs, i);
      i := i + 1;
    }
    x := CloseArray(x, xs);
    y := CloseArray(y, ys);
    z := CloseArray(z, zs);
    payload := X_KEY + (x + (Y_KEY + (y + (Z_KEY + (z + CLOSE)))));
    PayloadFits(xs, ys, zs);
  }

  /** The payload line 336 builds as line 319 is written: each axis string comes
      fresh from `malloc` and `strcat` appends after whatever C text gx, gy, gz that
      memory already holds. */
  function PayloadFromUncleared(gx: string, gy: string, gz: string,
                                xs: seq<int>, ys: seq<int>, zs: seq<int>): string
    requires |xs| > 0 && |ys| > 0 && |zs| > 0
  {
    X_KEY + (gx + ArrayText(xs) + (Y_KEY + (gy + ArrayText(ys) + (Z_KEY + (gz + ArrayText(zs) + CLOSE)))))
  }

  /** One stray byte left in the memory of the x string is enough for the payload
      reader to reject the payload. */
  lemma UnclearedPayloadUnreadable(gx: string, xs: seq<int>, ys: seq<int>, zs: seq<int>)
    requires |xs| > 0 && |ys| > 0 && |zs| > 0
    requires |gx| > 0 && gx[0] != '['
    ensures ReadPayload(PayloadFromUncleared(gx, "", "", xs, ys, zs)) == None
  {
    var rest := gx + ArrayText(xs) + (Y_KEY + ("" + ArrayText(ys) + (Z_KEY + ("" + ArrayText(zs) + CLOSE))));
    assert PayloadFromUncleared(gx, "", "", xs, ys, zs) == X_KEY + rest;
    ReadLiteralPrefix(X_KEY, rest);
    assert rest[0] == gx[0];
    assert rest[..1] != "[";
    assert ReadArray(rest) == None;
    assert ReadField(X_KEY, X_KEY + rest) == None;
  }

  /** With the axis strings starting empty, as Serialise has them, the as-written
      construction is exactly the payload text. */
  lemma ClearedPayloadIsPayloadText(xs: seq<int>, ys: seq<int>, zs: seq<int>)
    requires |xs| > 0 && |ys| > 0 && |zs| > 0
    ensures PayloadFromUncleared("", "", "", xs, ys, zs) == PayloadText(xs, ys, zs)
  {
    assert "" + ArrayText(xs) == ArrayText(xs);
    assert "" + ArrayText(ys) == ArrayText(ys);
    assert "" + ArrayText(zs) == ArrayText(zs);
  }

  /** The heartbeat token of line 360 and the buffer it is printed into (line 359). */
  const ALIVE: string := "alive"
  const ALIVE_BUFFER_SIZE: nat := 10

  /** `sprintf(alive_buffer, "%s", "alive")`: the token with its NUL fits the buffer. */
  method FormatHeartbeat() returns (token: string)
    ensures token == ALIVE
    ensures |token| + 1 <= ALIVE_BUFFER_SIZE
  {
    token := ALIVE;
  }
}
