/** Interpretation of the server's reply to the login token in `connect_proxy`:
    `recv` into a 128-byte buffer asking for at most 127 bytes, a NUL written at
    the returned length, and `strcmp` against "ok". */
module Handshake {
  import opened CTypes

  /** `char rx_buffer[128]` and the length `recv` is asked for, `sizeof(rx_buffer) - 1`. */
  const RX_BUFFER_SIZE: nat := 128
  const RECV_MAX: nat := RX_BUFFER_SIZE - 1

  const NUL: uint8 := 0

  /** The C string literal "ok", with its terminator. */
  const OK_LITERAL: seq<uint8> := ['o' as int, 'k' as int, NUL]

  /** The text C's string functions see in buf: the bytes before the first NUL. */
  function CText(buf: seq<uint8>): (t: seq<uint8>)
    requires NUL in buf
    ensures NUL !in t && |t| < |buf| && buf[..|t|] == t && buf[|t|] == NUL
  {
    if buf[0] == NUL then [] else
      assert NUL in buf[1..] by {
        var k :| 0 <= k < |buf| && buf[k] == NUL;
        assert buf[1..][k - 1] == NUL;
      }
      [buf[0]] + CText(buf[1..])
  }

  /** `strcmp(a, b)`: compare byte by byte up to the first difference or the
      terminator; the sign of the result orders the strings. */
  function Strcmp(a: seq<uint8>, b: seq<uint8>): (r: int)
    requires NUL in a && NUL in b
    ensures -0xFF <= r <= 0xFF
    decreases |a|
  {
    if a[0] != b[0] then a[0] - b[0]
    else if a[0] == NUL then 0
    else
      assert NUL in a[1..] && NUL in b[1..] by {
        var k :| 0 <= k < |a| && a[k] == NUL;
        assert a[1..][k - 1] == NUL;
        var j :| 0 <= j < |b| && b[j] == NUL;
        assert b[1..][j - 1] == NUL;
      }
      Strcmp(a[1..], b[1..])
  }

  /** `strcmp` reports equality exactly when the two C strings are equal. */
  lemma {:induction false} StrcmpZeroIff(a: seq<uint8>, b: seq<uint8>)
    requires NUL in a && NUL in b
    ensures Strcmp(a, b) == 0 <==> CText(a) == CText(b)
    decreases |a|
  {
    if a[0] == b[0] && a[0] != NUL {
      StrcmpZeroIff(a[1..], b[1..]);
      assert CText(a) == [a[0]] + CText(a[1..]);
      assert CText(b) == [b[0]] + CText(b[1..]);
      if CText(a) == CText(b) {
        assert CText(a)[1..] == CText(a[1..]);
        assert CText(b)[1..] == CText(b[1..]);
      }
    } else if a[0] != b[0] {
      if a[0] != NUL && b[0] != NUL {
        assert CText(a)[0] != CText(b)[0];
      }
    }
  }

  /** What `connect_proxy` makes of the reply; in every case it returns normally. */
  datatype LoginOutcome = RecvFailed | Accepted | Rejected

  /** Lines 199-210. `received` is the whole receive buffer after `recv` returned
      `len` (the first `len` bytes are the reply, the rest whatever the buffer held);
      `recv` never returns more than it was asked for. */
  function CheckLogin(len: int, received: seq<uint8>): (r: LoginOutcome)
    requires |received| == RX_BUFFER_SIZE && len <= RECV_MAX
    ensures r == RecvFailed <==> len < 0
  {
    if len < 0 then RecvFailed
    else
      var terminated := received[len := NUL];
      assert terminated[len] == NUL && OK_LITERAL[2] == NUL;
      if Strcmp(terminated, OK_LITERAL) == 0 then Accepted else Rejected
  }

  /** The reply is accepted exactly when recv succeeded and the text up to the
      first NUL of the terminated buffer is "ok". */
  lemma LoginAcceptedIff(len: int, received: seq<uint8>)
    requires |received| == RX_BUFFER_SIZE && len <= RECV_MAX
    ensures 0 <= len ==> len < RX_BUFFER_SIZE
    ensures 0 <= len ==> NUL in received[len := NUL]
    ensures CheckLogin(len, received) == Accepted <==>
              0 <= len && CText(received[len := NUL]) == OK_LITERAL[..2]
  {
    if 0 <= len {
      var t := received[len := NUL];
      assert t[len] == NUL;
      StrcmpZeroIff(t, OK_LITERAL);
      assert CText(OK_LITERAL) == OK_LITERAL[..2] by {
        assert OK_LITERAL[1..][1..] == [NUL];
      }
    }
  }

  /** The same condition byte by byte: at least two bytes "ok" received, and either
      nothing more or a NUL right after them (strcmp stops at the first NUL, so
      "ok" followed by a NUL and anything at all is accepted too). */
  lemma LoginAcceptedBytes(len: int, received: seq<uint8>)
    requires |received| == RX_BUFFER_SIZE && len <= RECV_MAX
    ensures CheckLogin(len, received) == Accepted <==>
              2 <= len && received[0] == 'o' as int && received[1] == 'k' as int &&
              (len == 2 || received[2] == NUL)
  {
    LoginAcceptedIff(len, received);
    if 0 <= len {
      var t := received[len := NUL];
      TextIsOk(t);
      assert t[0] == received[0] || len == 0;
      assert 2 <= len ==> t[1] == received[1];
      assert 2 <= len ==> (t[2] == NUL <==> len == 2 || received[2] == NUL);
    }
  }

  /** The C text of a terminated buffer is "ok" exactly when it starts "o", "k", NUL. */
  lemma TextIsOk(t: seq<uint8>)
    requires NUL in t
    ensures CText(t) == OK_LITERAL[..2] <==> |t| >= 3 && t[0] == 'o' as int && t[1] == 'k' as int && t[2] == NUL
  {
    if CText(t) == OK_LITERAL[..2] {
      TextIsOkOnly(t);
    }
    if |t| >= 3 && t[0] == 'o' as int && t[1] == 'k' as int && t[2] == NUL {
      TextIsOkIf(t);
    }
  }

  lemma TextIsOkOnly(t: seq<uint8>)
    requires NUL in t && CText(t) == OK_LITERAL[..2]
    ensures |t| >= 3 && t[0] == 'o' as int && t[1] == 'k' as int && t[2] == NUL
  {
    var c := CText(t);
    assert c == ['o' as int, 'k' as int];
    assert t[..2] == c && t[2] == NUL;
    assert t[0] == t[..2][0] && t[1] == t[..2][1];
  }

  lemma TextIsOkIf(t: seq<uint8>)
    requires |t| >= 3 && t[0] == 'o' as int && t[1] == 'k' as int && t[2] == NUL
    ensures NUL in t && CText(t) == OK_LITERAL[..2]
  {
    var t1 := t[1..];
    var t2 := t1[1..];
    assert t2[0] == NUL && t1[0] != NUL && t[0] != NUL;
    assert CText(t2) == [];
    assert CText(t1) == [t1[0]] + CText(t2);
    assert CText(t) == [t[0]] + CText(t1);
  }

  /** A reply of exactly "ok" is accepted; an empty reply, "fail" and a receive error
      are not. */
  lemma LoginExamples(received: seq<uint8>)
    requires |received| == RX_BUFFER_SIZE
    ensures received[0] == 'o' as int && received[1] == 'k' as int ==> CheckLogin(2, received) == Accepted
    ensures CheckLogin(0, received) == Rejected
    ensures received[..4] == ['f' as int, 'a' as int, 'i' as int, 'l' as int] ==> CheckLogin(4, received) == Rejected
    ensures CheckLogin(-1, received) == RecvFailed
  {
    LoginAcceptedBytes(2, received);
    LoginAcceptedBytes(0, received);
    LoginAcceptedBytes(4, received);
    if received[..4] == ['f' as int, 'a' as int, 'i' as int, 'l' as int] {
      assert received[0] == 'f' as int;
    }
  }
}
