/** The sampling task's batch store: three 60-slot `short` arrays and the write
    cursor `buffer_index`, filled one decoded sample per step; the step that writes
    the last slot wraps the cursor to 0 and gives the batch-ready signal. */
module Sampler {
  import opened CTypes
  import opened Sensor

  /** Slots per axis (`short int x[60]`). */
  const N: nat := 60

  /** The cursor after one step from cursor c (lines 289-291). */
  function Advance(c: nat): (next: nat)
    requires c < N
    ensures next < N && next == (c + 1) % N
  {
    if c + 1 == N then 0 else c + 1
  }

  /** The cursor after k steps from cursor c. */
  function CursorAfter(c: nat, k: nat): (r: nat)
    requires c < N
    ensures r < N
    decreases k
  {
    if k == 0 then c else CursorAfter(Advance(c), k - 1)
  }

  /** The signal each of k steps from cursor c gives: a step signals when it writes slot N - 1. */
  function Signals(c: nat, k: nat): (s: seq<bool>)
    requires c < N
    ensures |s| == k
    decreases k
  {
    if k == 0 then [] else [c == N - 1] + Signals(Advance(c), k - 1)
  }

  /** Number of true entries. */
  function CountTrue(s: seq<bool>): nat
  {
    if s == [] then 0 else (if s[0] then 1 else 0) + CountTrue(s[1..])
  }

  /** Slot contents after writing vs, one value per step, from cursor c. */
  function Fill(a: seq<int16>, c: nat, vs: seq<int16>): (r: seq<int16>)
    requires |a| == N && c < N
    ensures |r| == N
    decreases |vs|
  {
    if vs == [] then a else Fill(a[c := vs[0]], Advance(c), vs[1..])
  }

  /** After k steps the cursor is k slots further on, modulo N. */
  lemma {:induction false} CursorAfterIsModN(c: nat, k: nat)
    requires c < N
    ensures CursorAfter(c, k) == (c + k) % N
    decreases k
  {
    if k > 0 {
      CursorAfterIsModN(Advance(c), k - 1);
    }
  }

  lemma {:induction false} CursorAfterSnoc(c: nat, k: nat)
    requires c < N
    ensures CursorAfter(c, k + 1) == Advance(CursorAfter(c, k))
    decreases k
  {
    if k > 0 {
      CursorAfterSnoc(Advance(c), k - 1);
    }
  }

  /** Step i of a run from cursor c signals exactly when it writes slot N - 1. */
  lemma {:induction false} SignalAt(c: nat, k: nat, i: nat)
    requires c < N && i < k
    ensures Signals(c, k)[i] <==> CursorAfter(c, i) == N - 1
    ensures Signals(c, k)[i] <==> (c + i) % N == N - 1
    decreases k
  {
    CursorAfterIsModN(c, i);
    if i > 0 {
      SignalAt(Advance(c), k - 1, i - 1);
      CursorAfterIsModN(Advance(c), i - 1);
    }
  }

  lemma {:induction false} SignalsSnoc(c: nat, k: nat)
    requires c < N
    ensures Signals(c, k + 1) == Signals(c, k) + [CursorAfter(c, k) == N - 1]
    decreases k
  {
    if k > 0 {
      SignalsSnoc(Advance(c), k - 1);
    }
  }

  /** A run of k steps from cursor c gives (c + k) / N signals: from a fresh buffer,
      one per N samples. */
  lemma {:induction false} SignalCount(c: nat, k: nat)
    requires c < N
    ensures CountTrue(Signals(c, k)) == (c + k) / N
    decreases k
  {
    if k > 0 {
      var s := Signals(c, k);
      assert s[1..] == Signals(Advance(c), k - 1);
      SignalCount(Advance(c), k - 1);
    }
  }

  /** From a fresh buffer the first N - 1 steps only delay and step N signals. */
  lemma FirstBatchSignal()
    ensures forall i :: 0 <= i < N - 1 ==> !Signals(0, N)[i]
    ensures Signals(0, N)[N - 1]
  {
    forall i | 0 <= i < N
      ensures Signals(0, N)[i] <==> i == N - 1
    {
      SignalAt(0, N, i);
    }
  }

  /** Two signals of one run are at least N steps apart, a multiple of N in fact. */
  lemma SignalsSpaced(c: nat, k: nat, i: nat, j: nat)
    requires c < N && i < j < k
    requires Signals(c, k)[i] && Signals(c, k)[j]
    ensures (j - i) % N == 0 && j - i >= N
  {
    SignalAt(c, k, i);
    SignalAt(c, k, j);
    var q, r := (c + i) / N, (c + j) / N;
    assert c + i == q * N + N - 1;
    assert c + j == r * N + N - 1;
    assert j - i == (r - q) * N;
  }

  /** Every N consecutive steps of a run contain a signalling step. */
  lemma SignalInEveryWindow(c: nat, k: nat, i: nat)
    requires c < N && i + N <= k
    ensures exists j :: i <= j < i + N && Signals(c, k)[j]
  {
    var r := (c + i) % N;
    var j := i + (N - 1 - r);
    assert (c + j) % N == N - 1 by {
      assert c + j == (c + i) / N * N + N - 1;
    }
    SignalAt(c, k, j);
  }

  /** Writing one value is a single in-place update at the cursor. */
  lemma FillOne(a: seq<int16>, c: nat, v: int16)
    requires |a| == N && c < N
    ensures Fill(a, c, [v]) == a[c := v]
  {
    assert [v][1..] == [];
  }

  lemma {:induction false} FillSnoc(a: seq<int16>, c: nat, vs: seq<int16>, v: int16)
    requires |a| == N && c < N
    ensures Fill(a, c, vs + [v]) == Fill(a, c, vs)[CursorAfter(c, |vs|) := v]
    decreases |vs|
  {
    if vs == [] {
      assert vs + [v] == [v];
      FillOne(a, c, v);
    } else {
      assert (vs + [v])[1..] == vs[1..] + [v];
      FillSnoc(a[c := vs[0]], Advance(c), vs[1..], v);
    }
  }

  lemma FillPrefixSnoc(a: seq<int16>, c: nat, vs: seq<int16>, i: nat)
    requires |a| == N && c < N && i < |vs|
    ensures Fill(a, c, vs[..i + 1]) == Fill(a, c, vs[..i])[CursorAfter(c, i) := vs[i]]
  {
    assert vs[..i + 1] == vs[..i] + [vs[i]];
    FillSnoc(a, c, vs[..i], vs[i]);
  }

  /** Values written without wrapping land in consecutive slots from the cursor;
      the other slots keep their contents. */
  lemma {:induction false} FillWithoutWrap(a: seq<int16>, c: nat, vs: seq<int16>)
    requires |a| == N && c < N && c + |vs| <= N
    ensures Fill(a, c, vs) == a[..c] + vs + a[c + |vs|..]
    decreases |vs|
  {
    if vs != [] {
      if |vs| == 1 {
        FillOne(a, c, vs[0]);
        assert a[c := vs[0]] == a[..c] + vs + a[c + 1..];
      } else {
        FillWithoutWrap(a[c := vs[0]], c + 1, vs[1..]);
        assert a[c := vs[0]][..c + 1] == a[..c] + [vs[0]];
        assert a[c := vs[0]][c + 1 + |vs[1..]|..] == a[c + |vs|..];
        assert [vs[0]] + vs[1..] == vs;
      }
    }
  }

  /** A whole batch of N samples from cursor 0 fills the arrays with exactly those
      samples, in order, whatever they held before. */
  lemma FillBatch(a: seq<int16>, vs: seq<int16>)
    requires |a| == N && |vs| == N
    ensures Fill(a, 0, vs) == vs
  {
    FillWithoutWrap(a, 0, vs);
    assert a[..0] + vs + a[N..] == vs;
  }

  /** The x, y and z components of a run of samples. */
  function Xs(ss: seq<Sample>): seq<int16>
  {
    seq(|ss|, i requires 0 <= i < |ss| => ss[i].x)
  }

  function Ys(ss: seq<Sample>): seq<int16>
  {
    seq(|ss|, i requires 0 <= i < |ss| => ss[i].y)
  }

  function Zs(ss: seq<Sample>): seq<int16>
  {
    seq(|ss|, i requires 0 <= i < |ss| => ss[i].z)
  }

  /** The samples a run of six-byte reads decodes to. */
  function DecodeAll(readings: seq<seq<uint8>>): seq<Sample>
    requires forall i :: 0 <= i < |readings| ==> |readings[i]| >= READ_LEN
  {
    seq(|readings|, i requires 0 <= i < |readings| => DecodeSample(readings[i]))
  }

  /** `struct accel_buffer` together with `buffer_index`. */
  class AccelBuffer {
    var x: array<int16>
    var y: array<int16>
    var z: array<int16>
    var cursor: nat

    /** Three separate 60-slot arrays and a cursor inside them. */
    ghost predicate Valid()
      reads this
    {
      x.Length == N && y.Length == N && z.Length == N &&
      x != y && y != z && x != z &&
      cursor < N
    }

    /** The buffer as allocated at start-up: contents unspecified, cursor 0. */
    constructor ()
      ensures Valid() && fresh(x) && fresh(y) && fresh(z)
      ensures cursor == 0
    {
      x := new int16[N];
      y := new int16[N];
      z := new int16[N];
      cursor := 0;
    }

    /** Lines 285-297: store the sample at the cursor and advance it; the step that
        writes the last slot wraps the cursor to 0 and returns the batch-ready
        signal, every other step returns false (the delay branch). */
    method Append(s: Sample) returns (signal: bool)
      requires Valid()
      modifies this`cursor, x, y, z
      ensures Valid()
      ensures x[..] == old(x[..])[old(cursor) := s.x]
      ensures y[..] == old(y[..])[old(cursor) := s.y]
      ensures z[..] == old(z[..])[old(cursor) := s.z]
      ensures signal <==> old(cursor) == N - 1
      ensures cursor == Advance(old(cursor))
      ensures signal ==> cursor == 0
      ensures !signal ==> cursor == old(cursor) + 1
    {
      x[cursor] := s.x;
      y[cursor] := s.y;
      z[cursor] := s.z;
      cursor := cursor + 1;
      signal := cursor == N;
      if signal {
        cursor := 0;
      }
    }

    /** Lines 279-297: one iteration of the sampling loop on the six bytes read. */
    method Step(data: seq<uint8>) returns (signal: bool)
      requires Valid() && |data| >= READ_LEN
      modifies this`cursor, x, y, z
      ensures Valid()
      ensures x[..] == old(x[..])[old(cursor) := DecodeSample(data).x]
      ensures y[..] == old(y[..])[old(cursor) := DecodeSample(data).y]
      ensures z[..] == old(z[..])[old(cursor) := DecodeSample(data).z]
      ensures signal <==> old(cursor) == N - 1
      ensures cursor == Advance(old(cursor))
    {
      var sample := DecodeSample(data);
      signal := Append(sample);
    }

    /** The first |readings| iterations of the sampling loop (lines 253-298): the
        signals given, the slots written and the final cursor. */
    method Run(readings: seq<seq<uint8>>) returns (signals: seq<bool>)
      requires Valid()
      requires forall i :: 0 <= i < |readings| ==> |readings[i]| >= READ_LEN
      modifies this`cursor, x, y, z
      ensures Valid()
      ensures signals == Signals(old(cursor), |readings|)
      ensures cursor == CursorAfter(old(cursor), |readings|)
      ensures x[..] == Fill(old(x[..]), old(cursor), Xs(DecodeAll(readings)))
      ensures y[..] == Fill(old(y[..]), old(cursor), Ys(DecodeAll(readings)))
      ensures z[..] == Fill(old(z[..]), old(cursor), Zs(DecodeAll(readings)))
    {
      ghost var c0 := cursor;
      ghost var ss := DecodeAll(readings);
      ghost var xs, ys, zs := Xs(ss), Ys(ss), Zs(ss);
      ghost var x0, y0, z0 := x[..], y[..], z[..];
      signals := [];
      var i := 0;
      while i < |readings|
        invariant 0 <= i <= |readings|
        invariant Valid()
        invariant x == old(x) && y == old(y) && z == old(z)
        invariant signals == Signals(c0, i)
        invariant cursor == CursorAfter(c0, i)
        invariant x[..] == Fill(x0, c0, xs[..i])
        invariant y[..] == Fill(y0, c0, ys[..i])
        invariant z[..] == Fill(z0, c0, zs[..i])
      {
        var signal := Step(readings[i]);
        SignalsSnoc(c0, i);
        CursorAfterSnoc(c0, i);
        FillPrefixSnoc(x0, c0, xs, i);
        FillPrefixSnoc(y0, c0, ys, i);
        FillPrefixSnoc(z0, c0, zs, i);
        signals := signals + [signal];
        i := i + 1;
      }
      assert xs[..|readings|] == xs && ys[..|readings|] == ys && zs[..|readings|] == zs;
    }
  }
}
