/** The sampler and the transmitter composed over the first batch after start-up:
    60 reads into a fresh buffer, then the serialisation that the signal releases,
    with no sample taken in between. */
module Pipeline {
  import opened CTypes
  import opened Sensor
  import opened Sampler
  import opened Payload
  import opened Transmitter

  /** The first batch: only the 60th read signals, and the payload the transmitter
      then builds lists the 60 decoded readings of each axis in read order and reads
      back to exactly them. */
  method FirstBatch(readings: seq<seq<uint8>>) returns (signals: seq<bool>, payload: string)
    requires |readings| == N
    requires forall i :: 0 <= i < |readings| ==> |readings[i]| >= READ_LEN
    ensures |signals| == N && signals[N - 1]
    ensures forall i :: 0 <= i < N - 1 ==> !signals[i]
    ensures CountTrue(signals) == 1
    ensures var ss := DecodeAll(readings);
            payload == PayloadText(Xs(ss), Ys(ss), Zs(ss)) &&
            ReadPayload(payload) == Some((Xs(ss), Ys(ss), Zs(ss)))
  {
    var b := new AccelBuffer();
    ghost var x0, y0, z0 := b.x[..], b.y[..], b.z[..];
    signals := b.Run(readings);
    FirstBatchSignal();
    SignalCount(0, N);
    ghost var ss := DecodeAll(readings);
    FillBatch(x0, Xs(ss));
    FillBatch(y0, Ys(ss));
    FillBatch(z0, Zs(ss));
    payload := Serialise(b);
    PayloadRoundTrip(Xs(ss), Ys(ss), Zs(ss));
  }
}
