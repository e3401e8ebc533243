/** The cap on upload bodies (server/src/chunks/mod.rs). */
module CappedStreams {
  import opened Octets

  datatype Frame = Data(bytes: Bytes) | Broken

  /** The bytes of a stream up to its first error. */
  function Received(body: seq<Frame>): Bytes {
    if body == [] || body[0].Broken? then [] else body[0].bytes + Received(body[1..])
  }

  predicate Breaks(body: seq<Frame>) {
    body != [] && (body[0].Broken? || Breaks(body[1..]))
  }

  lemma {:induction false} ReceivedSnoc(body: seq<Frame>, f: Frame)
    requires !Breaks(body)
    ensures Received(body + [f]) == Received(body) + (if f.Data? then f.bytes else [])
    ensures Breaks(body + [f]) == f.Broken?
  {
    if body == [] {
      assert body + [f] == [f];
    } else {
      assert (body + [f])[1..] == body[1..] + [f];
      ReceivedSnoc(body[1..], f);
    }
  }

  /** The first `limit` bytes, or all if there are fewer. */
  function Capped(bytes: Bytes, limit: nat): Bytes {
    if limit < |bytes| then bytes[..limit] else bytes
  }

  /** An error gets through only if it comes before the limit is reached. */
  predicate BreaksThrough(body: seq<Frame>, limit: nat) {
    Breaks(body) && (|Received(body)| < limit || (limit == 0 && body[0].Broken?))
  }

  /** `out` went through whole and `rest` is to come. */
  ghost predicate Midway(body: seq<Frame>, out: seq<Frame>, rest: seq<Frame>, limit: nat) {
    !Breaks(out) && Received(body) == Received(out) + Received(rest) && Breaks(body) == Breaks(rest) &&
    (rest == body || |Received(out)| < limit)
  }

  lemma {:induction false} FrameFits(body: seq<Frame>, out: seq<Frame>, i: nat, limit: nat)
    requires i < |body| && Midway(body, out, body[i..], limit) && body[i].Data?
    requires |Received(out)| + |body[i].bytes| < limit
    ensures Midway(body, out + [body[i]], body[i + 1..], limit)
    ensures |Received(out + [body[i]])| == |Received(out)| + |body[i].bytes|
  {
    ReceivedSnoc(out, body[i]);
    assert body[i..][1..] == body[i + 1..];
    assert Received(out) + (body[i].bytes + Received(body[i + 1..])) == Received(out) + body[i].bytes + Received(body[i + 1..]);
  }

  lemma TakeInside(a: Bytes, b: Bytes, c: Bytes, limit: nat)
    requires |a| <= limit <= |a| + |b|
    ensures Capped(a + (b + c), limit) == a + b[..limit - |a|]
  {
  }

  lemma FrameCut(body: seq<Frame>, out: seq<Frame>, i: nat, limit: nat)
    requires i < |body| && Midway(body, out, body[i..], limit) && body[i].Data? && |Received(out)| <= limit
    requires |Received(out)| + |body[i].bytes| >= limit
    ensures var out1 := out + [Data(body[i].bytes[..limit - |Received(out)|])];
            Received(out1) == Capped(Received(body), limit) && !Breaks(out1) && !BreaksThrough(body, limit)
  {
    ReceivedSnoc(out, Data(body[i].bytes[..limit - |Received(out)|]));
    TakeInside(Received(out), body[i].bytes, Received(body[i..][1..]), limit);
  }

  lemma {:induction false} StreamBreaks(body: seq<Frame>, out: seq<Frame>, i: nat, limit: nat)
    requires i < |body| && Midway(body, out, body[i..], limit) && body[i].Broken?
    ensures Received(out + [Broken]) == Capped(Received(body), limit)
    ensures Breaks(out + [Broken]) && BreaksThrough(body, limit)
  {
    ReceivedSnoc(out, Broken);
  }

  lemma {:induction false} StreamEnds(body: seq<Frame>, out: seq<Frame>, limit: nat)
    requires Midway(body, out, [], limit) && |Received(out)| <= limit
    ensures Received(out) == Capped(Received(body), limit) && !Breaks(out) && !BreaksThrough(body, limit)
  {
    assert Received(out) + [] == Received(out);
  }

  lemma MidwayBegins(body: seq<Frame>, limit: nat)
    ensures Midway(body, [], body, limit) && Received([]) == []
  {
  }

  /**
   `capped_data_stream`: whatever the frames, the first `limit` bytes and no more. An error is passed on
   only when it comes before the limit is reached.
   */
  method CappedDataStream(body: seq<Frame>, limit: nat) returns (out: seq<Frame>)
    ensures Received(out) == Capped(Received(body), limit)
    ensures Breaks(out) <==> BreaksThrough(body, limit)
  {
    hide Received, Breaks, BreaksThrough, Midway, Capped;
    out := [];
    var seen, i := 0, 0;
    assert body[0..] == body;
    MidwayBegins(body, limit);
    while i < |body|
      invariant 0 <= i <= |body|
      invariant seen == |Received(out)| <= limit
      invariant Midway(body, out, body[i..], limit)
      decreases |body| - i
    {
      match body[i] {
      case Data(bytes) =>
        var remaining: nat := limit - seen;
        if |bytes| >= remaining {
          FrameCut(body, out, i, limit);
          out := out + [Data(bytes[..remaining])];
          return;
        }
        FrameFits(body, out, i, limit);
        seen := seen + |bytes|;
        out := out + [body[i]];
      case Broken =>
        StreamBreaks(body, out, i, limit);
        out := out + [Broken];
        return;
      }
      i := i + 1;
    }
    assert body[i..] == [];
    StreamEnds(body, out, limit);
  }
}
