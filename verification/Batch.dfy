/**
 The batches of an upload on their way: the body of each request (client/src/remote.rs), the server's cap
 on it (server/src/chunks/mod.rs), and what the store holds after all of them.
 */
module Batches {
  import opened Octets
  import opened Servers
  import opened Multipart
  import opened Framing
  import Forms

  /** The server reads this much of an upload and takes the stream to end there. */
  const DATA_FORM_LIMIT: nat := 5 * 1024 * 1024

  const DISPOSITION: Bytes := Ascii("Content-Disposition: form-data; name=\"")
  const OCTET_STREAM: Bytes := Ascii("Content-Type: application/octet-stream")
  const QUOTE: byte := 34

  /** The client's boundary is 24 dashes and a UUID. */
  const BOUNDARY_LENGTH: nat := 60

  function PartHead(boundary: Text, id: Text): Bytes {
    Delimiter(boundary) + CRLF + DISPOSITION + id + [QUOTE] + CRLF + OCTET_STREAM + DOUBLE_CRLF
  }

  function PartBytes(boundary: Text, part: Part): Bytes {
    PartHead(boundary, part.0) + part.1 + CRLF
  }

  /** The body of `upload_batch`. */
  function BatchBody(boundary: Text, batch: seq<Part>): Bytes {
    if batch == [] then Delimiter(boundary) + [DASH, DASH] + CRLF
    else PartBytes(boundary, batch[0]) + BatchBody(boundary, batch[1..])
  }

  function HeadLength(id: Text): nat {
    147 + |id|
  }

  function PartLength(part: Part): nat {
    149 + |part.0| + |part.1|
  }

  /** The length of a batch's body up to its last delimiter, that included. */
  function DelimitedLength(batch: seq<Part>): nat {
    if batch == [] then BOUNDARY_LENGTH + 2 else PartLength(batch[0]) + DelimitedLength(batch[1..])
  }

  /** The two dashes and the line break that close a body. */
  const CLOSE_LENGTH: nat := 4

  lemma PartBytesLength(boundary: Text, part: Part)
    requires |boundary| == BOUNDARY_LENGTH
    ensures |PartHead(boundary, part.0)| == HeadLength(part.0)
    ensures |PartBytes(boundary, part)| == PartLength(part)
  {
  }

  lemma {:induction false} BatchBodyLength(boundary: Text, batch: seq<Part>)
    requires |boundary| == BOUNDARY_LENGTH
    ensures |BatchBody(boundary, batch)| == DelimitedLength(batch) + CLOSE_LENGTH
  {
    if batch != [] {
      PartBytesLength(boundary, batch[0]);
      BatchBodyLength(boundary, batch[1..]);
    }
  }

  /** The whole body fits under the cap. */
  predicate Fits(batch: seq<Part>) {
    DelimitedLength(batch) + CLOSE_LENGTH <= DATA_FORM_LIMIT
  }

  /**
   Where the first `left` bytes of a body end. A field's header ends with its blank line, and its content
   is known to have ended once the next delimiter has come (section 5.1.1 of RFC 2046).
   */
  function CutAfter(batch: seq<Part>, left: nat, before: nat): BodyEnd
    decreases batch
  {
    if batch == [] || left < HeadLength(batch[0].0) then CutInHeader(before)
    else if left < PartLength(batch[0]) + BOUNDARY_LENGTH + 2 then CutInField(before)
    else CutAfter(batch[1..], left - PartLength(batch[0]), before + 1)
  }

  /** Where each request's body breaks off on its way; when it does, the connection is lost and the client gets no answer. */
  type Network = nat -> BodyEnd

  /** No body is cut short on the way. */
  ghost predicate Reliable(net: Network) {
    forall i :: net(i) == Whole
  }

  /** Where the server stops reading a batch that arrives whole. */
  function AtCap(batch: seq<Part>): BodyEnd {
    if Fits(batch) then Whole else CutAfter(batch, DATA_FORM_LIMIT, 0)
  }

  /** The earlier of two ends. */
  function Earlier(a: BodyEnd, b: BodyEnd): BodyEnd {
    if a.Whole? then b
    else if b.Whole? || a.before < b.before || (a.before == b.before && a.CutInHeader?) then a
    else b
  }

  /** What the server sees of the `i`-th request: what the network lets through, up to the cap. */
  function EndOf(net: Network, i: nat, batch: seq<Part>): BodyEnd {
    Earlier(net(i), AtCap(batch))
  }

  /**
   The client is answered with success. Where the cap cuts a header the server notices nothing; where it cuts a
   chunk the server panics; and after a lost connection there is no answer, whatever was cut.
   */
  predicate Confirmed(net: Network, i: nat, batch: seq<Part>) {
    net(i).Whole? && Aborted(batch, EndOf(net, i, batch)).None?
  }

  /** Every part of the batch is stored, and none is taken out again. */
  ghost predicate Full(batch: seq<Part>, end: BodyEnd) {
    Arrived(batch, end) == batch && Aborted(batch, end).None?
  }

  lemma {:induction false} CutAfterExact(batch: seq<Part>, left: nat, before: nat)
    requires left >= BOUNDARY_LENGTH + 2
    ensures var end := CutAfter(batch, left, before);
            !end.Whole? && before <= end.before <= before + |batch| &&
            (end.before == before + |batch| <==> DelimitedLength(batch) <= left)
    decreases batch
  {
    if batch != [] && left >= PartLength(batch[0]) + BOUNDARY_LENGTH + 2 {
      CutAfterExact(batch[1..], left - PartLength(batch[0]), before + 1);
    }
  }

  /**
   A body the network does not cut arrives with all its parts if and only if it is within the cap up to
   its last delimiter: what closes the body is not needed.
   */
  lemma {:induction false} CapExact(net: Network, i: nat, batch: seq<Part>)
    requires net(i) == Whole
    ensures Full(batch, EndOf(net, i, batch)) <==> DelimitedLength(batch) <= DATA_FORM_LIMIT
  {
    if !Fits(batch) {
      CutAfterExact(batch, DATA_FORM_LIMIT, 0);
      var end := CutAfter(batch, DATA_FORM_LIMIT, 0);
      assert batch[..|batch|] == batch;
    }
  }

  /** The store after some of the requests, and whether they all succeeded. */
  datatype Sent = Sent(store: Blobs, ok: bool)

  /** The first `n` batches, one request each; nothing is sent for an empty batch, or after a failure. */
  function SendFirst(store: Blobs, batches: seq<seq<Part>>, net: Network, n: nat): Sent
    requires n <= |batches|
  {
    if n == 0 then Sent(store, true)
    else
      var s, batch := SendFirst(store, batches, net, n - 1), batches[n - 1];
      if !s.ok || batch == [] then s
      else
        var end := EndOf(net, n - 1, batch);
        Sent(Uploaded(s.store, batch, end), Confirmed(net, n - 1, batch))
  }

  function SendAll(store: Blobs, batches: seq<seq<Part>>, net: Network): Sent {
    SendFirst(store, batches, net, |batches|)
  }

  /** None of the parts carries an id the store began with. */
  ghost predicate OnlyNew(store: Blobs, batches: seq<seq<Part>>) {
    forall i | 0 <= i < |batches| :: forall p | p in batches[i] :: p.0 !in store
  }

  lemma {:induction false} ConcatExact(batches: seq<seq<Part>>, p: Part)
    ensures p in Concat(batches) <==> exists i | 0 <= i < |batches| :: p in batches[i]
  {
    if batches != [] {
      ConcatExact(batches[1..], p);
      if i :| 0 <= i < |batches| && p in batches[i] && i > 0 {
        assert batches[1..][i - 1] == batches[i];
      }
    }
  }

  /** Whatever the store holds, it held before or was sent. */
  ghost predicate Stems(store0: Blobs, store: Blobs, parts: seq<Part>) {
    forall id | id in store :: Stem(store0, id, store[id], parts)
  }

  ghost predicate Stem(store0: Blobs, id: Text, data: Bytes, parts: seq<Part>) {
    (id in store0 && store0[id] == data) || (id, data) in parts
  }

  lemma UploadedStems(store0: Blobs, store: Blobs, parts: seq<Part>, end: BodyEnd, all: seq<Part>)
    requires Stems(store0, store, all) && forall p | p in parts :: p in all
    ensures Stems(store0, Uploaded(store, parts, end), all)
  {
    PutAllValues(store, Arrived(parts, end), (id, data) => Stem(store0, id, data, all));
  }

  /** An upload loses no chunk but new ones. */
  lemma UploadedKeepsOld(store0: Blobs, store: Blobs, parts: seq<Part>, end: BodyEnd)
    requires store0.Keys <= store.Keys && forall p | p in parts :: p.0 !in store0
    ensures store0.Keys <= Uploaded(store, parts, end).Keys
  {
    UploadedKeys(store, parts, end);
  }

  /** Chunks the store had before stay, whatever happens to the requests, and nothing unsent gets in. */
  lemma {:induction false} SendKeeps(store: Blobs, batches: seq<seq<Part>>, net: Network, n: nat)
    requires n <= |batches| && OnlyNew(store, batches)
    ensures store.Keys <= SendFirst(store, batches, net, n).store.Keys
    ensures Stems(store, SendFirst(store, batches, net, n).store, Concat(batches))
  {
    if n > 0 {
      SendKeeps(store, batches, net, n - 1);
      var s, batch := SendFirst(store, batches, net, n - 1), batches[n - 1];
      forall p | p in batch
        ensures p in Concat(batches)
      {
        ConcatExact(batches, p);
      }
      UploadedStems(store, s.store, batch, EndOf(net, n - 1, batch), Concat(batches));
      UploadedKeepsOld(store, s.store, batch, EndOf(net, n - 1, batch));
    }
  }

  /** Every batch is within the cap. */
  ghost predicate AllFit(batches: seq<seq<Part>>) {
    forall i | 0 <= i < |batches| :: DelimitedLength(batches[i]) <= DATA_FORM_LIMIT
  }

  /** The `i`-th request brought the chunk. */
  ghost predicate Brought(batches: seq<seq<Part>>, net: Network, i: nat, id: Text)
    requires i < |batches|
  {
    exists p | p in Arrived(batches[i], EndOf(net, i, batches[i])) :: p.0 == id
  }

  /** What is in the store and was not there before has been brought by a request. */
  lemma {:induction false} SentBrought(store: Blobs, batches: seq<seq<Part>>, net: Network, n: nat, id: Text)
    requires n <= |batches| && id in SendFirst(store, batches, net, n).store && id !in store
    ensures exists i | 0 <= i < n :: Brought(batches, net, i, id)
  {
    var s, batch := SendFirst(store, batches, net, n - 1), batches[n - 1];
    if id in s.store {
      SentBrought(store, batches, net, n - 1, id);
    } else {
      PutAllKeys(s.store, Arrived(batch, EndOf(net, n - 1, batch)));
      assert Brought(batches, net, n - 1, id);
    }
  }

  lemma FailureStays(store: Blobs, batches: seq<seq<Part>>, net: Network, i: nat)
    requires i < |batches| && batches[i] != [] && !Confirmed(net, i, batches[i])
    ensures !SendAll(store, batches, net).ok
  {
    FailureFinal(store, batches, net, i + 1, |batches|);
  }

  /** After a failure nothing more is sent. */
  lemma {:induction false} FailureFinal(store: Blobs, batches: seq<seq<Part>>, net: Network, i: nat, n: nat)
    requires i <= n <= |batches| && !SendFirst(store, batches, net, i).ok
    ensures SendFirst(store, batches, net, n) == SendFirst(store, batches, net, i)
  {
    if i < n {
      FailureFinal(store, batches, net, i, n - 1);
    }
  }

  /** Every request is answered with success, and every chunk is brought by one of them, if not by each that was to. */
  ghost predicate Gets(batches: seq<seq<Part>>, net: Network) {
    (forall i | 0 <= i < |batches| && batches[i] != [] :: Confirmed(net, i, batches[i])) &&
    (forall i | 0 <= i < |batches| :: forall p | p in batches[i] :: SomeBrought(batches, net, p.0))
  }

  ghost predicate SomeBrought(batches: seq<seq<Part>>, net: Network, id: Text) {
    exists j | 0 <= j < |batches| :: Brought(batches, net, j, id)
  }

  /** As long as all goes well, what is brought stays. */
  lemma {:induction false} BroughtStays(store: Blobs, batches: seq<seq<Part>>, net: Network, n: nat)
    requires n <= |batches| && forall i | 0 <= i < n && batches[i] != [] :: Confirmed(net, i, batches[i])
    ensures SendFirst(store, batches, net, n).ok
    ensures forall id, j | 0 <= j < n && id != [] && Brought(batches, net, j, id) :: id in SendFirst(store, batches, net, n).store
  {
    if n > 0 {
      BroughtStays(store, batches, net, n - 1);
      PutAllKeys(SendFirst(store, batches, net, n - 1).store, Arrived(batches[n - 1], EndOf(net, n - 1, batches[n - 1])));
    }
  }

  /** A batch's connection is lost on the way. */
  ghost predicate Lost(batches: seq<seq<Part>>, net: Network) {
    exists i | 0 <= i < |batches| :: batches[i] != [] && !net(i).Whole?
  }

  /** Then the client has an error, wherever the body broke off. */
  lemma {:induction false} LostFails(store: Blobs, batches: seq<seq<Part>>, net: Network)
    requires Lost(batches, net)
    ensures !SendAll(store, batches, net).ok
  {
    var i :| 0 <= i < |batches| && batches[i] != [] && !net(i).Whole?;
    FailureStays(store, batches, net, i);
  }

  /** The body of a batch up to its `k`-th part. */
  function Before(boundary: Text, batch: seq<Part>, k: nat): Bytes
    requires k <= |batch|
  {
    if k == 0 then [] else PartBytes(boundary, batch[0]) + Before(boundary, batch[1..], k - 1)
  }

  lemma {:induction false} BodySplits(boundary: Text, batch: seq<Part>, k: nat)
    requires k <= |batch|
    ensures BatchBody(boundary, batch) == Before(boundary, batch, k) + BatchBody(boundary, batch[k..])
  {
    hide PartBytes;
    if k > 0 {
      BodySplits(boundary, batch[1..], k - 1);
      assert batch[1..][k - 1..] == batch[k..];
      var first, middle, last := PartBytes(boundary, batch[0]), Before(boundary, batch[1..], k - 1), BatchBody(boundary, batch[k..]);
      assert first + (middle + last) == first + middle + last;
    } else {
      assert batch[0..] == batch;
    }
  }

  /** The cap falls inside the `k`-th part: after its header, and before the delimiter that ends it has come. */
  ghost predicate EndsInside(boundary: Text, batch: seq<Part>, k: nat)
    requires k < |batch|
  {
    |Before(boundary, batch, k)| + |PartHead(boundary, batch[k].0)| <= 5_242_880 <
    |Before(boundary, batch, k + 1)| + |Delimiter(boundary)|
  }

  lemma {:induction false} CutAfterOffsets(boundary: Text, batch: seq<Part>, left: nat, before: nat, k: nat)
    requires |boundary| == BOUNDARY_LENGTH && k < |batch|
    ensures CutAfter(batch, left, before) == CutInField(before + k) <==>
            |Before(boundary, batch, k)| + |PartHead(boundary, batch[k].0)| <= left <
            |Before(boundary, batch, k + 1)| + |Delimiter(boundary)|
    decreases k
  {
    hide PartBytes, PartHead;
    PartBytesLength(boundary, batch[0]);
    if k > 0 {
      PartBytesLength(boundary, batch[k]);
      if left >= PartLength(batch[0]) + BOUNDARY_LENGTH + 2 {
        CutAfterOffsets(boundary, batch[1..], left - PartLength(batch[0]), before + 1, k - 1);
      }
    } else {
      assert Before(boundary, batch[1..], 0) == [];
      if left >= PartLength(batch[0]) + BOUNDARY_LENGTH + 2 {
        CutAfterInRange(batch[1..], left - PartLength(batch[0]), before + 1);
      }
    }
  }

  lemma {:induction false} CutAfterInRange(batch: seq<Part>, left: nat, before: nat)
    ensures var end := CutAfter(batch, left, before);
            !end.Whole? && before <= end.before && (end.CutInField? ==> end.before < before + |batch|)
    decreases batch
  {
    if batch != [] && left >= PartLength(batch[0]) + BOUNDARY_LENGTH + 2 {
      CutAfterInRange(batch[1..], left - PartLength(batch[0]), before + 1);
    }
  }

  /** A request whose body is not cut on its way succeeds unless it is over the cap, and the cap falls inside a part. */
  lemma {:induction false} ConfirmedExact(boundary: Text, batch: seq<Part>, net: Network, i: nat)
    requires |boundary| == BOUNDARY_LENGTH && net(i).Whole? && forall p | p in batch :: p.0 != []
    ensures Confirmed(net, i, batch) <==>
            |BatchBody(boundary, batch)| <= DATA_FORM_LIMIT || forall k | 0 <= k < |batch| :: !EndsInside(boundary, batch, k)
  {
    BatchBodyLength(boundary, batch);
    if !Fits(batch) {
      CutAfterInRange(batch, DATA_FORM_LIMIT, 0);
      forall k | 0 <= k < |batch|
        ensures CutAfter(batch, DATA_FORM_LIMIT, 0) == CutInField(k) <==> EndsInside(boundary, batch, k)
      {
        CutAfterOffsets(boundary, batch, DATA_FORM_LIMIT, 0, k);
      }
    }
  }

  /** No batch is over the cap in such a way that the cap falls inside a part. */
  ghost predicate CutBetween(boundary: Text, batches: seq<seq<Part>>) {
    forall i | 0 <= i < |batches| && |BatchBody(boundary, batches[i])| > 5_242_880 ::
      forall k | 0 <= k < |batches[i]| :: !EndsInside(boundary, batches[i], k)
  }

  /** On a network that cuts nothing the requests succeed if and only if that is so, whether or not all arrives. */
  lemma {:induction false} ReliableExact(boundary: Text, store: Blobs, batches: seq<seq<Part>>, net: Network)
    requires |boundary| == BOUNDARY_LENGTH && Reliable(net)
    requires forall i | 0 <= i < |batches| :: forall p | p in batches[i] :: p.0 != []
    ensures SendAll(store, batches, net).ok <==> CutBetween(boundary, batches)
  {
    hide EndsInside, Confirmed, BatchBody, SendFirst;
    forall i | 0 <= i < |batches|
      ensures Confirmed(net, i, batches[i]) <==>
              |BatchBody(boundary, batches[i])| <= DATA_FORM_LIMIT ||
              forall k | 0 <= k < |batches[i]| :: !EndsInside(boundary, batches[i], k)
    {
      ConfirmedExact(boundary, batches[i], net, i);
    }
    AnsweredExact(store, batches, net);
  }

  /** Every request that is made is answered with success. */
  ghost predicate AllAnswered(batches: seq<seq<Part>>, net: Network) {
    forall i | 0 <= i < |batches| && batches[i] != [] :: Confirmed(net, i, batches[i])
  }

  lemma {:induction false} AnsweredExact(store: Blobs, batches: seq<seq<Part>>, net: Network)
    ensures SendAll(store, batches, net).ok <==> AllAnswered(batches, net)
  {
    if AllAnswered(batches, net) {
      BroughtStays(store, batches, net, |batches|);
    } else {
      var i :| 0 <= i < |batches| && batches[i] != [] && !Confirmed(net, i, batches[i]);
      FailureStays(store, batches, net, i);
    }
  }

  /** Of two ends the one that comes first decides what has arrived, and which chunk was being written. */
  lemma {:induction false} EarlierExact(batch: seq<Part>, a: BodyEnd, b: BodyEnd)
    ensures var end := Earlier(a, b);
            Arrived(batch, end) == (if |Arrived(batch, a)| <= |Arrived(batch, b)| then Arrived(batch, a) else Arrived(batch, b))
    ensures Aborted(batch, Earlier(a, b)) ==
            if |Arrived(batch, a)| < |Arrived(batch, b)| then Aborted(batch, a)
            else if |Arrived(batch, b)| < |Arrived(batch, a)| then Aborted(batch, b)
            else if Aborted(batch, a).None? then None
            else Aborted(batch, b)
  {
  }

  /**
   New chunks, however often each is sent, over any network: all requests succeed and all chunks are in the
   store if and only if no request is lost or cut inside a chunk, and each chunk comes before the cut in one
   of the batches that hold it.
   */
  lemma SendExact(store: Blobs, batches: seq<seq<Part>>, net: Network)
    requires OnlyNew(store, batches) && forall i | 0 <= i < |batches| :: forall p | p in batches[i] :: p.0 != []
    ensures var sent := SendAll(store, batches, net);
            (sent.ok && forall i | 0 <= i < |batches| :: forall p | p in batches[i] :: p.0 in sent.store) <==>
            Gets(batches, net)
  {
    var sent := SendAll(store, batches, net);
    if Gets(batches, net) {
      BroughtStays(store, batches, net, |batches|);
      forall i, p | 0 <= i < |batches| && p in batches[i]
        ensures p.0 in sent.store
      {
        assert SomeBrought(batches, net, p.0);
      }
    } else if i :| 0 <= i < |batches| && batches[i] != [] && !Confirmed(net, i, batches[i]) {
      FailureStays(store, batches, net, i);
    } else {
      var i :| 0 <= i < |batches| && exists p :: p in batches[i] && !SomeBrought(batches, net, p.0);
      var p :| p in batches[i] && !SomeBrought(batches, net, p.0);
      if p.0 in sent.store {
        SentBrought(store, batches, net, |batches|, p.0);
      }
    }
  }

  /** On a network that cuts nothing, batches within the cap all get through. */
  lemma FittingGets(batches: seq<seq<Part>>, net: Network)
    requires Reliable(net) && AllFit(batches)
    ensures Gets(batches, net)
  {
    forall i | 0 <= i < |batches|
      ensures Full(batches[i], EndOf(net, i, batches[i]))
    {
      CapExact(net, i, batches[i]);
    }
    forall i, p | 0 <= i < |batches| && p in batches[i]
      ensures SomeBrought(batches, net, p.0)
    {
      assert Brought(batches, net, i, p.0);
    }
  }

  /** No chunk is sent twice. */
  ghost predicate SentOnce(batches: seq<seq<Part>>) {
    forall i, a, j, b | 0 <= i < |batches| && 0 <= a < |batches[i]| && 0 <= j < |batches| && 0 <= b < |batches[j]| ::
      batches[i][a].0 == batches[j][b].0 ==> i == j && a == b
  }

  /** If none is, a chunk that its one batch does not bring is not brought at all. */
  lemma NotBrought(batches: seq<seq<Part>>, net: Network, i: nat)
    requires SentOnce(batches) && i < |batches|
    requires |Arrived(batches[i], EndOf(net, i, batches[i]))| < |batches[i]|
    ensures !Gets(batches, net)
  {
    var a := |Arrived(batches[i], EndOf(net, i, batches[i]))|;
    forall j | 0 <= j < |batches|
      ensures !Brought(batches, net, j, batches[i][a].0)
    {
      var arrived := Arrived(batches[j], EndOf(net, j, batches[j]));
      forall q | q in arrived
        ensures q.0 != batches[i][a].0
      {
        var b :| 0 <= b < |arrived| && arrived[b] == q;
        assert q == batches[j][b];
      }
    }
    assert batches[i][a] in batches[i] && !SomeBrought(batches, net, batches[i][a].0);
  }

  /** When no chunk is sent twice, that takes every batch to be within the cap. */
  lemma SentOnceGets(batches: seq<seq<Part>>, net: Network)
    requires Reliable(net) && SentOnce(batches)
    ensures Gets(batches, net) <==> AllFit(batches)
  {
    if AllFit(batches) {
      FittingGets(batches, net);
    } else {
      var i :| 0 <= i < |batches| && DelimitedLength(batches[i]) > DATA_FORM_LIMIT;
      CapExact(net, i, batches[i]);
      if Confirmed(net, i, batches[i]) {
        NotBrought(batches, net, i);
      }
    }
  }

  /** A batch of many small chunks is over the cap long before its payload is over the client's limit. */
  lemma {:induction false} SmallPartsLength(batch: seq<Part>, id: nat, data: nat)
    requires forall p | p in batch :: |p.0| == id && |p.1| == data
    ensures DelimitedLength(batch) == (149 + id + data) * |batch| + BOUNDARY_LENGTH + 2
  {
    if batch != [] {
      SmallPartsLength(batch[1..], id, data);
      Forms.OneMoreTimes(149 + id + data, |batch|);
    }
  }

  /** Within the payload limit, a batch is sure to be within the cap if it is not of too many chunks. */
  lemma {:induction false} FewPartsLength(batch: seq<Part>)
    requires forall p | p in batch :: |p.0| <= 32
    ensures DelimitedLength(batch) <= 181 * |batch| + Total(batch) + BOUNDARY_LENGTH + 2
  {
    if batch != [] {
      FewPartsLength(batch[1..]);
    }
  }

  function Total(batch: seq<Part>): nat {
    if batch == [] then 0 else |batch[0].1| + Total(batch[1..])
  }
}
