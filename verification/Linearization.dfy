/**
 Many `commit` requests at once. Each runs its presence check, its dedup read and its insert as separate
 database steps, in any interleaving with the others and with chunk uploads, those that break off included.
 */
module Linearization {
  import opened Octets
  import opened Paths
  import opened Log
  import opened Journals
  import opened Servers

  datatype Request = Request(user: int, path: Path, v: Version)

  /** Where a request stands: past its check, past a dedup read that found nothing equal, or answered. */
  datatype Phase = Checked | MustInsert | Answered(answer: CommitResult)

  /**
   A chunk's file is created or gets bytes, or is removed because its upload broke off; or a request takes
   its next step.
   */
  datatype Event = Put(id: Text, data: Bytes) | Abort(id: Text) | Check(k: nat) | Read(k: nat) | Insertion(k: nat)

  datatype State = State(rows: seq<Record>, store: Blobs, phases: map<nat, Phase>)

  predicate Enabled(reqs: seq<Request>, s: State, e: Event) {
    match e
    case Put(id, _) => id != []
    case Abort(id) => id != []
    case Check(k) => k < |reqs| && k !in s.phases
    case Read(k) => k < |reqs| && k in s.phases && s.phases[k] == Checked
    case Insertion(k) => k < |reqs| && k in s.phases && s.phases[k] == MustInsert
  }

  function Next(reqs: seq<Request>, s: State, e: Event): State
    requires Enabled(reqs, s, e)
  {
    match e
    case Put(id, data) => s.(store := s.store[id := data])
    case Abort(id) => s.(store := s.store - {id})
    case Check(k) =>
      var missing := NonLocalChunks(s.store, reqs[k].v.chunkIds);
      s.(phases := s.phases[k := if missing == [] then Checked
                                 else Answered(NeedChunks(ListCodec.Join(missing, COMMA)))])
    case Read(k) =>
      var r := LatestForPath(s.rows, reqs[k].user, reqs[k].path);
      s.(phases := s.phases[k := if r.Some? && r.value.value == reqs[k].v then Answered(Success(r.value.id))
                                 else MustInsert])
    case Insertion(k) =>
      s.(rows := Insert(s.rows, reqs[k].user, reqs[k].path, reqs[k].v),
         phases := s.phases[k := Answered(Success(LastId(s.rows) + 1))])
  }

  lemma EventIncreasing(reqs: seq<Request>, s: State, e: Event)
    requires Enabled(reqs, s, e) && Increasing(s.rows)
    ensures Increasing(Next(reqs, s, e).rows) && s.rows <= Next(reqs, s, e).rows
  {
    if e.Insertion? {
      InsertIncreasing(s.rows, reqs[e.k].user, reqs[e.k].path, reqs[e.k].v);
    }
  }

  /** The state after the events, if each was possible when it came. */
  function Exec(reqs: seq<Request>, s: State, events: seq<Event>): Option<State> {
    if events == [] then Some(s)
    else
      match Exec(reqs, s, events[..|events| - 1])
      case None => None
      case Some(s1) =>
        var e := events[|events| - 1];
        if Enabled(reqs, s1, e) then Some(Next(reqs, s1, e)) else None
  }

  /** One operation of a server that handles requests one at a time. */
  datatype Op = PutOp(id: Text, data: Bytes) | AbortOp(id: Text) | CommitOp(k: nat)

  datatype SerialState = SerialState(rows: seq<Record>, store: Blobs, answers: map<nat, CommitResult>)

  function Serial(reqs: seq<Request>, s: SerialState, ops: seq<Op>): SerialState {
    if ops == [] then s
    else
      var s1 := Serial(reqs, s, ops[..|ops| - 1]);
      match ops[|ops| - 1]
      case PutOp(id, data) => s1.(store := s1.store[id := data])
      case AbortOp(id) => s1.(store := s1.store - {id})
      case CommitOp(k) =>
        if k >= |reqs| then s1
        else
          var c := CommitStep(s1.rows, s1.store, reqs[k].user, reqs[k].path, reqs[k].v);
          s1.(rows := c.rows, answers := s1.answers[k := c.answer])
  }

  /** What the event contributes to the serial order: a request takes effect where it is answered. */
  function Point(reqs: seq<Request>, s: State, e: Event): seq<Op>
    requires Enabled(reqs, s, e)
  {
    match e
    case Put(id, data) => [PutOp(id, data)]
    case Abort(id) => [AbortOp(id)]
    case Check(k) => if Next(reqs, s, e).phases[k].Answered? then [CommitOp(k)] else []
    case Read(k) => if Next(reqs, s, e).phases[k].Answered? then [CommitOp(k)] else []
    case Insertion(k) => [CommitOp(k)]
  }

  function Points(reqs: seq<Request>, s: State, events: seq<Event>): seq<Op>
    requires Exec(reqs, s, events).Some?
  {
    if events == [] then []
    else
      var before := events[..|events| - 1];
      Points(reqs, s, before) + Point(reqs, Exec(reqs, s, before).value, events[|events| - 1])
  }

  ghost predicate UnderWay(reqs: seq<Request>, s: State, k: nat) {
    k < |reqs| && k in s.phases && !s.phases[k].Answered?
  }

  /** An upload that breaks off does so in a chunk that no request under way relies on. */
  ghost predicate Spares(reqs: seq<Request>, s: State, e: Event) {
    e.Abort? ==> forall k: nat | UnderWay(reqs, s, k) :: e.id !in IdList(reqs[k].v.chunkIds)
  }

  /** Nor in one that a record names. */
  ghost predicate Careful(reqs: seq<Request>, s: State, e: Event) {
    Spares(reqs, s, e) && (e.Abort? ==> forall r | r in s.rows :: e.id !in IdList(r.value.chunkIds))
  }

  ghost predicate AllSpare(reqs: seq<Request>, s: State, events: seq<Event>)
    requires Exec(reqs, s, events).Some?
  {
    events == [] ||
    (AllSpare(reqs, s, events[..|events| - 1]) &&
     Spares(reqs, Exec(reqs, s, events[..|events| - 1]).value, events[|events| - 1]))
  }

  ghost predicate AllCareful(reqs: seq<Request>, s: State, events: seq<Event>)
    requires Exec(reqs, s, events).Some?
  {
    events == [] ||
    (AllCareful(reqs, s, events[..|events| - 1]) &&
     Careful(reqs, Exec(reqs, s, events[..|events| - 1]).value, events[|events| - 1]))
  }

  /** Every chunk is in the store that a record names, or that a request under way has found there. */
  ghost predicate Backed(reqs: seq<Request>, s: State) {
    Referential(s.rows, s.store) && forall k: nat | UnderWay(reqs, s, k) :: AllPresent(s.store, reqs[k].v.chunkIds)
  }

  /** The state after request `k` has taken what steps it still has to take. */
  function Finished(reqs: seq<Request>, s: State, k: nat): State
    requires k < |reqs| && k in s.phases && !s.phases[k].Answered?
  {
    var s1 := if s.phases[k].Checked? then Next(reqs, s, Read(k)) else s;
    if s1.phases[k].MustInsert? then Next(reqs, s1, Insertion(k)) else s1
  }

  lemma {:induction false} LatestIn(t: seq<Record>, user: int, path: Path)
    ensures LatestForPath(t, user, path).Some? ==> LatestForPath(t, user, path).value in t
  {
    if t != [] {
      LatestIn(t[..|t| - 1], user, path);
    }
  }

  lemma InsertReferential(rows: seq<Record>, store: Blobs, r: Request)
    ensures Referential(Insert(rows, r.user, r.path, r.v), store) <==> Referential(rows, store) && AllPresent(store, r.v.chunkIds)
  {
    var rows1 := Insert(rows, r.user, r.path, r.v);
    var row := rows1[|rows|];
    assert forall x :: x in rows1 <==> x in rows || x == row;
    assert row.value == r.v;
  }

  lemma FinishedReferential(reqs: seq<Request>, s: State, k: nat)
    requires UnderWay(reqs, s, k) && Referential(s.rows, s.store)
    ensures Referential(Finished(reqs, s, k).rows, Finished(reqs, s, k).store) <==> AllPresent(s.store, reqs[k].v.chunkIds)
  {
    var r := reqs[k];
    InsertReferential(s.rows, s.store, r);
    LatestIn(s.rows, r.user, r.path);
  }

  /**
   What being backed means: no record names a chunk the server lacks, and none will if any request under
   way just goes on.
   */
  lemma BackedMeaning(reqs: seq<Request>, s: State)
    ensures Backed(reqs, s) <==>
            Referential(s.rows, s.store) &&
            forall k: nat | UnderWay(reqs, s, k) :: Referential(Finished(reqs, s, k).rows, Finished(reqs, s, k).store)
  {
    if Referential(s.rows, s.store) {
      forall k: nat | UnderWay(reqs, s, k)
        ensures Referential(Finished(reqs, s, k).rows, Finished(reqs, s, k).store) <==> AllPresent(s.store, reqs[k].v.chunkIds)
      {
        FinishedReferential(reqs, s, k);
      }
    }
  }

  lemma AbortBacked(reqs: seq<Request>, s: State, e: Event)
    requires e.Abort? && Enabled(reqs, s, e) && Backed(reqs, s)
    ensures Backed(reqs, Next(reqs, s, e)) <==> Careful(reqs, s, e)
  {
    forall chunkIds | AllPresent(s.store, chunkIds)
      ensures AllPresent(s.store - {e.id}, chunkIds) <==> e.id !in IdList(chunkIds)
    {
      assert AllPresent(s.store - {e.id}, chunkIds) ==> forall id | id in IdList(chunkIds) :: IsPresent(s.store - {e.id}, id);
      forall id | id in IdList(chunkIds) && id != e.id
        ensures IsPresent(s.store - {e.id}, id)
      {
        assert IsPresent(s.store, id);
      }
    }
  }

  lemma StepBacked(reqs: seq<Request>, s: State, e: Event)
    requires !e.Abort? && Enabled(reqs, s, e) && Backed(reqs, s)
    ensures Backed(reqs, Next(reqs, s, e))
  {
    match e
    case Put(id, data) =>
      KeysKeepReferential(s.rows, s.store, s.store[id := data]);
      forall k: nat | UnderWay(reqs, s, k)
        ensures AllPresent(s.store[id := data], reqs[k].v.chunkIds)
      {
        forall x | x in IdList(reqs[k].v.chunkIds)
          ensures IsPresent(s.store[id := data], x)
        {
          assert IsPresent(s.store, x);
        }
      }
    case Check(k) => NonLocalEmpty(s.store, reqs[k].v.chunkIds);
    case Read(k) => assert UnderWay(reqs, s, k);
    case Insertion(k) =>
      assert UnderWay(reqs, s, k);
      InsertReferential(s.rows, s.store, reqs[k]);
  }

  /** One event keeps the server backed if and only if it does not remove a chunk that something relies on. */
  lemma EventBacked(reqs: seq<Request>, s: State, e: Event)
    requires Enabled(reqs, s, e) && Backed(reqs, s)
    ensures Backed(reqs, Next(reqs, s, e)) <==> Careful(reqs, s, e)
  {
    if e.Abort? {
      AbortBacked(reqs, s, e);
    } else {
      StepBacked(reqs, s, e);
    }
  }

  /** The server is backed at every moment of the run. */
  ghost predicate AlwaysBacked(reqs: seq<Request>, s: State, events: seq<Event>)
    requires Exec(reqs, s, events).Some?
  {
    Backed(reqs, Exec(reqs, s, events).value) && (events != [] ==> AlwaysBacked(reqs, s, events[..|events| - 1]))
  }

  /**
   Over any interleaving, no record names a chunk the server lacks, nor will if a request under way goes on,
   at every moment if and only if no upload breaks off inside a chunk that a record names or that a request
   under way has already found.
   */
  lemma {:induction false} RunBacked(reqs: seq<Request>, s: State, events: seq<Event>)
    requires Backed(reqs, s) && Exec(reqs, s, events).Some?
    ensures AlwaysBacked(reqs, s, events) <==> AllCareful(reqs, s, events)
  {
    if events != [] {
      var before := events[..|events| - 1];
      RunBacked(reqs, s, before);
      if AlwaysBacked(reqs, s, before) {
        EventBacked(reqs, Exec(reqs, s, before).value, events[|events| - 1]);
      }
    }
  }

  /**
   It does matter that a commit is not atomic: an upload that breaks off, after a commit has found its chunk
   and before it has recorded it, removes a chunk that no record names yet, and leaves a record of it.
   */
  lemma AbortUnderCommit(user: int, path: Path, id: Text, data: Bytes)
    requires id != [] && COMMA !in id
    ensures var reqs, s0 := [Request(user, path, Version(id, false))], State([], map[id := data], map[]);
            var events := [Check(0), Abort(id), Read(0), Insertion(0)];
            Exec(reqs, s0, events).Some? && Backed(reqs, s0) &&
            (forall r | r in s0.rows :: id !in IdList(r.value.chunkIds)) &&
            !Referential(Exec(reqs, s0, events).value.rows, Exec(reqs, s0, events).value.store)
  {
    var reqs, s0 := [Request(user, path, Version(id, false))], State([], map[id := data], map[]);
    ListCodec.SplitPiece(id, COMMA);
    assert IdList(id) == [id];
    NonLocalEmpty(s0.store, id);
    ExecSnoc(reqs, s0, [], Check(0));
    assert [] + [Check(0)] == [Check(0)];
    ExecSnoc(reqs, s0, [Check(0)], Abort(id));
    assert [Check(0)] + [Abort(id)] == [Check(0), Abort(id)];
    ExecSnoc(reqs, s0, [Check(0), Abort(id)], Read(0));
    assert [Check(0), Abort(id)] + [Read(0)] == [Check(0), Abort(id), Read(0)];
    ExecSnoc(reqs, s0, [Check(0), Abort(id), Read(0)], Insertion(0));
    assert [Check(0), Abort(id), Read(0)] + [Insertion(0)] == [Check(0), Abort(id), Read(0), Insertion(0)];
    InsertReferential([], s0.store - {id}, reqs[0]);
    assert id in IdList(id) && !IsPresent(s0.store - {id}, id);
  }

  ghost predicate SameAnswer(a: CommitResult, b: CommitResult) {
    a == b || (a.Success? && b.Success?)
  }

  /** The two servers hold the same chunks and, for every user, the same files. */
  ghost predicate InStep(c: State, o: SerialState) {
    o.store == c.store && Increasing(o.rows) && Increasing(c.rows) &&
    forall u :: Contents(o.rows, u) == Contents(c.rows, u)
  }

  /** The answered requests are those in the serial order, each there once and answered alike. */
  ghost predicate Placed(reqs: seq<Request>, c: State, o: SerialState, ops: seq<Op>) {
    (forall k | k in c.phases :: k < |reqs|) &&
    (forall k | k in c.phases && !c.phases[k].Answered? :: AllPresent(c.store, reqs[k].v.chunkIds)) &&
    (forall k :: k in o.answers <==> k in c.phases && c.phases[k].Answered?) &&
    (forall k | k in o.answers :: SameAnswer(o.answers[k], c.phases[k].answer)) &&
    (forall k :: CommitOp(k) in ops <==> k in o.answers) &&
    (forall i, j | 0 <= i < j < |ops| && ops[i].CommitOp? :: ops[i] != ops[j])
  }

  ghost predicate Fits(reqs: seq<Request>, c: State, o: SerialState, ops: seq<Op>) {
    InStep(c, o) && Placed(reqs, c, o, ops)
  }

  lemma {:induction false} SerialSnoc(reqs: seq<Request>, s: SerialState, ops: seq<Op>, op: Op)
    ensures Serial(reqs, s, ops + [op]) ==
            var s1 := Serial(reqs, s, ops);
            match op
            case PutOp(id, data) => s1.(store := s1.store[id := data])
            case AbortOp(id) => s1.(store := s1.store - {id})
            case CommitOp(k) =>
              if k >= |reqs| then s1
              else
                var c := CommitStep(s1.rows, s1.store, reqs[k].user, reqs[k].path, reqs[k].v);
                s1.(rows := c.rows, answers := s1.answers[k := c.answer])
  {
    assert (ops + [op])[..|ops + [op]| - 1] == ops;
  }

  lemma {:induction false} RecordedContents(rows: seq<Record>, rows1: seq<Record>, u: int, r: Record)
    requires View(rows1, u) == View(rows, u)[r.path := r]
    ensures Contents(rows1, u) == Contents(rows, u)[r.path := r.value]
  {
    var c, c1 := Contents(rows, u)[r.path := r.value], Contents(rows1, u);
    forall p
      ensures p in c1 <==> p in c
      ensures p in c1 ==> c1[p] == c[p]
    {
    }
  }

  lemma {:induction false} UnmovedContents(rows: seq<Record>, rows1: seq<Record>, u: int)
    requires View(rows1, u) == View(rows, u)
    ensures Contents(rows1, u) == Contents(rows, u)
  {
  }

  lemma InsertContents(b: seq<Record>, user: int, path: Path, v: Version, u: int)
    ensures Contents(Insert(b, user, path, v), u) == if u == user then Contents(b, u)[path := v] else Contents(b, u)
  {
    ViewInsert(b, user, path, v, u);
    if u == user {
      RecordedContents(b, Insert(b, user, path, v), u, Row(LastId(b) + 1, user, path, v));
    } else {
      UnmovedContents(b, Insert(b, user, path, v), u);
    }
  }

  lemma CommitContents(a: seq<Record>, store: Blobs, user: int, path: Path, v: Version, u: int)
    requires Increasing(a) && AllPresent(store, v.chunkIds)
    ensures var c := CommitStep(a, store, user, path, v);
            c.answer.Success? && Increasing(c.rows) &&
            Contents(c.rows, u) == if u == user then Contents(a, u)[path := v] else Contents(a, u)
  {
    CommitRefusal(a, store, user, path, v);
    CommitEffect(a, store, user, path, v);
    var c := CommitStep(a, store, user, path, v);
    if u == user {
      RecordedContents(a, c.rows, u, Row(c.answer.jid, user, path, v));
    } else {
      UnmovedContents(a, c.rows, u);
    }
  }

  /** On two journals with the same contents, the insert of one matches the commit of the other. */
  lemma InsertMatchesCommit(a: seq<Record>, b: seq<Record>, store: Blobs, r: Request)
    requires Increasing(a) && Increasing(b)
    requires forall u :: Contents(a, u) == Contents(b, u)
    requires AllPresent(store, r.v.chunkIds)
    ensures var c := CommitStep(a, store, r.user, r.path, r.v);
            c.answer.Success? && Increasing(c.rows) &&
            forall u :: Contents(c.rows, u) == Contents(Insert(b, r.user, r.path, r.v), u)
  {
    var c := CommitStep(a, store, r.user, r.path, r.v);
    CommitContents(a, store, r.user, r.path, r.v, r.user);
    forall u
      ensures Contents(c.rows, u) == Contents(Insert(b, r.user, r.path, r.v), u)
    {
      CommitContents(a, store, r.user, r.path, r.v, u);
      InsertContents(b, r.user, r.path, r.v, u);
      assert Contents(a, u) == Contents(b, u);
    }
  }

  /** On two journals with the same contents, a dedup read that answers matches a commit that does nothing. */
  lemma {:induction false} ReadMatchesCommit(a: seq<Record>, b: seq<Record>, store: Blobs, r: Request)
    requires forall u :: Contents(a, u) == Contents(b, u)
    requires AllPresent(store, r.v.chunkIds)
    requires var l := LatestForPath(b, r.user, r.path); l.Some? && l.value.value == r.v
    ensures var c := CommitStep(a, store, r.user, r.path, r.v);
            c.rows == a && c.answer.Success?
  {
    NonLocalEmpty(store, r.v.chunkIds);
    LatestIsView(a, r.user, r.path);
    LatestIsView(b, r.user, r.path);
    assert Contents(a, r.user)[r.path] == Contents(b, r.user)[r.path];
  }

  lemma {:induction false} AbortFits(reqs: seq<Request>, c: State, e: Event, o0: SerialState, ops: seq<Op>)
    requires e.Abort? && Enabled(reqs, c, e) && Spares(reqs, c, e)
    requires Fits(reqs, c, Serial(reqs, o0, ops), ops)
    ensures var ops1 := ops + Point(reqs, c, e);
            Fits(reqs, Next(reqs, c, e), Serial(reqs, o0, ops1), ops1)
  {
    SerialSnoc(reqs, o0, ops, AbortOp(e.id));
    assert forall k :: CommitOp(k) in ops + [AbortOp(e.id)] <==> CommitOp(k) in ops;
    forall k | k in c.phases && !c.phases[k].Answered?
      ensures AllPresent(c.store - {e.id}, reqs[k].v.chunkIds)
    {
      assert UnderWay(reqs, c, k);
      forall id | id in IdList(reqs[k].v.chunkIds)
        ensures IsPresent(c.store - {e.id}, id)
      {
        assert IsPresent(c.store, id);
      }
    }
  }

  lemma {:induction false} PutFits(reqs: seq<Request>, c: State, e: Event, o0: SerialState, ops: seq<Op>)
    requires e.Put? && Enabled(reqs, c, e)
    requires Fits(reqs, c, Serial(reqs, o0, ops), ops)
    ensures var ops1 := ops + Point(reqs, c, e);
            Fits(reqs, Next(reqs, c, e), Serial(reqs, o0, ops1), ops1)
  {
    SerialSnoc(reqs, o0, ops, PutOp(e.id, e.data));
    assert forall k :: CommitOp(k) in ops + [PutOp(e.id, e.data)] <==> CommitOp(k) in ops;
  }

  lemma {:induction false} CheckFits(reqs: seq<Request>, c: State, e: Event, o0: SerialState, ops: seq<Op>)
    requires e.Check? && Enabled(reqs, c, e)
    requires Fits(reqs, c, Serial(reqs, o0, ops), ops)
    ensures var ops1 := ops + Point(reqs, c, e);
            Fits(reqs, Next(reqs, c, e), Serial(reqs, o0, ops1), ops1)
  {
    NonLocalEmpty(c.store, reqs[e.k].v.chunkIds);
    if Point(reqs, c, e) == [] {
      assert ops + [] == ops;
    } else {
      AnswerFits(reqs, c, e, o0, ops);
    }
  }

  lemma {:induction false} ReadFits(reqs: seq<Request>, c: State, e: Event, o0: SerialState, ops: seq<Op>)
    requires e.Read? && Enabled(reqs, c, e)
    requires Fits(reqs, c, Serial(reqs, o0, ops), ops)
    ensures var ops1 := ops + Point(reqs, c, e);
            Fits(reqs, Next(reqs, c, e), Serial(reqs, o0, ops1), ops1)
  {
    if Point(reqs, c, e) == [] {
      assert ops + [] == ops;
    } else {
      ReadMatchesCommit(Serial(reqs, o0, ops).rows, c.rows, c.store, reqs[e.k]);
      AnswerFits(reqs, c, e, o0, ops);
    }
  }

  lemma {:induction false} InsertionFits(reqs: seq<Request>, c: State, e: Event, o0: SerialState, ops: seq<Op>)
    requires e.Insertion? && Enabled(reqs, c, e)
    requires Fits(reqs, c, Serial(reqs, o0, ops), ops)
    ensures var ops1 := ops + Point(reqs, c, e);
            Fits(reqs, Next(reqs, c, e), Serial(reqs, o0, ops1), ops1)
  {
    var r := reqs[e.k];
    InsertMatchesCommit(Serial(reqs, o0, ops).rows, c.rows, c.store, r);
    InsertIncreasing(c.rows, r.user, r.path, r.v);
    AnswerFits(reqs, c, e, o0, ops);
  }

  /** A request answered on both sides takes its place at the end of the order. */
  lemma AnswerPlaced(reqs: seq<Request>, c: State, c1: State, o: SerialState, o1: SerialState, ops: seq<Op>, k: nat)
    requires k < |reqs| && (k in c.phases ==> !c.phases[k].Answered?)
    requires Placed(reqs, c, o, ops)
    requires c1.store == c.store && o1.answers.Keys == o.answers.Keys + {k} && c1.phases.Keys == c.phases.Keys + {k}
    requires c1.phases[k].Answered? && SameAnswer(o1.answers[k], c1.phases[k].answer)
    requires forall h | h in c.phases && h != k :: c1.phases[h] == c.phases[h]
    requires forall h | h in o.answers && h != k :: o1.answers[h] == o.answers[h]
    ensures Placed(reqs, c1, o1, ops + [CommitOp(k)])
  {
    var ops1 := ops + [CommitOp(k)];
    assert CommitOp(k) !in ops;
    forall h
      ensures CommitOp(h) in ops1 <==> h in o1.answers
    {
      assert CommitOp(h) in ops1 <==> CommitOp(h) in ops || CommitOp(h) == CommitOp(k);
    }
    forall i, j | 0 <= i < j < |ops1| && ops1[i].CommitOp?
      ensures ops1[i] != ops1[j]
    {
      assert ops1[i] == ops[i] && ops[i] in ops;
    }
  }

  lemma {:induction false} AnswerFits(reqs: seq<Request>, c: State, e: Event, o0: SerialState, ops: seq<Op>)
    requires !e.Put? && !e.Abort? && Enabled(reqs, c, e) && Point(reqs, c, e) == [CommitOp(e.k)]
    requires Fits(reqs, c, Serial(reqs, o0, ops), ops)
    requires var o, r := Serial(reqs, o0, ops), reqs[e.k];
             var done := CommitStep(o.rows, o.store, r.user, r.path, r.v);
             InStep(Next(reqs, c, e), o.(rows := done.rows)) &&
             SameAnswer(done.answer, Next(reqs, c, e).phases[e.k].answer)
    ensures var ops1 := ops + [CommitOp(e.k)];
            Fits(reqs, Next(reqs, c, e), Serial(reqs, o0, ops1), ops1)
  {
    var o, r, c1 := Serial(reqs, o0, ops), reqs[e.k], Next(reqs, c, e);
    SerialSnoc(reqs, o0, ops, CommitOp(e.k));
    var o1 := Serial(reqs, o0, ops + [CommitOp(e.k)]);
    var done := CommitStep(o.rows, o.store, r.user, r.path, r.v);
    assert o1 == SerialState(done.rows, o.store, o.answers[e.k := done.answer]);
    assert InStep(c1, o1) by {
      assert forall u :: Contents(o1.rows, u) == Contents(o.(rows := done.rows).rows, u);
    }
    AnswerPlaced(reqs, c, c1, o, o1, ops, e.k);
  }

  /** One event keeps the concurrent and the serial server in step. */
  lemma {:induction false} EventFits(reqs: seq<Request>, c: State, e: Event, o0: SerialState, ops: seq<Op>)
    requires Enabled(reqs, c, e) && Spares(reqs, c, e)
    requires Fits(reqs, c, Serial(reqs, o0, ops), ops)
    ensures var ops1 := ops + Point(reqs, c, e);
            Fits(reqs, Next(reqs, c, e), Serial(reqs, o0, ops1), ops1)
  {
    match e
    case Put(_, _) => PutFits(reqs, c, e, o0, ops);
    case Abort(_) => AbortFits(reqs, c, e, o0, ops);
    case Check(_) => CheckFits(reqs, c, e, o0, ops);
    case Read(_) => ReadFits(reqs, c, e, o0, ops);
    case Insertion(_) => InsertionFits(reqs, c, e, o0, ops);
  }

  lemma {:induction false} RunFits(reqs: seq<Request>, rows: seq<Record>, store: Blobs, events: seq<Event>)
    requires Increasing(rows)
    requires Exec(reqs, State(rows, store, map[]), events).Some? && AllSpare(reqs, State(rows, store, map[]), events)
    ensures var s, o := State(rows, store, map[]), SerialState(rows, store, map[]);
            var ops := Points(reqs, s, events);
            Fits(reqs, Exec(reqs, s, events).value, Serial(reqs, o, ops), ops)
  {
    if events != [] {
      var s, o := State(rows, store, map[]), SerialState(rows, store, map[]);
      var before := events[..|events| - 1];
      RunFits(reqs, rows, store, before);
      EventFits(reqs, Exec(reqs, s, before).value, events[|events| - 1], o, Points(reqs, s, before));
    }
  }

  /** A success names the record it stands for, made by this request or by an equal one. */
  ghost predicate AnswersRecorded(reqs: seq<Request>, s: State) {
    forall k: nat | k in s.phases && s.phases[k].Answered? && s.phases[k].answer.Success? ::
      k < |reqs| && Row(s.phases[k].answer.jid, reqs[k].user, reqs[k].path, reqs[k].v) in s.rows
  }

  lemma {:induction false} LatestShape(t: seq<Record>, user: int, path: Path)
    ensures LatestForPath(t, user, path).Some? ==>
              LatestForPath(t, user, path).value.owner == user && LatestForPath(t, user, path).value.path == path
  {
    if t != [] {
      LatestShape(t[..|t| - 1], user, path);
    }
  }

  lemma EventRecorded(reqs: seq<Request>, s: State, e: Event)
    requires Enabled(reqs, s, e) && AnswersRecorded(reqs, s)
    ensures AnswersRecorded(reqs, Next(reqs, s, e))
  {
    if e.Read? {
      LatestIn(s.rows, reqs[e.k].user, reqs[e.k].path);
      LatestShape(s.rows, reqs[e.k].user, reqs[e.k].path);
    }
    if e.Insertion? {
      var rows1 := Next(reqs, s, e).rows;
      assert rows1[|s.rows|] in rows1;
      assert forall r | r in s.rows :: r in rows1;
    }
  }

  lemma {:induction false} RunRecorded(reqs: seq<Request>, s: State, events: seq<Event>)
    requires AnswersRecorded(reqs, s) && Exec(reqs, s, events).Some?
    ensures AnswersRecorded(reqs, Exec(reqs, s, events).value)
  {
    if events != [] {
      var before := events[..|events| - 1];
      RunRecorded(reqs, s, before);
      EventRecorded(reqs, Exec(reqs, s, before).value, events[|events| - 1]);
    }
  }

  /**
   Every interleaving leaves the store and each user's files as some serial order of the same requests
   does, unless an upload breaks off inside a chunk that a request under way relies on. In that order each
   answered request occurs once, at its refusal, at its dedup read when that answers, or at its insert, and
   gets the same kind of answer: the same refusal, or success. A success bears the id of a record of that
   user, path and version.
   */
  lemma {:induction false} ConcurrentCommitsLinearize(reqs: seq<Request>, rows: seq<Record>, store: Blobs,
                                                      events: seq<Event>)
    requires Increasing(rows)
    requires Exec(reqs, State(rows, store, map[]), events).Some? && AllSpare(reqs, State(rows, store, map[]), events)
    ensures var c := Exec(reqs, State(rows, store, map[]), events).value;
            var ops := Points(reqs, State(rows, store, map[]), events);
            var o := Serial(reqs, SerialState(rows, store, map[]), ops);
            o.store == c.store &&
            (forall u :: Contents(o.rows, u) == Contents(c.rows, u)) &&
            (forall k :: CommitOp(k) in ops <==> k in c.phases && c.phases[k].Answered?) &&
            (forall i, j | 0 <= i < j < |ops| && ops[i].CommitOp? :: ops[i] != ops[j]) &&
            (forall k | CommitOp(k) in ops :: k in o.answers && SameAnswer(o.answers[k], c.phases[k].answer)) &&
            AnswersRecorded(reqs, c)
  {
    RunFits(reqs, rows, store, events);
    RunRecorded(reqs, State(rows, store, map[]), events);
  }

  /** The serial order respects time: what a shorter run has answered comes first, in the same order. */
  lemma {:induction false} PointsRespectTime(reqs: seq<Request>, s: State, events: seq<Event>, n: nat)
    requires n <= |events| && Exec(reqs, s, events).Some?
    ensures Exec(reqs, s, events[..n]).Some?
    ensures Points(reqs, s, events[..n]) <= Points(reqs, s, events)
  {
    if n == |events| {
      assert events[..n] == events;
    } else {
      var before := events[..|events| - 1];
      assert before[..n] == events[..n];
      PointsRespectTime(reqs, s, before, n);
    }
  }

  lemma {:induction false} ExecSnoc(reqs: seq<Request>, s: State, events: seq<Event>, e: Event)
    ensures Exec(reqs, s, events + [e]) ==
            match Exec(reqs, s, events)
            case None => None
            case Some(s1) => if Enabled(reqs, s1, e) then Some(Next(reqs, s1, e)) else None
  {
    assert (events + [e])[..|events + [e]| - 1] == events;
  }
}
