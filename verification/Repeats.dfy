/**
 What the separate steps of `commit` lose: when can a path be recorded twice in a row with one version,
 although the dedup read is there to prevent it? (server/src/metadata/mod.rs)
 */
module Repeats {
  import opened Octets
  import opened Paths
  import opened Log
  import opened Journals
  import opened Servers
  import opened Linearization

  /** The newest record of the request's path is what the request would record. */
  predicate Stale(rows: seq<Record>, r: Request) {
    var l := LatestForPath(rows, r.user, r.path);
    l.Some? && l.value.value == r.v
  }

  /** No insert of the run repeats the newest record of its path. */
  ghost predicate InsertsFresh(reqs: seq<Request>, s: State, events: seq<Event>)
    requires Exec(reqs, s, events).Some?
  {
    events == [] ||
    (InsertsFresh(reqs, s, events[..|events| - 1]) &&
     FreshInsert(reqs, Exec(reqs, s, events[..|events| - 1]).value, events[|events| - 1]))
  }

  ghost predicate FreshInsert(reqs: seq<Request>, s: State, e: Event)
    requires Enabled(reqs, s, e)
  {
    e.Insertion? ==> !Stale(s.rows, reqs[e.k])
  }

  /** A repeat stays one whatever is appended. */
  lemma RepeatStays(t: seq<Record>, user: int, path: Path, v: Version)
    requires !NoRepeat(t)
    ensures !NoRepeat(Insert(t, user, path, v))
  {
    var u := Insert(t, user, path, v);
    var i, j :| 0 <= i < j < |t| && Adjacent(t, i, j) && t[i].value == t[j].value;
    assert forall k | 0 <= k < |t| :: u[k] == t[k];
    assert Adjacent(u, i, j);
  }

  lemma StaleIsContents(t: seq<Record>, r: Request)
    ensures Stale(t, r) <==> r.path in Contents(t, r.user) && Contents(t, r.user)[r.path] == r.v
  {
    LatestIsView(t, r.user, r.path);
  }

  lemma EventNoRepeat(reqs: seq<Request>, s: State, e: Event)
    requires Enabled(reqs, s, e) && Increasing(s.rows)
    ensures NoRepeat(Next(reqs, s, e).rows) <==> NoRepeat(s.rows) && FreshInsert(reqs, s, e)
  {
    if e.Insertion? {
      var r := reqs[e.k];
      if NoRepeat(s.rows) {
        InsertNoRepeat(s.rows, r.user, r.path, r.v);
        StaleIsContents(s.rows, r);
      } else {
        RepeatStays(s.rows, r.user, r.path, r.v);
      }
    }
  }

  /** Over any interleaving the journal stays free of repeats if and only if every insert is of something new. */
  lemma {:induction false} RunNoRepeat(reqs: seq<Request>, s: State, events: seq<Event>)
    requires Increasing(s.rows) && NoRepeat(s.rows) && Exec(reqs, s, events).Some?
    ensures Increasing(Exec(reqs, s, events).value.rows)
    ensures NoRepeat(Exec(reqs, s, events).value.rows) <==> InsertsFresh(reqs, s, events)
  {
    if events != [] {
      var before := events[..|events| - 1];
      RunNoRepeat(reqs, s, before);
      EventIncreasing(reqs, Exec(reqs, s, before).value, events[|events| - 1]);
      EventNoRepeat(reqs, Exec(reqs, s, before).value, events[|events| - 1]);
    }
  }

  /** The event records just what `r` would record. */
  predicate InsertsSame(reqs: seq<Request>, e: Event, r: Request) {
    e.Insertion? && e.k < |reqs| && reqs[e.k] == r
  }

  /** The event records another version of the path. */
  predicate InsertsOther(reqs: seq<Request>, e: Event, r: Request) {
    e.Insertion? && e.k < |reqs| && reqs[e.k].user == r.user && reqs[e.k].path == r.path && reqs[e.k].v != r.v
  }

  /** After its read at `r`, request `k` has been overtaken by an equal one, and the path has not changed since. */
  ghost predicate Overtaken(reqs: seq<Request>, events: seq<Event>, r: nat, k: nat)
    requires k < |reqs|
  {
    exists m | r < m < |events| :: InsertsSame(reqs, events[m], reqs[k]) && Unchanged(reqs, events, m, k)
  }

  ghost predicate Unchanged(reqs: seq<Request>, events: seq<Event>, m: nat, k: nat)
    requires k < |reqs|
  {
    forall n | m < n < |events| :: !InsertsOther(reqs, events[n], reqs[k])
  }

  lemma OvertakenByLast(reqs: seq<Request>, before: seq<Event>, e: Event, r: nat, k: nat)
    requires k < |reqs| && r < |before|
    ensures Overtaken(reqs, before + [e], r, k) <==>
            InsertsSame(reqs, e, reqs[k]) || (Overtaken(reqs, before, r, k) && !InsertsOther(reqs, e, reqs[k]))
  {
    var events := before + [e];
    if InsertsSame(reqs, e, reqs[k]) {
      assert events[|before|] == e && Unchanged(reqs, events, |before|, k);
    }
    if Overtaken(reqs, before, r, k) && !InsertsOther(reqs, e, reqs[k]) {
      var m :| r < m < |before| && InsertsSame(reqs, before[m], reqs[k]) && Unchanged(reqs, before, m, k);
      assert events[m] == before[m] && Unchanged(reqs, events, m, k);
    }
    if Overtaken(reqs, events, r, k) && !InsertsSame(reqs, e, reqs[k]) {
      var m :| r < m < |events| && InsertsSame(reqs, events[m], reqs[k]) && Unchanged(reqs, events, m, k);
      assert m < |before| && events[|before|] == e;
      assert forall n | m < n < |before| :: events[n] == before[n];
      assert Unchanged(reqs, before, m, k);
    }
  }

  /** What an event does to the newest record of a path. */
  lemma EventStale(reqs: seq<Request>, s: State, e: Event, k: nat)
    requires k < |reqs| && Enabled(reqs, s, e)
    ensures Stale(Next(reqs, s, e).rows, reqs[k]) <==>
            InsertsSame(reqs, e, reqs[k]) || (Stale(s.rows, reqs[k]) && !InsertsOther(reqs, e, reqs[k]))
  {
    if e.Insertion? {
      var rows1 := Next(reqs, s, e).rows;
      assert rows1[..|rows1| - 1] == s.rows;
    }
  }

  /** A request reads once. */
  lemma {:induction false} ReadOnce(reqs: seq<Request>, s: State, events: seq<Event>, r: nat, k: nat)
    requires Exec(reqs, s, events).Some? && r < |events| && events[r] == Read(k)
    ensures k < |reqs| && k in Exec(reqs, s, events).value.phases && !Exec(reqs, s, events).value.phases[k].Checked?
  {
    var before := events[..|events| - 1];
    if r < |before| {
      assert before[r] == events[r];
      ReadOnce(reqs, s, before, r, k);
    }
  }

  /** A request that is about to insert has read. */
  lemma {:induction false} HasRead(reqs: seq<Request>, rows: seq<Record>, store: Blobs, events: seq<Event>,
                                   k: nat) returns (r: nat)
    requires Exec(reqs, State(rows, store, map[]), events).Some?
    requires k in Exec(reqs, State(rows, store, map[]), events).value.phases
    requires Exec(reqs, State(rows, store, map[]), events).value.phases[k].MustInsert?
    ensures r < |events| && events[r] == Read(k)
  {
    var n := |events| - 1;
    if events[n] == Read(k) {
      r := n;
    } else {
      r := HasRead(reqs, rows, store, events[..n], k);
    }
  }

  /** From its read on, what a request would record is the newest record if and only if it was overtaken. */
  lemma {:induction false} StaleSinceRead(reqs: seq<Request>, s: State, events: seq<Event>, r: nat, k: nat)
    requires Exec(reqs, s, events).Some? && r < |events| && events[r] == Read(k) && k < |reqs|
    requires k in Exec(reqs, s, events).value.phases && Exec(reqs, s, events).value.phases[k].MustInsert?
    ensures Stale(Exec(reqs, s, events).value.rows, reqs[k]) <==> Overtaken(reqs, events, r, k)
  {
    var before, e := events[..|events| - 1], events[|events| - 1];
    var s1 := Exec(reqs, s, before).value;
    assert events == before + [e];
    if r < |before| {
      assert before[r] == Read(k);
      ReadOnce(reqs, s, before, r, k);
      StaleSinceRead(reqs, s, before, r, k);
      OvertakenByLast(reqs, before, e, r, k);
      EventStale(reqs, s1, e, k);
    }
  }

  /** Some insert of the run came after an equal one had overtaken it. */
  ghost predicate SomeOvertaken(reqs: seq<Request>, events: seq<Event>) {
    exists i, r | 0 <= r < i < |events| :: OvertakenAt(reqs, events, i, r)
  }

  ghost predicate OvertakenAt(reqs: seq<Request>, events: seq<Event>, i: nat, r: nat)
    requires r < i < |events|
  {
    events[i].Insertion? && events[i].k < |reqs| && events[r] == Read(events[i].k) &&
    Overtaken(reqs, events[..i], r, events[i].k)
  }

  lemma SomeOvertakenLast(reqs: seq<Request>, before: seq<Event>, e: Event)
    ensures SomeOvertaken(reqs, before + [e]) <==>
            SomeOvertaken(reqs, before) ||
            (e.Insertion? && e.k < |reqs| && exists r | 0 <= r < |before| :: before[r] == Read(e.k) && Overtaken(reqs, before, r, e.k))
  {
    var events := before + [e];
    assert events[..|before|] == before;
    forall i, r | 0 <= r < i < |before|
      ensures OvertakenAt(reqs, events, i, r) <==> OvertakenAt(reqs, before, i, r)
    {
      assert events[..i] == before[..i];
    }
    if e.Insertion? && e.k < |reqs| {
      forall r | 0 <= r < |before|
        ensures OvertakenAt(reqs, events, |before|, r) <==> before[r] == Read(e.k) && Overtaken(reqs, before, r, e.k)
      {
      }
    }
  }

  lemma {:induction false} FreshUnlessOvertaken(reqs: seq<Request>, rows: seq<Record>, store: Blobs, events: seq<Event>)
    requires Exec(reqs, State(rows, store, map[]), events).Some?
    ensures InsertsFresh(reqs, State(rows, store, map[]), events) <==> !SomeOvertaken(reqs, events)
  {
    if events != [] {
      var s, before, e := State(rows, store, map[]), events[..|events| - 1], events[|events| - 1];
      FreshUnlessOvertaken(reqs, rows, store, before);
      assert events == before + [e];
      SomeOvertakenLast(reqs, before, e);
      if e.Insertion? {
        var r := HasRead(reqs, rows, store, before, e.k);
        forall x | 0 <= x < |before| && before[x] == Read(e.k)
          ensures Stale(Exec(reqs, s, before).value.rows, reqs[e.k]) <==> Overtaken(reqs, before, x, e.k)
        {
          StaleSinceRead(reqs, s, before, x, e.k);
        }
      }
    }
  }

  /**
   Which interleavings record a version twice in a row: exactly those in which, between a request's dedup
   read and its insert, an equal request inserts and no other version of the path is inserted after that.
   */
  lemma {:induction false} ConcurrentRepeatsExact(reqs: seq<Request>, rows: seq<Record>, store: Blobs,
                                                  events: seq<Event>)
    requires Increasing(rows) && NoRepeat(rows) && Exec(reqs, State(rows, store, map[]), events).Some?
    ensures NoRepeat(Exec(reqs, State(rows, store, map[]), events).value.rows) <==> !SomeOvertaken(reqs, events)
  {
    RunNoRepeat(reqs, State(rows, store, map[]), events);
    FreshUnlessOvertaken(reqs, rows, store, events);
  }

  /** That happens: two equal commits that both read before either inserts are both recorded. */
  lemma ConcurrentCommitsMayRepeat(user: int, path: Path)
    ensures var r := Request(user, path, Version([], false));
            var end := Exec([r, r], State([], map[], map[]),
                            [Check(0), Check(1), Read(0), Read(1), Insertion(0), Insertion(1)]);
            end.Some? && !NoRepeat(end.value.rows)
  {
    var r := Request(user, path, Version([], false));
    var reqs, s0, read := [r, r], State([], map[], map[]), [Check(0), Check(1), Read(0), Read(1)];
    BothMustInsert(user, path);
    ExecSnoc(reqs, s0, read, Insertion(0));
    ExecSnoc(reqs, s0, read + [Insertion(0)], Insertion(1));
    assert read + [Insertion(0)] + [Insertion(1)] == [Check(0), Check(1), Read(0), Read(1), Insertion(0), Insertion(1)];
    var rows: seq<Record> := Insert([], user, path, r.v);
    assert Adjacent(Insert(rows, user, path, r.v), 0, 1);
  }

  lemma BothMustInsert(user: int, path: Path)
    ensures var r := Request(user, path, Version([], false));
            Exec([r, r], State([], map[], map[]), [Check(0), Check(1), Read(0), Read(1)]) ==
            Some(State([], map[], map[0 := MustInsert, 1 := MustInsert]))
  {
    var r := Request(user, path, Version([], false));
    var reqs, s0 := [r, r], State([], map[], map[]);
    BothChecked(user, path);
    hide Exec;
    ExecSnoc(reqs, s0, [Check(0), Check(1)], Read(0));
    assert [Check(0), Check(1)] + [Read(0)] == [Check(0), Check(1), Read(0)];
    var mid: map<nat, Phase> := map[0 := MustInsert, 1 := Checked];
    assert map[0 := Checked, 1 := Checked][0 := MustInsert] == mid;
    assert Exec(reqs, s0, [Check(0), Check(1), Read(0)]) == Some(State([], map[], mid));
    ExecSnoc(reqs, s0, [Check(0), Check(1), Read(0)], Read(1));
    assert [Check(0), Check(1), Read(0)] + [Read(1)] == [Check(0), Check(1), Read(0), Read(1)];
    assert mid[1 := MustInsert] == map[0 := MustInsert, 1 := MustInsert];
  }

  lemma {:induction false} BothChecked(user: int, path: Path)
    ensures var r := Request(user, path, Version([], false));
            Exec([r, r], State([], map[], map[]), [Check(0), Check(1)]) ==
            Some(State([], map[], map[0 := Checked, 1 := Checked]))
  {
    var r := Request(user, path, Version([], false));
    var reqs, s0 := [r, r], State([], map[], map[]);
    NonLocalEmpty(map[], []);
    ExecSnoc(reqs, s0, [], Check(0));
    assert [] + [Check(0)] == [Check(0)];
    ExecSnoc(reqs, s0, [Check(0)], Check(1));
    assert [Check(0)] + [Check(1)] == [Check(0), Check(1)];
  }
}
