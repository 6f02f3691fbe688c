/** The queue object, the batch worker and its backlog. */
module Processor {
  import opened Common
  import opened Schema
  import opened Grouping
  import opened Pipeline

  // ---------------------------------------------------------------------------------------------------------------
  // The backlog of one worker
  // ---------------------------------------------------------------------------------------------------------------

  /** The queue after rounds of one flush and the arrivals until the next. */
  function Backlog(queue: seq<Raw>, arrivals: seq<seq<Raw>>, batchSize: nat): seq<Raw> {
    if arrivals == [] then queue
    else Rest(Backlog(queue, arrivals[..|arrivals| - 1], batchSize), batchSize) + arrivals[|arrivals| - 1]
  }

  /** While no more than a batch arrives between flushes, no flush leaves more than the first one did. */
  lemma {:induction false} BacklogBounded(queue: seq<Raw>, arrivals: seq<seq<Raw>>, batchSize: nat)
    requires forall a :: a in arrivals ==> |a| <= batchSize
    ensures |Rest(Backlog(queue, arrivals, batchSize), batchSize)| <= |Rest(queue, batchSize)|
  {
    if arrivals == [] {
    } else {
      BacklogBounded(queue, arrivals[..|arrivals| - 1], batchSize);
      assert arrivals[|arrivals| - 1] in arrivals;
    }
  }

  /** The queue after `k` flushes with no arrivals. */
  function Drained(queue: seq<Raw>, batchSize: nat, k: nat): seq<Raw> {
    if k == 0 then queue else Rest(Drained(queue, batchSize, k - 1), batchSize)
  }

  lemma {:induction false} DrainedSuffix(queue: seq<Raw>, batchSize: nat, k: nat)
    ensures Drained(queue, batchSize, k) == queue[Min(Multiple(k, batchSize), |queue|)..]
  {
    if k == 0 {
    } else {
      DrainedSuffix(queue, batchSize, k - 1);
    }
  }

  /** A queue of n events with no arrivals is empty after ceil(n / batch) flushes and not before. */
  lemma {:induction false} DrainsExactly(queue: seq<Raw>, batchSize: nat, k: nat)
    requires batchSize > 0
    ensures Drained(queue, batchSize, k) == [] <==> k >= (|queue| + batchSize - 1) / batchSize
  {
    DrainedSuffix(queue, batchSize, k);
    MultipleIsProduct(k, batchSize);
    CeilDiv(|queue|, batchSize, k);
  }

  /** A flush that its worker survives is the two steps of the state machine: pop, then commit or roll back. */
  lemma {:induction false} FlushIsPopThenCommit(s: State, w: nat, batchSize: nat)
    requires w < |s.flight| && s.flight[w] == []
    ensures var s' := Next(Next(s, Pop(w), batchSize), CommitBatch(w), batchSize);
      var db := Flushed(s.db, Popped(s.queue, batchSize));
      && s'.queue == Rest(s.queue, batchSize) && s'.flight == s.flight
      && s'.db == if db.Some? then db.value else s.db
  {
    hide Flushed, Parsable, Malformed;
    var popped := Next(s, Pop(w), batchSize);
    assert popped.flight[w] == Popped(s.queue, batchSize);
    assert popped.flight[w := []] == s.flight;
  }

  /**
    The event of a redirect served at `now` reaches the table as it was queued: when a flush pops it and goes through, a
    click on that link, at that time, by that visitor is stored.
   */
  lemma {:induction false} ServedClickIsStored(db: Db, queue: seq<Raw>, id: Id, now: int, info: ClientInfo,
                                               batchSize: nat)
    requires Raw(Some(id), Some(now), info) in Popped(queue, batchSize) && Flushed(db, Popped(queue, batchSize)).Some?
    ensures Click(id, now, info) in Flushed(db, Popped(queue, batchSize)).value.clicks
  {
    FlushLaw(db, Popped(queue, batchSize));
    hide Flushed, Popped;
    assert multiset(Popped(queue, batchSize))[Raw(Some(id), Some(now), info)] > 0;
  }

  // ---------------------------------------------------------------------------------------------------------------
  // The objects
  // ---------------------------------------------------------------------------------------------------------------

  /** The list under analytics:queue. */
  class AnalyticsCache {
    var queue: seq<Raw>

    constructor ()
      ensures queue == []
    {
      queue := [];
    }

    method PushEvent(event: Raw)
      modifies this
      ensures queue == old(queue) + [event]
    {
      queue := queue + [event];
    }

    /** LMPOP: what is taken and what is left are the old queue. */
    method PopEvents(count: nat) returns (events: seq<Raw>)
      modifies this
      ensures events + queue == old(queue)
      ensures |events| == Min(count, |old(queue)|)
    {
      var n := Min(count, |queue|);
      events, queue := queue[..n], queue[n..];
    }

    method QueueLength() returns (n: nat)
      ensures n == |queue|
    {
      n := |queue|;
    }
  }

  /** How the transaction of a flush ends when the database or the connection fails: it is rolled back. */
  datatype Outcome = Idle | Persisted | RolledBack

  /** One round of the worker: whether the database fails, and what arrives before the next round. */
  datatype Round = Round(fails: bool, arrivals: seq<Raw>)

  /** The queue and the database after these rounds of one worker. A batch whose transaction fails is gone. */
  function Work(queue: seq<Raw>, db: Db, rounds: seq<Round>, batchSize: nat): (seq<Raw>, Db) {
    if rounds == [] then (queue, db)
    else
      var (q, d) := Work(queue, db, rounds[..|rounds| - 1], batchSize);
      var last := rounds[|rounds| - 1];
      var flushed := Flushed(d, Popped(q, batchSize));
      (Rest(q, batchSize) + last.arrivals, if last.fails || flushed.None? then d else flushed.value)
  }

  lemma {:induction false} WorkRound(queue: seq<Raw>, db: Db, rounds: seq<Round>, r: Round, batchSize: nat)
    ensures var (q, d) := Work(queue, db, rounds, batchSize);
      var flushed := Flushed(d, Popped(q, batchSize));
      Work(queue, db, rounds + [r], batchSize)
      == (Rest(q, batchSize) + r.arrivals, if r.fails || flushed.None? then d else flushed.value)
  {
    hide Flushed;
    assert (rounds + [r])[..|rounds|] == rounds;
  }

  function Arrivals(rounds: seq<Round>): seq<seq<Raw>> {
    if rounds == [] then [] else Arrivals(rounds[..|rounds| - 1]) + [rounds[|rounds| - 1].arrivals]
  }

  /** The queue follows the backlog whatever flushes fail, and exact counters stay exact. */
  lemma {:induction false} WorkKeeps(queue: seq<Raw>, db: Db, rounds: seq<Round>, batchSize: nat)
    ensures Work(queue, db, rounds, batchSize).0 == Backlog(queue, Arrivals(rounds), batchSize)
    ensures CountersExact(db) ==> CountersExact(Work(queue, db, rounds, batchSize).1)
  {
    hide CountersExact, Credit;
    if rounds == [] {
    } else {
      var front, last := rounds[..|rounds| - 1], rounds[|rounds| - 1];
      WorkKeeps(queue, db, front, batchSize);
      var before := Arrivals(front);
      assert (before + [last.arrivals])[..|before|] == before;
      var (q, d) := Work(queue, db, front, batchSize);
      if CountersExact(d) {
        CreditedCounters(d, ParseAll(Popped(q, batchSize)));
      }
    }
  }

  function Pushes(arrivals: seq<Raw>): seq<Action> {
    if arrivals == [] then [] else Pushes(arrivals[..|arrivals| - 1]) + [Push(arrivals[|arrivals| - 1])]
  }

  /** The rounds as actions of the state machine: a failing flush loses its batch. */
  function Script(rounds: seq<Round>): seq<Action> {
    if rounds == [] then []
    else
      var last := rounds[|rounds| - 1];
      Script(rounds[..|rounds| - 1]) + [Pop(0), if last.fails then LoseBatch(0) else CommitBatch(0)]
      + Pushes(last.arrivals)
  }

  lemma {:induction false} PushesJoin(s: State, arrivals: seq<Raw>, batchSize: nat)
    ensures var s' := Run(s, Pushes(arrivals), batchSize);
      s'.queue == s.queue + arrivals && s'.db == s.db && s'.flight == s.flight
  {
    if arrivals == [] {
    } else {
      var front, last := arrivals[..|arrivals| - 1], arrivals[|arrivals| - 1];
      PushesJoin(s, front, batchSize);
      RunConcat(s, Pushes(front), [Push(last)], batchSize);
      assert [Push(last)][1..] == [];
      assert arrivals == front + [last];
    }
  }

  lemma {:induction false} RoundIsARun(s: State, fails: bool, batchSize: nat)
    requires |s.flight| == 1 && s.flight[0] == []
    ensures var s' := Run(s, [Pop(0), if fails then LoseBatch(0) else CommitBatch(0)], batchSize);
      var flushed := Flushed(s.db, Popped(s.queue, batchSize));
      && s'.queue == Rest(s.queue, batchSize) && s'.flight == s.flight
      && s'.db == if fails || flushed.None? then s.db else flushed.value
  {
    var end := if fails then LoseBatch(0) else CommitBatch(0);
    FlushIsPopThenCommit(s, 0, batchSize);
    var popped := Next(s, Pop(0), batchSize);
    assert popped.flight[0 := []] == s.flight;
    hide Flushed, Parsable, Malformed;
    assert [Pop(0), end][1..] == [end] && [end][1..] == [];
    assert Run(popped, [end], batchSize) == Next(popped, end, batchSize);
  }

  /** The loop is a run of the state machine with one worker, so every theorem about runs speaks of it. */
  lemma {:induction false} WorkIsARun(s: State, rounds: seq<Round>, batchSize: nat)
    requires |s.flight| == 1 && s.flight[0] == []
    ensures var s' := Run(s, Script(rounds), batchSize);
      (s'.queue, s'.db) == Work(s.queue, s.db, rounds, batchSize) && s'.flight == s.flight
  {
    hide Next, Flushed;
    if rounds == [] {
    } else {
      var front, last := rounds[..|rounds| - 1], rounds[|rounds| - 1];
      var flush := [Pop(0), if last.fails then LoseBatch(0) else CommitBatch(0)];
      WorkIsARun(s, front, batchSize);
      var mid := Run(s, Script(front), batchSize);
      RoundIsARun(mid, last.fails, batchSize);
      PushesJoin(Run(mid, flush, batchSize), last.arrivals, batchSize);
      RunConcat(s, Script(front), flush, batchSize);
      RunConcat(s, Script(front) + flush, Pushes(last.arrivals), batchSize);
    }
  }

  lemma {:induction false} EmptyBatch(db: Db)
    ensures Flushed(db, []) == Some(db)
  {
    assert db.clicks + [] == db.clicks;
  }

  class AnalyticsProcessor {
    const cache: AnalyticsCache
    const db: Database
    const batchSize: nat
    var running: bool

    constructor (cache: AnalyticsCache, db: Database, batchSize: nat)
      ensures this.cache == cache && this.db == db && this.batchSize == batchSize && !running
    {
      this.cache, this.db, this.batchSize, running := cache, db, batchSize, false;
    }

    ghost function State(): Db
      reads db
    {
      Db(db.urls, db.clicks)
    }

    /** Pops one batch and persists it in one transaction. A batch that is not persisted is gone from the queue. */
    method Flush(fails: bool) returns (outcome: Outcome)
      modifies cache, db
      ensures cache.queue == Rest(old(cache.queue), batchSize)
      ensures outcome == Idle <==> Popped(old(cache.queue), batchSize) == []
      ensures outcome == RolledBack <==>
                !outcome.Idle? && (fails || Flushed(old(State()), Popped(old(cache.queue), batchSize)) == None)
      ensures State() == if outcome == Persisted then Flushed(old(State()), Popped(old(cache.queue), batchSize)).value
                         else old(State())
    {
      var queueLen := cache.QueueLength();
      if queueLen == 0 {
        return Idle;
      }
      var events := cache.PopEvents(batchSize);
      assert events == Popped(old(cache.queue), batchSize) && cache.queue == Rest(old(cache.queue), batchSize);
      if events == [] {
        return Idle;
      }
      var dbEvents: seq<Click> := [];
      for i := 0 to |events|
        invariant dbEvents == ParseAll(events[..i])
      {
        assert events[..i + 1][..i] == events[..i];
        var parsed := Parse(events[i]);
        if parsed.Some? {
          dbEvents := dbEvents + [parsed.value];
        }
      }
      assert events[..|events|] == events;
      // The session: changes stay here until the commit.
      var urls, clicks := db.urls, db.clicks;
      if dbEvents != [] {
        if !Accepts(urls, dbEvents) {
          return RolledBack;
        }
        clicks := clicks + dbEvents;
      }
      var counts := Tally(UrlIds(dbEvents));
      for i := 0 to |counts|
        invariant urls == CreditGroups(db.urls, counts[..i])
      {
        assert counts[..i + 1][..i] == counts[..i];
        urls := AddClicks(urls, counts[i].0, counts[i].1);
      }
      assert counts[..|counts|] == counts;
      if fails {
        return RolledBack;
      }
      GroupedEqualsPerEvent(db.urls, dbEvents, counts);
      db.urls, db.clicks := urls, clicks;
      return Persisted;
    }

    /** What the redirects push while the worker sleeps. */
    method Receive(arrivals: seq<Raw>)
      modifies cache
      ensures cache.queue == old(cache.queue) + arrivals
    {
      for j := 0 to |arrivals|
        invariant cache.queue == old(cache.queue) + arrivals[..j]
      {
        cache.PushEvent(arrivals[j]);
        assert arrivals[..j + 1] == arrivals[..j] + [arrivals[j]];
      }
      assert arrivals[..|arrivals|] == arrivals;
    }

    /** The worker's loop, for as many rounds as it stays running. Errors of a flush are swallowed. */
    method Run(rounds: seq<Round>)
      modifies this`running, cache, db
      ensures running
      ensures (cache.queue, State()) == Work(old(cache.queue), old(State()), rounds, batchSize)
      ensures cache.queue == Backlog(old(cache.queue), Arrivals(rounds), batchSize)
      ensures CountersExact(old(State())) ==> CountersExact(State())
    {
      hide Rest, Popped, Flushed, Backlog, Arrivals, CountersExact;
      running := true;
      assert rounds[..0] == [];
      for i := 0 to |rounds|
        invariant running
        invariant (cache.queue, State()) == Work(old(cache.queue), old(State()), rounds[..i], batchSize)
      {
        EmptyBatch(State());
        WorkRound(old(cache.queue), old(State()), rounds[..i], rounds[i], batchSize);
        var _ := Flush(rounds[i].fails);
        Receive(rounds[i].arrivals);
        assert rounds[..i + 1] == rounds[..i] + [rounds[i]];
      }
      assert rounds[..|rounds|] == rounds;
      WorkKeeps(old(cache.queue), old(State()), rounds, batchSize);
    }

    /** Shutdown flushes a single batch: it empties the queue exactly when one batch was enough. */
    method Stop(fails: bool)
      modifies this`running, cache, db
      ensures !running
      ensures cache.queue == Rest(old(cache.queue), batchSize)
      ensures cache.queue == [] <==> |old(cache.queue)| <= batchSize
      ensures var flushed := Flushed(old(State()), Popped(old(cache.queue), batchSize));
        State() == if fails || flushed.None? then old(State()) else flushed.value
    {
      running := false;
      EmptyBatch(State());
      hide Flushed;
      var _ := Flush(fails);
    }
  }
}
