/**
  The click pipeline: events are pushed on a Redis list, workers pop them in batches, and each batch is one database
  transaction that inserts the events and adds to the click counts.
 */
module Pipeline {
  import opened Common
  import opened Schema
  import opened Grouping

  /** An event as queued. None stands for a field that is absent or does not parse. */
  datatype Raw = Raw(urlId: Option<Id>, timestamp: Option<int>, info: ClientInfo)

  datatype Db = Db(urls: Rows, clicks: seq<Click>)

  // ---------------------------------------------------------------------------------------------------------------
  // One batch
  // ---------------------------------------------------------------------------------------------------------------

  function Parse(raw: Raw): Option<Click> {
    if raw.urlId.Some? && raw.timestamp.Some? then Some(Click(raw.urlId.value, raw.timestamp.value, raw.info)) else None
  }

  /** The events of a batch that parse, in order. */
  function Parsable(batch: seq<Raw>): seq<Raw> {
    if batch == [] then []
    else Parsable(batch[..|batch| - 1]) + if Parse(batch[|batch| - 1]).Some? then [batch[|batch| - 1]] else []
  }

  /** The events of a batch that do not, in order. They are logged and skipped. */
  function Malformed(batch: seq<Raw>): seq<Raw> {
    if batch == [] then []
    else Malformed(batch[..|batch| - 1]) + if Parse(batch[|batch| - 1]).Some? then [] else [batch[|batch| - 1]]
  }

  function ParseAll(batch: seq<Raw>): seq<Click> {
    if batch == [] then []
    else
      var last := Parse(batch[|batch| - 1]);
      ParseAll(batch[..|batch| - 1]) + if last.Some? then [last.value] else []
  }

  /** UPDATE short_urls SET click_count = click_count + n: no row, no effect. */
  function AddClicks(urls: Rows, id: Id, n: nat): Rows {
    if id in urls then urls[id := urls[id].(clickCount := urls[id].clickCount + n)] else urls
  }

  /** One increment per event, in sequence. */
  function Credit(urls: Rows, clicks: seq<Click>): Rows {
    if clicks == [] then urls
    else AddClicks(Credit(urls, clicks[..|clicks| - 1]), clicks[|clicks| - 1].urlId, 1)
  }

  /** One increment per group, in sequence. */
  function CreditGroups(urls: Rows, groups: seq<Group<Id>>): Rows {
    if groups == [] then urls
    else AddClicks(CreditGroups(urls, groups[..|groups| - 1]), groups[|groups| - 1].0, groups[|groups| - 1].1)
  }

  function UrlIds(clicks: seq<Click>): (ids: seq<Id>)
    ensures |ids| == |clicks|
  {
    if clicks == [] then [] else UrlIds(clicks[..|clicks| - 1]) + [clicks[|clicks| - 1].urlId]
  }

  /** The number of click events of a URL. */
  function CountFor(clicks: seq<Click>, id: Id): nat {
    if clicks == [] then 0
    else CountFor(clicks[..|clicks| - 1], id) + if clicks[|clicks| - 1].urlId == id then 1 else 0
  }

  /** The foreign key and the column widths of click_events. */
  predicate Accepts(urls: Rows, clicks: seq<Click>) {
    forall c | c in clicks :: c.urlId in urls && Fits(c.info)
  }

  /** The transaction on a batch: the new database, or None when one refused event rolls everything back. */
  function Flushed(db: Db, batch: seq<Raw>): Option<Db> {
    var clicks := ParseAll(batch);
    if Accepts(db.urls, clicks) then Some(Db(Credit(db.urls, clicks), db.clicks + clicks)) else None
  }

  // ---------------------------------------------------------------------------------------------------------------
  // Counting clicks in groups or one by one
  // ---------------------------------------------------------------------------------------------------------------

  lemma {:induction false} CreditAt(urls: Rows, clicks: seq<Click>, id: Id)
    ensures Credit(urls, clicks).Keys == urls.Keys
    ensures id in urls ==>
              Credit(urls, clicks)[id] == urls[id].(clickCount := urls[id].clickCount + CountFor(clicks, id))
  {
    if clicks == [] {
    } else {
      CreditAt(urls, clicks[..|clicks| - 1], id);
    }
  }

  lemma {:induction false} CreditGroupsAt(urls: Rows, groups: seq<Group<Id>>, id: Id)
    ensures CreditGroups(urls, groups).Keys == urls.Keys
    ensures id in urls ==>
              CreditGroups(urls, groups)[id]
              == urls[id].(clickCount := urls[id].clickCount + CountOf(groups, id))
  {
    if groups == [] {
    } else {
      CreditGroupsAt(urls, groups[..|groups| - 1], id);
      CountOfLast(groups, id);
    }
  }

  lemma {:induction false} CountOfLast(groups: seq<Group<Id>>, id: Id)
    requires groups != []
    ensures CountOf(groups, id) == CountOf(groups[..|groups| - 1], id)
                                   + if groups[|groups| - 1].0 == id then groups[|groups| - 1].1 else 0
  {
    if |groups| > 1 {
      CountOfLast(groups[1..], id);
      assert groups[1..][..|groups| - 2] == groups[..|groups| - 1][1..];
    }
  }

  lemma {:induction false} IdsCountClicks(clicks: seq<Click>, id: Id)
    ensures multiset(UrlIds(clicks))[id] == CountFor(clicks, id)
  {
    if clicks == [] {
    } else {
      IdsCountClicks(clicks[..|clicks| - 1], id);
    }
  }

  /** Any listing of the counter, in any order, credits the table as one increment per event does. */
  lemma {:induction false} GroupedEqualsPerEvent(urls: Rows, clicks: seq<Click>, groups: seq<Group<Id>>)
    requires forall id :: CountOf(groups, id) == CountOf(Tally(UrlIds(clicks)), id)
    ensures CreditGroups(urls, groups) == Credit(urls, clicks)
  {
    CreditAt(urls, clicks, 0);
    CreditGroupsAt(urls, groups, 0);
    forall id | id in urls ensures CreditGroups(urls, groups)[id] == Credit(urls, clicks)[id] {
      CreditAt(urls, clicks, id);
      CreditGroupsAt(urls, groups, id);
      TallyCounts(UrlIds(clicks), id);
      IdsCountClicks(clicks, id);
    }
  }

  /** The increments of a batch sum to the number of its parsed events. */
  lemma {:induction false} IncrementsSum(clicks: seq<Click>)
    ensures Sum(Tally(UrlIds(clicks))) == |clicks|
    ensures Distinct(Tally(UrlIds(clicks)))
  {
    TallyCounts(UrlIds(clicks), 0);
  }

  // ---------------------------------------------------------------------------------------------------------------
  // The state machine: any number of workers, and the URL service beside them
  // ---------------------------------------------------------------------------------------------------------------

  /**
    `flight[w]` is the batch worker `w` holds. `used` are the ids ever given to a URL; `pushed`, `persisted` and
    `dropped` record what became of every event.
   */
  datatype State = State(
    queue: seq<Raw>,
    flight: seq<seq<Raw>>,
    db: Db,
    used: set<Id>,
    pushed: seq<Raw>,
    persisted: seq<Raw>,
    dropped: seq<Raw>)

  datatype Action =
    | Push(raw: Raw)
    | Pop(w: nat)
    | CommitBatch(w: nat)
    | LoseBatch(w: nat)
    | CreateUrl(row: Row)
    | UpdateUrl(id: Id, changes: Changes)
    | DeleteUrl(id: Id)

  function Init(workers: nat): State {
    State([], seq(workers, _ => []), Db(map[], []), {}, [], [], [])
  }

  /** What LMPOP takes, and what it leaves. */
  function Popped(queue: seq<Raw>, batchSize: nat): seq<Raw> {
    queue[..Min(batchSize, |queue|)]
  }

  function Rest(queue: seq<Raw>, batchSize: nat): seq<Raw> {
    queue[Min(batchSize, |queue|)..]
  }

  function Next(s: State, a: Action, batchSize: nat): State {
    match a
    case Push(raw) => s.(queue := s.queue + [raw], pushed := s.pushed + [raw])
    case Pop(w) =>
      if w < |s.flight| && s.flight[w] == [] then
        s.(queue := Rest(s.queue, batchSize), flight := s.flight[w := Popped(s.queue, batchSize)])
      else s
    case CommitBatch(w) =>
      if w >= |s.flight| then s
      else
        var batch := s.flight[w];
        var landed := s.(flight := s.flight[w := []]);
        (match Flushed(s.db, batch)
         case Some(db) =>
           landed.(db := db, persisted := s.persisted + Parsable(batch), dropped := s.dropped + Malformed(batch))
         case None => landed.(dropped := s.dropped + batch))
    case LoseBatch(w) =>
      if w < |s.flight| then s.(flight := s.flight[w := []], dropped := s.dropped + s.flight[w]) else s
    case CreateUrl(row) =>
      if row.id !in s.used && row.clickCount == 0 then
        s.(db := s.db.(urls := s.db.urls[row.id := row]), used := s.used + {row.id})
      else s
    case UpdateUrl(id, ch) =>
      if id in s.db.urls then s.(db := s.db.(urls := s.db.urls[id := Merge(s.db.urls[id], ch)])) else s
    case DeleteUrl(id) => s.(db := Db(s.db.urls - {id}, Cascade(s.db.clicks, id)))
  }

  function Run(s: State, actions: seq<Action>, batchSize: nat): State
    decreases |actions|
  {
    if actions == [] then s else Run(Next(s, actions[0], batchSize), actions[1..], batchSize)
  }

  /** Two runs in a row. */
  lemma {:induction false} RunConcat(s: State, a: seq<Action>, b: seq<Action>, batchSize: nat)
    ensures Run(s, a + b, batchSize) == Run(Run(s, a, batchSize), b, batchSize)
    decreases |a|
  {
    hide Next;
    if a == [] {
      assert a + b == b;
    } else {
      assert (a + b)[1..] == a[1..] + b;
      RunConcat(Next(s, a[0], batchSize), a[1..], b, batchSize);
    }
  }

  function InFlight(flight: seq<seq<Raw>>): multiset<Raw> {
    if flight == [] then multiset{} else multiset(flight[0]) + InFlight(flight[1..])
  }

  // Conservation -----------------------------------------------------------------------------------------------------

  /** Every pushed event is queued, held by exactly one worker, persisted or dropped. */
  ghost predicate Conserved(s: State) {
    multiset(s.pushed) == multiset(s.queue) + InFlight(s.flight) + multiset(s.persisted) + multiset(s.dropped)
  }

  lemma {:induction false} FlightUpdate(flight: seq<seq<Raw>>, w: nat, batch: seq<Raw>, e: Raw)
    requires w < |flight|
    ensures InFlight(flight[w := batch])[e] + multiset(flight[w])[e] == InFlight(flight)[e] + multiset(batch)[e]
  {
    if w > 0 {
      FlightUpdate(flight[1..], w - 1, batch, e);
      assert flight[w := batch][1..] == flight[1..][w - 1 := batch];
    } else {
      assert flight[w := batch][1..] == flight[1..];
    }
  }

  lemma {:induction false} OneMore(raws: seq<Raw>, raw: Raw, e: Raw)
    ensures multiset(raws + [raw])[e] == multiset(raws)[e] + if raw == e then 1 else 0
  {
  }

  /** A batch is its parsable and its malformed events. */
  lemma {:induction false} BatchSplits(batch: seq<Raw>, e: Raw)
    ensures multiset(Parsable(batch))[e] + multiset(Malformed(batch))[e] == multiset(batch)[e]
  {
    if batch == [] {
    } else {
      var front, last := batch[..|batch| - 1], batch[|batch| - 1];
      BatchSplits(front, e);
      assert batch == front + [last];
      OneMore(front, last, e);
      if Parse(last).Some? {
        OneMore(Parsable(front), last, e);
        assert Malformed(batch) == Malformed(front);
      } else {
        OneMore(Malformed(front), last, e);
        assert Parsable(batch) == Parsable(front);
      }
    }
  }

  lemma {:induction false} ParsableIsPart(batch: seq<Raw>)
    ensures multiset(Parsable(batch) + Malformed(batch)) == multiset(batch)
  {
    hide Parsable, Malformed;
    forall e ensures multiset(Parsable(batch) + Malformed(batch))[e] == multiset(batch)[e] {
      BatchSplits(batch, e);
    }
  }

  lemma {:induction false} ParsableParses(batch: seq<Raw>)
    ensures ParseAll(Parsable(batch)) == ParseAll(batch)
  {
    if batch == [] {
    } else {
      var front, last := batch[..|batch| - 1], batch[|batch| - 1];
      ParsableParses(front);
      if Parse(last).Some? {
        assert (Parsable(front) + [last])[..|Parsable(front)|] == Parsable(front);
      } else {
        assert Parsable(batch) == Parsable(front);
      }
    }
  }

  /** Moving a worker's batch elsewhere: what the flight loses is exactly the batch. */
  lemma {:induction false} Landing(s: State, w: nat, persisted: seq<Raw>, dropped: seq<Raw>)
    requires Conserved(s) && w < |s.flight|
    requires multiset(persisted + dropped) == multiset(s.flight[w])
    ensures multiset(s.pushed) == multiset(s.queue) + InFlight(s.flight[w := []])
                                  + multiset(s.persisted + persisted) + multiset(s.dropped + dropped)
  {
    hide InFlight;
    var landed := multiset(s.queue) + InFlight(s.flight[w := []]) + multiset(s.persisted + persisted)
                  + multiset(s.dropped + dropped);
    forall e ensures multiset(s.pushed)[e] == landed[e] {
      FlightUpdate(s.flight, w, [], e);
      assert multiset(persisted + dropped)[e] == multiset(persisted)[e] + multiset(dropped)[e];
    }
    assert multiset(s.pushed) == landed;
  }

  lemma {:induction false} PopConserves(s: State, w: nat, batchSize: nat)
    requires Conserved(s)
    ensures Conserved(Next(s, Pop(w), batchSize))
  {
    hide InFlight;
    if w < |s.flight| && s.flight[w] == [] {
      var popped, rest := Popped(s.queue, batchSize), Rest(s.queue, batchSize);
      assert s.queue == popped + rest;
      var moved := multiset(rest) + InFlight(s.flight[w := popped]) + multiset(s.persisted) + multiset(s.dropped);
      forall e ensures multiset(s.pushed)[e] == moved[e] {
        FlightUpdate(s.flight, w, popped, e);
        assert multiset(s.queue)[e] == multiset(popped)[e] + multiset(rest)[e];
      }
      assert multiset(s.pushed) == moved;
    }
  }

  lemma {:induction false} StepConserves(s: State, a: Action, batchSize: nat)
    requires Conserved(s)
    ensures Conserved(Next(s, a, batchSize))
  {
    hide Flushed, Cascade, Merge, InFlight, Parsable, Malformed;
    match a
    case Pop(w) =>
      PopConserves(s, w, batchSize);
    case CommitBatch(w) =>
      if w < |s.flight| {
        var batch := s.flight[w];
        ParsableIsPart(batch);
        Landing(s, w, Parsable(batch), Malformed(batch));
        assert [] + batch == batch && s.persisted + [] == s.persisted;
        Landing(s, w, [], batch);
      }
    case LoseBatch(w) =>
      if w < |s.flight| {
        assert [] + s.flight[w] == s.flight[w] && s.persisted + [] == s.persisted;
        Landing(s, w, [], s.flight[w]);
      }
    case _ =>
  }

  // The stored events and the denormalised counter -------------------------------------------------------------------

  /** The clicks on the URLs in `ids`. */
  function Restrict(clicks: seq<Click>, ids: set<Id>): seq<Click> {
    if clicks == [] then []
    else
      var last := clicks[|clicks| - 1];
      Restrict(clicks[..|clicks| - 1], ids) + if last.urlId in ids then [last] else []
  }

  /** The table of events is what was persisted, once each and in order, without the clicks on deleted URLs. */
  ghost predicate StoredOnce(s: State) {
    && s.db.clicks == Restrict(ParseAll(s.persisted), s.db.urls.Keys)
    && s.db.urls.Keys <= s.used
    && (forall id :: id in s.db.urls ==> s.db.urls[id].id == id)
    && (forall c :: c in ParseAll(s.persisted) ==> c.urlId in s.used)
  }

  /** Every URL's click_count is the number of its stored events. */
  ghost predicate CountersExact(db: Db) {
    forall id :: id in db.urls ==> db.urls[id].clickCount == CountFor(db.clicks, id)
  }

  lemma {:induction false} CountForConcat(a: seq<Click>, b: seq<Click>, id: Id)
    ensures CountFor(a + b, id) == CountFor(a, id) + CountFor(b, id)
  {
    if b == [] {
      assert a + b == a;
    } else {
      CountForConcat(a, b[..|b| - 1], id);
      assert (a + b)[..|a + b| - 1] == a + b[..|b| - 1];
    }
  }

  lemma {:induction false} CountForCascade(clicks: seq<Click>, gone: Id, id: Id)
    requires id != gone
    ensures CountFor(Cascade(clicks, gone), id) == CountFor(clicks, id)
  {
    if clicks == [] {
    } else {
      var front, last := clicks[..|clicks| - 1], clicks[|clicks| - 1];
      CountForCascade(front, gone, id);
      CountForConcat(Cascade(front, gone), if last.urlId == gone then [] else [last], id);
    }
  }

  lemma {:induction false} CountForAbsent(clicks: seq<Click>, id: Id)
    requires forall c :: c in clicks ==> c.urlId != id
    ensures CountFor(clicks, id) == 0
  {
    if clicks == [] {
    } else {
      CountForAbsent(clicks[..|clicks| - 1], id);
    }
  }

  lemma {:induction false} RestrictMembers(clicks: seq<Click>, ids: set<Id>)
    ensures forall c :: c in Restrict(clicks, ids) ==> c in clicks && c.urlId in ids
  {
    if clicks == [] {
    } else {
      RestrictMembers(clicks[..|clicks| - 1], ids);
    }
  }

  lemma {:induction false} RestrictConcat(a: seq<Click>, b: seq<Click>, ids: set<Id>)
    requires forall c :: c in b ==> c.urlId in ids
    ensures Restrict(a + b, ids) == Restrict(a, ids) + b
  {
    if b == [] {
      assert a + b == a;
    } else {
      var front := b[..|b| - 1];
      RestrictConcat(a, front, ids);
      assert (a + b)[..|a + b| - 1] == a + front;
    }
  }

  lemma {:induction false} RestrictGrows(clicks: seq<Click>, ids: set<Id>, id: Id)
    requires forall c :: c in clicks ==> c.urlId != id
    ensures Restrict(clicks, ids + {id}) == Restrict(clicks, ids)
  {
    if clicks == [] {
    } else {
      RestrictGrows(clicks[..|clicks| - 1], ids, id);
    }
  }

  lemma {:induction false} CascadeConcat(a: seq<Click>, c: Click, id: Id)
    ensures Cascade(a + [c], id) == Cascade(a, id) + if c.urlId == id then [] else [c]
  {
    assert (a + [c])[..|a|] == a;
  }

  lemma {:induction false} RestrictCascade(clicks: seq<Click>, ids: set<Id>, id: Id)
    ensures Cascade(Restrict(clicks, ids), id) == Restrict(clicks, ids - {id})
  {
    if clicks == [] {
    } else {
      var front, last := clicks[..|clicks| - 1], clicks[|clicks| - 1];
      RestrictCascade(front, ids, id);
      if last.urlId in ids {
        CascadeConcat(Restrict(front, ids), last, id);
      } else {
        assert Restrict(clicks, ids) == Restrict(front, ids);
      }
    }
  }

  lemma {:induction false} ParseAllConcat(a: seq<Raw>, b: seq<Raw>)
    ensures ParseAll(a + b) == ParseAll(a) + ParseAll(b)
  {
    if b == [] {
      assert a + b == a;
    } else {
      ParseAllConcat(a, b[..|b| - 1]);
      assert (a + b)[..|a + b| - 1] == a + b[..|b| - 1];
    }
  }

  /** A committed batch stores its events once, and pays each URL's counter what it stores. */
  lemma {:induction false} CommitStores(s: State, w: nat, batchSize: nat)
    requires StoredOnce(s) && CountersExact(s.db) && w < |s.flight|
    ensures var s' := Next(s, CommitBatch(w), batchSize); StoredOnce(s') && CountersExact(s'.db)
  {
    hide Credit, ParseAll, Parsable, Malformed, Restrict, CountFor;
    var batch := s.flight[w];
    var clicks := ParseAll(batch);
    if Accepts(s.db.urls, clicks) {
      ParsableParses(batch);
      ParseAllConcat(s.persisted, Parsable(batch));
      RestrictConcat(ParseAll(s.persisted), clicks, s.db.urls.Keys);
      CreditedCounters(s.db, clicks);
    }
  }

  lemma {:induction false} CreditedCounters(db: Db, clicks: seq<Click>)
    requires CountersExact(db)
    ensures Credit(db.urls, clicks).Keys == db.urls.Keys
    ensures CountersExact(Db(Credit(db.urls, clicks), db.clicks + clicks))
    ensures forall id :: id in db.urls ==> Credit(db.urls, clicks)[id].id == db.urls[id].id
  {
    hide Credit, CountFor;
    CreditAt(db.urls, clicks, 0);
    forall id | id in db.urls ensures Credit(db.urls, clicks)[id].id == db.urls[id].id {
      CreditAt(db.urls, clicks, id);
    }
    forall id | id in db.urls ensures Credit(db.urls, clicks)[id].clickCount == CountFor(db.clicks + clicks, id) {
      CreditAt(db.urls, clicks, id);
      CountForConcat(db.clicks, clicks, id);
    }
  }

  lemma {:induction false} CreateStores(s: State, row: Row, batchSize: nat)
    requires StoredOnce(s) && CountersExact(s.db)
    ensures var s' := Next(s, CreateUrl(row), batchSize); StoredOnce(s') && CountersExact(s'.db)
  {
    if row.id !in s.used && row.clickCount == 0 {
      RestrictGrows(ParseAll(s.persisted), s.db.urls.Keys, row.id);
      RestrictMembers(ParseAll(s.persisted), s.db.urls.Keys);
      CountForAbsent(s.db.clicks, row.id);
      hide ParseAll, Restrict, CountFor;
      assert s.db.urls[row.id := row].Keys == s.db.urls.Keys + {row.id};
    }
  }

  lemma {:induction false} DeleteStores(s: State, id: Id, batchSize: nat)
    requires StoredOnce(s) && CountersExact(s.db)
    ensures var s' := Next(s, DeleteUrl(id), batchSize); StoredOnce(s') && CountersExact(s'.db)
  {
    hide ParseAll, Restrict, CountFor, Cascade;
    var s' := Next(s, DeleteUrl(id), batchSize);
    RestrictCascade(ParseAll(s.persisted), s.db.urls.Keys, id);
    assert s'.db.urls.Keys == s.db.urls.Keys - {id};
    forall j | j in s'.db.urls ensures s'.db.urls[j].clickCount == CountFor(s'.db.clicks, j) {
      CountForCascade(s.db.clicks, id, j);
    }
  }

  lemma {:induction false} StepStores(s: State, a: Action, batchSize: nat)
    requires StoredOnce(s) && CountersExact(s.db)
    ensures var s' := Next(s, a, batchSize); StoredOnce(s') && CountersExact(s'.db)
  {
    hide ParseAll, Restrict, CountFor, Flushed, Cascade;
    match a
    case CommitBatch(w) => if w < |s.flight| { CommitStores(s, w, batchSize); }
    case CreateUrl(row) => CreateStores(s, row, batchSize);
    case DeleteUrl(id) => DeleteStores(s, id, batchSize);
    case UpdateUrl(id, ch) =>
      if id in s.db.urls {
        assert s.db.urls[id := Merge(s.db.urls[id], ch)].Keys == s.db.urls.Keys;
      }
    case _ =>
  }

  // Loss -------------------------------------------------------------------------------------------------------------

  /** The event parses, names a URL of the table and fits its columns. */
  predicate Lands(urls: Rows, raw: Raw) {
    Parse(raw).Some? && raw.urlId.value in urls && Fits(raw.info)
  }

  /** The step loses nothing: no worker dies with a batch, and every event of a committed batch lands. */
  predicate LosesNothing(s: State, a: Action) {
    match a
    case LoseBatch(w) => w < |s.flight| ==> s.flight[w] == []
    case CommitBatch(w) => w < |s.flight| ==> forall raw :: raw in s.flight[w] ==> Lands(s.db.urls, raw)
    case _ => true
  }

  predicate Lossless(s: State, actions: seq<Action>, batchSize: nat)
    decreases |actions|
  {
    actions != [] ==> LosesNothing(s, actions[0]) && Lossless(Next(s, actions[0], batchSize), actions[1..], batchSize)
  }

  lemma {:induction false} MalformedMembers(batch: seq<Raw>)
    ensures forall raw :: raw in Malformed(batch) <==> raw in batch && Parse(raw) == None
    ensures forall raw :: raw in Parsable(batch) <==> raw in batch && Parse(raw).Some?
  {
    if batch == [] {
    } else {
      var front, last := batch[..|batch| - 1], batch[|batch| - 1];
      MalformedMembers(front);
      assert forall raw :: raw in batch <==> raw in front || raw == last;
    }
  }

  lemma {:induction false} ParsedMembers(batch: seq<Raw>)
    ensures forall raw :: raw in batch && Parse(raw).Some? ==> Parse(raw).value in ParseAll(batch)
    ensures forall c :: c in ParseAll(batch) ==> exists raw :: raw in batch && Parse(raw) == Some(c)
  {
    if batch == [] {
    } else {
      var front, last := batch[..|batch| - 1], batch[|batch| - 1];
      ParsedMembers(front);
      assert forall raw :: raw in batch <==> raw in front || raw == last;
    }
  }

  /** A transaction goes through and skips nothing exactly when every event of its batch lands. */
  lemma {:induction false} BatchLands(db: Db, batch: seq<Raw>)
    ensures (forall raw :: raw in batch ==> Lands(db.urls, raw)) <==>
            Flushed(db, batch).Some? && Malformed(batch) == []
  {
    MalformedMembers(batch);
    ParsedMembers(batch);
    hide Malformed, ParseAll, Credit;
    if Malformed(batch) != [] {
      assert Malformed(batch)[0] in batch && Parse(Malformed(batch)[0]) == None;
    }
    if Flushed(db, batch).Some? && Malformed(batch) == [] {
      forall raw | raw in batch ensures Lands(db.urls, raw) {
        assert raw !in Malformed(batch);
        assert Parse(raw).value in ParseAll(batch);
      }
    }
  }

  /** What a step drops is dropped for good, and nothing is dropped exactly when the step loses nothing. */
  lemma {:induction false} StepDrops(s: State, a: Action, batchSize: nat)
    ensures s.dropped <= Next(s, a, batchSize).dropped
    ensures Next(s, a, batchSize).dropped == s.dropped <==> LosesNothing(s, a)
  {
    hide Flushed, Cascade, Merge, Lands, Malformed, Parsable;
    match a
    case CommitBatch(w) => if w < |s.flight| { BatchLands(s.db, s.flight[w]); }
    case _ =>
  }

  lemma {:induction false} RunDrops(s: State, actions: seq<Action>, batchSize: nat)
    ensures s.dropped <= Run(s, actions, batchSize).dropped
    ensures Run(s, actions, batchSize).dropped == s.dropped <==> Lossless(s, actions, batchSize)
    decreases |actions|
  {
    hide Next, LosesNothing;
    if actions == [] {
    } else {
      StepDrops(s, actions[0], batchSize);
      RunDrops(Next(s, actions[0], batchSize), actions[1..], batchSize);
    }
  }

  /** The event parses, but the table refuses it. */
  predicate Refused(urls: Rows, raw: Raw) {
    Parse(raw).Some? && (raw.urlId.value !in urls || !Fits(raw.info))
  }

  /**
    An event on a live link is lost in a step exactly when its worker dies holding it, or commits it in a batch of which
    some event, perhaps itself, names a missing URL or does not fit.
   */
  lemma {:induction false} LostExactly(s: State, a: Action, batchSize: nat, raw: Raw)
    requires Parse(raw).Some? && raw.urlId.value in s.db.urls
    ensures raw in Next(s, a, batchSize).dropped <==>
              || raw in s.dropped
              || (a.LoseBatch? && a.w < |s.flight| && raw in s.flight[a.w])
              || (a.CommitBatch? && a.w < |s.flight| && raw in s.flight[a.w]
                  && exists other :: other in s.flight[a.w] && Refused(s.db.urls, other))
  {
    hide Cascade, Merge, Malformed, Parsable, Credit, ParseAll, Fits;
    if a.CommitBatch? && a.w < |s.flight| {
      MalformedMembers(s.flight[a.w]);
      ParsedMembers(s.flight[a.w]);
    }
  }

  /**
    One event with an over-long header loses its whole batch: nothing is stored, nothing counted, and every event that
    was popped with it is gone.
   */
  lemma {:induction false} LongHeaderLosesBatch(s: State, w: nat, batchSize: nat, raw: Raw)
    requires w < |s.flight| && raw in s.flight[w] && Parse(raw).Some?
    requires !Within(raw.info.userAgent, 512) || !Within(raw.info.referrer, 2048)
    ensures var s' := Next(s, CommitBatch(w), batchSize);
      s'.db == s.db && s'.persisted == s.persisted && s'.dropped == s.dropped + s.flight[w] && s'.flight[w] == []
  {
    ParsedMembers(s.flight[w]);
    assert Parse(raw).value in ParseAll(s.flight[w]);
  }

  // Runs that lose nothing: no worker dies, no link is deleted, and every pushed event lands --------------------------

  predicate Benign(s: State, a: Action) {
    && !a.LoseBatch? && !a.DeleteUrl?
    && (a.Push? ==> Lands(s.db.urls, a.raw))
  }

  predicate Healthy(s: State, actions: seq<Action>, batchSize: nat)
    decreases |actions|
  {
    actions != [] ==> Benign(s, actions[0]) && Healthy(Next(s, actions[0], batchSize), actions[1..], batchSize)
  }

  /** Every event on its way will land. */
  ghost predicate AllLand(s: State) {
    && (forall raw :: raw in s.queue ==> Lands(s.db.urls, raw))
    && (forall w, raw :: 0 <= w < |s.flight| && raw in s.flight[w] ==> Lands(s.db.urls, raw))
  }

  /** Without deletions no URL leaves the table. */
  lemma {:induction false} UrlsStay(s: State, a: Action, batchSize: nat)
    requires !a.DeleteUrl?
    ensures s.db.urls.Keys <= Next(s, a, batchSize).db.urls.Keys
  {
    hide Cascade, Merge, Malformed, Parsable, Credit, ParseAll;
    if a.CommitBatch? && a.w < |s.flight| {
      CreditAt(s.db.urls, ParseAll(s.flight[a.w]), 0);
    }
  }

  lemma {:induction false} BenignStep(s: State, a: Action, batchSize: nat)
    requires AllLand(s) && Benign(s, a)
    ensures AllLand(Next(s, a, batchSize)) && LosesNothing(s, a)
  {
    UrlsStay(s, a, batchSize);
    hide Cascade, Merge, Malformed, Parsable, Flushed, Parse;
    var s' := Next(s, a, batchSize);
    forall raw | raw in s'.queue ensures Lands(s'.db.urls, raw) {
      assert raw in s.queue || a == Push(raw);
      assert Lands(s.db.urls, raw) && raw.urlId.value in s.db.urls.Keys;
    }
    forall w, raw | 0 <= w < |s'.flight| && raw in s'.flight[w] ensures Lands(s'.db.urls, raw) {
      assert s'.flight[w] == s.flight[w] || s'.flight[w] == [] || s'.flight[w] == Popped(s.queue, batchSize);
      assert raw in s.flight[w] || raw in s.queue;
      assert Lands(s.db.urls, raw) && raw.urlId.value in s.db.urls.Keys;
    }
  }

  lemma {:induction false} HealthyIsLossless(s: State, actions: seq<Action>, batchSize: nat)
    requires AllLand(s) && Healthy(s, actions, batchSize)
    ensures Lossless(s, actions, batchSize)
    decreases |actions|
  {
    hide AllLand, Next, Benign, LosesNothing;
    if actions == [] {
    } else {
      BenignStep(s, actions[0], batchSize);
      HealthyIsLossless(Next(s, actions[0], batchSize), actions[1..], batchSize);
    }
  }

  /** Only events that parse and fit are ever persisted. */
  ghost predicate StorablesOnly(s: State) {
    forall raw :: raw in s.persisted ==> Parse(raw).Some? && Fits(raw.info)
  }

  lemma {:induction false} StepStorables(s: State, a: Action, batchSize: nat)
    requires StorablesOnly(s)
    ensures StorablesOnly(Next(s, a, batchSize))
  {
    hide Cascade, Merge, Malformed, Parsable, Credit, ParseAll, Fits;
    if a.CommitBatch? && a.w < |s.flight| {
      MalformedMembers(s.flight[a.w]);
      ParsedMembers(s.flight[a.w]);
    }
  }

  lemma {:induction false} RunStorables(s: State, actions: seq<Action>, batchSize: nat)
    requires StorablesOnly(s)
    ensures StorablesOnly(Run(s, actions, batchSize))
    decreases |actions|
  {
    hide Next, StorablesOnly;
    if actions == [] {
    } else {
      StepStorables(s, actions[0], batchSize);
      RunStorables(Next(s, actions[0], batchSize), actions[1..], batchSize);
    }
  }

  // Order ------------------------------------------------------------------------------------------------------------

  /** With a single worker that has dropped nothing, events are persisted in the order they were pushed. */
  ghost predicate InOrder(s: State) {
    |s.flight| == 1 && (s.dropped == [] ==> s.pushed == s.persisted + s.flight[0] + s.queue)
  }

  lemma {:induction false} NothingMalformed(batch: seq<Raw>)
    requires Malformed(batch) == []
    ensures Parsable(batch) == batch
  {
    if batch == [] {
    } else {
      NothingMalformed(batch[..|batch| - 1]);
    }
  }

  lemma {:induction false} StepKeepsOrder(s: State, a: Action, batchSize: nat)
    requires InOrder(s)
    ensures InOrder(Next(s, a, batchSize))
  {
    hide Flushed, Cascade, Merge, Parsable, Malformed;
    var s' := Next(s, a, batchSize);
    if s'.dropped == [] {
      match a
      case Pop(w) =>
        assert s.queue == Popped(s.queue, batchSize) + Rest(s.queue, batchSize);
      case CommitBatch(w) =>
        if w == 0 && Flushed(s.db, s.flight[0]).Some? {
          NothingMalformed(s.flight[0]);
        }
      case _ =>
    }
  }

  // Every run --------------------------------------------------------------------------------------------------------

  lemma {:induction false} RunKeeps(s: State, actions: seq<Action>, batchSize: nat)
    ensures Conserved(s) ==> Conserved(Run(s, actions, batchSize))
    ensures StoredOnce(s) && CountersExact(s.db) ==>
              var s' := Run(s, actions, batchSize); StoredOnce(s') && CountersExact(s'.db)
    ensures InOrder(s) ==> InOrder(Run(s, actions, batchSize))
    decreases |actions|
  {
    hide Next, Conserved, StoredOnce, CountersExact, InOrder;
    if actions == [] {
    } else {
      var s' := Next(s, actions[0], batchSize);
      if Conserved(s) { StepConserves(s, actions[0], batchSize); }
      if StoredOnce(s) && CountersExact(s.db) { StepStores(s, actions[0], batchSize); }
      if InOrder(s) { StepKeepsOrder(s, actions[0], batchSize); }
      RunKeeps(s', actions[1..], batchSize);
    }
  }

  lemma {:induction false} NothingInFlight(workers: nat)
    ensures InFlight(seq(workers, _ => [])) == multiset{}
  {
    if workers == 0 {
    } else {
      NothingInFlight(workers - 1);
      var idle: seq<seq<Raw>> := seq(workers, _ => []);
      assert idle[1..] == seq(workers - 1, _ => []);
    }
  }

  /** Through any run of any number of workers no event is lost track of and none is persisted twice. */
  lemma {:induction false} EventsAreConserved(workers: nat, actions: seq<Action>, batchSize: nat)
    ensures Conserved(Run(Init(workers), actions, batchSize))
  {
    NothingInFlight(workers);
    assert Conserved(Init(workers));
    hide Conserved, Init;
    RunKeeps(Init(workers), actions, batchSize);
  }

  /** Through commits, rollbacks, lost batches, updates and deletions every counter equals its stored events. */
  lemma {:induction false} CountersStayExact(workers: nat, actions: seq<Action>, batchSize: nat)
    ensures var s := Run(Init(workers), actions, batchSize); StoredOnce(s) && CountersExact(s.db)
  {
    assert StoredOnce(Init(workers)) && CountersExact(Init(workers).db);
    hide StoredOnce, CountersExact, Init;
    RunKeeps(Init(workers), actions, batchSize);
  }

  /** For any number of workers: a run drops nothing exactly when each of its steps loses nothing. */
  lemma {:induction false} DropsNothingExactly(workers: nat, actions: seq<Action>, batchSize: nat)
    ensures Run(Init(workers), actions, batchSize).dropped == [] <==> Lossless(Init(workers), actions, batchSize)
    ensures Healthy(Init(workers), actions, batchSize) ==> Run(Init(workers), actions, batchSize).dropped == []
  {
    RunDrops(Init(workers), actions, batchSize);
    assert AllLand(Init(workers));
    hide Init, AllLand;
    if Healthy(Init(workers), actions, batchSize) {
      HealthyIsLossless(Init(workers), actions, batchSize);
    }
  }

  /**
    An event that does not parse or does not fit is never persisted: each of its occurrences waits, is held, or was
    dropped. So once queue and workers are empty, a run that was pushed such an event has dropped it.
   */
  lemma {:induction false} UnfitIsDropped(workers: nat, actions: seq<Action>, batchSize: nat, raw: Raw)
    requires Parse(raw) == None || !Fits(raw.info)
    ensures var s := Run(Init(workers), actions, batchSize);
      && multiset(s.pushed)[raw] == multiset(s.queue)[raw] + InFlight(s.flight)[raw] + multiset(s.dropped)[raw]
      && (raw in s.pushed && s.queue == [] && InFlight(s.flight) == multiset{} ==> raw in s.dropped)
  {
    EventsAreConserved(workers, actions, batchSize);
    RunStorables(Init(workers), actions, batchSize);
    hide Run, InFlight, Fits;
    var s := Run(Init(workers), actions, batchSize);
    assert multiset(s.persisted)[raw] == 0;
    assert multiset(s.pushed)[raw]
        == (multiset(s.queue) + InFlight(s.flight) + multiset(s.persisted) + multiset(s.dropped))[raw];
  }

  /**
    With one worker, persisted, held and queued events spell out the pushed sequence exactly in the runs that lose
    nothing; in particular when no worker dies, no link is deleted and every pushed event lands.
   */
  lemma {:induction false} OneWorkerIsFifo(actions: seq<Action>, batchSize: nat)
    ensures var s := Run(Init(1), actions, batchSize);
      && |s.flight| == 1
      && (s.pushed == s.persisted + s.flight[0] + s.queue <==> Lossless(Init(1), actions, batchSize))
      && (Healthy(Init(1), actions, batchSize) ==> s.pushed == s.persisted + s.flight[0] + s.queue)
  {
    assert InOrder(Init(1));
    var s := Run(Init(1), actions, batchSize);
    DropsNothingExactly(1, actions, batchSize);
    EventsAreConserved(1, actions, batchSize);
    RunKeeps(Init(1), actions, batchSize);
    hide Run, Lossless, Healthy;
    assert InFlight(s.flight) == multiset(s.flight[0]);
    if s.pushed == s.persisted + s.flight[0] + s.queue {
      assert multiset(s.pushed) == multiset(s.persisted) + multiset(s.flight[0]) + multiset(s.queue);
      forall e ensures e !in s.dropped {
        assert (multiset(s.persisted) + multiset(s.flight[0]) + multiset(s.queue))[e]
            == (multiset(s.queue) + InFlight(s.flight) + multiset(s.persisted) + multiset(s.dropped))[e];
      }
    }
  }

  // ---------------------------------------------------------------------------------------------------------------
  // What is stored, event by event
  // ---------------------------------------------------------------------------------------------------------------

  /** The event that is stored as this click: it names the link, carries the time and says the same of the visitor. */
  function Source(c: Click): Raw {
    Raw(Some(c.urlId), Some(c.createdAt), c.info)
  }

  lemma {:induction false} ParsedOnce(batch: seq<Raw>, c: Click)
    ensures multiset(ParseAll(batch))[c] == multiset(batch)[Raw(Some(c.urlId), Some(c.createdAt), c.info)]
  {
    if batch == [] {
    } else {
      var front, last := batch[..|batch| - 1], batch[|batch| - 1];
      ParsedOnce(front, c);
      assert batch == front + [last];
      OneMore(front, last, Source(c));
      if Parse(last).Some? {
        OneMoreClick(ParseAll(front), Parse(last).value, c);
      } else {
        assert ParseAll(batch) == ParseAll(front);
      }
    }
  }

  lemma {:induction false} OneMoreClick(clicks: seq<Click>, click: Click, c: Click)
    ensures multiset(clicks + [click])[c] == multiset(clicks)[c] + if click == c then 1 else 0
  {
  }

  lemma {:induction false} RestrictedOnce(clicks: seq<Click>, ids: set<Id>, c: Click)
    ensures multiset(Restrict(clicks, ids))[c] == if c.urlId in ids then multiset(clicks)[c] else 0
  {
    if clicks == [] {
    } else {
      var front, last := clicks[..|clicks| - 1], clicks[|clicks| - 1];
      RestrictedOnce(front, ids, c);
      assert clicks == front + [last];
      OneMoreClick(front, last, c);
      if last.urlId in ids {
        OneMoreClick(Restrict(front, ids), last, c);
      } else {
        assert Restrict(clicks, ids) == Restrict(front, ids);
      }
    }
  }

  /**
    In every reachable state a click on a link of the table is stored as often as an event was pushed with that very
    link, time and visitor, less those that wait, are held or were dropped; clicks on other links are not stored.
   */
  lemma {:induction false} StoredAsPushed(workers: nat, actions: seq<Action>, batchSize: nat, c: Click)
    ensures var s := Run(Init(workers), actions, batchSize);
      var raw := Raw(Some(c.urlId), Some(c.createdAt), c.info);
      && (c.urlId in s.db.urls ==>
            multiset(s.pushed)[raw] == multiset(s.db.clicks)[c]
                                       + multiset(s.queue)[raw] + InFlight(s.flight)[raw] + multiset(s.dropped)[raw])
      && (c.urlId !in s.db.urls ==> c !in s.db.clicks)
  {
    var s := Run(Init(workers), actions, batchSize);
    EventsAreConserved(workers, actions, batchSize);
    CountersStayExact(workers, actions, batchSize);
    hide Run, InFlight, ParseAll, Restrict, CountersExact;
    ParsedOnce(s.persisted, c);
    RestrictedOnce(ParseAll(s.persisted), s.db.urls.Keys, c);
    assert multiset(s.pushed)[Source(c)]
        == (multiset(s.queue) + InFlight(s.flight) + multiset(s.persisted) + multiset(s.dropped))[Source(c)];
  }

  /** The table would take the event: its link is there and every text is short enough. */
  ghost predicate Storable(urls: Rows, raw: Raw) {
    && (raw.urlId.Some? && raw.urlId.value in urls)
    && (raw.info.visitorHash.Some? ==> |raw.info.visitorHash.value| <= 64)
    && (raw.info.country.Some? ==> |raw.info.country.value| <= 2)
    && (raw.info.city.Some? ==> |raw.info.city.value| <= 100)
    && (raw.info.referrer.Some? ==> |raw.info.referrer.value| <= 2048)
    && (raw.info.userAgent.Some? ==> |raw.info.userAgent.value| <= 512)
    && (raw.info.browser.Some? ==> |raw.info.browser.value| <= 50)
    && (raw.info.os.Some? ==> |raw.info.os.value| <= 50)
    && (raw.info.device.Some? ==> |raw.info.device.value| <= 20)
  }

  /** How many events of the batch have a link and a time, and name this link. */
  function Arrived(batch: seq<Raw>, id: Id): nat {
    if batch == [] then 0
    else
      var last := batch[|batch| - 1];
      Arrived(batch[..|batch| - 1], id) + if last.urlId == Some(id) && last.timestamp.Some? then 1 else 0
  }

  lemma {:induction false} ArrivedCount(batch: seq<Raw>, id: Id)
    ensures CountFor(ParseAll(batch), id) == Arrived(batch, id)
  {
    if batch == [] {
    } else {
      var front, last := batch[..|batch| - 1], batch[|batch| - 1];
      ArrivedCount(front, id);
      CountForConcat(ParseAll(front), if Parse(last).Some? then [Parse(last).value] else [], id);
    }
  }

  /**
    The transaction on a batch goes through exactly when the table would take every event that has a link and a time.
    Then each such event is stored once, as it was queued, after the clicks that were there; each link's count grows by
    the events that name it, and nothing else changes.
   */
  lemma {:induction false} FlushLaw(db: Db, batch: seq<Raw>)
    ensures var after := Flushed(db, batch);
      && (after.Some? <==>
            forall raw :: raw in batch && raw.urlId.Some? && raw.timestamp.Some? ==> Storable(db.urls, raw))
      && (after.Some? ==>
            && db.clicks <= after.value.clicks
            && (forall c :: multiset(after.value.clicks)[c]
                            == multiset(db.clicks)[c] + multiset(batch)[Raw(Some(c.urlId), Some(c.createdAt), c.info)])
            && after.value.urls.Keys == db.urls.Keys
            && forall id :: id in db.urls ==>
                 after.value.urls[id] == db.urls[id].(clickCount := db.urls[id].clickCount + Arrived(batch, id)))
  {
    hide ParseAll, Credit, CountFor, Arrived;
    var clicks := ParseAll(batch);
    ParsedMembers(batch);
    assert Accepts(db.urls, clicks) <==>
           forall raw :: raw in batch && raw.urlId.Some? && raw.timestamp.Some? ==> Storable(db.urls, raw) by {
      AcceptsStorable(db.urls, batch);
    }
    hide Accepts, Storable;
    CreditAt(db.urls, clicks, 0);
    forall c ensures multiset(db.clicks + clicks)[c]
                     == multiset(db.clicks)[c] + multiset(batch)[Raw(Some(c.urlId), Some(c.createdAt), c.info)]
    {
      ParsedOnce(batch, c);
    }
    forall id | id in db.urls
      ensures Credit(db.urls, clicks)[id] == db.urls[id].(clickCount := db.urls[id].clickCount + Arrived(batch, id))
    {
      CreditAt(db.urls, clicks, id);
      ArrivedCount(batch, id);
    }
  }

  lemma {:induction false} AcceptsStorable(urls: Rows, batch: seq<Raw>)
    ensures Accepts(urls, ParseAll(batch)) <==>
            forall raw :: raw in batch && raw.urlId.Some? && raw.timestamp.Some? ==> Storable(urls, raw)
  {
    hide ParseAll;
    ParsedMembers(batch);
    if Accepts(urls, ParseAll(batch)) {
      forall raw | raw in batch && raw.urlId.Some? && raw.timestamp.Some? ensures Storable(urls, raw) {
        assert Parse(raw).value in ParseAll(batch);
      }
    } else {
      var c :| c in ParseAll(batch) && !(c.urlId in urls && Fits(c.info));
      var raw :| raw in batch && Parse(raw) == Some(c);
      assert !Storable(urls, raw);
    }
  }
}
