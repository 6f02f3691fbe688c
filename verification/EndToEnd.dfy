/**
  The whole path of a click, under concurrency. The transactions, warm-ups, clicks and lookups of the URL service and
  the steps of the batch workers interleave freely over one table. A redirect answers first; its event is pushed later,
  by a background task that may be lost; a worker pops it in a batch and either counts it or loses it.
 */
module EndToEnd {
  import opened Common
  import opened Schema
  import opened UrlCache
  import I = Interleaving
  import P = Pipeline

  /** What a redirect leaves for its background task to push. */
  datatype Visit = Visit(id: Id, info: ClientInfo)

  /**
    `inter` is the service and its cache, `pipe` the queue, the workers and the table with its click counts. `resolved`
    lists the links successful redirects led to, `pending` the pushes still to come, `undone` those that never will.
   */
  datatype System = System(
    inter: I.State,
    pipe: P.State,
    resolved: seq<Id>,
    pending: seq<Visit>,
    undone: seq<Visit>)

  /** A step of the service; a redirect, with its clock; the end of a background task; a step of a worker. */
  datatype Event =
    | Service(action: I.Action)
    | Redirect(code: string, info: ClientInfo, now: int)
    | Enqueue(i: nat, at: int)
    | LoseTask(i: nat)
    | Pop(w: nat)
    | CommitBatch(w: nat)
    | LoseBatch(w: nat)

  function Start(workers: nat): System {
    System(I.INIT, P.Init(workers), [], [], [])
  }

  /** The link a redirect leads to: from the cache unless it says the link has expired, else from the table. */
  function Answer(s: I.State, cfg: Config, code: string, now: int): Option<Id> {
    match I.Lookup(s, cfg, code)
    case Some(p) => if Expired(p.expiresAt, now) then None else Some(p.id)
    case None =>
      match FindActive(s.rows, code, now)
      case Found(row) => Some(row.id)
      case _ => None
  }

  /** What a commit does to the table. */
  function TableChange(s: I.State, a: I.Action): Option<P.Action> {
    if a.CommitTxn? && a.tx in s.txns then
      var t := s.txns[a.tx];
      match t.effect
      case Insert(row) => Some(P.CreateUrl(row))
      case Change(ch) => Some(P.UpdateUrl(t.id, ch))
      case Remove => Some(P.DeleteUrl(t.id))
    else None
  }

  /** A new row has no clicks. */
  predicate Enabled(a: I.Action) {
    a.BeginInsert? ==> a.row.clickCount == 0
  }

  function Perform(s: System, a: I.Action, batchSize: nat): System {
    var change := TableChange(s.inter, a);
    s.(inter := I.Next(s.inter, a),
       pipe := if change.Some? then P.Next(s.pipe, change.value, batchSize) else s.pipe)
  }

  function Without<T>(s: seq<T>, i: nat): seq<T>
    requires i < |s|
  {
    s[..i] + s[i + 1..]
  }

  /** The event a background task pushes. */
  function EventOf(v: Visit, at: int): P.Raw {
    P.Raw(Some(v.id), Some(at), v.info)
  }

  function Step(s: System, e: Event, cfg: Config, batchSize: nat): System {
    match e
    case Service(a) => if Enabled(a) then Perform(s, a, batchSize) else s
    case Redirect(code, info, now) =>
      var id := Answer(s.inter, cfg, code, now);
      if id == None then s
      else
        var inter := if I.Lookup(s.inter, cfg, code).Some? then s.inter else I.Next(s.inter, I.ReadForWarm(code, now));
        s.(inter := inter, resolved := s.resolved + [id.value], pending := s.pending + [Visit(id.value, info)])
    case Enqueue(i, at) =>
      if i >= |s.pending| then s
      else s.(pending := Without(s.pending, i),
              pipe := P.Next(s.pipe, P.Push(EventOf(s.pending[i], at)), batchSize))
    case LoseTask(i) =>
      if i >= |s.pending| then s
      else s.(pending := Without(s.pending, i), undone := s.undone + [s.pending[i]])
    case Pop(w) => s.(pipe := P.Next(s.pipe, P.Pop(w), batchSize))
    case CommitBatch(w) => s.(pipe := P.Next(s.pipe, P.CommitBatch(w), batchSize))
    case LoseBatch(w) => s.(pipe := P.Next(s.pipe, P.LoseBatch(w), batchSize))
  }

  function Run(s: System, events: seq<Event>, cfg: Config, batchSize: nat): System
    decreases |events|
  {
    if events == [] then s else Run(Step(s, events[0], cfg, batchSize), events[1..], cfg, batchSize)
  }

  // ---------------------------------------------------------------------------------------------------------------
  // Counting the clicks of one link
  // ---------------------------------------------------------------------------------------------------------------

  /** How many of these events name the link. */
  function Naming(raws: seq<P.Raw>, id: Id): nat {
    if raws == [] then 0
    else Naming(raws[..|raws| - 1], id) + if raws[|raws| - 1].urlId == Some(id) then 1 else 0
  }

  /** The events all workers hold. */
  function Held(flight: seq<seq<P.Raw>>): seq<P.Raw> {
    if flight == [] then [] else flight[0] + Held(flight[1..])
  }

  /** How many redirects led to the link. */
  function Times(ids: seq<Id>, id: Id): nat {
    if ids == [] then 0 else Times(ids[..|ids| - 1], id) + if ids[|ids| - 1] == id then 1 else 0
  }

  lemma {:induction false} NamingConcat(a: seq<P.Raw>, b: seq<P.Raw>, id: Id)
    ensures Naming(a + b, id) == Naming(a, id) + Naming(b, id)
  {
    if b == [] {
      assert a + b == a;
    } else {
      NamingConcat(a, b[..|b| - 1], id);
      assert (a + b)[..|a + b| - 1] == a + b[..|b| - 1];
    }
  }

  lemma {:induction false} OneNaming(raw: P.Raw, id: Id)
    ensures Naming([raw], id) == if raw.urlId == Some(id) then 1 else 0
  {
    assert [raw][..0] == [];
  }

  /** Taking one event out. */
  lemma {:induction false} NamingWithout(raws: seq<P.Raw>, j: nat, id: Id)
    requires j < |raws|
    ensures Naming(raws, id) == Naming(Without(raws, j), id) + if raws[j].urlId == Some(id) then 1 else 0
    ensures multiset(Without(raws, j)) == multiset(raws) - multiset{raws[j]}
  {
    var l, r := raws[..j], raws[j + 1..];
    assert raws == l + [raws[j]] + r;
    NamingConcat(l + [raws[j]], r, id);
    NamingConcat(l, [raws[j]], id);
    NamingConcat(l, r, id);
    OneNaming(raws[j], id);
  }

  /** The number does not depend on the order of the events. */
  lemma {:induction false} NamingAnyOrder(a: seq<P.Raw>, b: seq<P.Raw>, id: Id)
    requires multiset(a) == multiset(b)
    ensures Naming(a, id) == Naming(b, id)
    decreases |a|
  {
    hide Naming, Without;
    if a == [] {
      assert |multiset(b)| == 0;
    } else {
      assert a[0] in multiset(b);
      var j :| 0 <= j < |b| && b[j] == a[0];
      NamingWithout(a, 0, id);
      NamingWithout(b, j, id);
      NamingAnyOrder(Without(a, 0), Without(b, j), id);
    }
  }

  lemma {:induction false} HeldIsInFlight(flight: seq<seq<P.Raw>>)
    ensures multiset(Held(flight)) == P.InFlight(flight)
  {
    if flight == [] {
    } else {
      HeldIsInFlight(flight[1..]);
    }
  }

  lemma {:induction false} NamingClicks(raws: seq<P.Raw>, id: Id)
    requires forall raw :: raw in raws ==> P.Parse(raw).Some?
    ensures P.CountFor(P.ParseAll(raws), id) == Naming(raws, id)
  {
    if raws == [] {
    } else {
      var front, last := raws[..|raws| - 1], raws[|raws| - 1];
      NamingClicks(front, id);
      assert last in raws;
      var clicks, click := P.ParseAll(front), P.Parse(last).value;
      assert (clicks + [click])[..|clicks|] == clicks;
    }
  }

  lemma {:induction false} RestrictCounts(clicks: seq<Click>, ids: set<Id>, id: Id)
    requires id in ids
    ensures P.CountFor(P.Restrict(clicks, ids), id) == P.CountFor(clicks, id)
  {
    if clicks == [] {
    } else {
      var front, last := clicks[..|clicks| - 1], clicks[|clicks| - 1];
      RestrictCounts(front, ids, id);
      P.CountForConcat(P.Restrict(front, ids), if last.urlId in ids then [last] else [], id);
    }
  }

  lemma {:induction false} PushedSplits(p: P.State, id: Id)
    requires P.Conserved(p)
    ensures Naming(p.pushed, id)
            == Naming(p.queue, id) + Naming(Held(p.flight), id) + Naming(p.persisted, id) + Naming(p.dropped, id)
    ensures forall raw :: raw in p.persisted ==> raw in p.pushed
  {
    hide P.InFlight, Held, Naming;
    HeldIsInFlight(p.flight);
    var parts := p.queue + Held(p.flight) + p.persisted + p.dropped;
    assert multiset(p.pushed) == multiset(parts);
    NamingAnyOrder(p.pushed, parts, id);
    NamingConcat(p.queue + Held(p.flight) + p.persisted, p.dropped, id);
    NamingConcat(p.queue + Held(p.flight), p.persisted, id);
    NamingConcat(p.queue, Held(p.flight), id);
    forall raw | raw in p.persisted ensures raw in p.pushed {
      assert raw in multiset(parts);
    }
  }

  /** The click count of a link in the table is the number of persisted events that name it. */
  lemma {:induction false} CountIsPersisted(p: P.State, id: Id)
    requires P.StoredOnce(p) && P.CountersExact(p.db) && id in p.db.urls
    requires forall raw :: raw in p.persisted ==> P.Parse(raw).Some?
    ensures p.db.urls[id].clickCount == Naming(p.persisted, id)
  {
    hide P.Restrict, P.CountFor, P.ParseAll, Naming;
    RestrictCounts(P.ParseAll(p.persisted), p.db.urls.Keys, id);
    NamingClicks(p.persisted, id);
  }

  /** How many of these visits were to the link. */
  function VisitsTo(visits: seq<Visit>, id: Id): nat {
    if visits == [] then 0
    else VisitsTo(visits[..|visits| - 1], id) + if visits[|visits| - 1].id == id then 1 else 0
  }

  lemma {:induction false} VisitsConcat(a: seq<Visit>, b: seq<Visit>, id: Id)
    ensures VisitsTo(a + b, id) == VisitsTo(a, id) + VisitsTo(b, id)
  {
    if b == [] {
      assert a + b == a;
    } else {
      VisitsConcat(a, b[..|b| - 1], id);
      assert (a + b)[..|a + b| - 1] == a + b[..|b| - 1];
    }
  }

  lemma {:induction false} OneVisit(v: Visit, id: Id)
    ensures VisitsTo([v], id) == if v.id == id then 1 else 0
  {
    assert [v][..0] == [];
  }

  lemma {:induction false} VisitsWithout(visits: seq<Visit>, i: nat, id: Id)
    requires i < |visits|
    ensures VisitsTo(visits, id) == VisitsTo(Without(visits, i), id) + if visits[i].id == id then 1 else 0
  {
    var l, r := visits[..i], visits[i + 1..];
    assert visits == l + [visits[i]] + r;
    VisitsConcat(l + [visits[i]], r, id);
    VisitsConcat(l, [visits[i]], id);
    VisitsConcat(l, r, id);
    OneVisit(visits[i], id);
  }

  // ---------------------------------------------------------------------------------------------------------------
  // What every step keeps
  // ---------------------------------------------------------------------------------------------------------------

  /** Service and pipeline see one table; the service does not look at its click counts. */
  ghost predicate OneTable(i: I.State, p: P.State) {
    && p.used == i.inserted && p.db.urls.Keys == i.rows.Keys
    && (forall id :: id in i.rows ==> p.db.urls[id].(clickCount := 0) == i.rows[id].(clickCount := 0))
    && (forall id :: id in i.born ==> i.born[id].clickCount == 0)
  }

  ghost predicate PipeOk(p: P.State) {
    P.Conserved(p) && P.StoredOnce(p) && P.CountersExact(p.db)
  }

  ghost predicate AllParse(raws: seq<P.Raw>) {
    forall raw :: raw in raws ==> P.Parse(raw).Some?
  }

  /** Each successful redirect to the link was pushed, is still to be, or never will be. */
  predicate Recorded(s: System, id: Id) {
    Times(s.resolved, id) == Naming(s.pipe.pushed, id) + VisitsTo(s.pending, id) + VisitsTo(s.undone, id)
  }

  ghost predicate Ok(s: System) {
    && I.Inv(s.inter) && OneTable(s.inter, s.pipe) && PipeOk(s.pipe)
    && AllParse(s.pipe.pushed) && forall id :: Recorded(s, id)
  }

  lemma {:induction false} PipeStep(p: P.State, a: P.Action, batchSize: nat)
    requires PipeOk(p)
    ensures PipeOk(P.Next(p, a, batchSize))
    ensures P.Next(p, a, batchSize).pushed == p.pushed + if a.Push? then [a.raw] else []
  {
    P.StepConserves(p, a, batchSize);
    P.StepStores(p, a, batchSize);
    PushesOnly(p, a, batchSize);
  }

  lemma {:induction false} PushesOnly(p: P.State, a: P.Action, batchSize: nat)
    ensures P.Next(p, a, batchSize).pushed == p.pushed + if a.Push? then [a.raw] else []
  {
    hide P.Flushed, P.Malformed, P.Parsable, Cascade, Merge;
  }

  /** A worker's step, or a push, changes nothing of the table but click counts. */
  lemma {:induction false} WorkerKeepsTable(i: I.State, p: P.State, a: P.Action, batchSize: nat)
    requires OneTable(i, p) && (a.Push? || a.Pop? || a.CommitBatch? || a.LoseBatch?)
    ensures OneTable(i, P.Next(p, a, batchSize))
  {
    hide P.Credit, P.ParseAll, P.Parsable, P.Malformed, P.Accepts;
    if a.CommitBatch? && a.w < |p.flight| {
      var clicks := P.ParseAll(p.flight[a.w]);
      P.CreditAt(p.db.urls, clicks, 0);
      forall id | id in p.db.urls
        ensures P.Credit(p.db.urls, clicks)[id].(clickCount := 0) == p.db.urls[id].(clickCount := 0)
      {
        P.CreditAt(p.db.urls, clicks, id);
      }
    }
  }

  lemma {:induction false} QuietRows(i: I.State, a: I.Action)
    requires TableChange(i, a) == None
    ensures var i' := I.Next(i, a);
      && i'.rows == i.rows && i'.inserted == i.inserted
      && (i'.born == i.born || (a.BeginInsert? && i'.born == i.born[a.row.id := a.row]))
  {
    hide FindActive, I.Read, I.Commits, I.CanInsert, Merge, Serialize;
  }

  /** A step that commits nothing leaves the table alone. */
  lemma {:induction false} QuietTable(i: I.State, p: P.State, a: I.Action)
    requires OneTable(i, p) && Enabled(a) && TableChange(i, a) == None
    ensures OneTable(I.Next(i, a), p)
  {
    QuietRows(i, a);
    hide I.Next;
  }

  /** What a commit leaves of the service's table. */
  lemma {:induction false} CommittedRows(i: I.State, tx: nat)
    requires tx in i.txns
    ensures var t, i' := i.txns[tx], I.Next(i, I.CommitTxn(tx));
      && i'.born == i.born
      && i'.inserted == (if t.effect.Insert? then i.inserted + {t.effect.row.id} else i.inserted)
      && i'.rows == match t.effect
         case Insert(row) => i.rows[row.id := row]
         case Change(ch) => if t.id in i.rows then i.rows[t.id := Merge(i.rows[t.id], ch)] else i.rows
         case Remove => i.rows - {t.id}
  {
    hide Merge;
  }

  lemma {:induction false} InsertIsNew(i: I.State, tx: nat)
    requires I.Inv(i) && tx in i.txns && i.txns[tx].effect.Insert?
    ensures var row := i.txns[tx].effect.row; row.id in i.born && i.born[row.id] == row && row.id !in i.inserted
  {
    assert I.TxnOk(i, i.txns[tx]);
    hide I.SnapshotsOk, I.TxnsOk, I.CommitsOk, WellFormed;
  }

  lemma {:induction false} InsertTable(i: I.State, i': I.State, p: P.State, row: Row, batchSize: nat)
    requires OneTable(i, p) && row.id !in i.inserted && row.clickCount == 0
    requires i'.born == i.born && i'.inserted == i.inserted + {row.id} && i'.rows == i.rows[row.id := row]
    ensures OneTable(i', P.Next(p, P.CreateUrl(row), batchSize))
  {
  }

  lemma {:induction false} ChangeTable(i: I.State, i': I.State, p: P.State, id: Id, ch: Changes, batchSize: nat)
    requires OneTable(i, p) && i'.born == i.born && i'.inserted == i.inserted
    requires i'.rows == if id in i.rows then i.rows[id := Merge(i.rows[id], ch)] else i.rows
    ensures OneTable(i', P.Next(p, P.UpdateUrl(id, ch), batchSize))
  {
    if id in i.rows {
      MergeKeepsCount(p.db.urls[id], i.rows[id], ch);
      hide Merge;
    }
  }

  lemma {:induction false} MergeKeepsCount(a: Row, b: Row, ch: Changes)
    requires a.(clickCount := 0) == b.(clickCount := 0)
    ensures Merge(a, ch).(clickCount := 0) == Merge(b, ch).(clickCount := 0)
  {
  }

  lemma {:induction false} RemoveTable(i: I.State, i': I.State, p: P.State, id: Id, batchSize: nat)
    requires OneTable(i, p) && i'.born == i.born && i'.inserted == i.inserted && i'.rows == i.rows - {id}
    ensures OneTable(i', P.Next(p, P.DeleteUrl(id), batchSize))
  {
    hide Cascade;
  }

  /** A commit changes both views of the table alike. */
  lemma {:induction false} CommitTable(i: I.State, p: P.State, tx: nat, batchSize: nat)
    requires I.Inv(i) && OneTable(i, p) && tx in i.txns
    ensures OneTable(I.Next(i, I.CommitTxn(tx)), P.Next(p, TableChange(i, I.CommitTxn(tx)).value, batchSize))
  {
    var t, i' := i.txns[tx], I.Next(i, I.CommitTxn(tx));
    CommittedRows(i, tx);
    if t.effect.Insert? {
      InsertIsNew(i, tx);
      assert i.born[t.effect.row.id].clickCount == 0;
    }
    hide I.Inv, I.Next, P.Next, OneTable, Merge;
    match t.effect
    case Insert(row) => InsertTable(i, i', p, row, batchSize);
    case Change(ch) => ChangeTable(i, i', p, t.id, ch, batchSize);
    case Remove => RemoveTable(i, i', p, t.id, batchSize);
  }

  lemma {:induction false} PerformTable(s: System, a: I.Action, batchSize: nat)
    requires I.Inv(s.inter) && OneTable(s.inter, s.pipe) && PipeOk(s.pipe) && Enabled(a)
    ensures var s' := Perform(s, a, batchSize);
      OneTable(s'.inter, s'.pipe) && PipeOk(s'.pipe) && s'.pipe.pushed == s.pipe.pushed
  {
    hide I.Inv, PipeOk, I.Next, P.Next, OneTable, Enabled;
    var change := TableChange(s.inter, a);
    if change.Some? {
      CommitTable(s.inter, s.pipe, a.tx, batchSize);
      PipeStep(s.pipe, change.value, batchSize);
      assert s.pipe.pushed + [] == s.pipe.pushed;
    } else {
      QuietTable(s.inter, s.pipe, a);
    }
  }

  /** Nothing is pushed, resolved or left undone. */
  lemma {:induction false} SameRecord(s: System, s': System, id: Id)
    requires Recorded(s, id) && s'.pipe.pushed == s.pipe.pushed
    requires s'.resolved == s.resolved && s'.pending == s.pending && s'.undone == s.undone
    ensures Recorded(s', id)
  {
  }

  lemma {:induction false} PerformKeepsOk(s: System, a: I.Action, batchSize: nat)
    requires Ok(s) && Enabled(a)
    ensures Ok(Perform(s, a, batchSize))
  {
    I.StepKeepsInv(s.inter, a);
    PerformTable(s, a, batchSize);
    hide I.Inv, PipeOk, AllParse, I.Next, P.Next, Recorded, OneTable, Enabled, TableChange;
    var s' := Perform(s, a, batchSize);
    forall id ensures Recorded(s', id) {
      SameRecord(s, s', id);
    }
  }

  lemma {:induction false} RedirectKeepsOk(s: System, code: string, info: ClientInfo, now: int, cfg: Config,
                                           batchSize: nat)
    requires Ok(s)
    ensures Ok(Step(s, Redirect(code, info, now), cfg, batchSize))
  {
    I.StepKeepsInv(s.inter, I.ReadForWarm(code, now));
    QuietTable(s.inter, s.pipe, I.ReadForWarm(code, now));
    hide I.Inv, OneTable, PipeOk, AllParse, I.Next, Answer, I.Lookup;
    var answer := Answer(s.inter, cfg, code, now);
    if answer.Some? {
      var v := Visit(answer.value, info);
      forall id ensures Recorded(Step(s, Redirect(code, info, now), cfg, batchSize), id) {
        assert Recorded(s, id);
        VisitsConcat(s.pending, [v], id);
        OneVisit(v, id);
        assert (s.resolved + [v.id])[..|s.resolved|] == s.resolved;
      }
    }
  }

  lemma {:induction false} TaskRecorded(s: System, i: nat, raw: P.Raw, id: Id)
    requires Recorded(s, id) && i < |s.pending| && raw.urlId == Some(s.pending[i].id)
    ensures Times(s.resolved, id) == Naming(s.pipe.pushed + [raw], id) + VisitsTo(Without(s.pending, i), id)
                                     + VisitsTo(s.undone, id)
    ensures Times(s.resolved, id) == Naming(s.pipe.pushed, id) + VisitsTo(Without(s.pending, i), id)
                                     + VisitsTo(s.undone + [s.pending[i]], id)
  {
    VisitsWithout(s.pending, i, id);
    VisitsConcat(s.undone, [s.pending[i]], id);
    OneVisit(s.pending[i], id);
    assert (s.pipe.pushed + [raw])[..|s.pipe.pushed|] == s.pipe.pushed;
  }

  lemma {:induction false} EnqueueKeepsOk(s: System, i: nat, at: int, cfg: Config, batchSize: nat)
    requires Ok(s) && i < |s.pending|
    ensures Ok(Step(s, Enqueue(i, at), cfg, batchSize))
  {
    var raw := EventOf(s.pending[i], at);
    PipeStep(s.pipe, P.Push(raw), batchSize);
    WorkerKeepsTable(s.inter, s.pipe, P.Push(raw), batchSize);
    hide I.Inv, OneTable, PipeOk, P.Next, Without;
    forall id ensures Recorded(Step(s, Enqueue(i, at), cfg, batchSize), id) {
      assert Recorded(s, id);
      TaskRecorded(s, i, raw, id);
    }
  }

  lemma {:induction false} LoseTaskKeepsOk(s: System, i: nat, cfg: Config, batchSize: nat)
    requires Ok(s) && i < |s.pending|
    ensures Ok(Step(s, LoseTask(i), cfg, batchSize))
  {
    hide I.Inv, OneTable, PipeOk, P.Next, Without;
    forall id ensures Recorded(Step(s, LoseTask(i), cfg, batchSize), id) {
      assert Recorded(s, id);
      TaskRecorded(s, i, EventOf(s.pending[i], 0), id);
    }
  }

  lemma {:induction false} WorkKeepsOk(s: System, a: P.Action, batchSize: nat)
    requires Ok(s) && (a.Pop? || a.CommitBatch? || a.LoseBatch?)
    ensures Ok(s.(pipe := P.Next(s.pipe, a, batchSize)))
  {
    PipeStep(s.pipe, a, batchSize);
    WorkerKeepsTable(s.inter, s.pipe, a, batchSize);
    hide I.Inv, OneTable, PipeOk, P.Next, Recorded;
    assert s.pipe.pushed + [] == s.pipe.pushed;
    forall id ensures Recorded(s.(pipe := P.Next(s.pipe, a, batchSize)), id) {
      SameRecord(s, s.(pipe := P.Next(s.pipe, a, batchSize)), id);
    }
  }

  lemma {:induction false} StepKeepsOk(s: System, e: Event, cfg: Config, batchSize: nat)
    requires Ok(s)
    ensures Ok(Step(s, e, cfg, batchSize))
  {
    hide Ok, Perform, Enabled, P.Next, Answer;
    match e
    case Service(a) => if Enabled(a) { PerformKeepsOk(s, a, batchSize); }
    case Redirect(code, info, now) => RedirectKeepsOk(s, code, info, now, cfg, batchSize);
    case Enqueue(i, at) => if i < |s.pending| { EnqueueKeepsOk(s, i, at, cfg, batchSize); }
    case LoseTask(i) => if i < |s.pending| { LoseTaskKeepsOk(s, i, cfg, batchSize); }
    case Pop(w) => WorkKeepsOk(s, P.Pop(w), batchSize);
    case CommitBatch(w) => WorkKeepsOk(s, P.CommitBatch(w), batchSize);
    case LoseBatch(w) => WorkKeepsOk(s, P.LoseBatch(w), batchSize);
  }

  lemma {:induction false} RunKeepsOk(s: System, events: seq<Event>, cfg: Config, batchSize: nat)
    requires Ok(s)
    ensures Ok(Run(s, events, cfg, batchSize))
    decreases |events|
  {
    hide Ok, Step;
    if events == [] {
    } else {
      StepKeepsOk(s, events[0], cfg, batchSize);
      RunKeepsOk(Step(s, events[0], cfg, batchSize), events[1..], cfg, batchSize);
    }
  }

  lemma {:induction false} StartIsOk(workers: nat)
    ensures Ok(Start(workers))
  {
    P.NothingInFlight(workers);
  }

  lemma {:induction false} Reachable(workers: nat, events: seq<Event>, cfg: Config, batchSize: nat)
    ensures Ok(Run(Start(workers), events, cfg, batchSize))
  {
    hide Ok, Start;
    StartIsOk(workers);
    RunKeepsOk(Start(workers), events, cfg, batchSize);
  }

  /** Redirects to the link whose event has not reached a worker's transaction yet. */
  function Waiting(s: System, id: Id): nat {
    VisitsTo(s.pending, id) + Naming(s.pipe.queue, id) + Naming(Held(s.pipe.flight), id)
  }

  /** Redirects to the link whose event is gone. */
  function Lost(s: System, id: Id): nat {
    VisitsTo(s.undone, id) + Naming(s.pipe.dropped, id)
  }

  /**
    Under any interleaving, for every link: each successful redirect to it is counted in its click_count, waits, or is
    lost. Once the link is deleted its persisted events stand for the count.
   */
  lemma {:induction false} EveryRedirectIsCounted(workers: nat, events: seq<Event>, cfg: Config, batchSize: nat, id: Id)
    ensures var s := Run(Start(workers), events, cfg, batchSize);
      && Times(s.resolved, id) == Naming(s.pipe.persisted, id) + Waiting(s, id) + Lost(s, id)
      && (id in s.pipe.db.urls ==>
            Times(s.resolved, id) == s.pipe.db.urls[id].clickCount + Waiting(s, id) + Lost(s, id))
  {
    var s := Run(Start(workers), events, cfg, batchSize);
    Reachable(workers, events, cfg, batchSize);
    assert Recorded(s, id);
    hide Run, Naming, Times, Held, VisitsTo, P.Conserved, P.StoredOnce, P.CountersExact, I.Inv, OneTable;
    PushedSplits(s.pipe, id);
    if id in s.pipe.db.urls {
      CountIsPersisted(s.pipe, id);
    }
  }

  /**
    Which link a redirect leads to: that of a live entry unless the entry says it has expired; without one, that of the
    active row with the code whose expiry, if any, lies in the future.
   */
  lemma {:induction false} AnswerExactly(workers: nat, events: seq<Event>, cfg: Config, batchSize: nat, code: string,
                                         now: int, id: Id)
    ensures var i := Run(Start(workers), events, cfg, batchSize).inter;
      Answer(i, cfg, code, now) == Some(id) <==>
      match I.Lookup(i, cfg, code)
      case Some(p) => p.id == id && (p.expiresAt == None || now < p.expiresAt.value)
      case None =>
        && id in i.rows && i.rows[id].shortCode == code && i.rows[id].isActive
        && (i.rows[id].expiresAt == None || now < i.rows[id].expiresAt.value)
  {
    hide Run, OneTable, PipeOk, AllParse, Recorded, I.TxnsOk, I.CommitsOk, I.SnapshotsOk, I.Lookup;
    hide FindActive, FindByCode;
    var i := Run(Start(workers), events, cfg, batchSize).inter;
    Reachable(workers, events, cfg, batchSize);
    CodesNameOneRow(i.rows, code, now);
    if id in i.rows {
      assert i.rows[id].id == id;
    }
  }

  /** A redirect that missed and was answered leaves a warm-up of that row; one that hit leaves the service alone. */
  lemma {:induction false} MissWarms(workers: nat, events: seq<Event>, cfg: Config, batchSize: nat, code: string,
                                     info: ClientInfo, now: int)
    ensures var s := Run(Start(workers), events, cfg, batchSize);
      var s' := Step(s, Redirect(code, info, now), cfg, batchSize);
      match Answer(s.inter, cfg, code, now)
      case None => s' == s
      case Some(id) =>
        if I.Lookup(s.inter, cfg, code).Some? then s'.inter == s.inter
        else
          && id in s.inter.rows
          && exists snap :: (code, snap) in s'.inter.warms && snap.payload == Serialize(s.inter.rows[id])
  {
    hide Run, I.Inv, OneTable, PipeOk, AllParse, Recorded, Answer, I.Lookup, I.Next;
    var i := Run(Start(workers), events, cfg, batchSize).inter;
    Reachable(workers, events, cfg, batchSize);
    if I.Lookup(i, cfg, code) == None && Answer(i, cfg, code, now).Some? {
      ReadsTheRow(i, cfg, code, now);
    }
  }

  lemma {:induction false} ReadsTheRow(i: I.State, cfg: Config, code: string, now: int)
    requires I.Inv(i) && I.Lookup(i, cfg, code) == None && Answer(i, cfg, code, now).Some?
    ensures var id := Answer(i, cfg, code, now).value;
      && id in i.rows
      && exists snap ::
           (code, snap) in I.Next(i, I.ReadForWarm(code, now)).warms && snap.payload == Serialize(i.rows[id])
  {
    hide FindActive, FindByCode, WellFormed, I.TxnsOk, I.CommitsOk, I.SnapshotsOk, I.Lookup, Serialize, I.Version;
    CodesNameOneRow(i.rows, code, now);
    var row := FindActive(i.rows, code, now).row;
    assert (code, I.Read(i, row)) in I.Next(i, I.ReadForWarm(code, now)).warms;
  }

  // Where a stored click comes from ----------------------------------------------------------------------------------

  /** The system after the first `k` events. */
  function After(workers: nat, events: seq<Event>, cfg: Config, batchSize: nat, k: nat): System
    requires k <= |events|
  {
    if k == 0 then Start(workers)
    else Step(After(workers, events, cfg, batchSize, k - 1), events[k - 1], cfg, batchSize)
  }

  lemma {:induction false} RunAppend(s: System, events: seq<Event>, e: Event, cfg: Config, batchSize: nat)
    ensures Run(s, events + [e], cfg, batchSize) == Step(Run(s, events, cfg, batchSize), e, cfg, batchSize)
    decreases |events|
  {
    hide Step;
    if events == [] {
      assert [] + [e] == [e] && [e][1..] == [];
    } else {
      assert (events + [e])[1..] == events[1..] + [e];
      RunAppend(Step(s, events[0], cfg, batchSize), events[1..], e, cfg, batchSize);
    }
  }

  lemma {:induction false} AfterIsRun(workers: nat, events: seq<Event>, cfg: Config, batchSize: nat, k: nat)
    requires k <= |events|
    ensures After(workers, events, cfg, batchSize, k) == Run(Start(workers), events[..k], cfg, batchSize)
  {
    hide Step;
    if k == 0 {
    } else {
      AfterIsRun(workers, events, cfg, batchSize, k - 1);
      RunAppend(Start(workers), events[..k - 1], events[k - 1], cfg, batchSize);
      assert events[..k] == events[..k - 1] + [events[k - 1]];
    }
  }

  /** The links that the redirects among the first `k` events led to, in order. */
  function Successes(workers: nat, events: seq<Event>, cfg: Config, batchSize: nat, k: nat): seq<Id>
    requires k <= |events|
  {
    if k == 0 then []
    else
      var e := events[k - 1];
      var before := Successes(workers, events, cfg, batchSize, k - 1);
      if !e.Redirect? then before
      else match Answer(After(workers, events, cfg, batchSize, k - 1).inter, cfg, e.code, e.now)
        case Some(id) => before + [id]
        case None => before
  }

  lemma {:induction false} SuccessesAfter(workers: nat, events: seq<Event>, cfg: Config, batchSize: nat, k: nat)
    requires k <= |events|
    ensures After(workers, events, cfg, batchSize, k).resolved == Successes(workers, events, cfg, batchSize, k)
  {
    hide P.Next, I.Next, Answer;
    if k == 0 {
    } else {
      SuccessesAfter(workers, events, cfg, batchSize, k - 1);
    }
  }

  /** What is counted as resolved are the successful redirects of the run, no more and no fewer. */
  lemma {:induction false} ResolvedAreTheSuccesses(workers: nat, events: seq<Event>, cfg: Config, batchSize: nat)
    ensures Run(Start(workers), events, cfg, batchSize).resolved
            == Successes(workers, events, cfg, batchSize, |events|)
  {
    hide Run, After, Successes;
    SuccessesAfter(workers, events, cfg, batchSize, |events|);
    AfterIsRun(workers, events, cfg, batchSize, |events|);
    assert events[..|events|] == events;
  }

  /** One of the first `k` events is a redirect by this visitor that led to the link. */
  ghost predicate Visited(workers: nat, events: seq<Event>, cfg: Config, batchSize: nat, k: nat, id: Id,
                          info: ClientInfo)
    requires k <= |events|
  {
    exists j :: 0 <= j < k && events[j].Redirect? && events[j].info == info
                && Answer(After(workers, events, cfg, batchSize, j).inter, cfg, events[j].code, events[j].now)
                   == Some(id)
  }

  /** One of the first `k` events ends a background task at this time. */
  ghost predicate EnqueuedAt(events: seq<Event>, k: nat, at: int)
    requires k <= |events|
  {
    exists j :: 0 <= j < k && events[j].Enqueue? && events[j].at == at
  }

  /** What waits and what was pushed goes back to visits. */
  ghost predicate Traced(workers: nat, events: seq<Event>, cfg: Config, batchSize: nat, k: nat)
    requires k <= |events|
  {
    var s := After(workers, events, cfg, batchSize, k);
    && (forall v :: v in s.pending ==> Visited(workers, events, cfg, batchSize, k, v.id, v.info))
    && (forall raw :: raw in s.pipe.pushed ==>
          && raw.urlId.Some? && Visited(workers, events, cfg, batchSize, k, raw.urlId.value, raw.info)
          && raw.timestamp.Some? && EnqueuedAt(events, k, raw.timestamp.value))
  }

  /** What a step adds to the pending visits and to the pushed events. */
  lemma {:induction false} StepAdds(s: System, e: Event, cfg: Config, batchSize: nat)
    ensures var s' := Step(s, e, cfg, batchSize);
      && (forall v :: v in s'.pending ==>
            || v in s.pending
            || (e.Redirect? && v == Visit(v.id, e.info) && Answer(s.inter, cfg, e.code, e.now) == Some(v.id)))
      && (s'.pipe.pushed == s.pipe.pushed
          || (e.Enqueue? && e.i < |s.pending|
              && s'.pipe.pushed == s.pipe.pushed + [P.Raw(Some(s.pending[e.i].id), Some(e.at), s.pending[e.i].info)]))
  {
    hide P.Next, I.Next, Answer;
    match e
    case Service(a) =>
      var change := TableChange(s.inter, a);
      if change.Some? {
        PushesOnly(s.pipe, change.value, batchSize);
        assert s.pipe.pushed + [] == s.pipe.pushed;
      }
    case Redirect(code, info, now) =>
    case Enqueue(i, at) =>
      if i < |s.pending| {
        PushesOnly(s.pipe, P.Push(EventOf(s.pending[i], at)), batchSize);
      }
    case LoseTask(i) =>
    case Pop(w) =>
      PushesOnly(s.pipe, P.Pop(w), batchSize);
      assert s.pipe.pushed + [] == s.pipe.pushed;
    case CommitBatch(w) =>
      PushesOnly(s.pipe, P.CommitBatch(w), batchSize);
      assert s.pipe.pushed + [] == s.pipe.pushed;
    case LoseBatch(w) =>
      PushesOnly(s.pipe, P.LoseBatch(w), batchSize);
      assert s.pipe.pushed + [] == s.pipe.pushed;
  }

  lemma {:induction false} AllTraced(workers: nat, events: seq<Event>, cfg: Config, batchSize: nat, k: nat)
    requires k <= |events|
    ensures Traced(workers, events, cfg, batchSize, k)
  {
    hide Step, Answer;
    if k == 0 {
    } else {
      AllTraced(workers, events, cfg, batchSize, k - 1);
      var s, e := After(workers, events, cfg, batchSize, k - 1), events[k - 1];
      StepAdds(s, e, cfg, batchSize);
      hide After;
      forall id, info | Visited(workers, events, cfg, batchSize, k - 1, id, info)
        ensures Visited(workers, events, cfg, batchSize, k, id, info)
      {
      }
      forall at | EnqueuedAt(events, k - 1, at) ensures EnqueuedAt(events, k, at) {
      }
    }
  }

  /**
    Every stored click goes back to a successful redirect to that very link by that very visitor, and carries the time
    at which its background task ended.
   */
  lemma {:induction false} StoredClickWasVisited(workers: nat, events: seq<Event>, cfg: Config, batchSize: nat,
                                                 c: Click)
    requires c in Run(Start(workers), events, cfg, batchSize).pipe.db.clicks
    ensures Visited(workers, events, cfg, batchSize, |events|, c.urlId, c.info)
    ensures EnqueuedAt(events, |events|, c.createdAt)
  {
    var s := Run(Start(workers), events, cfg, batchSize);
    Reachable(workers, events, cfg, batchSize);
    AllTraced(workers, events, cfg, batchSize, |events|);
    AfterIsRun(workers, events, cfg, batchSize, |events|);
    assert events[..|events|] == events;
    hide Run, After, Visited, EnqueuedAt, I.Inv, OneTable, P.CountersExact, P.ParseAll, P.Restrict, P.InFlight;
    PushedSplits(s.pipe, c.urlId);
    P.ParsedOnce(s.pipe.persisted, c);
    P.RestrictedOnce(P.ParseAll(s.pipe.persisted), s.pipe.db.urls.Keys, c);
    assert multiset(s.pipe.db.clicks)[c] > 0;
    assert P.Raw(Some(c.urlId), Some(c.createdAt), c.info) in s.pipe.persisted;
  }

  // ---------------------------------------------------------------------------------------------------------------
  // Runs in which every redirect ends up counted
  // ---------------------------------------------------------------------------------------------------------------

  /** The step loses nothing: no task, no worker with a batch, no event of a committed batch. */
  predicate LosesNothing(s: System, e: Event) {
    match e
    case LoseTask(i) => i >= |s.pending|
    case CommitBatch(w) => P.LosesNothing(s.pipe, P.CommitBatch(w))
    case LoseBatch(w) => P.LosesNothing(s.pipe, P.LoseBatch(w))
    case _ => true
  }

  predicate Lossless(s: System, events: seq<Event>, cfg: Config, batchSize: nat)
    decreases |events|
  {
    events != [] ==>
      LosesNothing(s, events[0]) && Lossless(Step(s, events[0], cfg, batchSize), events[1..], cfg, batchSize)
  }

  /** What was lost, of tasks and of events. */
  function Losses(s: System): nat {
    |s.undone| + |s.pipe.dropped|
  }

  lemma {:induction false} StepLosses(s: System, e: Event, cfg: Config, batchSize: nat)
    ensures Losses(s) <= Losses(Step(s, e, cfg, batchSize))
    ensures Losses(Step(s, e, cfg, batchSize)) == Losses(s) <==> LosesNothing(s, e)
  {
    hide P.Next, P.LosesNothing, Answer;
    match e
    case Service(a) =>
      var change := TableChange(s.inter, a);
      if change.Some? {
        NoDrops(s.pipe, change.value, batchSize);
      }
    case Redirect(code, info, now) =>
    case Enqueue(i, at) =>
      if i < |s.pending| {
        NoDrops(s.pipe, P.Push(EventOf(s.pending[i], at)), batchSize);
      }
    case LoseTask(i) =>
    case Pop(w) => NoDrops(s.pipe, P.Pop(w), batchSize);
    case CommitBatch(w) => Drops(s.pipe, P.CommitBatch(w), batchSize);
    case LoseBatch(w) => Drops(s.pipe, P.LoseBatch(w), batchSize);
  }

  lemma {:induction false} NoDrops(p: P.State, a: P.Action, batchSize: nat)
    requires !a.CommitBatch? && !a.LoseBatch?
    ensures P.Next(p, a, batchSize).dropped == p.dropped
  {
    hide Cascade, Merge;
  }

  lemma {:induction false} Drops(p: P.State, a: P.Action, batchSize: nat)
    ensures |p.dropped| <= |P.Next(p, a, batchSize).dropped|
    ensures |P.Next(p, a, batchSize).dropped| == |p.dropped| <==> P.LosesNothing(p, a)
  {
    hide P.Next, P.LosesNothing;
    P.StepDrops(p, a, batchSize);
    var after := P.Next(p, a, batchSize).dropped;
    if |after| == |p.dropped| {
      assert after == p.dropped;
    }
  }

  lemma {:induction false} RunLosses(s: System, events: seq<Event>, cfg: Config, batchSize: nat)
    ensures Losses(s) <= Losses(Run(s, events, cfg, batchSize))
    ensures Losses(Run(s, events, cfg, batchSize)) == Losses(s) <==> Lossless(s, events, cfg, batchSize)
    decreases |events|
  {
    hide Step, Losses, LosesNothing;
    if events == [] {
    } else {
      StepLosses(s, events[0], cfg, batchSize);
      RunLosses(Step(s, events[0], cfg, batchSize), events[1..], cfg, batchSize);
    }
  }

  /**
    The step cannot cause a loss: no task or worker is lost, no deletion begins, and a redirect leads to a link whose
    insert has committed, for a visitor whose headers fit the columns of click_events.
   */
  predicate CalmStep(s: System, e: Event, cfg: Config) {
    match e
    case Service(a) => !a.BeginRemove?
    case Redirect(code, info, now) =>
      var id := Answer(s.inter, cfg, code, now);
      id.Some? ==> id.value in s.inter.rows && Fits(info)
    case LoseTask(_) => false
    case LoseBatch(_) => false
    case _ => true
  }

  predicate Calm(s: System, events: seq<Event>, cfg: Config, batchSize: nat)
    decreases |events|
  {
    events != [] ==>
      CalmStep(s, events[0], cfg) && Calm(Step(s, events[0], cfg, batchSize), events[1..], cfg, batchSize)
  }

  /** Everything on its way will land, and no deletion is open. */
  ghost predicate Safe(s: System) {
    && P.AllLand(s.pipe) && NoRemoval(s.inter)
    && forall v :: v in s.pending ==> v.id in s.pipe.db.urls && Fits(v.info)
  }

  ghost predicate NoRemoval(i: I.State) {
    forall tx :: tx in i.txns ==> !i.txns[tx].effect.Remove?
  }

  lemma {:induction false} NoRemovalStays(i: I.State, a: I.Action)
    requires NoRemoval(i) && !a.BeginRemove?
    ensures NoRemoval(I.Next(i, a))
    ensures var change := TableChange(i, a);
      change.Some? ==> change.value.CreateUrl? || change.value.UpdateUrl?
  {
    hide FindActive, I.Read, I.CanInsert, Merge;
  }

  /** A benign step of the pipeline. */
  lemma {:induction false} BenignPipe(s: System, a: P.Action, batchSize: nat)
    requires Safe(s) && P.Benign(s.pipe, a)
    ensures Safe(s.(pipe := P.Next(s.pipe, a, batchSize))) && P.LosesNothing(s.pipe, a)
  {
    P.BenignStep(s.pipe, a, batchSize);
    P.UrlsStay(s.pipe, a, batchSize);
    hide P.AllLand, P.Next, NoRemoval, Fits;
    forall v | v in s.pending ensures v.id in P.Next(s.pipe, a, batchSize).db.urls {
      assert v.id in s.pipe.db.urls.Keys;
    }
  }

  lemma {:induction false} CalmKeepsSafe(s: System, e: Event, cfg: Config, batchSize: nat)
    requires Ok(s) && Safe(s) && CalmStep(s, e, cfg)
    ensures Safe(Step(s, e, cfg, batchSize)) && LosesNothing(s, e)
  {
    hide P.AllLand, P.Next, I.Next, I.Inv, PipeOk, AllParse, Answer, Fits, P.LosesNothing, NoRemoval;
    match e
    case Service(a) =>
      NoRemovalStays(s.inter, a);
      var change := TableChange(s.inter, a);
      if change.Some? {
        BenignPipe(s, change.value, batchSize);
      }
    case Redirect(code, info, now) =>
      NoRemovalStays(s.inter, I.ReadForWarm(code, now));
    case Enqueue(i, at) =>
      if i < |s.pending| {
        assert s.pending[i] in s.pending;
        BenignPipe(s, P.Push(EventOf(s.pending[i], at)), batchSize);
      }
    case Pop(w) => BenignPipe(s, P.Pop(w), batchSize);
    case CommitBatch(w) => BenignPipe(s, P.CommitBatch(w), batchSize);
  }

  lemma {:induction false} CalmIsLossless(s: System, events: seq<Event>, cfg: Config, batchSize: nat)
    requires Ok(s) && Safe(s) && Calm(s, events, cfg, batchSize)
    ensures Lossless(s, events, cfg, batchSize)
    decreases |events|
  {
    hide Ok, Safe, Step, CalmStep, LosesNothing;
    if events == [] {
    } else {
      StepKeepsOk(s, events[0], cfg, batchSize);
      CalmKeepsSafe(s, events[0], cfg, batchSize);
      CalmIsLossless(Step(s, events[0], cfg, batchSize), events[1..], cfg, batchSize);
    }
  }

  /**
    Nothing is lost exactly when no step loses anything, and so in every calm run; then a link's click_count is the
    number of successful redirects to it less those that still wait.
   */
  lemma {:induction false} LosslessRunsCountAll(workers: nat, events: seq<Event>, cfg: Config, batchSize: nat)
    ensures var s := Run(Start(workers), events, cfg, batchSize);
      && (s.undone == [] && s.pipe.dropped == [] <==> Lossless(Start(workers), events, cfg, batchSize))
      && (Calm(Start(workers), events, cfg, batchSize) ==> Lossless(Start(workers), events, cfg, batchSize))
      && (Lossless(Start(workers), events, cfg, batchSize) ==> forall id :: id in s.pipe.db.urls ==>
            s.pipe.db.urls[id].clickCount == Times(s.resolved, id) - Waiting(s, id))
  {
    var s := Run(Start(workers), events, cfg, batchSize);
    StartIsOk(workers);
    RunLosses(Start(workers), events, cfg, batchSize);
    assert Safe(Start(workers)) && Losses(Start(workers)) == 0;
    hide Ok, Safe, Start, Run, Lossless, Calm, Times, Waiting;
    if Calm(Start(workers), events, cfg, batchSize) {
      CalmIsLossless(Start(workers), events, cfg, batchSize);
    }
    if Lossless(Start(workers), events, cfg, batchSize) {
      forall id | id in s.pipe.db.urls ensures s.pipe.db.urls[id].clickCount == Times(s.resolved, id) - Waiting(s, id) {
        EveryRedirectIsCounted(workers, events, cfg, batchSize, id);
        assert Lost(s, id) == 0;
      }
    }
  }
}
