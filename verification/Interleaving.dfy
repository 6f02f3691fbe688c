/**
  The same cache and table under concurrency. A transaction invalidates the cache first and commits later, or aborts;
  a redirect that missed reads the table now and writes the cache later, or never; clicks and time renew and end the
  life of cache entries. Every action is one atomic step, and the steps of any number of requests interleave freely.
 */
module Interleaving {
  import opened Common
  import opened Schema
  import opened UrlCache

  /** A serialized row on its way to the cache or in it: when it was read, and how many commits the row had then. */
  datatype Snapshot = Snapshot(payload: Payload, readAt: nat, version: nat)

  /** What was last put under a code, in which step, and as which command of the cache. */
  datatype Entry = Entry(snap: Snapshot, writtenAt: nat, putAt: nat)

  datatype Effect = Insert(row: Row) | Change(changes: Changes) | Remove

  /** An open transaction on one row. Its cache command ran at `invalidatedAt`. */
  datatype Txn = Txn(id: Id, effect: Effect, invalidatedAt: nat)

  /** A committed update or delete. */
  datatype Commit = Commit(id: Id, invalidatedAt: nat, committedAt: nat)

  /**
    `born` is every row ever inserted, as inserted, even if its transaction never commits; `inserted` are the ids
    whose insert committed; `versions` counts the committed updates and deletes of a row. `log` is every command Redis
    has run; `cache` holds what was last put under a code and not dropped since, whether or not it is still live.
   */
  datatype State = State(
    step: nat,
    rows: Rows,
    born: Rows,
    inserted: set<Id>,
    versions: map<Id, nat>,
    cache: map<string, Entry>,
    warms: set<(string, Snapshot)>,
    txns: map<nat, Txn>,
    commits: seq<Commit>,
    log: seq<Command>)

  const INIT := State(0, map[], map[], {}, map[], map[], {}, map[], [], [])

  datatype Action =
    | BeginInsert(tx: nat, row: Row)
    | BeginChange(tx: nat, id: Id, changes: Changes)
    | BeginRemove(tx: nat, id: Id)
    | CommitTxn(tx: nat)
    | AbortTxn(tx: nat)
    | ReadForWarm(code: string, now: int)
    | RunWarm(code: string, snap: Snapshot)
    | DropWarm(code: string, snap: Snapshot)
    | TrackClick(code: string)
    | Tick(dt: nat)

  /** A new row under a fresh id whose code no committed or half-inserted row holds. */
  predicate CanInsert(s: State, tx: nat, row: Row) {
    && tx !in s.txns && row.id !in s.born && row.isActive && AliasIsCode(row)
    && (forall id | id in s.rows :: s.rows[id].shortCode != row.shortCode)
    && (forall t | t in s.txns :: s.txns[t].effect.Insert? ==> s.txns[t].effect.row.shortCode != row.shortCode)
  }

  function Commits(s: State, tx: nat): State
    requires tx in s.txns
  {
    var t := s.txns[tx];
    var s := s.(txns := s.txns - {tx});
    match t.effect
    case Insert(row) => s.(rows := s.rows[row.id := row], inserted := s.inserted + {row.id})
    case Change(ch) => if t.id in s.rows then Committed(s.(rows := s.rows[t.id := Merge(s.rows[t.id], ch)]), t) else s
    case Remove => if t.id in s.rows then Committed(s.(rows := s.rows - {t.id}), t) else s
  }

  function Committed(s: State, t: Txn): State {
    s.(versions := s.versions[t.id := Version(s, t.id) + 1],
       commits := s.commits + [Commit(t.id, t.invalidatedAt, s.step)])
  }

  function Version(s: State, id: Id): nat {
    if id in s.versions then s.versions[id] else 0
  }

  function Read(s: State, row: Row): Snapshot {
    Snapshot(Serialize(row), s.step, Version(s, row.id))
  }

  function Dropping(s: State, code: string): State {
    s.(cache := s.cache - {code}, log := s.log + [Drop(code)])
  }

  /** The effect of an action; one that is not enabled does nothing. */
  function Act(s: State, a: Action): State {
    match a
    case BeginInsert(tx, row) =>
      if CanInsert(s, tx, row) then
        s.(born := s.born[row.id := row],
           cache := s.cache[row.shortCode := Entry(Read(s, row), s.step, |s.log|)],
           log := s.log + [Put(row.shortCode, Serialize(row))],
           txns := s.txns[tx := Txn(row.id, Insert(row), s.step)])
      else s
    case BeginChange(tx, id, ch) =>
      if tx !in s.txns && id in s.rows then
        Dropping(s, s.rows[id].shortCode).(txns := s.txns[tx := Txn(id, Change(ch), s.step)])
      else s
    case BeginRemove(tx, id) =>
      if tx !in s.txns && id in s.rows then
        Dropping(s, s.rows[id].shortCode).(txns := s.txns[tx := Txn(id, Remove, s.step)])
      else s
    case CommitTxn(tx) => if tx in s.txns then Commits(s, tx) else s
    case AbortTxn(tx) => s.(txns := s.txns - {tx})
    case ReadForWarm(code, now) =>
      (match FindActive(s.rows, code, now)
       case Found(row) => s.(warms := s.warms + {(code, Read(s, row))})
       case _ => s)
    case RunWarm(code, snap) =>
      if (code, snap) in s.warms then
        s.(warms := s.warms - {(code, snap)}, cache := s.cache[code := Entry(snap, s.step, |s.log|)],
           log := s.log + [Put(code, snap.payload)])
      else s
    case DropWarm(code, snap) => s.(warms := s.warms - {(code, snap)})
    case TrackClick(code) => s.(log := s.log + [Bump(code)])
    case Tick(dt) => s.(log := s.log + [Wait(dt)])
  }

  function Next(s: State, a: Action): State {
    Act(s, a).(step := s.step + 1)
  }

  function Run(s: State, actions: seq<Action>): State
    decreases |actions|
  {
    if actions == [] then s else Run(Next(s, actions[0]), actions[1..])
  }

  // ---------------------------------------------------------------------------------------------------------------
  // What every step keeps
  // ---------------------------------------------------------------------------------------------------------------

  /** The row is a later state of one inserted under this id: id, code and target never change. */
  ghost predicate Descends(born: Rows, row: Row) {
    && row.id in born && born[row.id].shortCode == row.shortCode && born[row.id].originalUrl == row.originalUrl
    && AliasIsCode(row)
  }

  ghost predicate TableOk(s: State) {
    && WellFormed(s.rows)
    && (forall id :: id in s.born ==> s.born[id].id == id)
    && (forall id :: id in s.rows ==> Descends(s.born, s.rows[id]) && id in s.inserted)
    && (forall id :: id in s.inserted || id in s.versions ==> id in s.born)
    && (forall id :: id in s.versions ==> id in s.inserted)
  }

  ghost predicate TxnsOk(s: State) {
    && (forall tx :: tx in s.txns ==> TxnOk(s, s.txns[tx]))
    && (forall t, u :: t in s.txns && u in s.txns && s.txns[t].effect.Insert? && s.txns[u].effect.Insert? && t != u
          ==> s.txns[t].effect.row.shortCode != s.txns[u].effect.row.shortCode && s.txns[t].id != s.txns[u].id)
  }

  ghost predicate TxnOk(s: State, t: Txn) {
    && t.id in s.born && t.invalidatedAt < s.step
    && match t.effect
       case Insert(row) =>
         && row == s.born[t.id] && t.id !in s.inserted && AliasIsCode(row)
         && (forall id :: id in s.rows ==> s.rows[id].shortCode != row.shortCode)
       case _ => t.id in s.inserted
  }

  ghost predicate CommitsOk(s: State) {
    forall i :: 0 <= i < |s.commits| ==> s.commits[i].committedAt < s.step && s.commits[i].invalidatedAt < s.step
  }

  /** Some commit on the row of the snapshot came after it was read. */
  ghost predicate Missed(s: State, snap: Snapshot) {
    exists i :: 0 <= i < |s.commits| && s.commits[i].id == snap.payload.id && snap.readAt < s.commits[i].committedAt
  }

  /** A snapshot is of some row inserted under this code, and exact for the version it was read at. */
  ghost predicate SnapshotOk(s: State, code: string, snap: Snapshot) {
    var id := snap.payload.id;
    && snap.readAt < s.step && snap.payload.isActive
    && id in s.born && s.born[id].shortCode == code && s.born[id].originalUrl == snap.payload.originalUrl
    && snap.version <= Version(s, id)
    && (snap.version < Version(s, id) <==> Missed(s, snap))
    && (id !in s.inserted ==> snap.payload == Serialize(s.born[id]))
    && (id in s.inserted && snap.version == Version(s, id) ==> id in s.rows && Serialize(s.rows[id]) == snap.payload)
  }

  /** Whoever invalidated an entry did so before the entry was written. */
  ghost predicate WrittenSince(s: State, e: Entry) {
    && e.writtenAt < s.step
    && (forall tx :: tx in s.txns && s.txns[tx].id == e.snap.payload.id && !s.txns[tx].effect.Insert?
          ==> s.txns[tx].invalidatedAt < e.writtenAt)
    && (forall i :: 0 <= i < |s.commits| && s.commits[i].id == e.snap.payload.id
                    && e.snap.readAt < s.commits[i].committedAt
          ==> s.commits[i].invalidatedAt < e.writtenAt)
  }

  ghost predicate SnapshotsOk(s: State) {
    && (forall code :: code in s.cache ==> SnapshotOk(s, code, s.cache[code].snap) && WrittenSince(s, s.cache[code]))
    && (forall w :: w in s.warms ==> SnapshotOk(s, w.0, w.1))
  }

  ghost predicate Inv(s: State) {
    TableOk(s) && TxnsOk(s) && CommitsOk(s) && SnapshotsOk(s)
  }

  /** Two states with the same tables and history; only the clock may have moved on. */
  ghost predicate SameTables(s: State, s': State) {
    && s.step <= s'.step && s.rows == s'.rows && s.born == s'.born && s.inserted == s'.inserted
    && s.versions == s'.versions && s.commits == s'.commits
  }

  lemma {:induction false} SnapshotStays(s: State, s': State, code: string, snap: Snapshot)
    requires SameTables(s, s') && SnapshotOk(s, code, snap)
    ensures SnapshotOk(s', code, snap)
  {
  }

  lemma {:induction false} TablesStay(s: State, s': State)
    requires Inv(s) && SameTables(s, s')
    requires s'.txns.Keys <= s.txns.Keys && forall t :: t in s'.txns ==> s'.txns[t] == s.txns[t]
    ensures TableOk(s') && CommitsOk(s') && TxnsOk(s')
  {
    hide WellFormed, SnapshotsOk;
  }

  lemma {:induction false} EntryStays(s: State, s': State, e: Entry)
    requires SameTables(s, s') && WrittenSince(s, e)
    requires forall t :: t in s'.txns ==> t in s.txns && s'.txns[t] == s.txns[t]
    ensures WrittenSince(s', e)
  {
  }

  /** An entry written in this step follows every invalidation so far. */
  lemma {:induction false} NewEntry(s: State, s': State, e: Entry)
    requires Inv(s) && SameTables(s, s') && e.writtenAt == s.step < s'.step
    requires forall t :: t in s'.txns ==> t in s.txns && s'.txns[t] == s.txns[t]
    ensures WrittenSince(s', e)
  {
    hide SnapshotsOk, TableOk;
    assert forall t :: t in s.txns ==> TxnOk(s, s.txns[t]);
  }

  /** The tables stay; the cache and the pending warm-ups change at most by snapshots that are in order. */
  lemma {:induction false} QuietFrame(s: State, s': State)
    requires Inv(s) && SameTables(s, s') && s.step < s'.step
    requires forall t :: t in s'.txns ==> t in s.txns && s'.txns[t] == s.txns[t]
    requires forall code :: code in s'.cache ==>
               || (code in s.cache && s'.cache[code] == s.cache[code])
               || (s'.cache[code].writtenAt == s.step && SnapshotOk(s', code, s'.cache[code].snap))
    requires forall w :: w in s'.warms ==> w in s.warms || SnapshotOk(s', w.0, w.1)
    ensures Inv(s')
  {
    TablesStay(s, s');
    hide TableOk, TxnsOk, CommitsOk, SnapshotOk, WrittenSince, SameTables;
    forall code | code in s'.cache
      ensures SnapshotOk(s', code, s'.cache[code].snap) && WrittenSince(s', s'.cache[code])
    {
      if s'.cache[code].writtenAt == s.step && SnapshotOk(s', code, s'.cache[code].snap) {
        NewEntry(s, s', s'.cache[code]);
      } else {
        SnapshotStays(s, s', code, s.cache[code].snap);
        EntryStays(s, s', s.cache[code]);
      }
    }
    forall w | w in s'.warms ensures SnapshotOk(s', w.0, w.1) {
      if w in s.warms {
        SnapshotStays(s, s', w.0, w.1);
      }
    }
  }

  /** Reading a committed row gives an exact snapshot of its newest version. */
  lemma {:induction false} FreshRead(s: State, row: Row)
    requires Inv(s) && row.id in s.rows && s.rows[row.id] == row && row.isActive
    ensures SnapshotOk(s.(step := s.step + 1), row.shortCode, Read(s, row))
  {
    hide TxnsOk, SnapshotsOk, WellFormed;
  }

  /** A warm-up that runs writes a snapshot that is in order. */
  lemma {:induction false} WarmStep(s: State, code: string, snap: Snapshot)
    requires Inv(s)
    ensures Inv(Next(s, RunWarm(code, snap)))
  {
    hide TableOk, TxnsOk, CommitsOk, SnapshotOk, WrittenSince;
    var s' := Next(s, RunWarm(code, snap));
    if (code, snap) in s.warms {
      SnapshotStays(s, s', code, snap);
    }
    QuietFrame(s, s');
  }

  lemma {:induction false} ReadStep(s: State, code: string, now: int)
    requires Inv(s)
    ensures Inv(Next(s, ReadForWarm(code, now)))
  {
    hide TableOk, TxnsOk, CommitsOk, SnapshotOk, WrittenSince, FindActive, FindByCode, Read;
    var s' := Next(s, ReadForWarm(code, now));
    if FindActive(s.rows, code, now).Found? {
      ReadIsFresh(s, s', code, now);
    }
    QuietFrame(s, s');
  }

  /** Aborts, abandoned warm-ups, clicks and time. */
  lemma {:induction false} QuietStep(s: State, a: Action)
    requires Inv(s)
    requires a.AbortTxn? || a.DropWarm? || a.TrackClick? || a.Tick?
    ensures Inv(Next(s, a))
  {
    hide TableOk, TxnsOk, CommitsOk, SnapshotOk, WrittenSince, FindActive, FindByCode, Read, Commits, CanInsert;
    QuietFrame(s, Next(s, a));
  }

  lemma {:induction false} ReadIsFresh(s: State, s': State, code: string, now: int)
    requires Inv(s) && FindActive(s.rows, code, now).Found?
    requires SameTables(s, s') && s.step < s'.step
    ensures SnapshotOk(s', code, Read(s, FindActive(s.rows, code, now).row))
  {
    hide TxnsOk, CommitsOk, SnapshotsOk, SnapshotOk, FindActive, FindByCode, WellFormed;
    CodesNameOneRow(s.rows, code, now);
    var row := FindActive(s.rows, code, now).row;
    FreshRead(s, row);
    SnapshotStays(s.(step := s.step + 1), s', code, Read(s, row));
  }

  // ---------------------------------------------------------------------------------------------------------------
  // Opening a transaction
  // ---------------------------------------------------------------------------------------------------------------

  /** Invalidating a row's code leaves no entry of that row behind. */
  lemma {:induction false} InvalidateStep(s: State, tx: nat, id: Id, effect: Effect)
    requires Inv(s) && tx !in s.txns && id in s.rows && !effect.Insert?
    ensures Inv(Dropping(s, s.rows[id].shortCode).(txns := s.txns[tx := Txn(id, effect, s.step)], step := s.step + 1))
  {
    hide TableOk, TxnsOk, CommitsOk, SnapshotOk, WrittenSince;
    var mid := Dropping(s, s.rows[id].shortCode).(step := s.step + 1);
    var s' := mid.(txns := s.txns[tx := Txn(id, effect, s.step)]);
    QuietFrame(s, mid);
    RowIsBorn(s, id);
    TablesOpen(mid, s', tx);
    forall code | code in s'.cache
      ensures SnapshotOk(s', code, s'.cache[code].snap) && WrittenSince(s', s'.cache[code])
    {
      SnapshotStays(mid, s', code, mid.cache[code].snap);
      OtherRowsEntry(mid, s', tx, code);
    }
    forall w | w in s'.warms ensures SnapshotOk(s', w.0, w.1) {
      SnapshotStays(mid, s', w.0, w.1);
    }
  }

  lemma {:induction false} RowIsBorn(s: State, id: Id)
    requires Inv(s) && id in s.rows
    ensures id in s.born && s.born[id].shortCode == s.rows[id].shortCode && id in s.inserted && s.rows[id].id == id
  {
    hide TxnsOk, CommitsOk, SnapshotsOk;
    assert Descends(s.born, s.rows[id]);
  }

  /** Entries under other codes belong to other rows. */
  lemma {:induction false} OtherRowsEntry(s: State, s': State, tx: nat, code: string)
    requires SameTables(s, s') && code in s.cache
    requires SnapshotOk(s, code, s.cache[code].snap) && WrittenSince(s, s.cache[code])
    requires tx in s'.txns && s'.txns == s.txns[tx := s'.txns[tx]]
    requires s'.txns[tx].id in s.born && s.born[s'.txns[tx].id].shortCode != code
    ensures WrittenSince(s', s.cache[code])
  {
  }

  lemma {:induction false} TablesOpen(s: State, s': State, tx: nat)
    requires Inv(s) && SameTables(s, s') && tx !in s.txns
    requires tx in s'.txns && s'.txns == s.txns[tx := s'.txns[tx]]
    requires TxnOk(s', s'.txns[tx]) && !s'.txns[tx].effect.Insert?
    ensures TableOk(s') && CommitsOk(s') && TxnsOk(s')
  {
    hide WellFormed, SnapshotsOk;
  }

  /** A flushed insert: the row is born, its code cached, its transaction open. */
  lemma {:induction false} InsertStep(s: State, tx: nat, row: Row)
    requires Inv(s) && CanInsert(s, tx, row)
    ensures Inv(Next(s, BeginInsert(tx, row)))
  {
    var s' := Next(s, BeginInsert(tx, row));
    InsertTables(s, tx, row);
    hide TableOk, CommitsOk, TxnsOk;
    forall code | code in s'.cache
      ensures SnapshotOk(s', code, s'.cache[code].snap) && WrittenSince(s', s'.cache[code])
    {
      if code == row.shortCode {
        NewRowEntry(s, tx, row);
      } else {
        BirthKeepsSnapshot(s, tx, row, code, s.cache[code].snap);
        BirthKeepsEntry(s, tx, row, s.cache[code], code);
      }
    }
    forall w | w in s'.warms ensures SnapshotOk(s', w.0, w.1) {
      BirthKeepsSnapshot(s, tx, row, w.0, w.1);
    }
  }

  lemma {:induction false} InsertTables(s: State, tx: nat, row: Row)
    requires Inv(s) && CanInsert(s, tx, row)
    ensures var s' := Next(s, BeginInsert(tx, row)); TableOk(s') && CommitsOk(s') && TxnsOk(s')
  {
    BirthKeepsTable(s, tx, row);
    BirthKeepsTxns(s, tx, row);
    hide SnapshotsOk, TableOk, TxnsOk;
  }

  lemma {:induction false} BirthKeepsTxns(s: State, tx: nat, row: Row)
    requires Inv(s) && CanInsert(s, tx, row)
    ensures TxnsOk(Next(s, BeginInsert(tx, row)))
  {
    hide SnapshotsOk, CommitsOk, WellFormed;
    var s' := Next(s, BeginInsert(tx, row));
    forall t | t in s'.txns ensures TxnOk(s', s'.txns[t]) {
      if t != tx {
        assert TxnOk(s, s.txns[t]);
      }
    }
  }

  lemma {:induction false} BirthKeepsTable(s: State, tx: nat, row: Row)
    requires Inv(s) && CanInsert(s, tx, row)
    ensures TableOk(Next(s, BeginInsert(tx, row)))
  {
    hide SnapshotsOk, TxnsOk, CommitsOk, WellFormed;
  }

  lemma {:induction false} BirthKeepsSnapshot(s: State, tx: nat, row: Row, code: string, snap: Snapshot)
    requires CanInsert(s, tx, row) && SnapshotOk(s, code, snap)
    ensures SnapshotOk(Next(s, BeginInsert(tx, row)), code, snap)
  {
  }

  lemma {:induction false} BirthKeepsEntry(s: State, tx: nat, row: Row, e: Entry, code: string)
    requires CanInsert(s, tx, row) && WrittenSince(s, e) && SnapshotOk(s, code, e.snap)
    ensures WrittenSince(Next(s, BeginInsert(tx, row)), e)
  {
  }

  lemma {:induction false} NewRowEntry(s: State, tx: nat, row: Row)
    requires Inv(s) && CanInsert(s, tx, row)
    ensures var s' := Next(s, BeginInsert(tx, row));
      && s'.cache[row.shortCode] == Entry(Read(s, row), s.step, |s.log|)
      && SnapshotOk(s', row.shortCode, Read(s, row))
      && WrittenSince(s', Entry(Read(s, row), s.step, |s.log|))
  {
    hide SnapshotsOk, WellFormed;
    assert row.id !in s.versions;
    assert forall t :: t in s.txns ==> TxnOk(s, s.txns[t]);
  }

  // ---------------------------------------------------------------------------------------------------------------
  // Commits
  // ---------------------------------------------------------------------------------------------------------------

  lemma {:induction false} InsertCommit(s: State, tx: nat)
    requires Inv(s) && tx in s.txns && s.txns[tx].effect.Insert?
    ensures Inv(Next(s, CommitTxn(tx)))
  {
    var s' := Next(s, CommitTxn(tx));
    InsertCommitTables(s, tx);
    hide TableOk, CommitsOk;
    forall code | code in s'.cache
      ensures SnapshotOk(s', code, s'.cache[code].snap) && WrittenSince(s', s'.cache[code])
    {
      InsertCommitSnapshot(s, tx, code, s.cache[code].snap);
      InsertCommitEntry(s, tx, s.cache[code]);
    }
    forall w | w in s'.warms ensures SnapshotOk(s', w.0, w.1) {
      InsertCommitSnapshot(s, tx, w.0, w.1);
    }
  }

  lemma {:induction false} InsertCommitEntry(s: State, tx: nat, e: Entry)
    requires tx in s.txns && s.txns[tx].effect.Insert? && WrittenSince(s, e)
    ensures WrittenSince(Next(s, CommitTxn(tx)), e)
  {
  }

  lemma {:induction false} InsertCommitTables(s: State, tx: nat)
    requires Inv(s) && tx in s.txns && s.txns[tx].effect.Insert?
    ensures var s' := Next(s, CommitTxn(tx)); TableOk(s') && CommitsOk(s') && TxnsOk(s')
  {
    InsertCommitTable(s, tx);
    InsertCommitTxns(s, tx);
    hide TableOk, TxnsOk, SnapshotsOk;
  }

  lemma {:induction false} InsertCommitTable(s: State, tx: nat)
    requires Inv(s) && tx in s.txns && s.txns[tx].effect.Insert?
    ensures TableOk(Next(s, CommitTxn(tx)))
  {
    hide SnapshotsOk, CommitsOk;
    assert TxnOk(s, s.txns[tx]);
  }

  lemma {:induction false} InsertCommitTxns(s: State, tx: nat)
    requires Inv(s) && tx in s.txns && s.txns[tx].effect.Insert?
    ensures TxnsOk(Next(s, CommitTxn(tx)))
  {
    hide SnapshotsOk, CommitsOk, WellFormed;
    assert TxnOk(s, s.txns[tx]);
    var s' := Next(s, CommitTxn(tx));
    forall t | t in s'.txns ensures TxnOk(s', s'.txns[t]) {
      assert TxnOk(s, s.txns[t]);
    }
  }

  lemma {:induction false} InsertCommitSnapshot(s: State, tx: nat, code: string, snap: Snapshot)
    requires Inv(s) && tx in s.txns && s.txns[tx].effect.Insert? && SnapshotOk(s, code, snap)
    ensures SnapshotOk(Next(s, CommitTxn(tx)), code, snap)
  {
    hide SnapshotsOk, WellFormed, CommitsOk;
    assert TxnOk(s, s.txns[tx]);
    var s' := Next(s, CommitTxn(tx));
    assert s'.commits == s.commits;
  }

  /** What a committed update or delete does, without saying which of the two it is. */
  ghost predicate RowChanged(s: State, tx: nat, s': State) {
    && tx in s.txns && !s.txns[tx].effect.Insert? && s.txns[tx].id in s.rows
    && var id := s.txns[tx].id;
    && s'.born == s.born && s'.inserted == s.inserted && s'.cache == s.cache && s'.warms == s.warms
    && s'.step == s.step + 1 && s'.txns == s.txns - {tx}
    && s'.versions == s.versions[id := Version(s, id) + 1]
    && s'.commits == s.commits + [Commit(id, s.txns[tx].invalidatedAt, s.step)]
    && s'.rows.Keys <= s.rows.Keys
    && (forall j :: j in s.rows && j != id ==> j in s'.rows && s'.rows[j] == s.rows[j])
    && (id in s'.rows ==>
          && s'.rows[id].id == s.rows[id].id && s'.rows[id].shortCode == s.rows[id].shortCode
          && s'.rows[id].customAlias == s.rows[id].customAlias && s'.rows[id].originalUrl == s.rows[id].originalUrl)
  }

  lemma {:induction false} ChangeCommitShape(s: State, tx: nat)
    requires tx in s.txns && !s.txns[tx].effect.Insert? && s.txns[tx].id in s.rows
    ensures RowChanged(s, tx, Next(s, CommitTxn(tx)))
  {
    hide FindActive, FindByCode, CanInsert, Read, Serialize;
    assert Act(s, CommitTxn(tx)) == Commits(s, tx);
    hide Act;
  }

  lemma {:induction false} ChangeCommit(s: State, tx: nat)
    requires Inv(s) && tx in s.txns && !s.txns[tx].effect.Insert?
    ensures Inv(Next(s, CommitTxn(tx)))
  {
    hide TableOk, CommitsOk, TxnsOk, SnapshotOk, WrittenSince;
    var s' := Next(s, CommitTxn(tx));
    if s.txns[tx].id !in s.rows {
      QuietFrame(s, s');
    } else {
      ChangeCommitShape(s, tx);
      ChangeKeepsTable(s, tx, s');
      ChangeKeepsTxns(s, tx, s');
      forall code | code in s'.cache
        ensures SnapshotOk(s', code, s'.cache[code].snap) && WrittenSince(s', s'.cache[code])
      {
        ChangeKeepsSnapshot(s, tx, s', code, s.cache[code].snap);
        ChangeKeepsEntry(s, tx, s', s.cache[code]);
      }
      forall w | w in s'.warms ensures SnapshotOk(s', w.0, w.1) {
        ChangeKeepsSnapshot(s, tx, s', w.0, w.1);
      }
    }
  }

  lemma {:induction false} ChangeKeepsTable(s: State, tx: nat, s': State)
    requires Inv(s) && RowChanged(s, tx, s')
    ensures TableOk(s')
  {
    hide SnapshotsOk, CommitsOk;
    assert TxnOk(s, s.txns[tx]);
  }

  lemma {:induction false} ChangeKeepsTxns(s: State, tx: nat, s': State)
    requires Inv(s) && RowChanged(s, tx, s')
    ensures TxnsOk(s') && CommitsOk(s')
  {
    hide SnapshotsOk, TableOk;
    assert TxnOk(s, s.txns[tx]);
    forall t | t in s'.txns ensures TxnOk(s', s'.txns[t]) {
      assert TxnOk(s, s.txns[t]);
    }
  }

  /** The commit makes every snapshot of its row miss it, and leaves the others exact. */
  lemma {:induction false} ChangeKeepsSnapshot(s: State, tx: nat, s': State, code: string, snap: Snapshot)
    requires Inv(s) && RowChanged(s, tx, s') && SnapshotOk(s, code, snap)
    ensures SnapshotOk(s', code, snap)
  {
    hide SnapshotsOk, TableOk, CommitsOk;
    assert TxnOk(s, s.txns[tx]);
    var id, n := s.txns[tx].id, |s.commits|;
    assert s'.commits[n] == Commit(id, s.txns[tx].invalidatedAt, s.step);
    assert forall i :: 0 <= i < n ==> s'.commits[i] == s.commits[i];
    hide TxnsOk;
    if snap.payload.id == id {
      assert Missed(s', snap);
    } else {
      assert Missed(s', snap) <==> Missed(s, snap);
    }
  }

  lemma {:induction false} ChangeKeepsEntry(s: State, tx: nat, s': State, e: Entry)
    requires RowChanged(s, tx, s') && WrittenSince(s, e)
    ensures WrittenSince(s', e)
  {
    var n := |s.commits|;
    assert s'.commits[n] == Commit(s.txns[tx].id, s.txns[tx].invalidatedAt, s.step);
    assert forall i :: 0 <= i < n ==> s'.commits[i] == s.commits[i];
  }

  // ---------------------------------------------------------------------------------------------------------------
  // Every reachable state
  // ---------------------------------------------------------------------------------------------------------------

  lemma {:induction false} StepKeepsInv(s: State, a: Action)
    requires Inv(s)
    ensures Inv(Next(s, a))
  {
    hide Inv, Commits, FindActive, Read;
    match a
    case BeginInsert(tx, row) =>
      if CanInsert(s, tx, row) { InsertStep(s, tx, row); } else { IdleStep(s); }
    case BeginChange(tx, id, ch) =>
      if tx !in s.txns && id in s.rows { InvalidateStep(s, tx, id, Change(ch)); } else { IdleStep(s); }
    case BeginRemove(tx, id) =>
      if tx !in s.txns && id in s.rows { InvalidateStep(s, tx, id, Remove); } else { IdleStep(s); }
    case CommitTxn(tx) =>
      if tx !in s.txns { IdleStep(s); }
      else if s.txns[tx].effect.Insert? { InsertCommit(s, tx); }
      else { ChangeCommit(s, tx); }
    case ReadForWarm(code, now) =>
      ReadStep(s, code, now);
    case RunWarm(code, snap) =>
      WarmStep(s, code, snap);
    case _ =>
      QuietStep(s, a);
  }

  lemma {:induction false} IdleStep(s: State)
    requires Inv(s)
    ensures Inv(s.(step := s.step + 1))
  {
    hide TableOk, TxnsOk, CommitsOk, SnapshotOk, WrittenSince;
    QuietFrame(s, s.(step := s.step + 1));
  }

  // The cache map against what Redis would answer --------------------------------------------------------------------

  /** The clock of Redis. */
  function Clock(s: State): nat {
    TimeAt(s.log, |s.log|)
  }

  /** The keys Redis holds. */
  function Redis(s: State, cfg: Config): CacheState {
    Replay(s.log, cfg, |s.log|)
  }

  /** A lookup in the cache, now. */
  function Lookup(s: State, cfg: Config, code: string): Option<Payload> {
    CacheGet(Redis(s, cfg), code, Clock(s))
  }

  /** The entry under a code is the last put of the command log. */
  ghost predicate Mirrored(s: State, code: string) {
    if code in s.cache then PutLast(s.log, code, s.cache[code].snap.payload, s.cache[code].putAt, |s.log|)
    else forall p, i :: !PutLast(s.log, code, p, i, |s.log|)
  }

  ghost predicate Mirrors(s: State) {
    forall code :: Mirrored(s, code)
  }

  /** A command that leaves a code alone. */
  lemma {:induction false} OtherCommand(s: State, s': State, cmd: Command, code: string)
    requires Mirrored(s, code) && s'.log == s.log + [cmd] && !Writes(cmd, code)
    requires code in s.cache <==> code in s'.cache
    requires code in s.cache ==> s.cache[code] == s'.cache[code]
    ensures Mirrored(s', code)
  {
    forall p, i ensures PutLast(s'.log, code, p, i, |s'.log|) <==> PutLast(s.log, code, p, i, |s.log|) {
      PutLastGrows(s.log, cmd, code, p, i);
    }
  }

  /** A put, a drop, or a command that writes nothing. */
  lemma {:induction false} CommandMirrors(s: State, s': State, cmd: Command)
    requires Mirrors(s) && s'.log == s.log + [cmd]
    requires match cmd
             case Put(code, p) => code in s'.cache && s'.cache == s.cache[code := s'.cache[code]]
                                  && s'.cache[code].snap.payload == p && s'.cache[code].putAt == |s.log|
             case Drop(code) => s'.cache == s.cache - {code}
             case _ => s'.cache == s.cache
    ensures Mirrors(s')
  {
    hide PutLast;
    forall code ensures Mirrored(s', code) {
      assert Mirrored(s, code);
      if Writes(cmd, code) {
        forall p, i ensures cmd.Drop? ==> !PutLast(s'.log, code, p, i, |s'.log|) {
          PutLastGrows(s.log, cmd, code, p, i);
        }
        if cmd.Put? {
          PutLastGrows(s.log, cmd, code, cmd.payload, |s.log|);
        }
      } else {
        OtherCommand(s, s', cmd, code);
      }
    }
  }

  lemma {:induction false} CommitSendsNothing(s: State, tx: nat)
    requires tx in s.txns
    ensures Commits(s, tx).log == s.log && Commits(s, tx).cache == s.cache
  {
  }

  lemma {:induction false} StepMirrors(s: State, a: Action)
    requires Mirrors(s)
    ensures Mirrors(Next(s, a))
  {
    hide Mirrored, FindActive, CanInsert, Commits;
    var s' := Next(s, a);
    if a.CommitTxn? && a.tx in s.txns {
      CommitSendsNothing(s, a.tx);
    }
    if s'.log == s.log {
      forall code ensures Mirrored(s', code) {
        SameLog(s, s', code);
      }
    } else {
      CommandMirrors(s, s', s'.log[|s.log|]);
    }
  }

  lemma {:induction false} SameLog(s: State, s': State, code: string)
    requires Mirrored(s, code) && s'.log == s.log && s'.cache == s.cache
    ensures Mirrored(s', code)
  {
  }

  lemma {:induction false} RunKeepsInv(s: State, actions: seq<Action>)
    requires Inv(s) && Mirrors(s)
    ensures Inv(Run(s, actions)) && Mirrors(Run(s, actions))
    decreases |actions|
  {
    hide Inv, Mirrors, Next;
    if actions == [] {
    } else {
      StepKeepsInv(s, actions[0]);
      StepMirrors(s, actions[0]);
      RunKeepsInv(Next(s, actions[0]), actions[1..]);
    }
  }

  lemma {:induction false} Reachable(actions: seq<Action>)
    ensures Inv(Run(INIT, actions)) && Mirrors(Run(INIT, actions))
  {
    assert Inv(INIT) && Mirrors(INIT);
    hide Inv, Mirrors;
    RunKeepsInv(INIT, actions);
  }

  /** Two runs in a row. */
  lemma {:induction false} RunConcat(s: State, a: seq<Action>, b: seq<Action>)
    ensures Run(s, a + b) == Run(Run(s, a), b)
    decreases |a|
  {
    hide Next;
    if a == [] {
      assert a + b == b;
    } else {
      assert (a + b)[1..] == a[1..] + b;
      RunConcat(Next(s, a[0]), a[1..], b);
    }
  }

  /** The entry under the code is alive now. */
  ghost predicate EntryAlive(s: State, cfg: Config, code: string) {
    && code in s.cache && s.cache[code].putAt <= |s.log|
    && Alive(s.log, cfg, code, s.cache[code].putAt, |s.log|, Clock(s))
  }

  lemma {:induction false} MirrorAnswers(s: State, cfg: Config, code: string)
    requires Mirrored(s, code)
    ensures Lookup(s, cfg, code) == if EntryAlive(s, cfg, code) then Some(s.cache[code].snap.payload) else None
  {
    if code in s.cache {
      LookupHistory(s.log, cfg, code, s.cache[code].snap.payload);
    }
    if Lookup(s, cfg, code).Some? {
      LookupHistory(s.log, cfg, code, Lookup(s, cfg, code).value);
    }
    hide Replay, TimeAt, Alive, CacheGet;
  }

  /** In any reachable state a lookup returns exactly the entry last written, as long as that is alive. */
  lemma {:induction false} LookupIsEntry(actions: seq<Action>, cfg: Config, code: string)
    ensures var s := Run(INIT, actions);
      Lookup(s, cfg, code) == if EntryAlive(s, cfg, code) then Some(s.cache[code].snap.payload) else None
  {
    hide Run, Inv, Mirrored, Lookup, Alive, Clock;
    Reachable(actions);
    MirrorAnswers(Run(INIT, actions), cfg, code);
  }

  /** What a redirect would answer now, from the cache or else from the table. */
  function Served(s: State, cfg: Config, code: string, now: int): Option<Payload> {
    if Lookup(s, cfg, code).Some? then Lookup(s, cfg, code)
    else match FindActive(s.rows, code, now)
      case Found(row) => Some(Serialize(row))
      case _ => None
  }

  /** An aborted transaction never commits: whatever it would have changed stays as it is. */
  lemma {:induction false} AbortIsFinal(s: State, tx: nat)
    ensures var s' := Next(Next(s, AbortTxn(tx)), CommitTxn(tx));
      s'.rows == s.rows && s'.inserted == s.inserted && s'.versions == s.versions && s'.commits == s.commits
  {
    hide Commits;
    assert tx !in Next(s, AbortTxn(tx)).txns;
  }

  /** A warm-up runs at most once, and never after it was abandoned. */
  lemma {:induction false} WarmOnce(s: State, code: string, snap: Snapshot)
    ensures forall once :: once in [Next(s, RunWarm(code, snap)), Next(s, DropWarm(code, snap))] ==>
              var twice := Next(once, RunWarm(code, snap)); twice.cache == once.cache && twice.log == once.log
  {
    assert (code, snap) !in Next(s, RunWarm(code, snap)).warms;
    assert (code, snap) !in Next(s, DropWarm(code, snap)).warms;
  }

  /**
    A redirect is answered from the entry while that is alive, and otherwise exactly when the table holds an active row
    with the code whose expiry, if any, lies in the future; then with that row's id and target.
   */
  lemma {:induction false} ServedExactly(actions: seq<Action>, cfg: Config, code: string, now: int, id: Id)
    ensures var s := Run(INIT, actions);
      if EntryAlive(s, cfg, code) then Served(s, cfg, code, now) == Some(s.cache[code].snap.payload)
      else
        && (id in s.rows && s.rows[id].shortCode == code && s.rows[id].isActive
            && (s.rows[id].expiresAt == None || now < s.rows[id].expiresAt.value)
            <==> Served(s, cfg, code, now).Some? && Served(s, cfg, code, now).value.id == id)
        && (Served(s, cfg, code, now).Some? ==>
              var p := Served(s, cfg, code, now).value;
              p.id in s.rows && p.originalUrl == s.rows[p.id].originalUrl && p.expiresAt == s.rows[p.id].expiresAt)
  {
    var s := Run(INIT, actions);
    Reachable(actions);
    LookupIsEntry(actions, cfg, code);
    CodesNameOneRow(s.rows, code, now);
    hide Run, FindActive, FindByCode, TxnsOk, CommitsOk, SnapshotsOk, Lookup, EntryAlive, Mirrors;
    if id in s.rows {
      assert s.rows[id].id == id;
    }
  }

  /** Under any interleaving a redirect leads to the target of a row once inserted under that very code. */
  lemma {:induction false} Provenance(actions: seq<Action>, cfg: Config, code: string, now: int)
    ensures var s := Run(INIT, actions);
      match Served(s, cfg, code, now)
      case Some(p) => p.id in s.born && s.born[p.id].shortCode == code && s.born[p.id].originalUrl == p.originalUrl
      case None => true
  {
    var s := Run(INIT, actions);
    Reachable(actions);
    LookupIsEntry(actions, cfg, code);
    CodesNameOneRow(s.rows, code, now);
    hide Run, FindActive, FindByCode, TxnsOk, CommitsOk, WrittenSince, WellFormed, Lookup, EntryAlive, Mirrors;
    if code in s.cache {
      assert SnapshotOk(s, code, s.cache[code].snap);
    }
    if FindActive(s.rows, code, now).Found? {
      assert Descends(s.born, FindActive(s.rows, code, now).row);
    }
  }

  /** The entry's read preceded the commit, and its write followed the commit's invalidation. */
  predicate Overlaps(e: Entry, k: Commit) {
    k.id == e.snap.payload.id && e.snap.readAt < k.committedAt && k.invalidatedAt < e.writtenAt
  }

  predicate Overlapped(s: State, e: Entry) {
    exists i :: 0 <= i < |s.commits| && Overlaps(e, s.commits[i])
  }

  /** The payload is what the committed, active row would serialize to. */
  predicate Current(s: State, p: Payload) {
    p.id in s.rows && Serialize(s.rows[p.id]) == p && s.rows[p.id].isActive
  }

  /**
    In any reachable state an entry lags behind its row's commits exactly when one of them overlaps it. An entry that
    none overlaps equals its row, unless the insert of that row is still open or was rolled back.
   */
  lemma {:induction false} StaleOnlyByOverlap(actions: seq<Action>, code: string)
    requires code in Run(INIT, actions).cache
    ensures var s := Run(INIT, actions);
      var e := s.cache[code];
      && (e.snap.version < Version(s, e.snap.payload.id) <==> Overlapped(s, e))
      && (!Current(s, e.snap.payload) ==> Overlapped(s, e) || e.snap.payload.id !in s.inserted)
  {
    var s := Run(INIT, actions);
    Reachable(actions);
    hide Run, TxnsOk, CommitsOk, TableOk, Mirrors;
    var e := s.cache[code];
    assert SnapshotOk(s, code, e.snap) && WrittenSince(s, e);
    if Missed(s, e.snap) {
      var i :| 0 <= i < |s.commits| && s.commits[i].id == e.snap.payload.id && e.snap.readAt < s.commits[i].committedAt;
      assert Overlaps(e, s.commits[i]);
    }
  }

  /**
    A lookup answers with a lagging entry exactly when a commit overlaps the entry and the entry is alive; every cached
    answer that differs from its row is one of these, unless the row's insert has not committed. When no click renewed
    the entry, that ends URL_CACHE_TTL after it was written.
   */
  lemma {:induction false} StaleAnswer(actions: seq<Action>, cfg: Config, code: string)
    requires code in Run(INIT, actions).cache
    ensures var s := Run(INIT, actions);
      var e := s.cache[code];
      var got := Lookup(s, cfg, code);
      && (got.Some? && e.snap.version < Version(s, e.snap.payload.id) <==> Overlapped(s, e) && EntryAlive(s, cfg, code))
      && (got.Some? && !Current(s, got.value) ==>
            (Overlapped(s, e) && EntryAlive(s, cfg, code)) || got.value.id !in s.inserted)
      && e.putAt < |s.log|
      && ((forall j :: e.putAt < j < |s.log| ==> !Renews(s.log, cfg, code, e.putAt, j)) ==>
            (got.Some? <==> Clock(s) - TimeAt(s.log, e.putAt) < cfg.urlCacheTtl))
  {
    var s := Run(INIT, actions);
    Reachable(actions);
    assert Mirrored(s, code);
    LookupIsEntry(actions, cfg, code);
    StaleOnlyByOverlap(actions, code);
    hide Run, Lookup, Overlapped, Renews, Alive, Clock, Inv, Mirrors;
    if forall j :: s.cache[code].putAt < j < |s.log| ==> !Renews(s.log, cfg, code, s.cache[code].putAt, j) {
      Unrenewed(s.log, cfg, code, s.cache[code].putAt, |s.log|, Clock(s));
    }
  }

  /** While no commit overlaps a live entry and its row's insert has committed, every cached answer is current. */
  lemma {:induction false} NoOverlapNoStaleness(actions: seq<Action>, cfg: Config)
    requires var s := Run(INIT, actions);
      forall code :: code in s.cache && Lookup(s, cfg, code).Some? ==>
        !Overlapped(s, s.cache[code]) && s.cache[code].snap.payload.id in s.inserted
    ensures var s := Run(INIT, actions);
      forall code :: Lookup(s, cfg, code).Some? ==>
        Current(s, Lookup(s, cfg, code).value) && Lookup(s, cfg, code).value.shortCode == code
  {
    var s := Run(INIT, actions);
    Reachable(actions);
    hide Run, TxnsOk, CommitsOk, Overlapped, Lookup, Alive, Clock, Mirrors;
    forall code | Lookup(s, cfg, code).Some?
      ensures Current(s, Lookup(s, cfg, code).value) && Lookup(s, cfg, code).value.shortCode == code
    {
      LookupIsEntry(actions, cfg, code);
      assert EntryAlive(s, cfg, code);
      StaleOnlyByOverlap(actions, code);
      assert SnapshotOk(s, code, s.cache[code].snap);
      RowIsBorn(s, s.cache[code].snap.payload.id);
    }
  }

  // ---------------------------------------------------------------------------------------------------------------
  // Staleness happens, and lasts as long as clicks keep coming
  // ---------------------------------------------------------------------------------------------------------------

  const OFF := Changes(None, None, Some(false), None)

  /**
    A row is inserted and its entry runs out; a redirect misses and reads the row; then the row is deactivated.
   */
  function Deactivation(row: Row, cfg: Config): seq<Action> {
    [BeginInsert(0, row), CommitTxn(0), Tick(cfg.urlCacheTtl)]
    + [ReadForWarm(row.shortCode, 0), BeginChange(1, row.id, OFF), CommitTxn(1)]
  }

  lemma {:induction false} RunThree(s: State, a: Action, b: Action, c: Action)
    ensures Run(s, [a, b, c]) == Next(Next(Next(s, a), b), c)
  {
    hide Next;
    assert [a, b, c][1..] == [b, c] && [b, c][1..] == [c] && [c][1..] == [];
    assert Run(Next(Next(s, a), b), [c]) == Next(Next(Next(s, a), b), c);
  }

  /** A single committed row that nobody touched since. */
  ghost predicate OneRow(s: State, row: Row) {
    && s.rows == map[row.id := row] && s.step == 3 && s.versions == map[] && s.txns == map[] && s.warms == {}
    && row.isActive && row.expiresAt == None && AliasIsCode(row)
  }

  lemma {:induction false} RowInserted(row: Row, dt: nat)
    requires AliasIsCode(row) && row.isActive && row.expiresAt == None
    ensures OneRow(Run(INIT, [BeginInsert(0, row), CommitTxn(0), Tick(dt)]), row)
  {
    RunThree(INIT, BeginInsert(0, row), CommitTxn(0), Tick(dt));
  }

  lemma {:induction false} RowRead(s: State, row: Row)
    requires OneRow(s, row)
    ensures Next(s, ReadForWarm(row.shortCode, 0))
            == s.(warms := {(row.shortCode, Snapshot(Serialize(row), 3, 0))}, step := 4)
  {
    CodesNameOneRow(s.rows, row.shortCode, 0);
    assert s.rows[row.id] == row;
    hide FindActive, FindByCode, WellFormed;
  }

  lemma {:induction false} RowOff(s: State, row: Row)
    requires OneRow(s, row)
    ensures var s' := Run(s, [ReadForWarm(row.shortCode, 0), BeginChange(1, row.id, OFF), CommitTxn(1)]);
      && (row.shortCode, Snapshot(Serialize(row), 3, 0)) in s'.warms
      && row.id in s'.rows && !s'.rows[row.id].isActive
  {
    RowRead(s, row);
    RunThree(s, ReadForWarm(row.shortCode, 0), BeginChange(1, row.id, OFF), CommitTxn(1));
    hide Run, FindActive;
  }

  /** The state it leads to: the row is off, the old snapshot still pending. */
  lemma {:induction false} Deactivated(row: Row, cfg: Config)
    requires AliasIsCode(row) && row.isActive && row.expiresAt == None
    ensures var s := Run(INIT, Deactivation(row, cfg));
      && (row.shortCode, Snapshot(Serialize(row), 3, 0)) in s.warms
      && row.id in s.rows && !s.rows[row.id].isActive
  {
    hide Run, Next, OneRow;
    var inserted := [BeginInsert(0, row), CommitTxn(0), Tick(cfg.urlCacheTtl)];
    RowInserted(row, cfg.urlCacheTtl);
    RowOff(Run(INIT, inserted), row);
    RunConcat(INIT, inserted, [ReadForWarm(row.shortCode, 0), BeginChange(1, row.id, OFF), CommitTxn(1)]);
  }

  lemma {:induction false} RunOneMore(s: State, a: seq<Action>, x: Action)
    ensures Run(s, a + [x]) == Next(Run(s, a), x)
  {
    hide Next;
    RunConcat(s, a, [x]);
    assert [x][1..] == [];
  }

  /** `n` clicks at once. */
  function Clicks(code: string, n: nat): seq<Action> {
    if n == 0 then [] else Clicks(code, n - 1) + [TrackClick(code)]
  }

  /** `n` ticks, each followed by a click. */
  function SteadyClicks(code: string, n: nat): seq<Action> {
    if n == 0 then [] else SteadyClicks(code, n - 1) + [Tick(1)] + [TrackClick(code)]
  }

  /** A click and a tick as Redis sees them. */
  lemma {:induction false} RedisSteps(s: State, cfg: Config, code: string, dt: nat)
    ensures var clicked := Next(s, TrackClick(code));
      && Redis(clicked, cfg) == CacheTrack(Redis(s, cfg), code, Clock(s), cfg) && Clock(clicked) == Clock(s)
      && clicked.rows == s.rows
    ensures var later := Next(s, Tick(dt));
      Redis(later, cfg) == Redis(s, cfg) && Clock(later) == Clock(s) + dt && later.rows == s.rows
  {
    hide CacheTrack, TimeAt, Replay;
    LogGrows(s.log, Bump(code), cfg);
    LogGrows(s.log, Wait(dt), cfg);
  }

  lemma {:induction false} ClicksAddUp(s: State, cfg: Config, code: string, p: Payload, n: nat)
    requires Lookup(s, cfg, code) == Some(p) && cfg.urlCacheTtl > 0
    ensures var s' := Run(s, Clicks(code, n));
      && Lookup(s', cfg, code) == Some(p) && HotCount(Redis(s', cfg), code, Clock(s')) >= n
      && s'.rows == s.rows && Clock(s') == Clock(s)
  {
    hide Next, Redis, Clock;
    if n == 0 {
    } else {
      ClicksAddUp(s, cfg, code, p, n - 1);
      RunOneMore(s, Clicks(code, n - 1), TrackClick(code));
      RedisSteps(Run(s, Clicks(code, n - 1)), cfg, code, 0);
    }
  }

  /** A hot entry right after a click. */
  predicate HotNow(s: State, cfg: Config, code: string, p: Payload) {
    var c := Redis(s, cfg);
    && code in c.urls && c.urls[code] == Cached(p, Clock(s) + 2 * cfg.urlCacheTtl)
    && HotCount(c, code, Clock(s)) >= cfg.hotThreshold && code in c.hot && c.hot[code].deadline == Clock(s) + HOT_WINDOW
  }

  lemma {:induction false} StaysHot(s: State, cfg: Config, code: string, p: Payload, n: nat)
    requires HotNow(s, cfg, code, p) && cfg.urlCacheTtl > 0
    ensures var s' := Run(s, SteadyClicks(code, n));
      HotNow(s', cfg, code, p) && s'.rows == s.rows && Clock(s') == Clock(s) + n
  {
    hide Next, Redis, Clock;
    if n == 0 {
    } else {
      StaysHot(s, cfg, code, p, n - 1);
      var before := SteadyClicks(code, n - 1);
      var mid := Run(s, before);
      RunOneMore(s, before, Tick(1));
      RunOneMore(s, before + [Tick(1)], TrackClick(code));
      RedisSteps(mid, cfg, code, 1);
      RedisSteps(Next(mid, Tick(1)), cfg, code, 0);
    }
  }

  /** The late warm-up puts the old snapshot back. */
  lemma {:induction false} LateWarm(s: State, cfg: Config, code: string, snap: Snapshot)
    requires (code, snap) in s.warms && cfg.urlCacheTtl > 0
    ensures var s' := Next(s, RunWarm(code, snap));
      Lookup(s', cfg, code) == Some(snap.payload) && s'.rows == s.rows && Clock(s') == Clock(s)
  {
    hide TimeAt, Replay;
    LogGrows(s.log, Put(code, snap.payload), cfg);
  }

  /** Clicks make the entry hot, and more clicks keep it so until the horizon. */
  lemma {:induction false} ServedUntil(s: State, cfg: Config, code: string, p: Payload, horizon: nat)
    requires Lookup(s, cfg, code) == Some(p) && cfg.urlCacheTtl > 0
    ensures var s' := Run(s, Clicks(code, cfg.hotThreshold + 1) + SteadyClicks(code, horizon));
      Lookup(s', cfg, code) == Some(p) && s'.rows == s.rows && Clock(s') == Clock(s) + horizon
  {
    hide Run, Next, SteadyClicks, Redis, Clock;
    var n := cfg.hotThreshold;
    ClicksAddUp(s, cfg, code, p, n);
    RunOneMore(s, Clicks(code, n), TrackClick(code));
    RedisSteps(Run(s, Clicks(code, n)), cfg, code, 0);
    StaysHot(Run(s, Clicks(code, n + 1)), cfg, code, p, horizon);
    RunConcat(s, Clicks(code, n + 1), SteadyClicks(code, horizon));
  }

  /**
    For every link and every horizon there is a run in which the link is deactivated and still served when that much
    time has passed: a warm-up read before the deactivation and written after it, then clicks that renew the entry.
   */
  lemma {:induction false} StalenessLasts(row: Row, cfg: Config, horizon: nat)
    requires AliasIsCode(row) && row.isActive && row.expiresAt == None && cfg.urlCacheTtl > 0
    ensures exists before, after ::
              var s := Run(INIT, before);
              var s' := Run(s, after);
              && row.id in s.rows && !s.rows[row.id].isActive
              && s'.rows == s.rows && Clock(s') == Clock(s) + horizon
              && Lookup(s', cfg, row.shortCode) == Some(Serialize(row))
  {
    hide Next, Deactivation, Clicks, SteadyClicks, Lookup, Clock;
    var code, read := row.shortCode, Snapshot(Serialize(row), 3, 0);
    var s := Run(INIT, Deactivation(row, cfg));
    Deactivated(row, cfg);
    LateWarm(s, cfg, code, read);
    RunOneMore(s, [], RunWarm(code, read));
    hide Run;
    var clicks := Clicks(code, cfg.hotThreshold + 1) + SteadyClicks(code, horizon);
    ServedUntil(Run(s, [] + [RunWarm(code, read)]), cfg, code, Serialize(row), horizon);
    RunConcat(s, [] + [RunWarm(code, read)], clicks);
  }
}
