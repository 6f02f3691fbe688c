/** The URL service and the redirect lookup over the table and the cache, one request at a time. */
module UrlStore {
  import opened Common
  import opened Schema
  import opened UrlCache

  datatype Error =
    | NotFound | Gone | Forbidden | Conflict | Invalid | CodeCollision
    | IntegrityError | MultipleRows

  // ---------------------------------------------------------------------------------------------------------------
  // Creating, updating and deleting rows
  // ---------------------------------------------------------------------------------------------------------------

  /** `safe` is the verdict of is_safe_url on the target. */
  datatype CreateRequest = CreateRequest(
    originalUrl: string,
    safe: bool,
    customAlias: Option<string>,
    title: Option<string>,
    expiresAt: Option<int>,
    isPublic: bool)

  predicate AliasChar(c: char) {
    'a' <= c <= 'z' || 'A' <= c <= 'Z' || '0' <= c <= '9' || c == '_' || c == '-'
  }

  /** The request schema: an alias of 3 to 50 plain characters, a title that fits, an expiry in the future. */
  predicate Accepted(req: CreateRequest, now: int) {
    && (req.customAlias.Some? ==>
          3 <= |req.customAlias.value| <= 50 && forall c :: c in req.customAlias.value ==> AliasChar(c))
    && Within(req.title, 255)
    && !Expired(req.expiresAt, now)
  }

  /** Draws until a code is free. `codes` holds the MAX_COLLISION_RETRIES codes the generator would return. */
  function DrawCode(rows: Rows, codes: seq<string>): Result<string, Error> {
    if codes == [] then Err(CodeCollision)
    else match FindByCode(rows, codes[0])
      case Missing => Ok(codes[0])
      case Found(_) => DrawCode(rows, codes[1..])
      case Ambiguous => Err(MultipleRows)
  }

  function PickCode(rows: Rows, req: CreateRequest, codes: seq<string>): Result<string, Error> {
    if req.customAlias.Some? && req.customAlias.value != "" then
      match FindByCode(rows, req.customAlias.value)
      case Missing => Ok(req.customAlias.value)
      case Found(_) => Err(Conflict)
      case Ambiguous => Err(MultipleRows)
    else DrawCode(rows, codes)
  }

  /** The primary key and the two unique constraints of the table. */
  predicate Insertable(rows: Rows, row: Row) {
    && row.id !in rows
    && forall id | id in rows ::
         && rows[id].shortCode != row.shortCode
         && (row.customAlias.Some? ==> rows[id].customAlias != row.customAlias)
  }

  function NewRow(req: CreateRequest, code: string, owner: Option<Id>, id: Id, now: int): Row {
    Row(id, req.originalUrl, code, req.customAlias, req.title, owner, true, req.isPublic, req.expiresAt, 0, now)
  }

  function CreateRow(rows: Rows, req: CreateRequest, owner: Option<Id>, id: Id, codes: seq<string>, now: int)
    : Result<Row, Error>
  {
    if !Accepted(req, now) || !req.safe then Err(Invalid)
    else match PickCode(rows, req, codes)
      case Err(e) => Err(e)
      case Ok(code) =>
        var row := NewRow(req, code, owner, id, now);
        if Insertable(rows, row) then Ok(row) else Err(IntegrityError)
  }

  /** The row an update or a delete may touch. */
  function OwnedRow(rows: Rows, id: Id, requester: Id, isAdmin: bool): Result<Row, Error> {
    if id !in rows then Err(NotFound)
    else if !isAdmin && rows[id].ownerId != Some(requester) then Err(Forbidden)
    else Ok(rows[id])
  }

  /** The keys an update or a delete invalidates. */
  function Invalidate(c: CacheState, row: Row): CacheState {
    var c := CacheDelete(c, row.shortCode);
    if row.customAlias.Some? && row.customAlias.value != "" then CacheDelete(c, row.customAlias.value) else c
  }

  // ---------------------------------------------------------------------------------------------------------------
  // Resolving a code
  // ---------------------------------------------------------------------------------------------------------------

  /** Where a click goes, and the row it will be counted for. */
  datatype Target = Target(url: string, id: Id)

  /** The lookup without a cache. */
  function DbResolve(rows: Rows, code: string, now: int): Result<Target, Error> {
    match FindActive(rows, code, now)
    case Missing => Err(NotFound)
    case Found(row) => Ok(Target(row.originalUrl, row.id))
    case Ambiguous => Err(MultipleRows)
  }

  /** The lookup through the cache. */
  function CachedResolve(rows: Rows, c: CacheState, code: string, now: int): Result<Target, Error> {
    match CacheGet(c, code, now)
    case Some(p) => if Expired(p.expiresAt, now) then Err(Gone) else Ok(Target(p.originalUrl, p.id))
    case None => DbResolve(rows, code, now)
  }

  /** The cache once the background tasks of a resolve have run: a warm-up after a miss, then the click. */
  function AfterResolve(rows: Rows, c: CacheState, code: string, now: int, cfg: Config): CacheState {
    if CachedResolve(rows, c, code, now).Err? then c
    else if CacheGet(c, code, now).Some? || !FindActive(rows, code, now).Found? then CacheTrack(c, code, now, cfg)
    else CacheTrack(CacheSet(c, code, Serialize(FindActive(rows, code, now).row), None, now, cfg), code, now, cfg)
  }

  // ---------------------------------------------------------------------------------------------------------------
  // Runs
  // ---------------------------------------------------------------------------------------------------------------

  datatype Op =
    | Create(req: CreateRequest, owner: Option<Id>, newId: Id, codes: seq<string>)
    | Update(id: Id, changes: Changes, requester: Id, isAdmin: bool)
    | Delete(id: Id, requester: Id, isAdmin: bool)
    | Resolve(code: string)
    | Tick(dt: nat)

  datatype Out = Saved(row: Result<Row, Error>) | Link(target: Result<Target, Error>) | Elapsed

  datatype World = World(now: int, rows: Rows, cache: CacheState)

  /** The rows after an operation. The cache has no part in it. */
  function RowsAfter(rows: Rows, op: Op, now: int): Rows {
    match op
    case Create(req, owner, id, codes) =>
      var r := CreateRow(rows, req, owner, id, codes, now);
      if r.Ok? then rows[r.value.id := r.value] else rows
    case Update(id, changes, requester, isAdmin) =>
      var r := OwnedRow(rows, id, requester, isAdmin);
      if r.Ok? then rows[id := Merge(r.value, changes)] else rows
    case Delete(id, requester, isAdmin) =>
      if OwnedRow(rows, id, requester, isAdmin).Ok? then rows - {id} else rows
    case Resolve(_) => rows
    case Tick(_) => rows
  }

  function CacheAfter(w: World, op: Op, cfg: Config): CacheState {
    match op
    case Create(req, owner, id, codes) =>
      var r := CreateRow(w.rows, req, owner, id, codes, w.now);
      if r.Ok? then CacheSet(w.cache, r.value.shortCode, Serialize(r.value), None, w.now, cfg) else w.cache
    case Update(id, changes, requester, isAdmin) =>
      var r := OwnedRow(w.rows, id, requester, isAdmin);
      if r.Ok? then Invalidate(w.cache, r.value) else w.cache
    case Delete(id, requester, isAdmin) =>
      var r := OwnedRow(w.rows, id, requester, isAdmin);
      if r.Ok? then Invalidate(w.cache, r.value) else w.cache
    case Resolve(code) => AfterResolve(w.rows, w.cache, code, w.now, cfg)
    case Tick(_) => w.cache
  }

  function Clock(now: int, op: Op): int {
    if op.Tick? then now + op.dt else now
  }

  function Step(w: World, op: Op, cfg: Config): World {
    World(Clock(w.now, op), RowsAfter(w.rows, op, w.now), CacheAfter(w, op, cfg))
  }

  /** What the caller sees of everything but a resolve. */
  function RowOutput(rows: Rows, op: Op, now: int): Out {
    match op
    case Create(req, owner, id, codes) => Saved(CreateRow(rows, req, owner, id, codes, now))
    case Update(id, changes, requester, isAdmin) =>
      (match OwnedRow(rows, id, requester, isAdmin)
       case Ok(row) => Saved(Ok(Merge(row, changes)))
       case Err(e) => Saved(Err(e)))
    case Delete(id, requester, isAdmin) => Saved(OwnedRow(rows, id, requester, isAdmin))
    case _ => Elapsed
  }

  function Output(w: World, op: Op): Out {
    if op.Resolve? then Link(CachedResolve(w.rows, w.cache, op.code, w.now)) else RowOutput(w.rows, op, w.now)
  }

  function Run(w: World, ops: seq<Op>, cfg: Config): World
    decreases |ops|
  {
    if ops == [] then w else Run(Step(w, ops[0], cfg), ops[1..], cfg)
  }

  function Outputs(w: World, ops: seq<Op>, cfg: Config): seq<Out>
    decreases |ops|
  {
    if ops == [] then [] else [Output(w, ops[0])] + Outputs(Step(w, ops[0], cfg), ops[1..], cfg)
  }

  /** The same service without a cache: only a clock and a table. */
  function DbOutputs(now: int, rows: Rows, ops: seq<Op>): (outs: seq<Out>)
    ensures |outs| == |ops|
    decreases |ops|
  {
    if ops == [] then []
    else
      var out := if ops[0].Resolve? then Link(DbResolve(rows, ops[0].code, now)) else RowOutput(rows, ops[0], now);
      [out] + DbOutputs(Clock(now, ops[0]), RowsAfter(rows, ops[0], now), ops[1..])
  }

  // ---------------------------------------------------------------------------------------------------------------
  // Coherence
  // ---------------------------------------------------------------------------------------------------------------

  /** Every cache entry is the serialization of an existing active row, under the code of that row. */
  ghost predicate Coherent(rows: Rows, c: CacheState) {
    forall code :: code in c.urls ==> EntryOk(rows, c.urls[code].payload, code)
  }

  ghost predicate EntryOk(rows: Rows, p: Payload, code: string) {
    && p.id in rows && rows[p.id].shortCode == code && rows[p.id].isActive
    && var row := rows[p.id]; p == Payload(row.id, row.originalUrl, code, row.customAlias, true, row.expiresAt)
  }

  ghost predicate Inv(w: World) {
    WellFormed(w.rows) && Coherent(w.rows, w.cache)
  }

  /** The draw returns a code no row carries, and gives up only when every drawn code is taken. */
  lemma {:induction false} DrawnCodeIsFree(rows: Rows, codes: seq<string>)
    requires WellFormed(rows)
    ensures match DrawCode(rows, codes)
      case Ok(code) => code in codes && FindByCode(rows, code) == Missing
      case Err(e) => e == CodeCollision && forall c :: c in codes ==> FindByCode(rows, c).Found?
  {
    hide WellFormed, FindByCode;
    if codes == [] {
    } else {
      CodesNameOneRow(rows, codes[0], 0);
      DrawnCodeIsFree(rows, codes[1..]);
    }
  }

  lemma {:induction false} PickedCodeIsFree(rows: Rows, req: CreateRequest, codes: seq<string>, now: int)
    requires WellFormed(rows) && Accepted(req, now)
    ensures PickCode(rows, req, codes).Err? ==> PickCode(rows, req, codes).error in {Conflict, CodeCollision}
    ensures PickCode(rows, req, codes).Ok? ==> forall id :: id in rows ==>
              rows[id].shortCode != PickCode(rows, req, codes).value
    ensures PickCode(rows, req, codes).Ok? && req.customAlias.Some? ==>
              req.customAlias.value == PickCode(rows, req, codes).value
  {
    hide WellFormed, FindByCode;
    DrawnCodeIsFree(rows, codes);
    if req.customAlias.Some? {
      CodesNameOneRow(rows, req.customAlias.value, 0);
    }
    if PickCode(rows, req, codes).Ok? {
      CodesNameOneRow(rows, PickCode(rows, req, codes).value, 0);
    }
  }

  /** A create on a well-formed table fails on a constraint only when its id is taken, and keeps the table well formed. */
  lemma {:induction false} CreateKeepsTable(rows: Rows, req: CreateRequest, owner: Option<Id>, id: Id,
                                            codes: seq<string>, now: int)
    requires WellFormed(rows)
    ensures var r := CreateRow(rows, req, owner, id, codes, now);
      && r != Err(MultipleRows) && (r == Err(IntegrityError) ==> id in rows)
      && (r.Ok? ==> r.value.id == id && id !in rows && r.value.isActive && WellFormed(rows[id := r.value])
                    && forall j :: j in rows ==> rows[j].shortCode != r.value.shortCode)
  {
    if Accepted(req, now) && req.safe {
      PickedCodeIsFree(rows, req, codes, now);
      hide PickCode;
      var picked := PickCode(rows, req, codes);
      if picked.Ok? {
        var row := NewRow(req, picked.value, owner, id, now);
        assert AliasIsCode(row);
        assert forall j :: j in rows ==> AliasIsCode(rows[j]) && rows[j].shortCode != row.shortCode;
        assert row.customAlias.Some? ==> forall j :: j in rows ==> rows[j].customAlias != row.customAlias;
      }
    }
  }

  lemma {:induction false} TableStaysWellFormed(rows: Rows, op: Op, now: int)
    requires WellFormed(rows)
    ensures WellFormed(RowsAfter(rows, op, now))
  {
    hide CreateRow;
    if op.Create? {
      CreateKeepsTable(rows, op.req, op.owner, op.newId, op.codes, now);
    }
  }

  lemma {:induction false} ResolveKeepsCoherence(rows: Rows, c: CacheState, code: string, now: int, cfg: Config)
    requires WellFormed(rows) && Coherent(rows, c)
    ensures Coherent(rows, AfterResolve(rows, c, code, now, cfg))
  {
    hide WellFormed, FindActive, FindByCode;
    CodesNameOneRow(rows, code, now);
  }

  lemma {:induction false} ChangeKeepsCoherence(rows: Rows, c: CacheState, id: Id, rows': Rows)
    requires WellFormed(rows) && Coherent(rows, c) && id in rows
    requires rows - {id} == rows' - {id}
    ensures Coherent(rows', Invalidate(c, rows[id]))
  {
    var c' := Invalidate(c, rows[id]);
    forall code | code in c'.urls ensures EntryOk(rows', c'.urls[code].payload, code) {
      var p := c.urls[code].payload;
      assert EntryOk(rows, p, code);
      assert p.id in rows - {id};
      assert (rows - {id})[p.id] == (rows' - {id})[p.id];
    }
  }

  lemma {:induction false} StepKeepsInv(w: World, op: Op, cfg: Config)
    requires Inv(w)
    ensures Inv(Step(w, op, cfg))
  {
    TableStaysWellFormed(w.rows, op, w.now);
    hide WellFormed, CreateRow, Invalidate, AfterResolve;
    match op
    case Create(req, owner, id, codes) =>
      CreateKeepsTable(w.rows, req, owner, id, codes, w.now);
    case Update(id, changes, requester, isAdmin) =>
      if id in w.rows {
        ChangeKeepsCoherence(w.rows, w.cache, id, w.rows[id := Merge(w.rows[id], changes)]);
      }
    case Delete(id, requester, isAdmin) =>
      if id in w.rows {
        ChangeKeepsCoherence(w.rows, w.cache, id, w.rows - {id});
      }
    case Resolve(code) =>
      ResolveKeepsCoherence(w.rows, w.cache, code, w.now, cfg);
    case Tick(_) =>
  }

  /** In every run each cache entry stays the serialization of an existing active row. */
  lemma {:induction false} RunsStayCoherent(w: World, ops: seq<Op>, cfg: Config)
    requires Inv(w)
    ensures Inv(Run(w, ops, cfg))
    decreases |ops|
  {
    hide Inv, Step;
    if ops == [] {
    } else {
      StepKeepsInv(w, ops[0], cfg);
      RunsStayCoherent(Step(w, ops[0], cfg), ops[1..], cfg);
    }
  }

  // ---------------------------------------------------------------------------------------------------------------
  // Refinement: the cache is invisible, but for 410 in place of 404
  // ---------------------------------------------------------------------------------------------------------------

  /** A cached answer may say Gone where the table says NotFound. */
  predicate Agrees(cached: Out, direct: Out) {
    cached == direct || (cached == Link(Err(Gone)) && direct == Link(Err(NotFound)))
  }

  /** Gone is answered only for a link that exists, is active and has expired. */
  lemma {:induction false} ResolveAgrees(w: World, code: string)
    requires Inv(w)
    ensures Agrees(Link(CachedResolve(w.rows, w.cache, code, w.now)), Link(DbResolve(w.rows, code, w.now)))
    ensures CachedResolve(w.rows, w.cache, code, w.now) != Err(MultipleRows)
    ensures CachedResolve(w.rows, w.cache, code, w.now) == Err(Gone) ==>
              match FindByCode(w.rows, code)
              case Found(row) => row.isActive && Expired(row.expiresAt, w.now)
              case _ => false
  {
    CodesNameOneRow(w.rows, code, w.now);
    hide FindActive, FindByCode;
    if code in w.cache.urls {
      assert EntryOk(w.rows, w.cache.urls[code].payload, code);
    }
  }

  lemma {:induction false} OutputsAgree(w: World, ops: seq<Op>, cfg: Config)
    requires Inv(w)
    ensures var cached, direct := Outputs(w, ops, cfg), DbOutputs(w.now, w.rows, ops);
      |cached| == |direct| && forall i :: 0 <= i < |direct| ==> Agrees(cached[i], direct[i])
    decreases |ops|
  {
    hide Inv, RowsAfter, CacheAfter, CachedResolve, DbResolve, RowOutput;
    if ops == [] {
    } else {
      StepKeepsInv(w, ops[0], cfg);
      OutputsAgree(Step(w, ops[0], cfg), ops[1..], cfg);
      if ops[0].Resolve? {
        ResolveAgrees(w, ops[0].code);
      }
    }
  }

  /** From an empty service every run answers as the service without a cache does. */
  lemma {:induction false} CachedRefinesUncached(now: int, ops: seq<Op>, cfg: Config)
    ensures var cached, direct := Outputs(World(now, map[], EMPTY_CACHE), ops, cfg), DbOutputs(now, map[], ops);
      |cached| == |direct| && forall i :: 0 <= i < |direct| ==> Agrees(cached[i], direct[i])
  {
    hide Outputs, DbOutputs, Agrees;
    OutputsAgree(World(now, map[], EMPTY_CACHE), ops, cfg);
  }

  // ---------------------------------------------------------------------------------------------------------------
  // What a create, an update or a delete changes for the next resolve
  // ---------------------------------------------------------------------------------------------------------------

  /** Exactly when an accepted create succeeds, and under which code. */
  lemma {:induction false} CreateExactly(rows: Rows, req: CreateRequest, owner: Option<Id>, id: Id,
                                         codes: seq<string>, now: int)
    requires WellFormed(rows) && Accepted(req, now) && req.safe && id !in rows
    ensures var r := CreateRow(rows, req, owner, id, codes, now);
      var taken := set j | j in rows :: rows[j].shortCode;
      match req.customAlias
      case Some(alias) => if alias in taken then r == Err(Conflict) else r.Ok? && r.value.shortCode == alias
      case None => if forall c :: c in codes ==> c in taken then r == Err(CodeCollision)
                   else r.Ok? && r.value.shortCode in codes && r.value.shortCode !in taken
  {
    CreateKeepsTable(rows, req, owner, id, codes, now);
    DrawnCodeIsFree(rows, codes);
    hide WellFormed, FindByCode, DrawCode, Insertable;
    var taken := set j | j in rows :: rows[j].shortCode;
    forall c ensures FindByCode(rows, c) == Missing <==> c !in taken {
      CodesNameOneRow(rows, c, now);
    }
    forall c ensures FindByCode(rows, c) != Ambiguous {
      CodesNameOneRow(rows, c, now);
    }
  }

  /** Two tables that agree on the rows of a code answer the same for it. */
  lemma {:induction false} SameRowsSameAnswer(rows: Rows, rows': Rows, code: string, now: int)
    requires WellFormed(rows) && WellFormed(rows')
    requires forall id :: id in rows && rows[id].shortCode == code ==> id in rows' && rows'[id] == rows[id]
    requires forall id :: id in rows' && rows'[id].shortCode == code ==> id in rows && rows'[id] == rows[id]
    ensures DbResolve(rows, code, now) == DbResolve(rows', code, now)
  {
    CodesNameOneRow(rows, code, now);
    CodesNameOneRow(rows', code, now);
    hide FindByCode, FindActive, WellFormed;
  }

  /** What the table holds under a code decides a coherent resolve. */
  lemma {:induction false} ResolveByRow(w: World, id: Id)
    requires Inv(w) && id in w.rows
    ensures var row := w.rows[id];
      var r := CachedResolve(w.rows, w.cache, row.shortCode, w.now);
      if row.isActive && !Expired(row.expiresAt, w.now) then r == Ok(Target(row.originalUrl, id))
      else r == Err(NotFound) || (r == Err(Gone) && row.isActive)
  {
    CodesNameOneRow(w.rows, w.rows[id].shortCode, w.now);
    ResolveAgrees(w, w.rows[id].shortCode);
    assert w.rows[id].id == id;
    hide FindByCode, FindActive, WellFormed, Coherent, CachedResolve;
  }

  /** A created link leads to the requested URL at once. */
  lemma {:induction false} CreateThenResolve(w: World, cfg: Config, req: CreateRequest, owner: Option<Id>, id: Id,
                                             codes: seq<string>)
    requires Inv(w) && CreateRow(w.rows, req, owner, id, codes, w.now).Ok?
    ensures var code := CreateRow(w.rows, req, owner, id, codes, w.now).value.shortCode;
      var w' := Step(w, Create(req, owner, id, codes), cfg);
      CachedResolve(w'.rows, w'.cache, code, w'.now) == Ok(Target(req.originalUrl, id))
  {
    var w' := Step(w, Create(req, owner, id, codes), cfg);
    StepKeepsInv(w, Create(req, owner, id, codes), cfg);
    hide Inv, PickCode;
    ResolveByRow(w', id);
  }

  /** An update is served at once: the old entry is gone and the new state of the row decides. */
  lemma {:induction false} UpdateThenResolve(w: World, cfg: Config, id: Id, ch: Changes, requester: Id, isAdmin: bool)
    requires Inv(w) && OwnedRow(w.rows, id, requester, isAdmin).Ok?
    ensures var row := Merge(w.rows[id], ch);
      var w' := Step(w, Update(id, ch, requester, isAdmin), cfg);
      CachedResolve(w'.rows, w'.cache, row.shortCode, w'.now)
      == if row.isActive && !Expired(row.expiresAt, w.now) then Ok(Target(row.originalUrl, id)) else Err(NotFound)
  {
    var w' := Step(w, Update(id, ch, requester, isAdmin), cfg);
    StepKeepsInv(w, Update(id, ch, requester, isAdmin), cfg);
    assert w.rows[id].shortCode !in w'.cache.urls;
    hide Inv;
    ResolveByRow(w', id);
  }

  /** A deleted link is gone at once. */
  lemma {:induction false} DeleteThenResolve(w: World, cfg: Config, id: Id, requester: Id, isAdmin: bool)
    requires Inv(w) && OwnedRow(w.rows, id, requester, isAdmin).Ok?
    ensures var w' := Step(w, Delete(id, requester, isAdmin), cfg);
      CachedResolve(w'.rows, w'.cache, w.rows[id].shortCode, w'.now) == Err(NotFound)
  {
    var w' := Step(w, Delete(id, requester, isAdmin), cfg);
    StepKeepsInv(w, Delete(id, requester, isAdmin), cfg);
    CodesNameOneRow(w'.rows, w.rows[id].shortCode, w'.now);
    assert w.rows[id].shortCode !in w'.cache.urls;
    hide FindByCode, FindActive;
  }

  /** The code an operation may change the answer for. */
  function TouchedCode(rows: Rows, op: Op, now: int): Option<string> {
    match op
    case Create(req, owner, id, codes) =>
      (match CreateRow(rows, req, owner, id, codes, now)
       case Ok(row) => Some(row.shortCode)
       case Err(_) => None)
    case Update(id, _, _, _) => if id in rows then Some(rows[id].shortCode) else None
    case Delete(id, _, _) => if id in rows then Some(rows[id].shortCode) else None
    case _ => None
  }

  /** No operation but the passage of time changes where another code leads. */
  lemma {:induction false} OtherCodesUnaffected(w: World, op: Op, cfg: Config, code: string)
    requires Inv(w) && !op.Tick? && TouchedCode(w.rows, op, w.now) != Some(code)
    ensures var w' := Step(w, op, cfg);
      Agrees(Link(CachedResolve(w'.rows, w'.cache, code, w'.now)), Link(DbResolve(w.rows, code, w.now)))
  {
    var w' := Step(w, op, cfg);
    StepKeepsInv(w, op, cfg);
    ResolveAgrees(w', code);
    if op.Create? {
      CreateKeepsTable(w.rows, op.req, op.owner, op.newId, op.codes, w.now);
    }
    hide Coherent, WellFormed, CachedResolve, DbResolve, CreateRow, CacheAfter;
    SameRowsSameAnswer(w.rows, w'.rows, code, w.now);
  }

  /** A resolve that had to ask the table is answered from the cache for the next URL_CACHE_TTL seconds. */
  lemma {:induction false} MissWarmsCache(w: World, cfg: Config, code: string, dt: nat)
    requires Inv(w) && CacheGet(w.cache, code, w.now) == None && DbResolve(w.rows, code, w.now).Ok?
    requires dt < cfg.urlCacheTtl
    ensures var w' := Step(Step(w, Resolve(code), cfg), Tick(dt), cfg);
      var p := CacheGet(w'.cache, code, w'.now);
      p.Some? && Ok(Target(p.value.originalUrl, p.value.id)) == DbResolve(w.rows, code, w.now)
  {
    hide WellFormed, FindActive, FindByCode;
    CodesNameOneRow(w.rows, code, w.now);
  }

  // ---------------------------------------------------------------------------------------------------------------
  // Hot links stay cached
  // ---------------------------------------------------------------------------------------------------------------

  /** The state a hot link's last click, at time `last`, left behind. */
  ghost predicate Hot(w: World, cfg: Config, code: string, last: int) {
    && last <= w.now
    && code in w.cache.hot && w.cache.hot[code].count >= cfg.hotThreshold
    && w.cache.hot[code].deadline == last + HOT_WINDOW
    && code in w.cache.urls && w.cache.urls[code].deadline == last + 2 * cfg.urlCacheTtl
  }

  /** A successful click that brings the counter to the threshold makes the link hot. */
  lemma {:induction false} ClickMakesHot(w: World, cfg: Config, code: string)
    requires Inv(w) && cfg.urlCacheTtl > 0
    requires CachedResolve(w.rows, w.cache, code, w.now).Ok?
    requires HotCount(w.cache, code, w.now) + 1 >= cfg.hotThreshold
    ensures Hot(Step(w, Resolve(code), cfg), cfg, code, w.now)
  {
    hide WellFormed, FindActive, FindByCode;
    CodesNameOneRow(w.rows, code, w.now);
  }

  /** How long a hot link lasts without a click: its entry 2 * URL_CACHE_TTL, a counter that matters HOT_WINDOW. */
  function Lull(cfg: Config): nat {
    if cfg.hotThreshold == 0 then 2 * cfg.urlCacheTtl else Min(HOT_WINDOW, 2 * cfg.urlCacheTtl)
  }

  /** Nobody changes the row of `code`, and it has not expired at any click. */
  ghost predicate Untouched(w: World, ops: seq<Op>, cfg: Config, code: string)
    decreases |ops|
  {
    ops != [] ==>
      && Untouched(Step(w, ops[0], cfg), ops[1..], cfg, code)
      && match ops[0]
         case Resolve(c) =>
           c == code && FindByCode(w.rows, code).Found? ==> !Expired(FindByCode(w.rows, code).row.expiresAt, w.now)
         case Update(id, _, _, _) => !(id in w.rows && w.rows[id].shortCode == code)
         case Delete(id, _, _) => !(id in w.rows && w.rows[id].shortCode == code)
         case _ => true
  }

  /** Every gap between clicks on `code`, the first counted from `last`, is shorter than the lull. */
  predicate ClicksInTime(now: int, ops: seq<Op>, cfg: Config, code: string, last: int)
    decreases |ops|
  {
    if ops == [] then true
    else if ops[0] == Resolve(code) then now - last < Lull(cfg) && ClicksInTime(now, ops[1..], cfg, code, now)
    else ClicksInTime(Clock(now, ops[0]), ops[1..], cfg, code, last)
  }

  /** Every resolve of `code` in the run finds it in the cache, with the counter at the threshold or above. */
  ghost predicate AllHits(w: World, ops: seq<Op>, cfg: Config, code: string)
    decreases |ops|
  {
    if ops == [] then true
    else
      && (ops[0] == Resolve(code) ==>
            CacheGet(w.cache, code, w.now).Some? && HotCount(w.cache, code, w.now) >= cfg.hotThreshold)
      && AllHits(Step(w, ops[0], cfg), ops[1..], cfg, code)
  }

  /** A click that comes too late misses, or finds the counter gone. */
  lemma {:induction false} LateClick(w: World, cfg: Config, code: string, last: int)
    requires Hot(w, cfg, code, last) && w.now - last >= Lull(cfg)
    ensures CacheGet(w.cache, code, w.now) == None || HotCount(w.cache, code, w.now) < cfg.hotThreshold
  {
  }

  /** A click in time renews a hot link. */
  lemma {:induction false} ClickRenews(w: World, cfg: Config, code: string, last: int)
    requires Inv(w) && Hot(w, cfg, code, last)
    requires w.now - last < Lull(cfg)
    requires FindByCode(w.rows, code).Found? ==> !Expired(FindByCode(w.rows, code).row.expiresAt, w.now)
    ensures CacheGet(w.cache, code, w.now).Some? && HotCount(w.cache, code, w.now) >= cfg.hotThreshold
    ensures Hot(Step(w, Resolve(code), cfg), cfg, code, w.now)
  {
    CodesNameOneRow(w.rows, code, w.now);
    assert EntryOk(w.rows, w.cache.urls[code].payload, code);
    hide FindActive, FindByCode, WellFormed;
  }

  /** Any operation that neither clicks on a hot link nor changes its row leaves it as it is. */
  lemma {:induction false} OthersLeaveHot(w: World, op: Op, cfg: Config, code: string, last: int)
    requires Inv(w) && Hot(w, cfg, code, last) && op != Resolve(code)
    requires op.Update? && op.id in w.rows ==> w.rows[op.id].shortCode != code
    requires op.Delete? && op.id in w.rows ==> w.rows[op.id].shortCode != code
    ensures Hot(Step(w, op, cfg), cfg, code, last)
  {
    hide CreateRow, FindActive, FindByCode, WellFormed, AfterResolve, Invalidate, OwnedRow;
    assert EntryOk(w.rows, w.cache.urls[code].payload, code);
    match op
    case Create(req, owner, id, codes) =>
      CreateKeepsTable(w.rows, req, owner, id, codes, w.now);
    case Update(id, changes, requester, isAdmin) =>
      OtherRowKept(w.rows, w.cache, id, requester, isAdmin, code);
    case Delete(id, requester, isAdmin) =>
      OtherRowKept(w.rows, w.cache, id, requester, isAdmin, code);
    case Resolve(c) =>
      OtherCodeKept(w.rows, w.cache, c, w.now, cfg, code);
    case Tick(_) =>
  }

  lemma {:induction false} OtherRowKept(rows: Rows, c: CacheState, id: Id, requester: Id, isAdmin: bool, code: string)
    requires WellFormed(rows) && (id in rows ==> rows[id].shortCode != code)
    ensures var r := OwnedRow(rows, id, requester, isAdmin);
      r.Ok? ==>
        && (code in c.urls ==> code in Invalidate(c, r.value).urls && Invalidate(c, r.value).urls[code] == c.urls[code])
        && (code in c.hot ==> code in Invalidate(c, r.value).hot && Invalidate(c, r.value).hot[code] == c.hot[code])
  {
  }

  lemma {:induction false} OtherCodeKept(rows: Rows, c: CacheState, other: string, now: int, cfg: Config, code: string)
    requires other != code
    ensures var c' := AfterResolve(rows, c, other, now, cfg);
      && (code in c.urls ==> code in c'.urls && c'.urls[code] == c.urls[code])
      && (code in c.hot ==> code in c'.hot && c'.hot[code] == c.hot[code])
  {
    hide FindActive;
  }

  /**
    A hot link answers every click from the cache, with its counter at the threshold or above, exactly when no two
    clicks are a lull apart.
   */
  lemma {:induction false} HotLinksStayCached(w: World, ops: seq<Op>, cfg: Config, code: string, last: int)
    requires Inv(w) && Hot(w, cfg, code, last)
    requires Untouched(w, ops, cfg, code)
    ensures AllHits(w, ops, cfg, code) <==> ClicksInTime(w.now, ops, cfg, code, last)
    decreases |ops|
  {
    hide Inv, Hot, RowsAfter, CacheAfter, FindByCode, CacheGet, HotCount, Lull;
    if ops == [] {
    } else {
      StepKeepsInv(w, ops[0], cfg);
      if ops[0] != Resolve(code) {
        OthersLeaveHot(w, ops[0], cfg, code, last);
        HotLinksStayCached(Step(w, ops[0], cfg), ops[1..], cfg, code, last);
      } else if w.now - last < Lull(cfg) {
        ClickRenews(w, cfg, code, last);
        HotLinksStayCached(Step(w, ops[0], cfg), ops[1..], cfg, code, w.now);
      } else {
        LateClick(w, cfg, code, last);
      }
    }
  }
}
