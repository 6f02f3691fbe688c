/**
  What the URL service promises its callers, in terms of requests, rows and times alone: every law spells out the
  condition and the fields it speaks of.
 */
module UrlLaws {
  import opened Common
  import opened Schema
  import opened UrlCache
  import opened UrlStore

  // ---------------------------------------------------------------------------------------------------------------
  // Resolve
  // ---------------------------------------------------------------------------------------------------------------

  /**
    A code redirects to its row's target exactly while the row is active and its expiry, if any, lies in the future. It
    is Gone exactly when a live cache entry says that an active row has expired, and otherwise not found.
   */
  lemma {:induction false} ResolveExactly(w: World, id: Id)
    requires Inv(w) && id in w.rows
    ensures var row := w.rows[id];
      var r := CachedResolve(w.rows, w.cache, row.shortCode, w.now);
      var cached := row.shortCode in w.cache.urls && w.now < w.cache.urls[row.shortCode].deadline;
      && (r == Ok(Target(row.originalUrl, id)) <==>
            row.isActive && (row.expiresAt == None || w.now < row.expiresAt.value))
      && (r == Err(Gone) <==> cached && row.expiresAt.Some? && row.expiresAt.value <= w.now)
      && (r.Err? ==> r.error == Gone || r.error == NotFound)
      && (r.Ok? ==> r.value == Target(row.originalUrl, id))
  {
    var row := w.rows[id];
    CodesNameOneRow(w.rows, row.shortCode, w.now);
    assert row.id == id;
    if row.shortCode in w.cache.urls {
      assert EntryOk(w.rows, w.cache.urls[row.shortCode].payload, row.shortCode);
    }
    hide FindByCode, FindActive, WellFormed, Coherent;
  }

  lemma {:induction false} UnknownCode(w: World, code: string)
    requires Inv(w) && forall id :: id in w.rows ==> w.rows[id].shortCode != code
    ensures CachedResolve(w.rows, w.cache, code, w.now) == Err(NotFound)
  {
    CodesNameOneRow(w.rows, code, w.now);
    assert code in w.cache.urls ==> EntryOk(w.rows, w.cache.urls[code].payload, code);
    hide FindByCode, FindActive, WellFormed;
  }

  /** A click on a live entry. */
  lemma {:induction false} TrackEffects(c: CacheState, code: string, now: int, cfg: Config)
    requires code in c.urls && now < c.urls[code].deadline
    ensures var clicks := if code in c.hot && now < c.hot[code].deadline then c.hot[code].count else 0;
      CacheTrack(c, code, now, cfg)
      == CacheState(
           c.urls[code := Cached(
             c.urls[code].payload,
             if clicks + 1 >= cfg.hotThreshold then now + 2 * cfg.urlCacheTtl else c.urls[code].deadline)],
           c.hot[code := Counter(clicks + 1, now + 3600)])
  {
    assert c.urls[code := c.urls[code]] == c.urls;
    assert c.urls[code] == Cached(c.urls[code].payload, c.urls[code].deadline);
  }

  /** A click on an entry just written. */
  lemma {:induction false} WarmThenTrack(c: CacheState, code: string, p: Payload, now: int, cfg: Config)
    requires cfg.urlCacheTtl > 0
    ensures var clicks := if code in c.hot && now < c.hot[code].deadline then c.hot[code].count else 0;
      CacheTrack(CacheState(c.urls[code := Cached(p, now + cfg.urlCacheTtl)], c.hot), code, now, cfg)
      == CacheState(
           c.urls[code := Cached(
             p, if clicks + 1 >= cfg.hotThreshold then now + 2 * cfg.urlCacheTtl else now + cfg.urlCacheTtl)],
           c.hot[code := Counter(clicks + 1, now + 3600)])
  {
    var warm := CacheState(c.urls[code := Cached(p, now + cfg.urlCacheTtl)], c.hot);
    TrackEffects(warm, code, now, cfg);
    hide CacheTrack;
    var e := CacheTrack(warm, code, now, cfg).urls[code];
    assert warm.urls[code := e] == c.urls[code := e];
  }

  /** The entry a successful resolve counts its click on: the live one, or a new one after a miss. */
  lemma {:induction false} EntryOfResolve(w: World, id: Id, cfg: Config)
    requires Inv(w) && id in w.rows
    ensures var row := w.rows[id];
      var code := row.shortCode;
      var c' := AfterResolve(w.rows, w.cache, code, w.now, cfg);
      var p := Payload(id, row.originalUrl, code, row.customAlias, true, row.expiresAt);
      if !(row.isActive && (row.expiresAt == None || w.now < row.expiresAt.value)) then c' == w.cache
      else if code in w.cache.urls && w.now < w.cache.urls[code].deadline then
        w.cache.urls[code].payload == p && c' == CacheTrack(w.cache, code, w.now, cfg)
      else
        var warm := CacheState(w.cache.urls[code := Cached(p, w.now + cfg.urlCacheTtl)], w.cache.hot);
        c' == CacheTrack(warm, code, w.now, cfg)
  {
    var row := w.rows[id];
    ResolveExactly(w, id);
    CodesNameOneRow(w.rows, row.shortCode, w.now);
    assert row.id == id;
    assert row.shortCode in w.cache.urls ==> EntryOk(w.rows, w.cache.urls[row.shortCode].payload, row.shortCode);
    hide FindByCode, FindActive, WellFormed, Coherent, CachedResolve, CacheTrack;
  }

  /**
    What a resolve leaves in the cache. A failure leaves nothing. A success counts one click, in a counter that lives
    3600 seconds more, and keeps or writes the row's entry; the entry then lives on, or for URL_CACHE_TTL, or for twice
    that when the count has reached the threshold.
   */
  lemma {:induction false} ResolveEffects(w: World, id: Id, cfg: Config)
    requires Inv(w) && id in w.rows && cfg.urlCacheTtl > 0
    ensures var row := w.rows[id];
      var code := row.shortCode;
      var w' := Step(w, Resolve(code), cfg);
      var clicks := if code in w.cache.hot && w.now < w.cache.hot[code].deadline then w.cache.hot[code].count else 0;
      var cached := code in w.cache.urls && w.now < w.cache.urls[code].deadline;
      && w'.now == w.now && w'.rows == w.rows
      && w'.cache == if row.isActive && (row.expiresAt == None || w.now < row.expiresAt.value) then
           CacheState(
             w.cache.urls[code := Cached(
               Payload(id, row.originalUrl, code, row.customAlias, true, row.expiresAt),
               if clicks + 1 >= cfg.hotThreshold then w.now + 2 * cfg.urlCacheTtl
               else if cached then w.cache.urls[code].deadline
               else w.now + cfg.urlCacheTtl)],
             w.cache.hot[code := Counter(clicks + 1, w.now + 3600)])
         else w.cache
  {
    hide Inv, AfterResolve, CacheTrack, CreateRow, OwnedRow, Merge, Invalidate;
    var row := w.rows[id];
    var code := row.shortCode;
    EntryOfResolve(w, id, cfg);
    if code in w.cache.urls && w.now < w.cache.urls[code].deadline {
      TrackEffects(w.cache, code, w.now, cfg);
    } else {
      var p := Payload(id, row.originalUrl, code, row.customAlias, true, row.expiresAt);
      WarmThenTrack(w.cache, code, p, w.now, cfg);
    }
  }

  // ---------------------------------------------------------------------------------------------------------------
  // Create
  // ---------------------------------------------------------------------------------------------------------------

  /** The request is well formed and its target safe. */
  ghost predicate GoodRequest(req: CreateRequest, now: int) {
    && req.safe
    && (req.customAlias.Some? ==> 3 <= |req.customAlias.value| <= 50)
    && (req.customAlias.Some? ==> forall c :: c in req.customAlias.value ==>
          var n := c as int; 97 <= n <= 122 || 65 <= n <= 90 || 48 <= n <= 57 || n == 95 || n == 45)
    && (req.title.Some? ==> |req.title.value| <= 255)
    && (req.expiresAt.Some? ==> now < req.expiresAt.value)
  }

  /** Some row carries the code. */
  ghost predicate Taken(rows: Rows, code: string) {
    exists id :: id in rows && rows[id].shortCode == code
  }

  /** The first of the drawn codes that no row carries. */
  ghost predicate FirstFree(rows: Rows, codes: seq<string>, code: string) {
    exists i :: 0 <= i < |codes| && codes[i] == code && !Taken(rows, code)
                && forall j :: 0 <= j < i ==> Taken(rows, codes[j])
  }

  lemma {:induction false} TakenIsFound(rows: Rows, code: string)
    requires WellFormed(rows)
    ensures FindByCode(rows, code) != Ambiguous && (FindByCode(rows, code) == Missing <==> !Taken(rows, code))
  {
    CodesNameOneRow(rows, code, 0);
    hide FindByCode;
  }

  /** The retry loop returns the first free draw, and gives up only when every draw is taken. */
  lemma {:induction false} DrawsFirstFree(rows: Rows, codes: seq<string>)
    requires WellFormed(rows)
    ensures match DrawCode(rows, codes)
      case Ok(code) => FirstFree(rows, codes, code)
      case Err(e) => e == CodeCollision && forall c :: c in codes ==> Taken(rows, c)
  {
    hide WellFormed, FindByCode, Taken;
    if codes == [] {
    } else {
      TakenIsFound(rows, codes[0]);
      DrawsFirstFree(rows, codes[1..]);
      if Taken(rows, codes[0]) && DrawCode(rows, codes[1..]).Ok? {
        var code := DrawCode(rows, codes[1..]).value;
        var i :| 0 <= i < |codes| - 1 && codes[1..][i] == code && !Taken(rows, code)
                 && forall j :: 0 <= j < i ==> Taken(rows, codes[1..][j]);
        assert codes[i + 1] == code;
        assert forall j :: 1 <= j < i + 1 ==> codes[j] == codes[1..][j - 1];
      }
    }
  }

  /** The code a good request gets, if any. */
  ghost predicate Gets(rows: Rows, req: CreateRequest, codes: seq<string>, code: string) {
    match req.customAlias
    case Some(alias) => code == alias && !Taken(rows, alias)
    case None => FirstFree(rows, codes, code)
  }

  lemma {:induction false} PicksCode(rows: Rows, req: CreateRequest, codes: seq<string>, now: int)
    requires WellFormed(rows) && GoodRequest(req, now)
    ensures match PickCode(rows, req, codes)
      case Ok(code) => Gets(rows, req, codes, code)
      case Err(e) => e == (if req.customAlias.Some? then Conflict else CodeCollision)
                     && forall code :: !Gets(rows, req, codes, code)
  {
    DrawsFirstFree(rows, codes);
    if req.customAlias.Some? {
      TakenIsFound(rows, req.customAlias.value);
    }
    hide WellFormed, FindByCode, DrawCode, Taken;
  }

  lemma {:induction false} GoodIsAccepted(req: CreateRequest, now: int)
    ensures GoodRequest(req, now) <==> Accepted(req, now) && req.safe
  {
    if req.customAlias.Some? {
      forall c | c in req.customAlias.value
        ensures AliasChar(c) <==>
                var n := c as int; 97 <= n <= 122 || 65 <= n <= 90 || 48 <= n <= 57 || n == 95 || n == 45
      {
      }
    }
  }

  /**
    A create under a fresh id. A bad request is Invalid; a good one fails only for want of a code, with Conflict for a
    taken alias and CodeCollision for draws that are all taken; otherwise one row is added, with the fields asked for,
    and cached for URL_CACHE_TTL. A failure changes nothing.
   */
  lemma {:induction false} CreateLaw(w: World, req: CreateRequest, owner: Option<Id>, id: Id, codes: seq<string>,
                                     cfg: Config)
    requires Inv(w) && id !in w.rows
    ensures var op := Create(req, owner, id, codes);
      var w', out := Step(w, op, cfg), Output(w, op);
      if !GoodRequest(req, w.now) then out == Saved(Err(Invalid)) && w' == w
      else if forall code :: !Gets(w.rows, req, codes, code) then
        out == Saved(Err(if req.customAlias.Some? then Conflict else CodeCollision)) && w' == w
      else
        && out.Saved? && out.row.Ok?
        && var code := out.row.value.shortCode;
        && Gets(w.rows, req, codes, code)
        && out == Saved(Ok(Row(id, req.originalUrl, code, req.customAlias, req.title, owner, true, req.isPublic,
                               req.expiresAt, 0, w.now)))
        && w'.now == w.now && w'.rows == w.rows[id := out.row.value]
        && w'.cache == CacheState(
             w.cache.urls[code := Cached(Payload(id, req.originalUrl, code, req.customAlias, true, req.expiresAt),
                                         w.now + cfg.urlCacheTtl)],
             w.cache.hot)
  {
    GoodIsAccepted(req, w.now);
    if GoodRequest(req, w.now) {
      PicksCode(w.rows, req, codes, w.now);
      CreateKeepsTable(w.rows, req, owner, id, codes, w.now);
    }
    hide PickCode, Accepted, GoodRequest, Gets, Insertable, WellFormed, Coherent;
  }

  // ---------------------------------------------------------------------------------------------------------------
  // Update and delete
  // ---------------------------------------------------------------------------------------------------------------

  /** The requester may change the row: an administrator any row, another user the own ones. */
  ghost predicate Entitled(rows: Rows, id: Id, requester: Id, isAdmin: bool) {
    id in rows && (isAdmin || rows[id].ownerId == Some(requester))
  }

  /**
    An update changes the row exactly when the requester is entitled: each field the request gives, and no other. The
    entry and the counter of the code are dropped. A missing id is NotFound, a stranger Forbidden, and nothing changes.
   */
  lemma {:induction false} UpdateLaw(w: World, id: Id, ch: Changes, requester: Id, isAdmin: bool, cfg: Config)
    requires Inv(w)
    ensures var op := Update(id, ch, requester, isAdmin);
      var w', out := Step(w, op, cfg), Output(w, op);
      if Entitled(w.rows, id, requester, isAdmin) then
        var was := w.rows[id];
        var row := Row(was.id, was.originalUrl, was.shortCode, was.customAlias,
                       if ch.title == None then was.title else ch.title,
                       was.ownerId,
                       if ch.isActive == None then was.isActive else ch.isActive.value,
                       if ch.isPublic == None then was.isPublic else ch.isPublic.value,
                       if ch.expiresAt == None then was.expiresAt else ch.expiresAt,
                       was.clickCount, was.createdAt);
        && out == Saved(Ok(row)) && w'.now == w.now && w'.rows == w.rows[id := row]
        && w'.cache == CacheState(w.cache.urls - {was.shortCode}, w.cache.hot - {was.shortCode})
      else out == Saved(Err(if id in w.rows then Forbidden else NotFound)) && w' == w
  {
    DropsOneCode(w, id);
  }

  lemma {:induction false} DropsOneCode(w: World, id: Id)
    requires Inv(w)
    ensures id in w.rows ==>
              Invalidate(w.cache, w.rows[id])
              == CacheState(w.cache.urls - {w.rows[id].shortCode}, w.cache.hot - {w.rows[id].shortCode})
  {
    if id in w.rows {
      var code := w.rows[id].shortCode;
      assert AliasIsCode(w.rows[id]);
      assert w.cache.urls - {code} - {code} == w.cache.urls - {code};
      assert w.cache.hot - {code} - {code} == w.cache.hot - {code};
    }
  }

  /** A delete removes the row exactly when the requester is entitled, and drops the code's keys. */
  lemma {:induction false} DeleteLaw(w: World, id: Id, requester: Id, isAdmin: bool, cfg: Config)
    requires Inv(w)
    ensures var op := Delete(id, requester, isAdmin);
      var w', out := Step(w, op, cfg), Output(w, op);
      if Entitled(w.rows, id, requester, isAdmin) then
        && out == Saved(Ok(w.rows[id])) && w'.now == w.now && w'.rows == w.rows - {id}
        && w'.cache == CacheState(w.cache.urls - {w.rows[id].shortCode}, w.cache.hot - {w.rows[id].shortCode})
      else out == Saved(Err(if id in w.rows then Forbidden else NotFound)) && w' == w
  {
    DropsOneCode(w, id);
  }

  // ---------------------------------------------------------------------------------------------------------------
  // Whole runs
  // ---------------------------------------------------------------------------------------------------------------

  /** The time that passes. */
  function Elapsed(ops: seq<Op>): nat {
    if ops == [] then 0 else (match ops[0] case Tick(dt) => dt case _ => 0) + Elapsed(ops[1..])
  }

  /** Only strangers ask to change the row: neither its owner nor an administrator names it. */
  ghost predicate StrangersOnly(ops: seq<Op>, id: Id, owner: Option<Id>) {
    forall i :: 0 <= i < |ops| ==>
      && (ops[i].Update? && ops[i].id == id ==> !ops[i].isAdmin && owner != Some(ops[i].requester))
      && (ops[i].Delete? && ops[i].id == id ==> !ops[i].isAdmin && owner != Some(ops[i].requester))
  }

  lemma {:induction false} StepLeavesRow(w: World, op: Op, id: Id, cfg: Config)
    requires Inv(w) && id in w.rows && StrangersOnly([op], id, w.rows[id].ownerId)
    ensures var w' := Step(w, op, cfg);
      && id in w'.rows && w'.rows[id] == w.rows[id]
      && w'.now == w.now + Elapsed([op])
  {
    assert [op][0] == op && [op][1..] == [];
    if op.Create? {
      CreateKeepsTable(w.rows, op.req, op.owner, op.newId, op.codes, w.now);
    }
    if op.Update? {
      UpdateLaw(w, op.id, op.changes, op.requester, op.isAdmin, cfg);
    }
    if op.Delete? {
      DeleteLaw(w, op.id, op.requester, op.isAdmin, cfg);
    }
    hide CreateRow, CacheAfter, WellFormed, Coherent;
  }

  /** Whatever strangers request, for however long, the row stays as it is. */
  lemma {:induction false} StrangersChangeNothing(w: World, ops: seq<Op>, id: Id, cfg: Config)
    requires Inv(w) && id in w.rows && StrangersOnly(ops, id, w.rows[id].ownerId)
    ensures var w' := Run(w, ops, cfg);
      && Inv(w') && id in w'.rows && w'.rows[id] == w.rows[id]
      && w'.now == w.now + Elapsed(ops)
    decreases |ops|
  {
    hide Inv, Step;
    if ops == [] {
    } else {
      assert ops[0] == [ops[0]][0];
      StepLeavesRow(w, ops[0], id, cfg);
      StepKeepsInv(w, ops[0], cfg);
      assert forall i :: 0 <= i < |ops[1..]| ==> ops[1..][i] == ops[i + 1];
      StrangersChangeNothing(Step(w, ops[0], cfg), ops[1..], id, cfg);
      assert [ops[0]][1..] == [];
    }
  }

  /**
    A created link that neither its owner nor an administrator touches redirects to the requested URL at every time
    before the requested expiry and at no time from it on, whatever else the service is asked meanwhile.
   */
  lemma {:induction false} LinkLives(w: World, req: CreateRequest, owner: Option<Id>, id: Id, codes: seq<string>,
                                     ops: seq<Op>, cfg: Config)
    requires Inv(w) && id !in w.rows && GoodRequest(req, w.now)
    requires exists code :: Gets(w.rows, req, codes, code)
    requires StrangersOnly(ops, id, owner)
    ensures var create := Create(req, owner, id, codes);
      var w' := Run(Step(w, create, cfg), ops, cfg);
      match Output(w, create)
      case Saved(Ok(row)) =>
        var r := CachedResolve(w'.rows, w'.cache, row.shortCode, w'.now);
        && Gets(w.rows, req, codes, row.shortCode)
        && (r == Ok(Target(req.originalUrl, id)) <==>
              req.expiresAt == None || w.now + Elapsed(ops) < req.expiresAt.value)
        && (r.Err? <==> req.expiresAt.Some? && req.expiresAt.value <= w.now + Elapsed(ops))
      case _ => false
  {
    var create := Create(req, owner, id, codes);
    CreateLaw(w, req, owner, id, codes, cfg);
    StepKeepsInv(w, create, cfg);
    var w1 := Step(w, create, cfg);
    hide Inv, Step, Output, CachedResolve, GoodRequest, Gets, Run;
    StrangersChangeNothing(w1, ops, id, cfg);
    ResolveExactly(Run(w1, ops, cfg), id);
  }
}
