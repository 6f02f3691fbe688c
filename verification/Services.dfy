/** The service objects around the table, the cache and the queue. Each method is one request. */
module Services {
  import opened Common
  import opened Schema
  import opened UrlCache
  import opened UrlStore
  import opened Pipeline
  import opened Processor
  import opened Listing

  datatype UrlList = UrlList(items: seq<Row>, total: nat, page: nat, size: nat, pages: nat)

  class URLService {
    const db: Database
    const cache: URLCache

    constructor (db: Database, cache: URLCache)
      ensures this.db == db && this.cache == cache
    {
      this.db, this.cache := db, cache;
    }

    ghost function World(now: int): World
      reads db, cache
    {
      UrlStore.World(now, db.urls, cache.State())
    }

    /** Draws codes until one is free, at most as often as there are codes. */
    method GenerateUniqueCode(codes: seq<string>) returns (r: Result<string, Error>)
      ensures r == DrawCode(db.urls, codes)
    {
      hide FindByCode;
      for i := 0 to |codes|
        invariant DrawCode(db.urls, codes) == DrawCode(db.urls, codes[i..])
      {
        assert codes[i..][0] == codes[i] && codes[i..][1..] == codes[i + 1..];
        match FindByCode(db.urls, codes[i]) {
          case Missing => return Ok(codes[i]);
          case Found(_) =>
          case Ambiguous => return Err(MultipleRows);
        }
      }
      return Err(CodeCollision);
    }

    method Create(req: CreateRequest, owner: Option<Id>, id: Id, codes: seq<string>, now: int)
      returns (r: Result<Row, Error>)
      modifies db, cache
      ensures World(now) == Step(old(World(now)), Op.Create(req, owner, id, codes), cache.cfg)
      ensures Saved(r) == Output(old(World(now)), Op.Create(req, owner, id, codes))
      ensures db.clicks == old(db.clicks)
    {
      hide FindByCode, DrawCode;
      if !Accepted(req, now) || !req.safe {
        return Err(Invalid);
      }
      var code: string;
      if req.customAlias.Some? && req.customAlias.value != "" {
        match FindByCode(db.urls, req.customAlias.value) {
          case Missing => code := req.customAlias.value;
          case Found(_) => return Err(Conflict);
          case Ambiguous => return Err(MultipleRows);
        }
      } else {
        var drawn := GenerateUniqueCode(codes);
        if drawn.Err? {
          return Err(drawn.error);
        }
        code := drawn.value;
      }
      var row := NewRow(req, code, owner, id, now);
      if !Insertable(db.urls, row) {
        return Err(IntegrityError);
      }
      db.urls := db.urls[id := row];
      cache.Set(code, Serialize(row), None, now);
      return Ok(row);
    }

    method Update(id: Id, changes: Changes, requester: Id, isAdmin: bool, now: int) returns (r: Result<Row, Error>)
      modifies db, cache
      ensures World(now) == Step(old(World(now)), Op.Update(id, changes, requester, isAdmin), cache.cfg)
      ensures Saved(r) == Output(old(World(now)), Op.Update(id, changes, requester, isAdmin))
      ensures db.clicks == old(db.clicks)
    {
      if id !in db.urls {
        return Err(NotFound);
      }
      var url := db.urls[id];
      if !isAdmin && url.ownerId != Some(requester) {
        return Err(Forbidden);
      }
      url := Merge(url, changes);
      db.urls := db.urls[id := url];
      cache.Delete(url.shortCode);
      if url.customAlias.Some? && url.customAlias.value != "" {
        cache.Delete(url.customAlias.value);
      }
      return Ok(url);
    }

    method Delete(id: Id, requester: Id, isAdmin: bool, now: int) returns (r: Result<Row, Error>)
      modifies db, cache
      ensures World(now) == Step(old(World(now)), Op.Delete(id, requester, isAdmin), cache.cfg)
      ensures Saved(r) == Output(old(World(now)), Op.Delete(id, requester, isAdmin))
      ensures db.clicks == if r.Ok? then Cascade(old(db.clicks), id) else old(db.clicks)
    {
      if id !in db.urls {
        return Err(NotFound);
      }
      var url := db.urls[id];
      if !isAdmin && url.ownerId != Some(requester) {
        return Err(Forbidden);
      }
      cache.Delete(url.shortCode);
      if url.customAlias.Some? && url.customAlias.value != "" {
        cache.Delete(url.customAlias.value);
      }
      db.urls, db.clicks := db.urls - {id}, Cascade(db.clicks, id);
      return Ok(url);
    }

    /** `listing` is the owner's rows in the order the database sorts them. */
    method ListByOwner(owner: Id, page: nat, size: nat, listing: seq<Row>) returns (list: UrlList)
      requires page >= 1 && size >= 1
      requires IsListing(db.urls, owner, listing)
      ensures list.page == page && list.size == size
      ensures IsPage(db.urls, owner, listing, page, size, list.items)
      ensures WellFormed(db.urls) ==>
                && list.total == |OwnedIds(db.urls, owner)| && FirstPages(listing, size, list.pages) == listing
                && (page < list.pages ==> |list.items| == size)
                && (page == list.pages ==> 1 <= |list.items| <= size)
                && (page > list.pages ==> list.items == [])
    {
      var total := |OwnedIds(db.urls, owner)|;
      var offset := Min((page - 1) * size, |listing|);
      var items := listing[offset..Min(offset + size, |listing|)];
      assert items == Page(listing, page, size);
      list := UrlList(items, total, page, size, if total > 0 then (total + size - 1) / size else 0);
      assert list.pages == PageCount(total, size);
      hide Page, PageCount, IsListing, IsPage, WellFormed;
      PageIsPart(db.urls, owner, listing, page, size);
      if WellFormed(db.urls) {
        ListingSize(db.urls, owner, listing);
        PagesPartition(listing, size, page);
      }
    }
  }

  /** What a resolve leaves to run after the response. */
  datatype Task = Warm(code: string, payload: Payload) | Track(code: string) | Enqueue(urlId: Id)

  class RedirectService {
    const db: Database
    const cache: URLCache
    const analytics: AnalyticsCache

    constructor (db: Database, cache: URLCache, analytics: AnalyticsCache)
      ensures this.db == db && this.cache == cache && this.analytics == analytics
    {
      this.db, this.cache, this.analytics := db, cache, analytics;
    }

    /** Changes nothing: every effect is in the tasks, a warm-up only after a miss, in this order. */
    method Resolve(code: string, now: int) returns (r: Result<Target, Error>, tasks: seq<Task>)
      ensures r == CachedResolve(db.urls, cache.State(), code, now)
      ensures r.Err? ==> tasks == []
      ensures r.Ok? && CacheGet(cache.State(), code, now).Some? ==> tasks == [Track(code), Enqueue(r.value.id)]
      ensures r.Ok? && CacheGet(cache.State(), code, now).None? ==>
                && FindActive(db.urls, code, now).Found?
                && tasks == [Warm(code, Serialize(FindActive(db.urls, code, now).row)), Track(code), Enqueue(r.value.id)]
    {
      hide FindActive;
      tasks := [];
      var cached := cache.Get(code, now);
      var target: Target;
      if cached.Some? {
        if Expired(cached.value.expiresAt, now) {
          return Err(Gone), [];
        }
        target := Target(cached.value.originalUrl, cached.value.id);
      } else {
        match FindActive(db.urls, code, now) {
          case Missing => return Err(NotFound), [];
          case Ambiguous => return Err(MultipleRows), [];
          case Found(row) =>
            target := Target(row.originalUrl, row.id);
            tasks := tasks + [Warm(code, Serialize(row))];
        }
      }
      tasks := tasks + [Track(code)];
      tasks := tasks + [Enqueue(target.id)];
      return Ok(target), tasks;
    }

    method RunTask(task: Task, info: ClientInfo, now: int)
      modifies cache, analytics
      ensures cache.State() == match task
                case Warm(code, payload) => CacheSet(old(cache.State()), code, payload, None, now, cache.cfg)
                case Track(code) => CacheTrack(old(cache.State()), code, now, cache.cfg)
                case Enqueue(_) => old(cache.State())
      ensures analytics.queue == old(analytics.queue)
                                 + if task.Enqueue? then [Raw(Some(task.urlId), Some(now), info)] else []
    {
      match task {
        case Warm(code, payload) => cache.Set(code, payload, None, now);
        case Track(code) => var _ := cache.TrackClick(code, now);
        case Enqueue(id) => analytics.PushEvent(Raw(Some(id), Some(now), info));
      }
    }

    /** A whole request: the answer, then its tasks. A success queues exactly one event, for the row it led to. */
    method Serve(code: string, info: ClientInfo, now: int) returns (r: Result<Target, Error>)
      modifies cache, analytics
      ensures r == CachedResolve(db.urls, old(cache.State()), code, now)
      ensures cache.State() == AfterResolve(db.urls, old(cache.State()), code, now, cache.cfg)
      ensures analytics.queue == old(analytics.queue)
                                 + if r.Ok? then [Raw(Some(r.value.id), Some(now), info)] else []
    {
      hide FindActive;
      var tasks;
      r, tasks := Resolve(code, now);
      if r.Ok? && |tasks| == 3 {
        RunTask(tasks[0], info, now);
        RunTask(tasks[1], info, now);
        RunTask(tasks[2], info, now);
      } else if r.Ok? {
        RunTask(tasks[0], info, now);
        RunTask(tasks[1], info, now);
      }
    }
  }
}
