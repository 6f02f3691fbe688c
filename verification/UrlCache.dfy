/** The Redis cache of links with its hot counters. Time is an integer clock; a key is live until its deadline. */
module UrlCache {
  import opened Common
  import opened Schema

  /** URL_CACHE_TTL and HOT_URL_CLICK_THRESHOLD. */
  datatype Config = Config(urlCacheTtl: nat, hotThreshold: nat)

  /** The life of a hot counter after its last click, in seconds. */
  const HOT_WINDOW := 3600

  datatype Cached = Cached(payload: Payload, deadline: int)

  datatype Counter = Counter(count: nat, deadline: int)

  /** The keys url:{code} and hot:{code}. */
  datatype CacheState = CacheState(urls: map<string, Cached>, hot: map<string, Counter>)

  const EMPTY_CACHE := CacheState(map[], map[])

  function CacheGet(c: CacheState, code: string, now: int): Option<Payload> {
    if code in c.urls && now < c.urls[code].deadline then Some(c.urls[code].payload) else None
  }

  /** A missing or zero time to live means the default. */
  function CacheSet(c: CacheState, code: string, p: Payload, ttl: Option<nat>, now: int, cfg: Config): CacheState {
    var life := if ttl == None || ttl == Some(0) then cfg.urlCacheTtl else ttl.value;
    c.(urls := c.urls[code := Cached(p, now + life)])
  }

  function CacheDelete(c: CacheState, code: string): CacheState {
    CacheState(c.urls - {code}, c.hot - {code})
  }

  function HotCount(c: CacheState, code: string, now: int): nat {
    if code in c.hot && now < c.hot[code].deadline then c.hot[code].count else 0
  }

  /** INCR and EXPIRE on the counter; past the threshold EXPIRE on the entry, if there is one. */
  function CacheTrack(c: CacheState, code: string, now: int, cfg: Config): CacheState {
    var count := HotCount(c, code, now) + 1;
    var hot := c.hot[code := Counter(count, now + HOT_WINDOW)];
    if count >= cfg.hotThreshold && CacheGet(c, code, now).Some? then
      CacheState(c.urls[code := c.urls[code].(deadline := now + 2 * cfg.urlCacheTtl)], hot)
    else CacheState(c.urls, hot)
  }

  // ---------------------------------------------------------------------------------------------------------------
  // The cache object
  // ---------------------------------------------------------------------------------------------------------------

  function Members(codes: seq<string>): set<string> {
    set code | code in codes
  }

  class URLCache {
    var urls: map<string, Cached>
    var hot: map<string, Counter>
    const cfg: Config

    constructor (cfg: Config)
      ensures State() == CacheState(map[], map[]) && this.cfg == cfg
    {
      urls, hot, this.cfg := map[], map[], cfg;
    }

    ghost function State(): CacheState
      reads this
    {
      CacheState(urls, hot)
    }

    method Get(code: string, now: int) returns (p: Option<Payload>)
      ensures p == CacheGet(State(), code, now)
    {
      p := if code in urls && now < urls[code].deadline then Some(urls[code].payload) else None;
    }

    method Set(code: string, p: Payload, ttl: Option<nat>, now: int)
      modifies this
      ensures State() == CacheSet(old(State()), code, p, ttl, now, cfg)
    {
      var life := cfg.urlCacheTtl;
      if ttl.Some? && ttl.value != 0 {
        life := ttl.value;
      }
      urls := urls[code := Cached(p, now + life)];
    }

    method Delete(code: string)
      modifies this
      ensures State() == CacheDelete(old(State()), code)
    {
      urls, hot := urls - {code}, hot - {code};
    }

    method TrackClick(code: string, now: int) returns (count: nat)
      modifies this
      ensures State() == CacheTrack(old(State()), code, now, cfg)
      ensures count == HotCount(old(State()), code, now) + 1
    {
      count := if code in hot && now < hot[code].deadline then hot[code].count + 1 else 1;
      hot := hot[code := Counter(count, now + HOT_WINDOW)];
      if count >= cfg.hotThreshold {
        if code in urls && now < urls[code].deadline {
          urls := urls[code := urls[code].(deadline := now + cfg.urlCacheTtl * 2)];
        }
      }
    }

    /** One DEL command over both keys of every code. */
    method InvalidateMany(codes: seq<string>)
      modifies this
      ensures urls == old(urls) - Members(codes)
      ensures hot == old(hot) - Members(codes)
    {
      for i := 0 to |codes|
        invariant urls == old(urls) - Members(codes[..i])
        invariant hot == old(hot) - Members(codes[..i])
      {
        assert Members(codes[..i + 1]) == Members(codes[..i]) + {codes[i]};
        Delete(codes[i]);
      }
      assert codes[..|codes|] == codes;
    }
  }

  // ---------------------------------------------------------------------------------------------------------------
  // What a lookup returns, in terms of the history of commands alone
  // ---------------------------------------------------------------------------------------------------------------

  /** A command on the cache, or the passage of time. */
  datatype Command = Put(code: string, payload: Payload) | Drop(code: string) | Bump(code: string) | Wait(dt: nat)

  function Apply(c: CacheState, cmd: Command, now: int, cfg: Config): CacheState {
    match cmd
    case Put(code, p) => CacheSet(c, code, p, None, now, cfg)
    case Drop(code) => CacheDelete(c, code)
    case Bump(code) => CacheTrack(c, code, now, cfg)
    case Wait(_) => c
  }

  /** The time after the first `k` commands. */
  function TimeAt(log: seq<Command>, k: nat): nat
    requires k <= |log|
  {
    if k == 0 then 0 else TimeAt(log, k - 1) + if log[k - 1].Wait? then log[k - 1].dt else 0
  }

  /** The cache after the first `k` commands. */
  function Replay(log: seq<Command>, cfg: Config, k: nat): CacheState
    requires k <= |log|
  {
    if k == 0 then EMPTY_CACHE else Apply(Replay(log, cfg, k - 1), log[k - 1], TimeAt(log, k - 1), cfg)
  }

  /** The last click on `code` among the first `k` commands, if nothing dropped the code after it, else -1. */
  function LastClick(log: seq<Command>, code: string, k: nat): (j: int)
    requires k <= |log|
    ensures -1 <= j < k && (j >= 0 ==> log[j] == Bump(code))
  {
    if k == 0 || log[k - 1] == Drop(code) then -1
    else if log[k - 1] == Bump(code) then k - 1
    else LastClick(log, code, k - 1)
  }

  /** How many clicks on `code` led up to command `k`, none dropped and no two 3600 seconds apart. */
  function Streak(log: seq<Command>, code: string, k: nat): nat
    requires k <= |log|
  {
    var j := LastClick(log, code, k);
    if j < 0 then 0
    else
      var i := LastClick(log, code, j);
      1 + if i >= 0 && TimeAt(log, j) - TimeAt(log, i) < 3600 then Streak(log, code, j) else 0
  }

  predicate Writes(cmd: Command, code: string) {
    (cmd.Put? || cmd.Drop?) && cmd.code == code
  }

  /** Command `i` put `p` under `code`, and no later one among the first `k` wrote or dropped it. */
  predicate PutLast(log: seq<Command>, code: string, p: Payload, i: int, k: nat)
    requires k <= |log|
  {
    0 <= i < k && log[i] == Put(code, p) && forall j :: i < j < k ==> !Writes(log[j], code)
  }

  /**
    The entry put by command `i` lives at time `now` after `k` commands: it is younger than URL_CACHE_TTL, or some click
    renewed it less than twice that long ago.
   */
  ghost predicate Alive(log: seq<Command>, cfg: Config, code: string, i: nat, k: nat, now: int)
    requires i <= k <= |log|
    decreases k, 0
  {
    || now - TimeAt(log, i) < cfg.urlCacheTtl
    || exists j :: i < j < k && Renews(log, cfg, code, i, j) && now - TimeAt(log, j) < 2 * cfg.urlCacheTtl
  }

  /** Command `j` is a click that brings the streak to the threshold and finds the entry alive. */
  ghost predicate Renews(log: seq<Command>, cfg: Config, code: string, i: nat, j: nat)
    requires i <= j < |log|
    decreases j, 1
  {
    log[j] == Bump(code) && Streak(log, code, j + 1) >= cfg.hotThreshold && Alive(log, cfg, code, i, j, TimeAt(log, j))
  }

  lemma {:induction false} ReplayPrefix(log: seq<Command>, cmd: Command, cfg: Config, k: nat)
    requires k <= |log|
    ensures TimeAt(log + [cmd], k) == TimeAt(log, k) && Replay(log + [cmd], cfg, k) == Replay(log, cfg, k)
  {
    hide Apply;
    if k == 0 {
    } else {
      ReplayPrefix(log, cmd, cfg, k - 1);
      assert (log + [cmd])[k - 1] == log[k - 1];
    }
  }

  /** One more command. */
  lemma {:induction false} LogGrows(log: seq<Command>, cmd: Command, cfg: Config)
    ensures var n := |log|;
      && TimeAt(log + [cmd], n + 1) == TimeAt(log, n) + (if cmd.Wait? then cmd.dt else 0)
      && Replay(log + [cmd], cfg, n + 1) == Apply(Replay(log, cfg, n), cmd, TimeAt(log, n), cfg)
  {
    hide Apply;
    ReplayPrefix(log, cmd, cfg, |log|);
    assert (log + [cmd])[|log|] == cmd;
  }

  lemma {:induction false} PutLastGrows(log: seq<Command>, cmd: Command, code: string, p: Payload, i: int)
    ensures PutLast(log + [cmd], code, p, i, |log| + 1) <==>
            if i == |log| then cmd == Put(code, p) else PutLast(log, code, p, i, |log|) && !Writes(cmd, code)
  {
    assert (log + [cmd])[|log|] == cmd;
    assert forall j :: 0 <= j < |log| ==> (log + [cmd])[j] == log[j];
  }

  lemma {:induction false} TimeGrows(log: seq<Command>, j: nat, k: nat)
    requires j <= k <= |log|
    ensures TimeAt(log, j) <= TimeAt(log, k)
  {
    if j == k {
    } else {
      TimeGrows(log, j, k - 1);
    }
  }

  /** The stored counter is the streak, and runs out 3600 seconds after its last click. */
  lemma {:induction false} CounterIsStreak(log: seq<Command>, cfg: Config, code: string, k: nat)
    requires k <= |log|
    ensures var hot, j := Replay(log, cfg, k).hot, LastClick(log, code, k);
      && (code in hot <==> j >= 0)
      && (j >= 0 ==> hot[code] == Counter(Streak(log, code, k), TimeAt(log, j) + 3600))
  {
    if k == 0 {
    } else {
      CounterIsStreak(log, cfg, code, k - 1);
      SameStreak(log, code, k);
    }
  }

  lemma {:induction false} SameStreak(log: seq<Command>, code: string, k: nat)
    requires 0 < k <= |log|
    ensures log[k - 1] != Drop(code) && log[k - 1] != Bump(code) ==> Streak(log, code, k) == Streak(log, code, k - 1)
  {
  }

  /** What INCR answers. */
  lemma {:induction false} NextCount(log: seq<Command>, cfg: Config, code: string, k: nat)
    requires k < |log| && log[k] == Bump(code)
    ensures HotCount(Replay(log, cfg, k), code, TimeAt(log, k)) + 1 == Streak(log, code, k + 1)
  {
    CounterIsStreak(log, cfg, code, k);
  }

  /** Without a renewal an entry lives for URL_CACHE_TTL. */
  lemma {:induction false} Unrenewed(log: seq<Command>, cfg: Config, code: string, i: nat, k: nat, now: int)
    requires i <= k <= |log| && forall j :: i < j < k ==> !Renews(log, cfg, code, i, j)
    ensures Alive(log, cfg, code, i, k, now) <==> now - TimeAt(log, i) < cfg.urlCacheTtl
  {
    hide Renews, TimeAt;
  }

  /** One more command prolongs a life exactly when it renews the entry. */
  lemma {:induction false} LifeStep(log: seq<Command>, cfg: Config, code: string, i: nat, k: nat, now: int)
    requires i < k < |log|
    ensures Alive(log, cfg, code, i, k + 1, now) <==>
            || Alive(log, cfg, code, i, k, now)
            || (Renews(log, cfg, code, i, k) && now - TimeAt(log, k) < 2 * cfg.urlCacheTtl)
  {
    hide Renews, TimeAt;
  }

  /** A renewal outlasts every life before it. */
  lemma {:induction false} RenewalIsLonger(log: seq<Command>, cfg: Config, code: string, i: nat, k: nat, now: int)
    requires i <= k < |log| && Alive(log, cfg, code, i, k, now)
    ensures now - TimeAt(log, k) < 2 * cfg.urlCacheTtl
  {
    hide Renews, TimeAt;
    TimeGrows(log, i, k);
    if now - TimeAt(log, i) >= cfg.urlCacheTtl {
      var j :| i < j < k && Renews(log, cfg, code, i, j) && now - TimeAt(log, j) < 2 * cfg.urlCacheTtl;
      TimeGrows(log, j, k);
    }
  }

  /** A put entry stays until it is dropped, and its deadline is the end of its life. */
  ghost predicate Lives(log: seq<Command>, cfg: Config, code: string, p: Payload, i: nat, k: nat)
    requires i <= k <= |log|
  {
    var urls := Replay(log, cfg, k).urls;
    && code in urls && urls[code].payload == p
    && forall now :: now >= TimeAt(log, k) ==> (now < urls[code].deadline <==> Alive(log, cfg, code, i, k, now))
  }

  lemma {:induction false} EntryStep(log: seq<Command>, cfg: Config, code: string, p: Payload, i: nat, k: nat)
    requires i < k < |log| && Lives(log, cfg, code, p, i, k) && !Writes(log[k], code)
    ensures Lives(log, cfg, code, p, i, k + 1)
  {
    var next := k + 1;
    TimeGrows(log, k, next);
    var urls := Replay(log, cfg, k).urls;
    if log[k] == Bump(code) {
      NextCount(log, cfg, code, k);
    }
    assert Renews(log, cfg, code, i, k) <==>
           log[k] == Bump(code) && Streak(log, code, k + 1) >= cfg.hotThreshold && TimeAt(log, k) < urls[code].deadline;
    hide Alive, Renews, Streak;
    forall now | now >= TimeAt(log, next)
      ensures now < Replay(log, cfg, next).urls[code].deadline <==> Alive(log, cfg, code, i, next, now)
    {
      LifeStep(log, cfg, code, i, k, now);
      if Alive(log, cfg, code, i, k, now) {
        RenewalIsLonger(log, cfg, code, i, k, now);
      }
    }
  }

  lemma {:induction false} EntryLives(log: seq<Command>, cfg: Config, code: string, p: Payload, i: nat, k: nat)
    requires k <= |log| && PutLast(log, code, p, i, k)
    ensures Lives(log, cfg, code, p, i, k)
  {
    if k == i + 1 {
      assert log[i] == Put(code, p);
    } else {
      EntryLives(log, cfg, code, p, i, k - 1);
      EntryStep(log, cfg, code, p, i, k - 1);
    }
  }

  /** An entry was put. */
  lemma {:induction false} EntryWasPut(log: seq<Command>, cfg: Config, code: string, k: nat) returns (i: int)
    requires k <= |log| && code in Replay(log, cfg, k).urls
    ensures PutLast(log, code, Replay(log, cfg, k).urls[code].payload, i, k)
  {
    if log[k - 1].Put? && log[k - 1].code == code {
      i := k - 1;
    } else {
      i := EntryWasPut(log, cfg, code, k - 1);
    }
  }

  /**
    In terms of the history alone: a lookup returns exactly what was last put under the code and not dropped since, as
    long as that is alive.
   */
  lemma {:induction false} LookupHistory(log: seq<Command>, cfg: Config, code: string, p: Payload)
    ensures var n, now := |log|, TimeAt(log, |log|);
      CacheGet(Replay(log, cfg, n), code, now) == Some(p) <==>
      exists i :: PutLast(log, code, p, i, n) && Alive(log, cfg, code, i, n, now)
  {
    var n, now := |log|, TimeAt(log, |log|);
    hide Replay, TimeAt, Alive;
    if code in Replay(log, cfg, n).urls {
      var i := EntryWasPut(log, cfg, code, n);
      EntryLives(log, cfg, code, Replay(log, cfg, n).urls[code].payload, i, n);
    }
    if i :| PutLast(log, code, p, i, n) && Alive(log, cfg, code, i, n, now) {
      EntryLives(log, cfg, code, p, i, n);
    }
  }

  /**
    What each command leaves for later lookups of any code: a set entry is found for its time to live, or for
    URL_CACHE_TTL when none or zero is given; a deleted code is not found and its counter starts over; a click keeps
    every payload; and other codes are left alone.
   */
  lemma {:induction false} CommandLaw(c: CacheState, code: string, p: Payload, ttl: Option<nat>, now: int, later: int,
                                      other: string, cfg: Config)
    requires other != code
    ensures var life := match ttl case None => cfg.urlCacheTtl case Some(n) => if n == 0 then cfg.urlCacheTtl else n;
      && CacheGet(CacheSet(c, code, p, ttl, now, cfg), code, later) == (if later < now + life then Some(p) else None)
      && CacheSet(c, code, p, ttl, now, cfg).hot == c.hot
    ensures CacheGet(CacheDelete(c, code), code, later) == None && code !in CacheDelete(c, code).hot
    ensures forall c' ::
              c' in [CacheSet(c, code, p, ttl, now, cfg), CacheDelete(c, code), CacheTrack(c, code, now, cfg)] ==>
              && CacheGet(c', other, later) == CacheGet(c, other, later)
              && (other in c'.hot <==> other in c.hot) && (other in c.hot ==> c'.hot[other] == c.hot[other])
    ensures CacheGet(CacheTrack(c, code, now, cfg), code, now) == CacheGet(c, code, now) || cfg.urlCacheTtl == 0
  {
  }
}
