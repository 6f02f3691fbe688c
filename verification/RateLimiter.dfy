/**
  The sliding-window rate limiter: one Redis sorted set per key, read and written by one atomic Lua script.

  Two clocks meet in a call. `now` is read by the application server that sends the request, and becomes the score
  of the request in the sorted set; `server` is the clock of Redis at the moment the script runs, and is what EXPIRE
  deadlines are compared with. The theorems say how far the two may drift apart.
 */
module RateLimiter {
  import opened Common

  type RequestId = string

  /** The limit and the window an endpoint asks for. */
  datatype Policy = Policy(limit: nat, window: int)

  datatype Call = Call(now: int, server: int, id: RequestId)

  datatype Reply = Reply(allowed: bool, remaining: int, resetAfter: int)

  /** A sorted set with its expiry deadline. A key that does not exist is `None`. */
  datatype Bucket = Bucket(scores: map<RequestId, int>, deadline: int)

  // ---------------------------------------------------------------------------------------------------------------
  // One run of the script on one key
  // ---------------------------------------------------------------------------------------------------------------

  /** The members of the set; a key that does not exist has none. */
  function Scores(b: Option<Bucket>): map<RequestId, int> {
    if b.Some? then b.value.scores else map[]
  }

  /**
    The key after ZREMRANGEBYSCORE key -inf windowStart. The bound itself is removed too; a key whose deadline has
    passed is gone already, and a set that loses its last member disappears.
   */
  function Pruned(b: Option<Bucket>, server: int, windowStart: int): Option<Bucket> {
    if b.None? || b.value.deadline <= server then None
    else
      var left := map id | id in b.value.scores && b.value.scores[id] > windowStart :: b.value.scores[id];
      if left == map[] then None else Some(Bucket(left, b.value.deadline))
  }

  /** What is left of the set when the script counts it. */
  function Kept(b: Option<Bucket>, c: Call, p: Policy): map<RequestId, int> {
    Scores(Pruned(b, c.server, c.now - p.window))
  }

  /** The whole script: the key afterwards and the reply. */
  function Step(b: Option<Bucket>, c: Call, p: Policy): (Option<Bucket>, Reply) {
    var windowStart := c.now - p.window;
    var pruned := Pruned(b, c.server, windowStart);
    var count := |Scores(pruned)|;
    if count >= p.limit then
      (pruned, Reply(false, 0, (p.window - (c.now - windowStart)) + 1))
    else
      (Some(Bucket(Scores(pruned)[c.id := c.now], c.server + p.window)), Reply(true, p.limit - count - 1, p.window))
  }

  // ---------------------------------------------------------------------------------------------------------------
  // Runs: a sequence of calls on one key under one policy
  // ---------------------------------------------------------------------------------------------------------------

  /** The key after the first `k` calls. */
  function After(calls: seq<Call>, p: Policy, k: nat): Option<Bucket>
    requires k <= |calls|
  {
    if k == 0 then None else Step(After(calls, p, k - 1), calls[k - 1], p).0
  }

  function ReplyAt(calls: seq<Call>, p: Policy, k: nat): Reply
    requires k < |calls|
  {
    Step(After(calls, p, k), calls[k], p).1
  }

  /** Which of the first `k` calls the limiter admits. */
  function DecisionsTo(calls: seq<Call>, p: Policy, k: nat): (flags: seq<bool>)
    requires k <= |calls|
    ensures |flags| == k
  {
    if k == 0 then [] else DecisionsTo(calls, p, k - 1) + [ReplyAt(calls, p, k - 1).allowed]
  }

  function Decisions(calls: seq<Call>, p: Policy): (flags: seq<bool>)
    ensures |flags| == |calls|
  {
    DecisionsTo(calls, p, |calls|)
  }

  lemma {:induction false} DecisionsToPrefix(calls: seq<Call>, p: Policy, k: nat, n: nat)
    requires k <= n <= |calls|
    ensures DecisionsTo(calls, p, k) == DecisionsTo(calls, p, n)[..k]
  {
    hide ReplyAt;
    if k == n {
    } else {
      DecisionsToPrefix(calls, p, k, n - 1);
    }
  }

  /** A call is admitted exactly when the set it finds is below the limit. */
  lemma {:induction false} AdmittedIffRoom(calls: seq<Call>, p: Policy, k: nat)
    requires k < |calls|
    ensures Decisions(calls, p)[k] <==> |Kept(After(calls, p, k), calls[k], p)| < p.limit
    ensures Decisions(calls, p)[k] == ReplyAt(calls, p, k).allowed
  {
    hide Pruned, After;
    DecisionsToPrefix(calls, p, k + 1, |calls|);
    assert DecisionsTo(calls, p, k + 1)[k] == Decisions(calls, p)[..k + 1][k];
  }

  /** The number of flagged calls among the first `k` whose time lies in the half-open interval (t - width, t]. */
  function CountIn(calls: seq<Call>, flags: seq<bool>, k: nat, t: int, width: int): nat
    requires k <= |calls| && k <= |flags|
  {
    if k == 0 then 0
    else CountIn(calls, flags, k - 1, t, width)
         + if flags[k - 1] && t - width < calls[k - 1].now <= t then 1 else 0
  }

  /** The request ids that `CountIn` counts. */
  ghost function IdsIn(calls: seq<Call>, flags: seq<bool>, k: nat, t: int, width: int): set<RequestId>
    requires k <= |calls| && k <= |flags|
  {
    if k == 0 then {}
    else IdsIn(calls, flags, k - 1, t, width)
         + if flags[k - 1] && t - width < calls[k - 1].now <= t then {calls[k - 1].id} else {}
  }

  /** Request ids are UUIDs: no two calls share one. */
  ghost predicate FreshIds(calls: seq<Call>) {
    forall i, j :: 0 <= i < j < |calls| ==> calls[i].id != calls[j].id
  }

  /**
    The clocks agree up to `d`: Redis runs the scripts in the order of its own clock, an application clock is never
    more than `d` behind an earlier reading, and whenever Redis saw a whole window go by the application clocks
    advanced by the window up to `d`. With d == 0 this is a single non-decreasing clock; with the Redis clock stopped
    it leaves EXPIRE out.
   */
  ghost predicate ClocksWithin(calls: seq<Call>, p: Policy, d: int) {
    forall i, j :: 0 <= i < j < |calls| ==>
      && calls[i].server <= calls[j].server
      && calls[i].now - d <= calls[j].now
      && (calls[j].server - calls[i].server >= p.window ==> calls[j].now - calls[i].now >= p.window - d)
  }

  /** Application clocks that stay between `ahead` before and `behind` after the Redis clock agree up to the sum. */
  lemma {:induction false} OffsetClocksAgree(calls: seq<Call>, p: Policy, ahead: int, behind: int)
    requires forall i, j :: 0 <= i < j < |calls| ==> calls[i].server <= calls[j].server
    requires forall i :: 0 <= i < |calls| ==> calls[i].server - behind <= calls[i].now <= calls[i].server + ahead
    ensures ClocksWithin(calls, p, ahead + behind)
  {
    forall i, j | 0 <= i < j < |calls|
      ensures calls[i].now - (ahead + behind) <= calls[j].now
      ensures calls[j].server - calls[i].server >= p.window
              ==> calls[j].now - calls[i].now >= p.window - (ahead + behind)
    {
      assert calls[j].now >= calls[j].server - behind >= calls[i].server - behind;
      assert calls[i].now <= calls[i].server + ahead;
    }
  }

  lemma {:induction false} KeptMember(b: Option<Bucket>, c: Call, p: Policy, id: RequestId)
    ensures id in Kept(b, c, p) ==>
              b.Some? && id in b.value.scores && b.value.scores[id] > c.now - p.window
              && Kept(b, c, p)[id] == b.value.scores[id]
    ensures Step(b, c, p).0.Some? && id in Step(b, c, p).0.value.scores ==>
              if Step(b, c, p).1.allowed && id == c.id then Step(b, c, p).0.value.scores[id] == c.now
              else id in Kept(b, c, p) && Step(b, c, p).0.value.scores[id] == Kept(b, c, p)[id]
  {
  }

  /** An entry that is neither expired nor too old survives a call with another id. */
  lemma {:induction false} StepKeeps(b: Option<Bucket>, c: Call, p: Policy, id: RequestId)
    requires b.Some? && c.server < b.value.deadline && c.id != id
    requires id in b.value.scores && b.value.scores[id] > c.now - p.window
    ensures id in Kept(b, c, p)
    ensures var b' := Step(b, c, p).0;
      && b'.Some? && id in b'.value.scores && b'.value.scores[id] == b.value.scores[id]
      && (b'.value.deadline == b.value.deadline || b'.value.deadline == c.server + p.window)
  {
    assert id in Scores(Pruned(b, c.server, c.now - p.window));
  }

  /** Between call `i` and call `k` nothing removes the entry of `i`, unless `k` is already outside its window. */
  lemma {:induction false} Held(calls: seq<Call>, p: Policy, d: int, i: nat, j: nat, k: nat)
    requires 0 <= i < j <= k < |calls|
    requires FreshIds(calls) && ClocksWithin(calls, p, d) && d >= 0
    requires Decisions(calls, p)[i]
    requires calls[i].now > calls[k].now + d - p.window
    ensures var b := After(calls, p, j);
      && b.Some?
      && calls[i].id in b.value.scores && b.value.scores[calls[i].id] == calls[i].now
      && b.value.deadline >= calls[i].server + p.window
  {
    hide Pruned, Decisions;
    if j == i + 1 {
      AdmittedIffRoom(calls, p, i);
    } else {
      Held(calls, p, d, i, j - 1, k);
      assert calls[i].server <= calls[j - 1].server < calls[i].server + p.window;
      StepKeeps(After(calls, p, j - 1), calls[j - 1], p, calls[i].id);
    }
  }

  /** Every member of the set is an admitted call, scored with its time. */
  lemma {:induction false} OnlyAdmitted(calls: seq<Call>, p: Policy, k: nat, id: RequestId)
    requires k <= |calls|
    requires After(calls, p, k).Some? && id in After(calls, p, k).value.scores
    ensures exists i :: 0 <= i < k && Decisions(calls, p)[i] && calls[i].id == id
                        && calls[i].now == After(calls, p, k).value.scores[id]
  {
    hide Step, Kept, Decisions;
    AdmittedIffRoom(calls, p, k - 1);
    KeptMember(After(calls, p, k - 1), calls[k - 1], p, id);
    if !(ReplyAt(calls, p, k - 1).allowed && id == calls[k - 1].id) {
      OnlyAdmitted(calls, p, k - 1, id);
    }
  }

  lemma {:induction false} IdsInMember(calls: seq<Call>, flags: seq<bool>, k: nat, t: int, width: int, id: RequestId)
    requires k <= |calls| && k <= |flags|
    ensures id in IdsIn(calls, flags, k, t, width) <==>
            exists i :: 0 <= i < k && flags[i] && calls[i].id == id && t - width < calls[i].now <= t
  {
    if k == 0 {
    } else {
      IdsInMember(calls, flags, k - 1, t, width, id);
    }
  }

  lemma {:induction false} IdsInSize(calls: seq<Call>, flags: seq<bool>, k: nat, t: int, width: int)
    requires k <= |calls| && k <= |flags|
    requires FreshIds(calls)
    ensures |IdsIn(calls, flags, k, t, width)| == CountIn(calls, flags, k, t, width)
  {
    if k == 0 {
    } else {
      IdsInSize(calls, flags, k - 1, t, width);
      IdsInMember(calls, flags, k - 1, t, width, calls[k - 1].id);
    }
  }

  lemma {:induction false} SubsetSize<T>(a: set<T>, b: set<T>)
    requires a <= b
    ensures |a| <= |b|
  {
    assert b == a + (b - a);
  }

  // ---------------------------------------------------------------------------------------------------------------
  // The window bound
  // ---------------------------------------------------------------------------------------------------------------

  lemma {:induction false} RecentIsKept(calls: seq<Call>, p: Policy, d: nat, i: nat, k: nat)
    requires i < k < |calls|
    requires FreshIds(calls) && ClocksWithin(calls, p, d)
    requires Decisions(calls, p)[i]
    requires calls[i].now > calls[k].now + d - p.window
    ensures calls[i].id in Kept(After(calls, p, k), calls[k], p)
  {
    hide Decisions, Kept, Step;
    Held(calls, p, d, i, k, k);
    assert calls[k].server < calls[i].server + p.window;
    StepKeeps(After(calls, p, k), calls[k], p, calls[i].id);
  }

  /** When call `k` runs, every earlier admission less than window - d older than it is still in the set. */
  lemma {:induction false} RecentAreKept(calls: seq<Call>, p: Policy, d: nat, k: nat, t: int)
    requires k < |calls|
    requires FreshIds(calls) && ClocksWithin(calls, p, d)
    requires calls[k].now <= t
    ensures IdsIn(calls, Decisions(calls, p), k, t, p.window - d) <= Kept(After(calls, p, k), calls[k], p).Keys
  {
    hide Decisions, IdsIn, After, Kept, Step, FreshIds;
    var flags := Decisions(calls, p);
    forall id | id in IdsIn(calls, flags, k, t, p.window - d)
      ensures id in Kept(After(calls, p, k), calls[k], p)
    {
      IdsInMember(calls, flags, k, t, p.window - d, id);
      var i :| 0 <= i < k && flags[i] && calls[i].id == id && t - (p.window - d) < calls[i].now <= t;
      RecentIsKept(calls, p, d, i, k);
    }
  }

  lemma {:induction false} RoomBefore(calls: seq<Call>, p: Policy, d: nat, k: nat, t: int)
    requires k < |calls|
    requires FreshIds(calls) && ClocksWithin(calls, p, d)
    requires Decisions(calls, p)[k] && calls[k].now <= t
    ensures CountIn(calls, Decisions(calls, p), k, t, p.window - d) < p.limit
  {
    hide Kept, Decisions, ClocksWithin, After;
    var kept := Kept(After(calls, p, k), calls[k], p);
    AdmittedIffRoom(calls, p, k);
    RecentAreKept(calls, p, d, k, t);
    SubsetSize(IdsIn(calls, Decisions(calls, p), k, t, p.window - d), kept.Keys);
    IdsInSize(calls, Decisions(calls, p), k, t, p.window - d);
  }

  /** With clocks that agree up to `d`, no interval of length window - d holds more than `limit` admitted calls. */
  lemma {:induction false} WindowBoundUnderSkew(calls: seq<Call>, p: Policy, d: nat, k: nat, t: int)
    requires k <= |calls|
    requires FreshIds(calls) && ClocksWithin(calls, p, d)
    ensures CountIn(calls, Decisions(calls, p), k, t, p.window - d) <= p.limit
  {
    hide Decisions, ClocksWithin, FreshIds;
    if k == 0 {
    } else {
      WindowBoundUnderSkew(calls, p, d, k - 1, t);
      if Decisions(calls, p)[k - 1] && calls[k - 1].now <= t {
        RoomBefore(calls, p, d, k - 1, t);
      }
    }
  }

  /** With agreeing clocks every window holds at most `limit` admitted calls. */
  lemma {:induction false} WindowBound(calls: seq<Call>, p: Policy, t: int)
    requires FreshIds(calls) && ClocksWithin(calls, p, 0)
    ensures CountIn(calls, Decisions(calls, p), |calls|, t, p.window) <= p.limit
  {
    WindowBoundUnderSkew(calls, p, 0, |calls|, t);
  }

  // The bound is tight -----------------------------------------------------------------------------------------------

  /** The widest interval the bound holds on. */
  function Reach(p: Policy, d: nat): nat {
    if p.window >= d then p.window - d else 0
  }

  function BurstId(i: nat): RequestId {
    seq(i, _ => 'r')
  }

  /**
    `limit` calls at time 0, and one more at the end of the reach whose script runs when the key has just expired.
   */
  function Burst(p: Policy, d: nat): (calls: seq<Call>)
    ensures |calls| == p.limit + 1
  {
    seq(p.limit, i requires 0 <= i => Call(0, 0, BurstId(i)))
    + [Call(Reach(p, d), if p.window > 0 then p.window else 0, BurstId(p.limit))]
  }

  lemma {:induction false} BurstIsAllowed(p: Policy, d: nat)
    ensures FreshIds(Burst(p, d)) && ClocksWithin(Burst(p, d), p, d)
  {
    var calls := Burst(p, d);
    forall i | 0 <= i < |calls| ensures |calls[i].id| == i {
    }
  }

  /** A call adds at most one member to what it finds. */
  lemma {:induction false} StepGrows(b: Option<Bucket>, c: Call, p: Policy)
    ensures |Kept(b, c, p)| <= |Scores(b)|
    ensures |Scores(Step(b, c, p).0)| <= |Scores(b)| + 1
  {
    SubsetSize(Kept(b, c, p).Keys, Scores(b).Keys);
    hide Pruned;
  }

  lemma {:induction false} GrowsByOne(calls: seq<Call>, p: Policy, k: nat)
    requires k <= |calls|
    ensures |Scores(After(calls, p, k))| <= k
  {
    hide Step;
    if k == 0 {
    } else {
      GrowsByOne(calls, p, k - 1);
      StepGrows(After(calls, p, k - 1), calls[k - 1], p);
    }
  }

  /** The limiter admits the whole burst: the first calls find room, the last an expired key. */
  lemma {:induction false} BurstIsAdmitted(p: Policy, d: nat, i: nat)
    requires i <= p.limit && p.limit > 0
    ensures Decisions(Burst(p, d), p)[i]
  {
    hide Decisions;
    var calls := Burst(p, d);
    AdmittedIffRoom(calls, p, i);
    if i < p.limit {
      GrowsByOne(calls, p, i);
      StepGrows(After(calls, p, i), calls[i], p);
    } else {
      BurstIsAdmitted(p, d, i - 1);
      AdmittedIffRoom(calls, p, i - 1);
      assert After(calls, p, i).value.deadline == p.window <= calls[i].server;
      assert Kept(After(calls, p, i), calls[i], p) == map[];
    }
  }

  lemma {:induction false} AllCounted(calls: seq<Call>, flags: seq<bool>, k: nat, t: int, width: int)
    requires k <= |calls| && k <= |flags|
    requires forall i :: 0 <= i < k ==> flags[i] && t - width < calls[i].now <= t
    ensures CountIn(calls, flags, k, t, width) == k
  {
    if k == 0 {
    } else {
      AllCounted(calls, flags, k - 1, t, width);
    }
  }

  lemma {:induction false} BurstOverflows(p: Policy, d: nat, width: int)
    requires p.limit > 0 && width > Reach(p, d)
    ensures var calls := Burst(p, d);
      CountIn(calls, Decisions(calls, p), |calls|, Reach(p, d), width) == p.limit + 1
  {
    hide Decisions;
    var calls := Burst(p, d);
    forall i | 0 <= i < |calls| ensures Decisions(calls, p)[i] {
      BurstIsAdmitted(p, d, i);
    }
    AllCounted(calls, Decisions(calls, p), |calls|, Reach(p, d), width);
  }

  lemma {:induction false} Narrower(calls: seq<Call>, flags: seq<bool>, k: nat, t: int, width: int, wider: int)
    requires k <= |calls| && k <= |flags| && width <= wider
    ensures CountIn(calls, flags, k, t, width) <= CountIn(calls, flags, k, t, wider)
    ensures width <= 0 ==> CountIn(calls, flags, k, t, width) == 0
  {
    if k == 0 {
    } else {
      Narrower(calls, flags, k - 1, t, width, wider);
    }
  }

  lemma {:induction false} NoLimitNoAdmission(calls: seq<Call>, p: Policy, k: nat, t: int, width: int)
    requires k <= |calls| && p.limit == 0
    ensures CountIn(calls, Decisions(calls, p), k, t, width) == 0
  {
    hide Decisions, Kept, After;
    if k == 0 {
    } else {
      NoLimitNoAdmission(calls, p, k - 1, t, width);
      AdmittedIffRoom(calls, p, k - 1);
    }
  }

  /** In every run whose clocks agree up to `d`, no interval of this length holds more than `limit` admitted calls. */
  ghost predicate AlwaysBounded(p: Policy, d: nat, width: int) {
    forall calls: seq<Call>, t: int :: FreshIds(calls) && ClocksWithin(calls, p, d) ==>
      CountIn(calls, Decisions(calls, p), |calls|, t, width) <= p.limit
  }

  /**
    The exact width the limit is kept on: the window less the drift. One tick more, and under every policy that admits
    anything some run overflows it, because the key expires by another clock than the one that scores its members.
   */
  lemma {:induction false} WindowBoundExactly(p: Policy, d: nat, width: int)
    ensures AlwaysBounded(p, d, width) <==> p.limit == 0 || width <= Reach(p, d)
  {
    hide FreshIds, ClocksWithin, Decisions, CountIn;
    if p.limit == 0 || width <= Reach(p, d) {
      forall calls: seq<Call>, t: int | FreshIds(calls) && ClocksWithin(calls, p, d)
        ensures CountIn(calls, Decisions(calls, p), |calls|, t, width) <= p.limit
      {
        if p.limit == 0 {
          NoLimitNoAdmission(calls, p, |calls|, t, width);
        } else {
          WindowBoundUnderSkew(calls, p, d, |calls|, t);
          Narrower(calls, Decisions(calls, p), |calls|, t, width, if p.window >= d then p.window - d else width);
        }
      }
    } else {
      BurstIsAllowed(p, d);
      BurstOverflows(p, d, width);
      assert !AlwaysBounded(p, d, width);
    }
  }

  // ---------------------------------------------------------------------------------------------------------------
  // Refinement: pruning and expiry never change an answer
  // ---------------------------------------------------------------------------------------------------------------

  /** The reference limiter forgets nothing: it admits a call iff its log has room in the window ending now. */
  function LogDecisions(calls: seq<Call>, p: Policy, k: nat): (flags: seq<bool>)
    requires k <= |calls|
    ensures |flags| == k
  {
    if k == 0 then []
    else
      var log := LogDecisions(calls, p, k - 1);
      log + [CountIn(calls, log, k - 1, calls[k - 1].now, p.window) < p.limit]
  }

  function LogReply(calls: seq<Call>, p: Policy, k: nat): Reply
    requires k < |calls|
  {
    var inWindow := CountIn(calls, LogDecisions(calls, p, k), k, calls[k].now, p.window);
    if inWindow < p.limit then Reply(true, p.limit - inWindow - 1, p.window) else Reply(false, 0, 1)
  }

  /** The pruned, expiring set holds exactly the admissions of the current window. */
  lemma {:induction false} KeptIsWindow(calls: seq<Call>, p: Policy, k: nat)
    requires k < |calls|
    requires FreshIds(calls) && ClocksWithin(calls, p, 0)
    ensures |Kept(After(calls, p, k), calls[k], p)|
            == CountIn(calls, Decisions(calls, p), k, calls[k].now, p.window)
  {
    hide Decisions, IdsIn, After, Step, Pruned;
    var flags := Decisions(calls, p);
    var kept := Kept(After(calls, p, k), calls[k], p);
    var inWindow := IdsIn(calls, flags, k, calls[k].now, p.window);
    forall id ensures id in kept <==> id in inWindow {
      IdsInMember(calls, flags, k, calls[k].now, p.window, id);
      if id in inWindow {
        var i :| 0 <= i < k && flags[i] && calls[i].id == id && calls[k].now - p.window < calls[i].now;
        RecentIsKept(calls, p, 0, i, k);
      }
      if id in kept {
        KeptMember(After(calls, p, k), calls[k], p, id);
        OnlyAdmitted(calls, p, k, id);
      }
    }
    assert kept.Keys == inWindow;
    IdsInSize(calls, flags, k, calls[k].now, p.window);
  }

  lemma {:induction false} CountInPrefix(calls: seq<Call>, f: seq<bool>, g: seq<bool>, k: nat, t: int, width: int)
    requires k <= |calls| && k <= |f| && k <= |g|
    requires f[..k] == g[..k]
    ensures CountIn(calls, f, k, t, width) == CountIn(calls, g, k, t, width)
  {
    if k == 0 {
    } else {
      assert f[k - 1] == f[..k][k - 1] == g[..k][k - 1] == g[k - 1];
      assert f[..k - 1] == f[..k][..k - 1] == g[..k][..k - 1] == g[..k - 1];
      CountInPrefix(calls, f, g, k - 1, t, width);
    }
  }

  lemma {:induction false} LogAgrees(calls: seq<Call>, p: Policy, k: nat)
    requires k <= |calls|
    requires FreshIds(calls) && ClocksWithin(calls, p, 0)
    ensures LogDecisions(calls, p, k) == Decisions(calls, p)[..k]
  {
    hide ClocksWithin, FreshIds, Decisions, CountIn, Kept, After;
    if k == 0 {
    } else {
      var flags := Decisions(calls, p);
      LogAgrees(calls, p, k - 1);
      RoomInLog(calls, p, k - 1);
      assert flags[..k] == flags[..k - 1] + [flags[k - 1]];
    }
  }

  lemma {:induction false} RoomInLog(calls: seq<Call>, p: Policy, k: nat)
    requires k < |calls|
    requires FreshIds(calls) && ClocksWithin(calls, p, 0)
    requires LogDecisions(calls, p, k) == Decisions(calls, p)[..k]
    ensures CountIn(calls, LogDecisions(calls, p, k), k, calls[k].now, p.window)
            == |Kept(After(calls, p, k), calls[k], p)|
    ensures Decisions(calls, p)[k] <==> CountIn(calls, LogDecisions(calls, p, k), k, calls[k].now, p.window) < p.limit
  {
    assert LogDecisions(calls, p, k)[..k] == LogDecisions(calls, p, k);
    CountInPrefix(calls, LogDecisions(calls, p, k), Decisions(calls, p), k, calls[k].now, p.window);
    KeptIsWindow(calls, p, k);
    AdmittedIffRoom(calls, p, k);
  }

  lemma {:induction false} ReplyFromCount(b: Option<Bucket>, c: Call, p: Policy)
    ensures Step(b, c, p).1 == if |Kept(b, c, p)| < p.limit then Reply(true, p.limit - |Kept(b, c, p)| - 1, p.window)
                               else Reply(false, 0, 1)
  {
    hide Pruned;
  }

  /** Every reply, with its `remaining`, is the reply of the limiter that keeps the full log. */
  lemma {:induction false} RefinesFullLog(calls: seq<Call>, p: Policy, k: nat)
    requires k < |calls|
    requires FreshIds(calls) && ClocksWithin(calls, p, 0)
    ensures ReplyAt(calls, p, k) == LogReply(calls, p, k)
  {
    hide ClocksWithin, FreshIds, Decisions, LogDecisions, CountIn, Kept, After, Step;
    LogAgrees(calls, p, k);
    RoomInLog(calls, p, k);
    ReplyFromCount(After(calls, p, k), calls[k], p);
  }

  // ---------------------------------------------------------------------------------------------------------------
  // Optimality of greedy admission
  // ---------------------------------------------------------------------------------------------------------------

  function Total(flags: seq<bool>, k: nat): nat
    requires k <= |flags|
  {
    if k == 0 then 0 else Total(flags, k - 1) + if flags[k - 1] then 1 else 0
  }

  /** A schedule that never admits more than `limit` calls in a window. */
  ghost predicate Feasible(calls: seq<Call>, p: Policy, flags: seq<bool>) {
    |flags| == |calls| && forall t :: CountIn(calls, flags, |calls|, t, p.window) <= p.limit
  }

  /** Calls outside the window ending at `t` form a prefix of the first `k`, the ones inside the rest. */
  lemma {:induction false} WindowIsSuffix(calls: seq<Call>, flags: seq<bool>, m: nat, k: nat, t: int, width: int)
    requires m <= k <= |calls| && k <= |flags|
    requires forall i :: 0 <= i < m ==> calls[i].now <= t - width
    requires forall i :: m <= i < k ==> t - width < calls[i].now <= t
    ensures CountIn(calls, flags, k, t, width) == Total(flags, k) - Total(flags, m)
  {
    if k > m {
      WindowIsSuffix(calls, flags, m, k - 1, t, width);
    } else if k > 0 {
      WindowIsSuffix(calls, flags, m - 1, k - 1, t, width);
    }
  }

  lemma {:induction false} CountInMonotone(calls: seq<Call>, flags: seq<bool>, j: nat, k: nat, t: int, width: int)
    requires j <= k <= |calls| && k <= |flags|
    ensures CountIn(calls, flags, j, t, width) <= CountIn(calls, flags, k, t, width)
  {
    if j == k {
    } else {
      CountInMonotone(calls, flags, j, k - 1, t, width);
    }
  }

  lemma {:induction false} WindowStart(calls: seq<Call>, p: Policy, k: nat) returns (m: nat)
    requires k < |calls| && ClocksWithin(calls, p, 0)
    ensures m <= k
    ensures forall i :: 0 <= i < m ==> calls[i].now <= calls[k].now - p.window
    ensures forall i :: m <= i < k ==> calls[k].now - p.window < calls[i].now <= calls[k].now
  {
    m := 0;
    while m < k && calls[m].now <= calls[k].now - p.window
      invariant m <= k
      invariant forall i :: 0 <= i < m ==> calls[i].now <= calls[k].now - p.window
    {
      m := m + 1;
    }
  }

  /** A call the limiter denies, and a feasible rival admits, finds the limiter strictly ahead before the window. */
  lemma {:induction false} DeniedWhileRivalAdmits(calls: seq<Call>, p: Policy, rival: seq<bool>, k: nat, m: nat)
    requires m <= k < |calls| && FreshIds(calls) && ClocksWithin(calls, p, 0)
    requires p.window > 0 && Feasible(calls, p, rival)
    requires rival[k] && !Decisions(calls, p)[k]
    requires forall i :: 0 <= i < m ==> calls[i].now <= calls[k].now - p.window
    requires forall i :: m <= i < k ==> calls[k].now - p.window < calls[i].now <= calls[k].now
    ensures Total(rival, k) - Total(rival, m) < Total(Decisions(calls, p), k) - Total(Decisions(calls, p), m)
  {
    hide Decisions, Kept, After;
    var greedy, t := Decisions(calls, p), calls[k].now;
    AdmittedIffRoom(calls, p, k);
    KeptIsWindow(calls, p, k);
    WindowIsSuffix(calls, greedy, m, k, t, p.window);
    WindowIsSuffix(calls, rival, m, k, t, p.window);
    CountInMonotone(calls, rival, k + 1, |calls|, t, p.window);
    assert CountIn(calls, rival, k + 1, t, p.window) == CountIn(calls, rival, k, t, p.window) + 1;
  }

  /** On every prefix of the arrivals the limiter has admitted at least as many calls as any feasible schedule. */
  lemma {:induction false} GreedyIsOptimal(calls: seq<Call>, p: Policy, rival: seq<bool>, k: nat)
    requires k <= |calls|
    requires FreshIds(calls) && ClocksWithin(calls, p, 0)
    requires p.window > 0 && Feasible(calls, p, rival)
    ensures Total(rival, k) <= Total(Decisions(calls, p), k)
  {
    if k == 0 {
    } else {
      GreedyIsOptimal(calls, p, rival, k - 1);
      if rival[k - 1] && !Decisions(calls, p)[k - 1] {
        var m := WindowStart(calls, p, k - 1);
        GreedyIsOptimal(calls, p, rival, m);
        DeniedWhileRivalAdmits(calls, p, rival, k - 1, m);
      }
    }
  }

  /** The limiter's own schedule is feasible, so it is a maximum among the feasible ones. */
  lemma {:induction false} GreedyIsFeasible(calls: seq<Call>, p: Policy)
    requires FreshIds(calls) && ClocksWithin(calls, p, 0)
    ensures Feasible(calls, p, Decisions(calls, p))
  {
    forall t ensures CountIn(calls, Decisions(calls, p), |calls|, t, p.window) <= p.limit {
      WindowBound(calls, p, t);
    }
  }

  /** The n-th call the limiter admits is never later than the n-th call of a feasible schedule. */
  lemma {:induction false} NthAdmittedIsNoLater(calls: seq<Call>, p: Policy, rival: seq<bool>, j: nat) returns (i: nat)
    requires j < |calls|
    requires FreshIds(calls) && ClocksWithin(calls, p, 0)
    requires p.window > 0 && Feasible(calls, p, rival) && rival[j]
    ensures i <= j && Decisions(calls, p)[i]
    ensures Total(Decisions(calls, p), i + 1) == Total(rival, j + 1)
  {
    GreedyIsOptimal(calls, p, rival, j + 1);
    var greedy := Decisions(calls, p);
    i := j;
    while Total(greedy, i) >= Total(rival, j + 1)
      invariant i <= j && Total(greedy, i + 1) >= Total(rival, j + 1)
      decreases i
    {
      i := i - 1;
    }
  }

  // ---------------------------------------------------------------------------------------------------------------
  // Many keys in one Redis
  // ---------------------------------------------------------------------------------------------------------------

  datatype Request = Request(identifier: string, endpoint: string, policy: Policy, call: Call)

  type Keys = map<string, Bucket>

  function Key(identifier: string, endpoint: string): string {
    "ratelimit:" + identifier + ":" + endpoint
  }

  function BucketAt(keys: Keys, key: string): Option<Bucket> {
    if key in keys then Some(keys[key]) else None
  }

  function Put(keys: Keys, key: string, b: Option<Bucket>): Keys {
    if b.Some? then keys[key := b.value] else keys - {key}
  }

  /** One request: only its own key is read and written. */
  function Handle(keys: Keys, r: Request): (Keys, Reply) {
    var key := Key(r.identifier, r.endpoint);
    var (b, reply) := Step(BucketAt(keys, key), r.call, r.policy);
    (Put(keys, key, b), reply)
  }

  function KeysAfter(reqs: seq<Request>, k: nat): Keys
    requires k <= |reqs|
  {
    if k == 0 then map[] else Handle(KeysAfter(reqs, k - 1), reqs[k - 1]).0
  }

  /** The calls one (identifier, endpoint) pair makes among the first `k` requests. */
  function CallsOf(reqs: seq<Request>, k: nat, identifier: string, endpoint: string): seq<Call>
    requires k <= |reqs|
  {
    if k == 0 then []
    else if reqs[k - 1].identifier == identifier && reqs[k - 1].endpoint == endpoint then
      CallsOf(reqs, k - 1, identifier, endpoint) + [reqs[k - 1].call]
    else CallsOf(reqs, k - 1, identifier, endpoint)
  }

  predicate EndsWith(s: string, suffix: string) {
    |suffix| <= |s| && s[|s| - |suffix|..] == suffix
  }

  /** One endpoint is the other with something and a colon before it. */
  predicate Clash(e: string, e': string) {
    EndsWith(e', ":" + e) || EndsWith(e, ":" + e')
  }

  lemma {:induction false} LongerEndpointClashes(i: string, e: string, i': string, e': string)
    requires Key(i, e) == Key(i', e') && |e| < |e'|
    ensures EndsWith(e', ":" + e)
  {
    var s, n := Key(i, e), |Key(i, e)|;
    assert ":" + e == s[n - 1 - |e|..];
    assert e' == Key(i', e')[n - |e'|..];
  }

  /** When the endpoints do not clash two pairs never share a key, whatever the identifiers contain. */
  lemma {:induction false} KeysAreInjective(i: string, e: string, i': string, e': string)
    requires !Clash(e, e')
    ensures Key(i, e) == Key(i', e') <==> i == i' && e == e'
  {
    if Key(i, e) == Key(i', e') {
      if |e| < |e'| {
        LongerEndpointClashes(i, e, i', e');
      } else if |e'| < |e| {
        LongerEndpointClashes(i', e', i, e);
      }
      var s, n := Key(i, e), |Key(i, e)|;
      assert e == s[n - |e|..] && e' == Key(i', e')[n - |e'|..];
      assert i == s[10..n - 1 - |e|] && i' == Key(i', e')[10..n - 1 - |e'|];
    }
  }

  lemma {:induction false} ClashSharesKey(i: string, e: string, e': string)
    requires EndsWith(e', ":" + e)
    ensures Key(i, e') == Key(i + ":" + e'[..|e'| - 1 - |e|], e)
  {
    assert e' == e'[..|e'| - 1 - |e|] + (":" + e);
  }

  /** Requests to two endpoints can meet on one key exactly when the endpoints clash. */
  lemma {:induction false} KeysShared(e: string, e': string)
    ensures Clash(e, e') <==> exists i, i' :: (i, e) != (i', e') && Key(i, e) == Key(i', e')
  {
    hide Key;
    if EndsWith(e', ":" + e) {
      ClashSharesKey("", e, e');
    } else if EndsWith(e, ":" + e') {
      ClashSharesKey("", e', e);
    } else {
      forall i, i' | Key(i, e) == Key(i', e') ensures (i, e) == (i', e') {
        KeysAreInjective(i, e, i', e');
      }
    }
  }

  lemma {:induction false} AfterExtension(calls: seq<Call>, more: seq<Call>, p: Policy, k: nat)
    requires k <= |calls|
    ensures After(calls + more, p, k) == After(calls, p, k)
  {
    hide Step;
    if k == 0 {
    } else {
      AfterExtension(calls, more, p, k - 1);
      assert (calls + more)[k - 1] == calls[k - 1];
    }
  }

  /** The key after a whole run of one pair. */
  function AfterAll(calls: seq<Call>, p: Policy): Option<Bucket> {
    After(calls, p, |calls|)
  }

  lemma {:induction false} AfterOneMore(calls: seq<Call>, c: Call, p: Policy)
    ensures AfterAll(calls + [c], p) == Step(AfterAll(calls, p), c, p).0
  {
    AfterExtension(calls, [c], p, |calls|);
    assert (calls + [c])[|calls|] == c;
  }

  lemma {:induction false} PutTwice(keys: Keys, key: string, b: Option<Bucket>)
    ensures BucketAt(Put(keys, key, b), key) == b
    ensures forall c :: Put(Put(keys, key, b), key, c) == Put(keys, key, c)
  {
  }

  /** A request on another key leaves the bucket alone. */
  lemma {:induction false} OtherRequest(keys: Keys, r: Request, key: string)
    requires Key(r.identifier, r.endpoint) != key
    ensures BucketAt(Handle(keys, r).0, key) == BucketAt(keys, key)
  {
  }

  lemma {:induction false} OwnRequest(keys: Keys, r: Request, calls: seq<Call>)
    requires BucketAt(keys, Key(r.identifier, r.endpoint)) == AfterAll(calls, r.policy)
    ensures BucketAt(Handle(keys, r).0, Key(r.identifier, r.endpoint)) == AfterAll(calls + [r.call], r.policy)
  {
    hide AfterAll;
    AfterOneMore(calls, r.call, r.policy);
  }

  lemma {:induction false} NoCallsYet(key: string, p: Policy)
    ensures BucketAt(map[], key) == AfterAll([], p)
  {
  }

  /** No request's endpoint clashes with the pair's, and the pair always asks for the same policy. */
  ghost predicate Uniform(reqs: seq<Request>, identifier: string, endpoint: string, p: Policy) {
    forall k :: 0 <= k < |reqs| ==>
      && !Clash(endpoint, reqs[k].endpoint)
      && (reqs[k].identifier == identifier && reqs[k].endpoint == endpoint ==> reqs[k].policy == p)
  }

  lemma {:induction false} UniformStep(reqs: seq<Request>, k: nat, keys: Keys, calls: seq<Call>,
                                       i: string, e: string, p: Policy)
    requires k < |reqs| && Uniform(reqs, i, e, p)
    requires BucketAt(keys, Key(i, e)) == AfterAll(calls, p)
    ensures BucketAt(Handle(keys, reqs[k]).0, Key(i, e))
            == if reqs[k].identifier == i && reqs[k].endpoint == e then AfterAll(calls + [reqs[k].call], p)
               else AfterAll(calls, p)
  {
    hide Handle, AfterAll, BucketAt, Clash;
    var r := reqs[k];
    KeysAreInjective(i, e, r.identifier, r.endpoint);
    if r.identifier == i && r.endpoint == e {
      OwnRequest(keys, r, calls);
    } else {
      OtherRequest(keys, r, Key(i, e));
    }
  }

  /**
    However the requests of many pairs interleave, the key of a pair holds what it would hold had that pair been alone.
   */
  lemma {:induction false} PairsDoNotInterfere(reqs: seq<Request>, k: nat, i: string, e: string, p: Policy)
    requires k <= |reqs|
    requires Uniform(reqs, i, e, p)
    ensures BucketAt(KeysAfter(reqs, k), Key(i, e)) == AfterAll(CallsOf(reqs, k, i, e), p)
  {
    hide Handle, AfterAll, BucketAt, Key, Uniform;
    if k == 0 {
      NoCallsYet(Key(i, e), p);
    } else {
      PairsDoNotInterfere(reqs, k - 1, i, e, p);
      UniformStep(reqs, k - 1, KeysAfter(reqs, k - 1), CallsOf(reqs, k - 1, i, e), i, e, p);
    }
  }

  /** The answer to every request of an interleaved run is the answer of the full-log limiter of its own pair. */
  lemma {:induction false} EveryReplyIsTheLogs(reqs: seq<Request>, k: nat, p: Policy)
    requires k < |reqs|
    requires Uniform(reqs, reqs[k].identifier, reqs[k].endpoint, p)
    requires FreshIds(CallsOf(reqs, k + 1, reqs[k].identifier, reqs[k].endpoint))
    requires ClocksWithin(CallsOf(reqs, k + 1, reqs[k].identifier, reqs[k].endpoint), p, 0)
    ensures var calls := CallsOf(reqs, k + 1, reqs[k].identifier, reqs[k].endpoint);
      calls != [] && Handle(KeysAfter(reqs, k), reqs[k]).1 == LogReply(calls, p, |calls| - 1)
  {
    hide ClocksWithin, FreshIds, After, LogReply, Step;
    var r := reqs[k];
    var calls := CallsOf(reqs, k, r.identifier, r.endpoint);
    PairsDoNotInterfere(reqs, k, r.identifier, r.endpoint, p);
    AfterExtension(calls, [r.call], p, |calls|);
    RefinesFullLog(calls + [r.call], p, |calls|);
  }

  // ---------------------------------------------------------------------------------------------------------------
  // The service object
  // ---------------------------------------------------------------------------------------------------------------

  class SlidingWindowRateLimiter {
    /** The sorted sets Redis stores. */
    var keys: Keys
    /** The digest of the loaded script, fetched on first use. */
    var scriptSha: Option<string>

    constructor ()
      ensures keys == map[] && scriptSha == None
    {
      keys, scriptSha := map[], None;
    }

    /** `loadedSha` is what SCRIPT LOAD would answer; `now`, `server` and `requestId` are the clocks and the UUID. */
    method IsAllowed(identifier: string, limit: nat, window: int, endpoint: string,
                     now: int, server: int, requestId: RequestId, loadedSha: string)
      returns (reply: Reply)
      modifies this
      ensures (keys, reply)
              == Handle(old(keys), Request(identifier, endpoint, Policy(limit, window), Call(now, server, requestId)))
      ensures scriptSha == if old(scriptSha).Some? then old(scriptSha) else Some(loadedSha)
    {
      if scriptSha == None {
        scriptSha := Some(loadedSha);
      }
      reply := EvalScript(Key(identifier, endpoint), now, now - window, limit, window, requestId, server);
    }

    /** The Lua script, command by command. */
    method EvalScript(key: string, now: int, windowStart: int, limit: nat, window: int,
                      requestId: RequestId, server: int)
      returns (reply: Reply)
      requires windowStart == now - window
      modifies this`keys
      ensures var (b, r) := Step(BucketAt(old(keys), key), Call(now, server, requestId), Policy(limit, window));
        keys == Put(old(keys), key, b) && reply == r
    {
      hide Pruned;
      keys := Put(keys, key, Pruned(BucketAt(keys, key), server, windowStart));
      assert BucketAt(keys, key) == Pruned(BucketAt(old(keys), key), server, windowStart);
      PutTwice(old(keys), key, BucketAt(keys, key));
      var count := |Scores(BucketAt(keys, key))|;
      if count >= limit {
        var resetAfter := (window - (now - windowStart)) + 1;
        return Reply(false, 0, resetAfter);
      }
      var scores := Scores(BucketAt(keys, key))[requestId := now];
      keys := Put(keys, key, Some(Bucket(scores, server + window)));
      return Reply(true, limit - count - 1, window);
    }
  }
}
