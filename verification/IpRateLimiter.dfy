/** The control plane's sliding-window limiter (ipRateLimiter) and the interceptor that consults it.
    Times are nanoseconds; the clock is the monotonic one, so it never runs backwards. */
module IpRateLimiter {

  const MINUTE := 60_000_000_000

  /** The timestamps after `cutoff`. */
  function After(log: seq<int>, cutoff: int): (kept: seq<int>)
    ensures |kept| <= |log|
  {
    if log == [] then []
    else if log[0] > cutoff then [log[0]] + After(log[1..], cutoff)
    else After(log[1..], cutoff)
  }

  /** A key of the requests map. */
  datatype Key = Key(name: string)

  type Logs = map<Key, seq<int>>

  function Get(m: Logs, key: Key): seq<int> {
    if key in m then m[key] else []
  }

  datatype Call = Call(key: Key, now: int, limit: int, window: int)

  /** One call: prune, then accept and record the time if fewer than `limit` are left. */
  function Allowed(m: Logs, c: Call): bool {
    |After(Get(m, c.key), c.now - c.window)| < c.limit
  }

  function Next(m: Logs, c: Call): Logs {
    var valid := After(Get(m, c.key), c.now - c.window);
    m[c.key := if |valid| < c.limit then valid + [c.now] else valid]
  }

  lemma AfterNothing(cutoff: int)
    ensures After([], cutoff) == []
  {
  }

  // The limiter object

  /** A Go slice: a view of the first `len` elements of its backing array. */
  datatype Slice = Slice(data: array<int>, len: nat)

  class Limiter {
    var requests: map<Key, Slice>

    ghost function Backing(): set<array<int>>
      reads this
    {
      set k | k in requests :: requests[k].data
    }

    /** Slices lie in their arrays and no two keys share one. */
    ghost predicate Valid()
      reads this
    {
      && (forall k :: k in requests ==> requests[k].len <= requests[k].data.Length)
      && (forall j, k :: j in requests && k in requests && j != k ==> requests[j].data != requests[k].data)
    }

    ghost function View(): Logs
      requires Valid()
      reads this, Backing()
    {
      map k | k in requests :: requests[k].data[..requests[k].len]
    }

    constructor ()
      ensures Valid() && View() == map[]
    {
      requests := map[];
    }

    /** The filter writes the survivors over the front of the array it is reading, and they are
        copied to a fresh array with room for one more. */
    method Surviving(ip: Key, cutoff: int) returns (copied: array<int>, valid: nat)
      requires Valid()
      modifies Backing()
      ensures fresh(copied) && copied.Length == valid + 1
      ensures copied[..valid] == After(Get(old(View()), ip), cutoff)
      ensures View().Keys == old(View()).Keys
      ensures forall k :: k in View() && k != ip ==> View()[k] == old(View())[k]
    {
      hide After;
      if ip in requests {
        var slice := requests[ip];
        assert slice.data[..slice.len] == Get(View(), ip);
        assert forall k :: k in requests && k != ip ==> requests[k].data != slice.data;
        valid := FilterInPlace(slice.data, slice.len, cutoff);
        copied := CopyPrefix(slice.data, valid);
      } else {
        AfterNothing(cutoff);
        valid := 0;
        copied := new int[1];
      }
    }

    /** requests[ip] = copied[:len] */
    method Store(ip: Key, copied: array<int>, len: nat)
      requires Valid() && copied !in Backing() && len <= copied.Length
      modifies this
      ensures Valid() && Backing() <= old(Backing()) + {copied}
      ensures View() == old(View())[ip := copied[..len]]
    {
      requests := requests[ip := Slice(copied, len)];
    }

    /** The append of an accepted time stays in the fresh array. */
    method Allow(ip: Key, limit: int, window: int, now: int) returns (ok: bool)
      requires Valid()
      modifies this, Backing()
      ensures Valid() && fresh(Backing() - old(Backing()))
      ensures ok <==> Allowed(old(View()), Call(ip, now, limit, window))
      ensures View() == Next(old(View()), Call(ip, now, limit, window))
    {
      hide After, Allowed, Next;
      ghost var c, m := Call(ip, now, limit, window), View();
      var copied, valid := Surviving(ip, now - window);
      ghost var before, kept := View(), copied[..valid];
      NextIs(m, c, kept);
      ok := valid < limit;
      Record(ip, copied, valid, ok, now);
      SameUpdate(before, m, ip, if ok then kept + [now] else kept);
    }

    /** requests[ip] = fresh, or append(fresh, now), which stays in the same array. */
    method Record(ip: Key, copied: array<int>, valid: nat, ok: bool, now: int)
      requires Valid() && copied !in Backing() && copied.Length == valid + 1
      modifies this, copied
      ensures Valid() && Backing() <= old(Backing()) + {copied}
      ensures View() == old(View())[ip := if ok then old(copied[..valid]) + [now] else old(copied[..valid])]
    {
      ghost var before := View();
      if ok {
        Append(copied, valid, now);
      }
      assert View() == before;
      Store(ip, copied, if ok then valid + 1 else valid);
    }
  }

  lemma NextIs(m: Logs, c: Call, kept: seq<int>)
    requires kept == After(Get(m, c.key), c.now - c.window)
    ensures Allowed(m, c) <==> |kept| < c.limit
    ensures Next(m, c) == m[c.key := if |kept| < c.limit then kept + [c.now] else kept]
  {
  }

  lemma SameUpdate(a: Logs, b: Logs, key: Key, log: seq<int>)
    requires a.Keys == b.Keys && forall k :: k in a && k != key ==> a[k] == b[k]
    ensures a[key := log] == b[key := log]
  {
  }

  method Append(data: array<int>, len: nat, t: int)
    requires len < data.Length
    modifies data
    ensures data[..len + 1] == old(data[..len]) + [t]
  {
    data[len] := t;
  }

  /** make([]time.Time, valid, valid+1) and copy. */
  method CopyPrefix(data: array<int>, valid: nat) returns (copied: array<int>)
    requires valid <= data.Length
    ensures fresh(copied) && copied.Length == valid + 1 && copied[..valid] == data[..valid]
  {
    copied := new int[valid + 1];
    var i := 0;
    while i < valid
      invariant 0 <= i <= valid && copied[..i] == data[..i]
    {
      copied[i] := data[i];
      i := i + 1;
    }
  }

  lemma AfterCons(x: int, log: seq<int>, cutoff: int)
    ensures After([x] + log, cutoff) == (if x > cutoff then [x] else []) + After(log, cutoff)
  {
    assert ([x] + log)[1..] == log;
  }

  lemma {:induction false} AfterAppend(a: seq<int>, b: seq<int>, cutoff: int)
    ensures After(a + b, cutoff) == After(a, cutoff) + After(b, cutoff)
  {
    if a == [] {
      assert a + b == b;
    } else {
      hide After;
      AfterAppend(a[1..], b, cutoff);
      AfterCons(a[0], a[1..], cutoff);
      AfterCons(a[0], a[1..] + b, cutoff);
      assert a == [a[0]] + a[1..] && a + b == [a[0]] + (a[1..] + b);
    }
  }

  method FilterInPlace(data: array<int>, n: nat, cutoff: int) returns (valid: nat)
    requires n <= data.Length
    modifies data
    ensures valid <= n && data[..valid] == After(old(data[..n]), cutoff)
  {
    valid := 0;
    var i := 0;
    ghost var all := data[..n];
    while i < n
      invariant 0 <= valid <= i <= n
      invariant data[..valid] == After(all[..i], cutoff)
      invariant data[i..n] == all[i..]
    {
      assert data[i] == all[i] by {
        assert data[i] == data[i..n][0];
      }
      assert all[..i + 1] == all[..i] + [all[i]];
      AfterAppend(all[..i], [all[i]], cutoff);
      assert data[i + 1..n] == data[i..n][1..];
      var t := data[i];
      if t > cutoff {
        data[valid] := t;
        assert data[..valid + 1] == data[..valid] + [t];
        valid := valid + 1;
      }
      i := i + 1;
    }
    assert all[..n] == all;
  }

  // The reference limiter: it never forgets

  function Count(log: seq<int>, lo: int, hi: int): (n: nat)
    ensures n <= |log|
  {
    if log == [] then 0
    else (if lo < log[0] <= hi then 1 else 0) + Count(log[1..], lo, hi)
  }

  /** Keeps every accepted time for ever and counts those in the window that ends now. */
  function ReferenceNext(f: Logs, c: Call): Logs {
    if Allowed(f, c) then f[c.key := Get(f, c.key) + [c.now]] else f
  }

  function Decisions(m: Logs, calls: seq<Call>): (ds: seq<bool>)
    ensures |ds| == |calls|
    decreases |calls|
  {
    if calls == [] then [] else [Allowed(m, calls[0])] + Decisions(Next(m, calls[0]), calls[1..])
  }

  function ReferenceDecisions(f: Logs, calls: seq<Call>): (ds: seq<bool>)
    ensures |ds| == |calls|
    decreases |calls|
  {
    if calls == [] then [] else [Allowed(f, calls[0])] + ReferenceDecisions(ReferenceNext(f, calls[0]), calls[1..])
  }

  /** All accepted times after a run. */
  function Accepted(f: Logs, calls: seq<Call>): Logs
    decreases |calls|
  {
    if calls == [] then f else Accepted(ReferenceNext(f, calls[0]), calls[1..])
  }

  /** The clock does not go back below `t` or itself, and every key has one limit and one window. */
  ghost predicate Steady(calls: seq<Call>, t: int, limitOf: Key -> int, windowOf: Key -> int)
    decreases |calls|
  {
    calls == [] ||
    (t <= calls[0].now && calls[0].limit == limitOf(calls[0].key) && calls[0].window == windowOf(calls[0].key)
     && Steady(calls[1..], calls[0].now, limitOf, windowOf))
  }

  /** No cutoff that can still come tells the two logs apart. */
  ghost predicate Alike(m: Logs, f: Logs, t: int, windowOf: Key -> int) {
    forall key, cut :: cut >= t - windowOf(key) ==> After(Get(m, key), cut) == After(Get(f, key), cut)
  }

  lemma {:induction false} AfterTwice(log: seq<int>, a: int, b: int)
    requires a <= b
    ensures After(After(log, a), b) == After(log, b)
  {
    if log != [] {
      AfterTwice(log[1..], a, b);
      var head := if log[0] > a then [log[0]] else [];
      AfterAppend(head, After(log[1..], a), b);
    }
  }

  lemma AlikeStep(m: Logs, f: Logs, c: Call, t: int, windowOf: Key -> int)
    requires Alike(m, f, t, windowOf) && t <= c.now && c.window == windowOf(c.key)
    ensures Allowed(m, c) == Allowed(f, c)
    ensures Alike(Next(m, c), ReferenceNext(f, c), c.now, windowOf)
  {
    var first := c.now - c.window;
    assert After(Get(m, c.key), first) == After(Get(f, c.key), first);
    hide After, Next, ReferenceNext;
    forall key, cut | cut >= c.now - windowOf(key)
      ensures After(Get(Next(m, c), key), cut) == After(Get(ReferenceNext(f, c), key), cut)
    {
      assert After(Get(m, key), cut) == After(Get(f, key), cut);
      NextAt(m, f, c, key);
      if key == c.key {
        AlikeLogs(Get(m, key), Get(f, key), c, cut);
      }
    }
  }

  lemma NextAt(m: Logs, f: Logs, c: Call, key: Key)
    ensures key != c.key ==> Get(Next(m, c), key) == Get(m, key) && Get(ReferenceNext(f, c), key) == Get(f, key)
    ensures var valid := After(Get(m, c.key), c.now - c.window);
            Get(Next(m, c), c.key) == if Allowed(m, c) then valid + [c.now] else valid
    ensures Get(ReferenceNext(f, c), c.key) == if Allowed(f, c) then Get(f, c.key) + [c.now] else Get(f, c.key)
  {
  }

  lemma AlikeLogs(a: seq<int>, b: seq<int>, c: Call, cut: int)
    requires c.now - c.window <= cut && After(a, cut) == After(b, cut)
    ensures var valid := After(a, c.now - c.window);
            && After(valid, cut) == After(b, cut)
            && After(valid + [c.now], cut) == After(b + [c.now], cut)
  {
    hide After;
    AfterTwice(a, c.now - c.window, cut);
    AfterAppend(After(a, c.now - c.window), [c.now], cut);
    AfterAppend(b, [c.now], cut);
  }

  lemma {:induction false} AlikeRun(m: Logs, f: Logs, calls: seq<Call>, t: int,
                                    limitOf: Key -> int, windowOf: Key -> int)
    requires Alike(m, f, t, windowOf) && Steady(calls, t, limitOf, windowOf)
    ensures Decisions(m, calls) == ReferenceDecisions(f, calls)
    decreases |calls|
  {
    if calls != [] {
      AlikeStep(m, f, calls[0], t, windowOf);
      AlikeRun(Next(m, calls[0]), ReferenceNext(f, calls[0]), calls[1..], calls[0].now, limitOf, windowOf);
    }
  }

  /** Over every run of calls on any mix of keys, pruning in place answers exactly as keeping every
      accepted timestamp for ever. */
  lemma PruningIsInvisible(calls: seq<Call>, t: int, limitOf: Key -> int, windowOf: Key -> int)
    requires Steady(calls, t, limitOf, windowOf)
    ensures Decisions(map[], calls) == ReferenceDecisions(map[], calls)
  {
    AlikeRun(map[], map[], calls, t, limitOf, windowOf);
  }

  /** At most `limit` accepted calls in every half-open interval of length `window`; times are
      integers, so [lo, lo + window) is (lo - 1, lo - 1 + window]. */
  ghost predicate WithinLimit(log: seq<int>, limit: int, window: int) {
    forall lo :: InWindow(log, lo, window) <= if limit > 0 then limit else 0
  }

  function InWindow(log: seq<int>, lo: int, window: int): nat {
    Count(log, lo, lo + window)
  }

  lemma {:induction false} CountAppend(a: seq<int>, b: seq<int>, lo: int, hi: int)
    ensures Count(a + b, lo, hi) == Count(a, lo, hi) + Count(b, lo, hi)
  {
    if a == [] {
      assert a + b == b;
    } else {
      CountAppend(a[1..], b, lo, hi);
      assert (a + b)[1..] == a[1..] + b;
    }
  }

  lemma {:induction false} CountAtMostAfter(log: seq<int>, lo: int, hi: int, cutoff: int)
    requires cutoff <= lo
    ensures Count(log, lo, hi) <= |After(log, cutoff)|
  {
    if log != [] {
      CountAtMostAfter(log[1..], lo, hi, cutoff);
    }
  }

  lemma LimitStep(log: seq<int>, now: int, limit: int, window: int)
    requires WithinLimit(log, limit, window) && |After(log, now - window)| < limit
    ensures WithinLimit(log + [now], limit, window)
  {
    forall lo
      ensures InWindow(log + [now], lo, window) <= limit
    {
      assert InWindow(log, lo, window) <= limit;
      CountAppend(log, [now], lo, lo + window);
      assert Count([now], lo, lo + window) == (if lo < now <= lo + window then 1 else 0) + Count([], lo, lo + window);
      if lo < now <= lo + window {
        CountAtMostAfter(log, lo, lo + window, now - window);
      }
    }
  }

  lemma {:induction false} LimitRun(f: Logs, calls: seq<Call>, t: int, limitOf: Key -> int, windowOf: Key -> int)
    requires Steady(calls, t, limitOf, windowOf)
    requires forall key :: WithinLimit(Get(f, key), limitOf(key), windowOf(key))
    ensures forall key :: WithinLimit(Get(Accepted(f, calls), key), limitOf(key), windowOf(key))
    decreases |calls|
  {
    if calls != [] {
      var c := calls[0];
      var f' := ReferenceNext(f, c);
      forall key
        ensures WithinLimit(Get(f', key), limitOf(key), windowOf(key))
      {
        if key == c.key && Allowed(f, c) {
          LimitStep(Get(f, key), c.now, c.limit, c.window);
        }
      }
      LimitRun(f', calls[1..], c.now, limitOf, windowOf);
    }
  }

  /** The times of the calls on `key` that the pruning limiter answered with true. */
  function AcceptedTimes(m: Logs, calls: seq<Call>, key: Key): seq<int>
    decreases |calls|
  {
    if calls == [] then []
    else (if calls[0].key == key && Allowed(m, calls[0]) then [calls[0].now] else [])
         + AcceptedTimes(Next(m, calls[0]), calls[1..], key)
  }

  lemma {:induction false} AcceptedTimesAreLogged(m: Logs, f: Logs, calls: seq<Call>, t: int,
                                                  limitOf: Key -> int, windowOf: Key -> int, key: Key)
    requires Alike(m, f, t, windowOf) && Steady(calls, t, limitOf, windowOf)
    ensures Get(Accepted(f, calls), key) == Get(f, key) + AcceptedTimes(m, calls, key)
    decreases |calls|
  {
    hide Alike, Next, Allowed, After, WithinLimit;
    if calls != [] {
      AlikeStep(m, f, calls[0], t, windowOf);
      AcceptedTimesAreLogged(Next(m, calls[0]), ReferenceNext(f, calls[0]), calls[1..], calls[0].now,
                             limitOf, windowOf, key);
    }
  }

  /** The guarantee over every run: on each key, every interval of length `window` holds at most
      `limit` accepted calls, however the calls on other keys are mixed in. */
  lemma NeverMoreThanLimit(calls: seq<Call>, t: int, limitOf: Key -> int, windowOf: Key -> int, key: Key)
    requires Steady(calls, t, limitOf, windowOf)
    ensures WithinLimit(AcceptedTimes(map[], calls, key), limitOf(key), windowOf(key))
  {
    forall k
      ensures WithinLimit(Get(map[], k), limitOf(k), windowOf(k))
    {
      assert Get(map[], k) == [];
    }
    LimitRun(map[], calls, t, limitOf, windowOf);
    assert Get(map[], key) + AcceptedTimes(map[], calls, key) == AcceptedTimes(map[], calls, key);
    AcceptedTimesAreLogged(map[], map[], calls, t, limitOf, windowOf, key);
  }

  // The other direction: nothing is refused without need

  function NextAll(m: Logs, calls: seq<Call>): Logs
    decreases |calls|
  {
    if calls == [] then m else NextAll(Next(m, calls[0]), calls[1..])
  }

  lemma {:induction false} CountIsAfter(log: seq<int>, cutoff: int, now: int)
    requires forall x :: x in log ==> x <= now
    ensures Count(log, cutoff, now) == |After(log, cutoff)|
  {
    if log != [] {
      assert log[0] in log && forall x :: x in log[1..] ==> x in log;
      CountIsAfter(log[1..], cutoff, now);
    }
  }

  ghost predicate NothingLater(f: Logs, t: int) {
    forall key, x :: x in Get(f, key) ==> x <= t
  }

  lemma NothingLaterNext(f: Logs, c: Call, t: int)
    requires NothingLater(f, t) && t <= c.now
    ensures NothingLater(ReferenceNext(f, c), c.now)
  {
    hide Allowed;
    forall key, x | x in Get(ReferenceNext(f, c), key)
      ensures x <= c.now
    {
      assert x in Get(f, key) || x == c.now;
    }
  }

  lemma {:induction false} AllowedIffRoom(m: Logs, f: Logs, calls: seq<Call>, c: Call, t: int,
                                          limitOf: Key -> int, windowOf: Key -> int)
    requires Alike(m, f, t, windowOf) && NothingLater(f, t) && Steady(calls + [c], t, limitOf, windowOf)
    ensures Allowed(NextAll(m, calls), c) <==>
            Count(Get(f, c.key) + AcceptedTimes(m, calls, c.key), c.now - c.window, c.now) < c.limit
    decreases |calls|
  {
    hide Alike, After, NothingLater, Allowed, Next, ReferenceNext;
    var all := calls + [c];
    if calls == [] {
      AlikeStep(m, f, c, t, windowOf);
      RoomNow(f, c, t);
      assert Get(f, c.key) + [] == Get(f, c.key);
    } else {
      var first, rest := calls[0], calls[1..];
      assert all[0] == first && all[1..] == rest + [c];
      AlikeStep(m, f, first, t, windowOf);
      NothingLaterNext(f, first, t);
      AllowedIffRoom(Next(m, first), ReferenceNext(f, first), rest, c, first.now, limitOf, windowOf);
      LogGrows(m, f, first, rest, c.key);
      assert calls == [first] + rest;
    }
  }

  lemma RoomNow(f: Logs, c: Call, t: int)
    requires NothingLater(f, t) && t <= c.now
    ensures Allowed(f, c) <==> Count(Get(f, c.key), c.now - c.window, c.now) < c.limit
  {
    hide After;
    NothingLaterAt(f, c.key, t);
    CountIsAfter(Get(f, c.key), c.now - c.window, c.now);
  }

  lemma LogGrows(m: Logs, f: Logs, first: Call, rest: seq<Call>, key: Key)
    requires Allowed(m, first) == Allowed(f, first)
    ensures Get(f, key) + AcceptedTimes(m, [first] + rest, key) ==
            Get(ReferenceNext(f, first), key) + AcceptedTimes(Next(m, first), rest, key)
  {
    hide Allowed, Next;
    assert ([first] + rest)[1..] == rest;
    var later := AcceptedTimes(Next(m, first), rest, key);
    assert Get(f, key) + [first.now] + later == Get(f, key) + ([first.now] + later);
    assert [] + later == later;
  }

  lemma NothingLaterAt(f: Logs, key: Key, t: int)
    requires NothingLater(f, t)
    ensures forall x :: x in Get(f, key) ==> x <= t
  {
  }

  /** Over every run, exactly: a call is refused if and only if the window that ends with it, (now - window, now],
      already holds `limit` accepted calls on its key. */
  lemma RefusedIffFull(calls: seq<Call>, c: Call, t: int, limitOf: Key -> int, windowOf: Key -> int)
    requires Steady(calls + [c], t, limitOf, windowOf)
    ensures !Allowed(NextAll(map[], calls), c) <==>
            Count(AcceptedTimes(map[], calls, c.key), c.now - c.window, c.now) >= c.limit
  {
    AllowedIffRoom(map[], map[], calls, c, t, limitOf, windowOf);
    assert Get(map[], c.key) + AcceptedTimes(map[], calls, c.key) == AcceptedTimes(map[], calls, c.key);
  }

  // The interceptor

  datatype Request = Request(ip: string, isImport: bool, now: int)

  const IMPORT := ":import"
  const GENERAL := ":general"

  function KeyFor(ip: string, isImport: bool): Key {
    Key(ip + if isImport then IMPORT else GENERAL)
  }

  function ImportCall(r: Request): Call {
    Call(KeyFor(r.ip, true), r.now, 10, MINUTE)
  }

  function GeneralCall(r: Request): Call {
    Call(KeyFor(r.ip, false), r.now, 60, MINUTE)
  }

  /** The calls one request makes, in order; an import that is refused never reaches the second. */
  function CallsOf(m: Logs, r: Request): seq<Call> {
    if !r.isImport then [GeneralCall(r)]
    else if Allowed(m, ImportCall(r)) then [ImportCall(r), GeneralCall(r)]
    else [ImportCall(r)]
  }

  function Admitted(m: Logs, r: Request): bool {
    if r.isImport then Allowed(m, ImportCall(r)) && Allowed(Next(m, ImportCall(r)), GeneralCall(r))
    else Allowed(m, GeneralCall(r))
  }

  lemma OneCall(m: Logs, c: Call)
    ensures NextAll(m, [c]) == Next(m, c)
  {
    assert [c][1..] == [];
  }

  /** Runs the interceptor's checks; `admitted` is whether the handler is called. */
  method Intercept(limiter: Limiter, r: Request) returns (admitted: bool)
    requires limiter.Valid()
    modifies limiter, limiter.Backing()
    ensures limiter.Valid()
    ensures admitted == Admitted(old(limiter.View()), r)
    ensures limiter.View() == NextAll(old(limiter.View()), CallsOf(old(limiter.View()), r))
  {
    hide Next, Allowed;
    ghost var m := limiter.View();
    OneCall(m, ImportCall(r));
    OneCall(m, GeneralCall(r));
    if r.isImport {
      var ok := limiter.Allow(Key(r.ip + ":import"), 10, MINUTE, r.now);
      if !ok {
        return false;
      }
      OneCall(limiter.View(), GeneralCall(r));
      assert [ImportCall(r), GeneralCall(r)][1..] == [GeneralCall(r)];
    }
    admitted := limiter.Allow(Key(r.ip + ":general"), 60, MINUTE, r.now);
  }

  predicate Ordered(requests: seq<Request>, t: int) {
    requests == [] || (t <= requests[0].now && Ordered(requests[1..], requests[0].now))
  }

  /** All limiter calls of a run of requests. */
  function AllCalls(m: Logs, requests: seq<Request>): seq<Call>
    decreases |requests|
  {
    if requests == [] then []
    else CallsOf(m, requests[0]) + AllCalls(NextAll(m, CallsOf(m, requests[0])), requests[1..])
  }

  /** When the handler was called for `ip`, over a run. */
  function HandledTimes(m: Logs, requests: seq<Request>, ip: string, importsOnly: bool): seq<int>
    decreases |requests|
  {
    if requests == [] then []
    else
      var r := requests[0];
      (if r.ip == ip && (importsOnly ==> r.isImport) && Admitted(m, r) then [r.now] else [])
      + HandledTimes(NextAll(m, CallsOf(m, r)), requests[1..], ip, importsOnly)
  }

  function LimitFor(key: Key): int {
    if |key.name| >= 7 && key.name[|key.name| - 7..] == IMPORT then 10 else 60
  }

  lemma KeysApart(a: string, b: string)
    ensures a + IMPORT != b + GENERAL
    ensures a + IMPORT == b + IMPORT ==> a == b
    ensures a + GENERAL == b + GENERAL ==> a == b
    ensures LimitFor(Key(a + IMPORT)) == 10 && LimitFor(Key(a + GENERAL)) == 60
  {
    assert (a + IMPORT)[|a + IMPORT| - 1] == 't';
    assert (b + GENERAL)[|b + GENERAL| - 1] == 'l';
    assert (a + IMPORT)[|a|..] == IMPORT;
    assert (a + GENERAL)[|a + GENERAL| - 7..][6] == 'l';
    if a + IMPORT == b + IMPORT {
      assert (a + IMPORT)[..|a|] == a && (b + IMPORT)[..|b|] == b;
    }
    if a + GENERAL == b + GENERAL {
      assert (a + GENERAL)[..|a|] == a && (b + GENERAL)[..|b|] == b;
    }
  }

  lemma {:induction false} AllCallsSteady(m: Logs, requests: seq<Request>, t: int)
    requires Ordered(requests, t)
    ensures Steady(AllCalls(m, requests), t, LimitFor, _ => MINUTE)
    decreases |requests|
  {
    if requests != [] {
      var r := requests[0];
      var cs := CallsOf(m, r);
      var rest := AllCalls(NextAll(m, cs), requests[1..]);
      AllCallsSteady(NextAll(m, cs), requests[1..], r.now);
      KeysApart(r.ip, r.ip);
      assert ([GeneralCall(r)] + rest)[1..] == rest;
      var all := cs + rest;
      if |cs| == 2 {
        assert all[1..] == [cs[1]] + rest;
        assert all[1..][1..] == rest;
      } else {
        assert all[1..] == rest;
      }
    }
  }

  lemma {:induction false} AcceptedTimesAppend(m: Logs, a: seq<Call>, b: seq<Call>, key: Key)
    ensures AcceptedTimes(m, a + b, key) == AcceptedTimes(m, a, key) + AcceptedTimes(NextAll(m, a), b, key)
    decreases |a|
  {
    hide Next, Allowed;
    if a == [] {
      assert a + b == b;
    } else {
      var rest := a[1..];
      AcceptedTimesAppend(Next(m, a[0]), rest, b, key);
      assert (a + b)[0] == a[0] && (a + b)[1..] == rest + b;
      var head := if a[0].key == key && Allowed(m, a[0]) then [a[0].now] else [];
      var x, y := AcceptedTimes(Next(m, a[0]), rest, key), AcceptedTimes(NextAll(m, a), b, key);
      assert head + (x + y) == head + x + y;
    }
  }

  lemma {:induction false} HandledAtMostAccepted(m: Logs, requests: seq<Request>, ip: string, importsOnly: bool,
                                                 lo: int, hi: int)
    ensures Count(HandledTimes(m, requests, ip, importsOnly), lo, hi) <=
            Count(AcceptedTimes(m, AllCalls(m, requests), KeyFor(ip, importsOnly)), lo, hi)
    decreases |requests|
  {
    hide Next, Allowed, NextAll, CallsOf, Admitted, KeyFor;
    if requests != [] {
      var r := requests[0];
      var cs := CallsOf(m, r);
      var m' := NextAll(m, cs);
      var key := KeyFor(ip, importsOnly);
      var now := if r.ip == ip && (importsOnly ==> r.isImport) && Admitted(m, r) then [r.now] else [];
      HandledAtMostAccepted(m', requests[1..], ip, importsOnly, lo, hi);
      AcceptedTimesAppend(m, cs, AllCalls(m', requests[1..]), key);
      CountAppend(now, HandledTimes(m', requests[1..], ip, importsOnly), lo, hi);
      CountAppend(AcceptedTimes(m, cs, key), AcceptedTimes(m', AllCalls(m', requests[1..]), key), lo, hi);
      if now != [] {
        HandledOnce(m, r, ip, importsOnly, lo, hi);
      }
    }
  }

  lemma HandledOnce(m: Logs, r: Request, ip: string, importsOnly: bool, lo: int, hi: int)
    requires r.ip == ip && (importsOnly ==> r.isImport) && Admitted(m, r)
    ensures Count([r.now], lo, hi) <=
            Count(AcceptedTimes(m, CallsOf(m, r), KeyFor(ip, importsOnly)), lo, hi)
  {
    var cs := CallsOf(m, r);
    var key := KeyFor(ip, importsOnly);
    KeysApart(ip, ip);
    if r.isImport {
      assert cs[1..] == [GeneralCall(r)] && cs[1..][1..] == [];
    } else {
      assert cs[1..] == [];
    }
  }

  /** For every client address and every run of requests, any minute sees at most 60 handled requests
      and at most 10 handled credential imports. */
  lemma HandlerIsLimited(requests: seq<Request>, t: int, ip: string)
    requires Ordered(requests, t)
    ensures WithinLimit(HandledTimes(map[], requests, ip, false), 60, MINUTE)
    ensures WithinLimit(HandledTimes(map[], requests, ip, true), 10, MINUTE)
  {
    var calls := AllCalls(map[], requests);
    AllCallsSteady(map[], requests, t);
    KeysApart(ip, ip);
    NeverMoreThanLimit(calls, t, LimitFor, _ => MINUTE, KeyFor(ip, false));
    NeverMoreThanLimit(calls, t, LimitFor, _ => MINUTE, KeyFor(ip, true));
    forall lo
      ensures InWindow(HandledTimes(map[], requests, ip, false), lo, MINUTE) <= 60
      ensures InWindow(HandledTimes(map[], requests, ip, true), lo, MINUTE) <= 10
    {
      assert InWindow(AcceptedTimes(map[], calls, KeyFor(ip, false)), lo, MINUTE) <= 60;
      assert InWindow(AcceptedTimes(map[], calls, KeyFor(ip, true)), lo, MINUTE) <= 10;
      HandledAtMostAccepted(map[], requests, ip, false, lo, lo + MINUTE);
      HandledAtMostAccepted(map[], requests, ip, true, lo, lo + MINUTE);
    }
  }

  lemma {:induction false} CallsBefore(m: Logs, requests: seq<Request>, r: Request, t: int)
    requires Ordered(requests + [r], t)
    ensures t <= r.now && Ordered(requests, t) && forall c :: c in AllCalls(m, requests) ==> c.now <= r.now
    decreases |requests|
  {
    hide Next, Allowed, NextAll;
    var all := requests + [r];
    if requests != [] {
      assert all[0] == requests[0] && all[1..] == requests[1..] + [r];
      CallsBefore(NextAll(m, CallsOf(m, requests[0])), requests[1..], r, requests[0].now);
    }
  }

  lemma {:induction false} SteadySnoc(calls: seq<Call>, c: Call, t: int, limitOf: Key -> int, windowOf: Key -> int)
    requires Steady(calls, t, limitOf, windowOf) && t <= c.now && forall x :: x in calls ==> x.now <= c.now
    requires c.limit == limitOf(c.key) && c.window == windowOf(c.key)
    ensures Steady(calls + [c], t, limitOf, windowOf)
    decreases |calls|
  {
    var all := calls + [c];
    if calls == [] {
      assert all[1..] == [];
    } else {
      assert all[0] == calls[0] && all[1..] == calls[1..] + [c];
      SteadySnoc(calls[1..], c, calls[0].now, limitOf, windowOf);
    }
  }

  /** The handler is called exactly when the last limiter call, the general one, is accepted. */
  lemma {:induction false} HandledAreAccepted(m: Logs, requests: seq<Request>, ip: string)
    ensures HandledTimes(m, requests, ip, false) == AcceptedTimes(m, AllCalls(m, requests), KeyFor(ip, false))
    decreases |requests|
  {
    hide Next, Allowed, NextAll, CallsOf, Admitted, KeyFor;
    if requests != [] {
      var r := requests[0];
      var cs := CallsOf(m, r);
      HandledAreAccepted(NextAll(m, cs), requests[1..], ip);
      AcceptedTimesAppend(m, cs, AllCalls(NextAll(m, cs), requests[1..]), KeyFor(ip, false));
      GeneralOfOne(m, r, ip);
    }
  }

  lemma GeneralOfOne(m: Logs, r: Request, ip: string)
    ensures AcceptedTimes(m, CallsOf(m, r), KeyFor(ip, false)) == if r.ip == ip && Admitted(m, r) then [r.now] else []
  {
    hide Allowed, Next;
    KeysApart(r.ip, ip);
    var key, last := KeyFor(ip, false), GeneralCall(r);
    OneAccepted(m, last, key);
    if r.isImport {
      var first := ImportCall(r);
      OneAccepted(m, first, key);
      OneAccepted(Next(m, first), last, key);
      assert [first, last][1..] == [last];
      assert AcceptedTimes(m, [first, last], key) == [] + AcceptedTimes(Next(m, first), [last], key);
    }
  }

  lemma OneAccepted(m: Logs, c: Call, key: Key)
    ensures AcceptedTimes(m, [c], key) == if c.key == key && Allowed(m, c) then [c.now] else []
  {
    assert [c][1..] == [];
  }

  /** When a request reaches the handler, over every run: if and only if fewer than sixty of its address were
      handled in the minute that ends with it and, for a credential import, fewer than ten got past the import
      limiter. */
  lemma HandledIff(requests: seq<Request>, r: Request, t: int)
    requires Ordered(requests + [r], t)
    ensures var calls, minute := AllCalls(map[], requests), 60_000_000_000;
            Admitted(NextAll(map[], calls), r) <==>
            && Count(HandledTimes(map[], requests, r.ip, false), r.now - minute, r.now) < 60
            && (r.isImport ==>
                  Count(AcceptedTimes(map[], calls, Key(r.ip + ":import")), r.now - minute, r.now) < 10)
  {
    hide Allowed, Next, NextAll, AcceptedTimes, HandledTimes, AllCalls, Count;
    var calls := AllCalls(map[], requests);
    var m := NextAll(map[], calls);
    CallsBefore(map[], requests, r, t);
    AllCallsSteady(map[], requests, t);
    KeysApart(r.ip, r.ip);
    SteadySnoc(calls, GeneralCall(r), t, LimitFor, _ => MINUTE);
    RefusedIffFull(calls, GeneralCall(r), t, LimitFor, _ => MINUTE);
    HandledAreAccepted(map[], requests, r.ip);
    SteadySnoc(calls, ImportCall(r), t, LimitFor, _ => MINUTE);
    RefusedIffFull(calls, ImportCall(r), t, LimitFor, _ => MINUTE);
    OtherKey(m, ImportCall(r), GeneralCall(r));
  }

  lemma OtherKey(m: Logs, a: Call, b: Call)
    requires a.key != b.key
    ensures Allowed(Next(m, a), b) == Allowed(m, b)
  {
  }
}
