/**
 The login limiter: how many password checks a login name and a source get in any span of time.
 */
module LoginLimiter {
  import opened Wrappers

  /** What attempts are counted by: a login name or a source, both by digest. */
  datatype Key = LoginKey(login: string) | SourceKey(source: string)

  datatype Attempt = Attempt(count: nat, until: int)

  const WINDOW: int := 900000

  function Limit(key: Key): nat {
    if key.SourceKey? then 50 else 10
  }

  // ---------------------------------------------------------------- one request

  function Purged(attempts: map<Key, Attempt>, now: int): map<Key, Attempt> {
    map k | k in attempts && now < attempts[k].until :: attempts[k]
  }

  /** The entry that an attempt at `now` counts against. */
  function Current(attempts: map<Key, Attempt>, key: Key, now: int): Attempt {
    if key in attempts && now < attempts[key].until then attempts[key] else Attempt(0, now + WINDOW)
  }

  function Counted(attempts: map<Key, Attempt>, key: Key, now: int): (map<Key, Attempt>, bool) {
    var attempt := Current(attempts, key, now);
    if attempt.count >= Limit(key) then (attempts[key := attempt], false)
    else (attempts[key := Attempt(attempt.count + 1, attempt.until)], true)
  }

  /** The login name counts first, then the source if there is one; the first that is used up refuses. */
  function Admit(attempts: map<Key, Attempt>, now: int, login: string, source: Option<string>): (map<Key, Attempt>, bool) {
    var (afterLogin, ok) := Counted(Purged(attempts, now), LoginKey(login), now);
    if !ok || source.None? then (afterLogin, ok)
    else Counted(afterLogin, SourceKey(source.value), now)
  }

  // ---------------------------------------------------------------- runs

  /** A login attempt; `busy` if its password check finds no permit, so that its transaction is undone. */
  datatype Request = Request(now: int, login: string, source: Option<string>, busy: bool)

  predicate Concerns(r: Request, key: Key) {
    key == LoginKey(r.login) || (r.source.Some? && key == SourceKey(r.source.value))
  }

  function Decision(attempts: map<Key, Attempt>, r: Request): (map<Key, Attempt>, bool) {
    Admit(attempts, r.now, r.login, r.source)
  }

  /** Whether the request has a password checked. */
  predicate IsChecked(attempts: map<Key, Attempt>, r: Request) {
    Decision(attempts, r).1 && !r.busy
  }

  function After(attempts: map<Key, Attempt>, r: Request): map<Key, Attempt> {
    if Decision(attempts, r).1 && r.busy then attempts else Decision(attempts, r).0
  }

  function AfterRun(run: seq<Request>): map<Key, Attempt> {
    if run == [] then map[] else After(AfterRun(run[..|run| - 1]), run[|run| - 1])
  }

  /** The times of the password checks that concern `key`. */
  function Checks(run: seq<Request>, key: Key): seq<int> {
    if run == [] then []
    else
      var init, last := run[..|run| - 1], run[|run| - 1];
      Checks(init, key) + if IsChecked(AfterRun(init), last) && Concerns(last, key) then [last.now] else []
  }

  ghost predicate ClockRuns(run: seq<Request>) {
    forall j, k :: 0 <= j < k < |run| ==> run[j].now <= run[k].now
  }

  /** How many of the times lie in `a..b`. */
  function CountIn(times: seq<int>, a: int, b: int): nat {
    if times == [] then 0
    else CountIn(times[..|times| - 1], a, b) + if a <= times[|times| - 1] < b then 1 else 0
  }

  lemma {:induction false} CountSplits(times: seq<int>, a: int, b: int, c: int)
    requires a <= b <= c
    ensures CountIn(times, a, c) == CountIn(times, a, b) + CountIn(times, b, c)
  {
    if times != [] {
      CountSplits(times[..|times| - 1], a, b, c);
    }
  }

  lemma {:induction false} CountWidens(times: seq<int>, a: int, b: int, a': int, b': int)
    requires a' <= a && b <= b'
    ensures CountIn(times, a, b) <= CountIn(times, a', b')
  {
    if times != [] {
      CountWidens(times[..|times| - 1], a, b, a', b');
    }
  }

  lemma {:induction false} CountsNothingBeyond(times: seq<int>, a: int, b: int)
    requires forall i :: 0 <= i < |times| ==> times[i] < a
    ensures CountIn(times, a, b) == 0
  {
    if times != [] {
      CountsNothingBeyond(times[..|times| - 1], a, b);
    }
  }

  lemma CountOneMore(times: seq<int>, t: int, a: int, b: int)
    ensures CountIn(times + [t], a, b) == CountIn(times, a, b) + if a <= t < b then 1 else 0
  {
    assert (times + [t])[..|times|] == times;
  }

  // ---------------------------------------------------------------- one key over a run

  function EntryOf(attempts: map<Key, Attempt>, key: Key): Option<Attempt> {
    if key in attempts then Some(attempts[key]) else None
  }

  /** The checks in the span of a window's length from `t` on. */
  function InSpan(times: seq<int>, t: int): nat {
    CountIn(times, t, t + WINDOW)
  }

  /** In no span of a window's length are there `bound` checks or more. */
  ghost predicate SpansBelow(times: seq<int>, bound: int) {
    forall t :: InSpan(times, t) < bound
  }

  /** The latest window opened at `u`: `used` attempts were counted in it, the one that opened it included. */
  ghost predicate WindowHolds(times: seq<int>, u: int, used: int, limit: nat) {
    && 1 <= used <= limit
    && CountIn(times, u, u + WINDOW) <= used && CountIn(times, u + 1, u + WINDOW) <= used - 1
    && (forall i :: 0 <= i < |times| ==> times[i] < u + WINDOW)
    && CountIn(times, u - WINDOW + 1, u) <= limit - 1
  }

  /** What holds of the entry and the checks of a key at time `now`; `start` is when its latest window opened. */
  ghost predicate KeyHolds(entry: Option<Attempt>, start: Option<int>, times: seq<int>, limit: nat, now: int) {
    && SpansBelow(times, 2 * limit)
    && match start
       case None => entry == None && times == []
       case Some(u) =>
         && u <= now
         && if entry.Some? then entry.value.until == u + WINDOW && WindowHolds(times, u, entry.value.count, limit)
            else u + WINDOW <= now && WindowHolds(times, u, limit, limit)
  }

  lemma FewerUsedHolds(times: seq<int>, u: int, used: int, limit: nat)
    requires WindowHolds(times, u, used, limit)
    ensures WindowHolds(times, u, limit, limit)
  {
  }

  /** Time passes, and an expired entry may be dropped. */
  lemma PurgeKeeps(entry: Option<Attempt>, start: Option<int>, times: seq<int>, limit: nat, now: int, later: int)
    requires KeyHolds(entry, start, times, limit, now) && now <= later
    ensures KeyHolds(entry, start, times, limit, later)
    ensures entry.Some? && entry.value.until <= later ==> KeyHolds(None, start, times, limit, later)
  {
    if entry.Some? {
      FewerUsedHolds(times, start.value, entry.value.count, limit);
    }
  }

  /** A check in the window that opened at `u` fits into every span. */
  lemma CheckKeepsSpans(times: seq<int>, u: int, used: int, limit: nat, now: int)
    requires SpansBelow(times, 2 * limit) && u <= now < u + WINDOW
    requires WindowHolds(times + [now], u, used, limit)
    ensures SpansBelow(times + [now], 2 * limit)
  {
    forall t
      ensures InSpan(times + [now], t) < 2 * limit
    {
      CountOneMore(times, now, t, t + WINDOW);
      if t <= now < t + WINDOW {
        SpanFits(times + [now], u, used, limit, t);
      } else {
        assert InSpan(times, t) < 2 * limit;
      }
    }
  }

  lemma SpanFits(times: seq<int>, u: int, used: int, limit: nat, t: int)
    requires WindowHolds(times, u, used, limit) && u - WINDOW < t
    ensures CountIn(times, t, t + WINDOW) < 2 * limit
  {
    if t >= u + WINDOW {
      CountsNothingBeyond(times, t, t + WINDOW);
    } else if t >= u {
      CountSplits(times, t, u + WINDOW, t + WINDOW);
      CountsNothingBeyond(times, u + WINDOW, t + WINDOW);
      CountWidens(times, t, u + WINDOW, u, u + WINDOW);
    } else {
      CountSplits(times, t, u, t + WINDOW);
      CountWidens(times, t, u, u - WINDOW + 1, u);
      CountWidens(times, u, t + WINDOW, u, u + WINDOW);
    }
  }

  /** A new window opens only when the one before is over, so the spans that reach into both miss its first attempt. */
  lemma NewWindowHolds(start: Option<int>, times: seq<int>, limit: nat, now: int)
    requires KeyHolds(None, start, times, limit, now) && limit >= 1
    ensures WindowHolds(times, now, 1, limit)
  {
    if start.Some? {
      var u := start.value;
      CountsNothingBeyond(times, now, now + WINDOW);
      CountsNothingBeyond(times, now + 1, now + WINDOW);
      CountSplits(times, now - WINDOW + 1, if now - WINDOW + 1 < u + WINDOW then u + WINDOW else now - WINDOW + 1, now);
      CountsNothingBeyond(times, if now - WINDOW + 1 < u + WINDOW then u + WINDOW else now - WINDOW + 1, now);
      if now - WINDOW + 1 < u + WINDOW {
        CountWidens(times, now - WINDOW + 1, u + WINDOW, u + 1, u + WINDOW);
      }
    }
  }

  /** One attempt on a key: its entry afterwards, whether it is let through, and whether its window is new. */
  lemma AttemptKeeps(
      entry: Option<Attempt>, start: Option<int>, times: seq<int>, limit: nat, now: int, checked: bool)
    returns (nextStart: Option<int>)
    requires KeyHolds(entry, start, times, limit, now) && limit >= 1 && (entry.Some? ==> now < entry.value.until)
    ensures var current := if entry.Some? then entry.value else Attempt(0, now + WINDOW);
      if current.count >= limit then KeyHolds(Some(current), nextStart, times, limit, now)
      else KeyHolds(Some(Attempt(current.count + 1, current.until)), nextStart, if checked then times + [now] else times, limit, now)
  {
    if entry.Some? {
      nextStart := start;
      var used := entry.value.count;
      if used < limit {
        UsedOneMore(times, start.value, used, limit, now, checked);
        if checked {
          CheckKeepsSpans(times, start.value, used + 1, limit, now);
        }
      }
    } else {
      nextStart := Some(now);
      NewWindowHolds(start, times, limit, now);
      if checked {
        FirstCheckHolds(start, times, limit, now);
        CheckKeepsSpans(times, now, 1, limit, now);
      }
    }
  }

  lemma UsedOneMore(times: seq<int>, u: int, used: int, limit: nat, now: int, checked: bool)
    requires WindowHolds(times, u, used, limit) && used < limit && u <= now < u + WINDOW
    ensures WindowHolds(if checked then times + [now] else times, u, used + 1, limit)
  {
    CountOneMore(times, now, u, u + WINDOW);
    CountOneMore(times, now, u + 1, u + WINDOW);
    CountOneMore(times, now, u - WINDOW + 1, u);
  }

  lemma FirstCheckHolds(start: Option<int>, times: seq<int>, limit: nat, now: int)
    requires KeyHolds(None, start, times, limit, now) && WindowHolds(times, now, 1, limit)
    ensures WindowHolds(times + [now], now, 1, limit)
  {
    CountOneMore(times, now, now, now + WINDOW);
    CountOneMore(times, now, now + 1, now + WINDOW);
    CountOneMore(times, now, now - WINDOW + 1, now);
    CountsNothingBeyond(times, now, now + WINDOW);
  }

  // ---------------------------------------------------------------- the bound

  /** What one request does to the entry of a key: it drops it if expired, and counts against it if it gets that far. */
  lemma EffectOnKey(attempts: map<Key, Attempt>, r: Request, key: Key)
    ensures var purged := EntryOf(Purged(attempts, r.now), key);
      var current := if purged.Some? then purged.value else Attempt(0, r.now + WINDOW);
      var entry := EntryOf(Decision(attempts, r).0, key);
      && (!Concerns(r, key) ==> entry == purged)
      && (Concerns(r, key) && Decision(attempts, r).1 ==>
            current.count < Limit(key) && entry == Some(Attempt(current.count + 1, current.until)))
      && (entry == purged || (current.count >= Limit(key) && entry == Some(current))
          || (current.count < Limit(key) && entry == Some(Attempt(current.count + 1, current.until))))
  {
  }

  lemma RequestKeeps(attempts: map<Key, Attempt>, r: Request, key: Key, start: Option<int>, times: seq<int>)
    returns (nextStart: Option<int>)
    requires KeyHolds(EntryOf(attempts, key), start, times, Limit(key), r.now)
    ensures KeyHolds(EntryOf(After(attempts, r), key), nextStart,
                     times + if IsChecked(attempts, r) && Concerns(r, key) then [r.now] else [], Limit(key), r.now)
  {
    var checked := IsChecked(attempts, r) && Concerns(r, key);
    assert times + [] == times;
    if Decision(attempts, r).1 && r.busy {
      nextStart := start;
    } else {
      EffectOnKey(attempts, r, key);
      PurgeKeeps(EntryOf(attempts, key), start, times, Limit(key), r.now, r.now);
      var purged := EntryOf(Purged(attempts, r.now), key);
      if EntryOf(Decision(attempts, r).0, key) == purged {
        nextStart := start;
      } else {
        nextStart := AttemptKeeps(purged, start, times, Limit(key), r.now, checked);
      }
    }
  }

  lemma {:induction false} LimiterHolds(run: seq<Request>, key: Key, now: int) returns (start: Option<int>)
    requires ClockRuns(run) && (run != [] ==> run[|run| - 1].now <= now)
    ensures KeyHolds(EntryOf(AfterRun(run), key), start, Checks(run, key), Limit(key), now)
  {
    if run == [] {
      start := None;
    } else {
      var init, last := run[..|run| - 1], run[|run| - 1];
      start := LimiterHolds(init, key, last.now);
      start := RequestKeeps(AfterRun(init), last, key, start, Checks(init, key));
      PurgeKeeps(EntryOf(AfterRun(run), key), start, Checks(run, key), Limit(key), last.now, now);
    }
  }

  /**
   * In any run, a login name gets at most 19 password checks in any span of 900000 milliseconds, a source at most 99; and
   * within the current window at most as many as the entry counts, which are at most 10 and 50.
   */
  lemma ChecksAreBounded(run: seq<Request>, key: Key, t: int)
    requires ClockRuns(run)
    ensures CountIn(Checks(run, key), t, t + 900000) <= if key.SourceKey? then 99 else 19
    ensures IsWithinWindow(EntryOf(AfterRun(run), key), Checks(run, key), if key.SourceKey? then 50 else 10)
  {
    var now := if run == [] then 0 else run[|run| - 1].now;
    var start := LimiterHolds(run, key, now);
    KeyIsBounded(EntryOf(AfterRun(run), key), start, Checks(run, key), Limit(key), now, t);
  }

  /** In the window of the entry there are no more checks than it counts, and it counts no more than allowed. */
  ghost predicate IsWithinWindow(entry: Option<Attempt>, times: seq<int>, limit: nat) {
    entry.Some? ==> InSpan(times, entry.value.until - WINDOW) <= entry.value.count <= limit
  }

  lemma KeyIsBounded(entry: Option<Attempt>, start: Option<int>, times: seq<int>, limit: nat, now: int, t: int)
    requires KeyHolds(entry, start, times, limit, now)
    ensures InSpan(times, t) <= 2 * limit - 1
    ensures IsWithinWindow(entry, times, limit)
  {
    assert InSpan(times, t) < 2 * limit;
  }

  // ---------------------------------------------------------------- who is let through

  ghost predicate IsLive(attempts: map<Key, Attempt>, key: Key, now: int) {
    key in attempts && now < attempts[key].until
  }

  /** The window of the key is over, or counts fewer attempts than 10 for a login name and 50 for a source. */
  ghost predicate HasRoom(attempts: map<Key, Attempt>, key: Key, now: int) {
    IsLive(attempts, key, now) ==> attempts[key].count < if key.SourceKey? then 50 else 10
  }

  /** A request is let through exactly if its login name has room, and its source as well if it has one. */
  lemma LetThroughExactly(attempts: map<Key, Attempt>, r: Request)
    ensures Decision(attempts, r).1 <==>
            HasRoom(attempts, LoginKey(r.login), r.now) && (r.source.Some? ==> HasRoom(attempts, SourceKey(r.source.value), r.now))
  {
  }

  /**
   What stands for a key after a request: one attempt more in its window, or the first one in a new window, if the request
   came to count it and there was room; otherwise what stood for it before, unless its window is over. A source is counted
   only where the login name had room; and a request that is let through and then finds no permit counts nowhere.
   */
  lemma CountedExactly(attempts: map<Key, Attempt>, r: Request, key: Key)
    ensures var live := IsLive(attempts, key, r.now);
      var counted := HasRoom(attempts, key, r.now)
        && (key == LoginKey(r.login) || (key.SourceKey? && r.source == Some(key.source) && HasRoom(attempts, LoginKey(r.login), r.now)));
      EntryOf(After(attempts, r), key)
      == if Decision(attempts, r).1 && r.busy then EntryOf(attempts, key)
         else if counted then Some(if live then Attempt(attempts[key].count + 1, attempts[key].until) else Attempt(1, r.now + 900000))
         else if live then Some(attempts[key])
         else None
  {
    LetThroughExactly(attempts, r);
  }

  /** A request without a source, while the window of its login name has room. */
  lemma OneIsChecked(run: seq<Request>, r: Request, before: Attempt)
    requires r.source.None? && !r.busy && before == Current(AfterRun(run), LoginKey(r.login), r.now)
    requires before.count < Limit(LoginKey(r.login))
    ensures Current(AfterRun(run + [r]), LoginKey(r.login), r.now) == Attempt(before.count + 1, before.until)
    ensures Checks(run + [r], LoginKey(r.login)) == Checks(run, LoginKey(r.login)) + [r.now]
  {
    var attempts := AfterRun(run);
    assert (run + [r])[..|run|] == run;
    EffectOnKey(attempts, r, LoginKey(r.login));
    assert Decision(attempts, r) == Counted(Purged(attempts, r.now), LoginKey(r.login), r.now);
  }

  /** As long as the window has room, each of `m` equal requests has its password checked. */
  lemma {:induction false} RepeatIsChecked(run: seq<Request>, r: Request, m: nat, before: Attempt, times: seq<int>)
    returns (next: seq<Request>)
    requires r.source.None? && !r.busy && before == Current(AfterRun(run), LoginKey(r.login), r.now)
    requires before.count + m <= Limit(LoginKey(r.login)) && times == Checks(run, LoginKey(r.login))
    ensures |next| == |run| + m && run <= next && forall k :: |run| <= k < |next| ==> next[k] == r
    ensures Current(AfterRun(next), LoginKey(r.login), r.now) == Attempt(before.count + m, before.until)
    ensures Checks(next, LoginKey(r.login)) == times + seq(m, _ => r.now)
  {
    if m == 0 {
      next := run;
      assert times + seq(m, _ => r.now) == times;
    } else {
      var init := RepeatIsChecked(run, r, m - 1, before, times);
      RepeatedOnce(init, r, m - 1, before, times);
      next := init + [r];
    }
  }

  lemma RepeatedOnce(init: seq<Request>, r: Request, m: nat, before: Attempt, times: seq<int>)
    requires r.source.None? && !r.busy && before.count + m < Limit(LoginKey(r.login))
    requires Current(AfterRun(init), LoginKey(r.login), r.now) == Attempt(before.count + m, before.until)
    requires Checks(init, LoginKey(r.login)) == times + seq(m, _ => r.now)
    ensures Current(AfterRun(init + [r]), LoginKey(r.login), r.now) == Attempt(before.count + m + 1, before.until)
    ensures Checks(init + [r], LoginKey(r.login)) == times + seq(m + 1, _ => r.now)
  {
    OneIsChecked(init, r, Attempt(before.count + m, before.until));
    OneMoreEqual(times, r.now, m);
  }

  lemma OneMoreEqual(times: seq<int>, now: int, m: nat)
    ensures times + seq(m, _ => now) + [now] == times + seq(m + 1, _ => now)
  {
  }

  lemma {:induction false} CountOfEqual(times: seq<int>, now: int, m: nat, a: int, b: int)
    ensures CountIn(times + seq(m, _ => now), a, b) == CountIn(times, a, b) + if a <= now < b then m else 0
  {
    if m == 0 {
      assert times + seq(m, _ => now) == times;
    } else {
      CountOfEqual(times, now, m - 1, a, b);
      CountOneMore(times + seq(m - 1, _ => now), now, a, b);
      OneMoreEqual(times, now, m - 1);
    }
  }

  /** The bound is reached: one attempt opens a window, nine more end it, and ten begin the next one. */
  lemma NineteenInASpan(login: string) returns (run: seq<Request>)
    ensures ClockRuns(run) && CountIn(Checks(run, LoginKey(login)), 899999, 1799999) == 19
  {
    var key := LoginKey(login);
    var first, second, third := Request(0, login, None, false), Request(WINDOW - 1, login, None, false), Request(WINDOW, login, None, false);
    var one := RepeatIsChecked([], first, 1, Attempt(0, WINDOW), []);
    CurrentLater(AfterRun(one), key, 0, WINDOW - 1);
    var ten := RepeatIsChecked(one, second, 9, Attempt(1, WINDOW), Checks(one, key));
    CurrentLater(AfterRun(ten), key, WINDOW - 1, WINDOW);
    run := RepeatIsChecked(ten, third, 10, Attempt(0, 2 * WINDOW), Checks(ten, key));
    NineteenCounted(Checks(one, key), Checks(ten, key), Checks(run, key));
  }

  lemma NineteenCounted(one: seq<int>, ten: seq<int>, all: seq<int>)
    requires one == [] + seq(1, _ => 0) && ten == one + seq(9, _ => WINDOW - 1) && all == ten + seq(10, _ => WINDOW)
    ensures InSpan(all, WINDOW - 1) == 19
  {
    CountOfEqual([], 0, 1, WINDOW - 1, 2 * WINDOW - 1);
    CountOfEqual(one, WINDOW - 1, 9, WINDOW - 1, 2 * WINDOW - 1);
    CountOfEqual(ten, WINDOW, 10, WINDOW - 1, 2 * WINDOW - 1);
  }

  /** Later in a window its entry is still the one to count against; once it is over, there is a new one. */
  lemma CurrentLater(attempts: map<Key, Attempt>, key: Key, now: int, later: int)
    requires now <= later && Current(attempts, key, now).count > 0
    ensures Current(attempts, key, later)
            == if later < Current(attempts, key, now).until then Current(attempts, key, now) else Attempt(0, later + WINDOW)
  {
  }

  // ---------------------------------------------------------------- the table

  class Limiter {
    var attempts: map<Key, Attempt>

    constructor ()
      ensures attempts == map[]
    {
      attempts := map[];
    }

    method DropExpired(now: int)
      modifies this
      ensures attempts == Purged(old(attempts), now)
    {
      var todo := attempts.Keys;
      while todo != {}
        invariant todo <= attempts.Keys <= old(attempts).Keys
        invariant forall k :: k in old(attempts) ==> (k in attempts <==> k in todo || now < old(attempts)[k].until)
        invariant forall k :: k in attempts ==> attempts[k] == old(attempts)[k]
        decreases todo
      {
        var id :| id in todo;
        if now >= attempts[id].until {
          attempts := attempts - {id};
        }
        todo := todo - {id};
      }
    }

    method CountAttempt(key: Key, now: int) returns (ok: bool)
      modifies this
      ensures (attempts, ok) == Counted(old(attempts), key, now)
    {
      if key !in attempts || now >= attempts[key].until {
        attempts := attempts[key := Attempt(0, now + WINDOW)];
      }
      var attempt := attempts[key];
      assert attempts == old(attempts)[key := attempt];
      if attempt.count >= Limit(key) {
        return false;
      }
      attempts := attempts[key := Attempt(attempt.count + 1, attempt.until)];
      assert attempts == old(attempts)[key := Attempt(attempt.count + 1, attempt.until)];
      ok := true;
    }

    method TryLogin(now: int, login: string, source: Option<string>) returns (ok: bool)
      modifies this
      ensures (attempts, ok) == Admit(old(attempts), now, login, source)
    {
      DropExpired(now);
      var keys := [LoginKey(login)] + if source.Some? then [SourceKey(source.value)] else [];
      ghost var purged := attempts;
      for i := 0 to |keys|
        invariant i == 0 ==> attempts == purged
        invariant i == 1 ==> (attempts, true) == Counted(purged, keys[0], now)
        invariant i == 2 ==> (attempts, true) == Admit(old(attempts), now, login, source)
      {
        ok := CountAttempt(keys[i], now);
        if !ok {
          return;
        }
      }
      ok := true;
    }
  }
}
