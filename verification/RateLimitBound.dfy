/** How many attempts any sixty-second interval can admit. */
module RateLimitBound {
  import opened RateLimit

  /** The buckets after a run of attempts, in commit order. */
  function Run(calls: seq<Call>, limits: Limits): map<Key, Bucket> {
    if calls == [] then map[]
    else After(Run(calls[..|calls| - 1], limits), calls[|calls| - 1], limits)
  }

  /** Clock readings never go back from one commit to the next. */
  ghost predicate InOrder(calls: seq<Call>) {
    && (forall c :: c in calls ==> c.Valid())
    && forall i, j :: 0 <= i < j < |calls| ==> calls[i].now <= calls[j].now
  }

  /** Admitted attempts on `key` with `from <= now < to`. */
  function Count(calls: seq<Call>, limits: Limits, key: Key, from: Time, to: Time): nat {
    if calls == [] then 0
    else
      var front, c := calls[..|calls| - 1], calls[|calls| - 1];
      Count(front, limits, key, from, to) +
      Gain(key in KeySet(c) && Admits(Run(front, limits), c, limits), c.now, from, to)
  }

  function Gain(counted: bool, now: Time, from: Time, to: Time): nat {
    if counted && from <= now < to then 1 else 0
  }

  lemma {:induction false} CountSplit(calls: seq<Call>, limits: Limits, key: Key, from: Time, mid: Time, to: Time)
    requires from <= mid <= to
    ensures Count(calls, limits, key, from, to)
         == Count(calls, limits, key, from, mid) + Count(calls, limits, key, mid, to)
  {
    hide Run, Admits;
    if calls != [] { CountSplit(calls[..|calls| - 1], limits, key, from, mid, to); }
  }

  lemma {:induction false} CountNone(calls: seq<Call>, limits: Limits, key: Key, from: Time, to: Time)
    requires forall c :: c in calls ==> c.now < from
    ensures Count(calls, limits, key, from, to) == 0
  {
    hide Run, Admits;
    if calls != [] { CountNone(calls[..|calls| - 1], limits, key, from, to); }
  }

  /** Attempts counted from `start` on, given that all of them have `now <= last`. */
  ghost predicate AtMost(calls: seq<Call>, limits: Limits, key: Key, start: Time, last: Time, bound: nat) {
    Count(calls, limits, key, start, last + 1) <= bound
  }

  ghost predicate WithinTwice(calls: seq<Call>, limits: Limits, key: Key, from: Time) {
    Count(calls, limits, key, from, from + WINDOW) <= 2 * limits.Of(key)
  }

  /** The accounting of one key when the latest clock reading is `last`: the present lifetime's
      admissions are within its counter, any earlier ones that share an interval with it are
      within one limit, and no interval has seen more than two limits. */
  ghost predicate Accounted(calls: seq<Call>, limits: Limits, key: Key, last: Time) {
    var buckets := Run(calls, limits);
    && (forall from :: WithinTwice(calls, limits, key, from))
    && (if key in buckets then
          var start := buckets[key].expiresAt - WINDOW;
          && start <= last
          && buckets[key].attempts <= limits.Of(key)
          && AtMost(calls, limits, key, start, last, buckets[key].attempts)
          && AtMost(calls, limits, key, buckets[key].expiresAt, last, 0)
          && (forall from :: start - WINDOW < from <= start ==>
                Count(calls, limits, key, from, start) <= limits.Of(key))
        else
          && AtMost(calls, limits, key, last, last, 0)
          && (forall from :: last < from + WINDOW ==> AtMost(calls, limits, key, from, last, limits.Of(key))))
  }

  /** Before an attempt at `now`, whichever bucket will count it has `spent` admissions since
      `start`, and an interval that reaches `now` holds at most one limit before that. */
  ghost predicate Poised(calls: seq<Call>, limits: Limits, key: Key, start: Time, spent: nat, now: Time) {
    && start <= now < start + WINDOW
    && spent <= limits.Of(key)
    && Count(calls, limits, key, start, now + 1) <= spent
    && (forall from :: start - WINDOW < from <= start ==> Count(calls, limits, key, from, start) <= limits.Of(key))
  }

  lemma {:induction false} CountUpTo(calls: seq<Call>, limits: Limits, key: Key, from: Time, last: Time, to: Time)
    requires last < to && forall c :: c in calls ==> c.now <= last
    ensures Count(calls, limits, key, from, to) == Count(calls, limits, key, from, last + 1)
  {
    hide Run, Admits;
    if calls != [] { CountUpTo(calls[..|calls| - 1], limits, key, from, last, to); }
  }

  /** Time passing without an attempt on the key keeps its accounting, whether or not its
      bucket expires meanwhile. */
  lemma PoisedFromAccounted(calls: seq<Call>, limits: Limits, key: Key, last: Time, now: Time)
    requires last <= now && (forall c :: c in calls ==> c.now <= last) && Accounted(calls, limits, key, last)
    ensures var b := Current(Run(calls, limits), key, now);
      Poised(calls, limits, key, b.expiresAt - WINDOW, b.attempts, now)
  {
    hide Run, Accounted, Poised;
    var buckets := Run(calls, limits);
    if key in buckets && buckets[key].expiresAt > now {
      PoisedAlive(calls, limits, key, last, now);
    } else {
      PoisedAfresh(calls, limits, key, last, now);
    }
  }

  lemma PoisedAlive(calls: seq<Call>, limits: Limits, key: Key, last: Time, now: Time)
    requires last <= now && (forall c :: c in calls ==> c.now <= last) && Accounted(calls, limits, key, last)
    requires key in Run(calls, limits) && Run(calls, limits)[key].expiresAt > now
    ensures var b := Run(calls, limits)[key]; Poised(calls, limits, key, b.expiresAt - WINDOW, b.attempts, now)
  {
    hide Run, Count;
    CountUpTo(calls, limits, key, Run(calls, limits)[key].expiresAt - WINDOW, last, now + 1);
  }

  lemma PoisedAfresh(calls: seq<Call>, limits: Limits, key: Key, last: Time, now: Time)
    requires last <= now && (forall c :: c in calls ==> c.now <= last) && Accounted(calls, limits, key, last)
    requires key in Run(calls, limits) ==> Run(calls, limits)[key].expiresAt <= now
    ensures Poised(calls, limits, key, now, 0, now)
  {
    hide Run, Count, Accounted;
    FreshCounts(calls, limits, key, last, now);
  }

  lemma FreshCounts(calls: seq<Call>, limits: Limits, key: Key, last: Time, now: Time)
    requires last <= now && (forall c :: c in calls ==> c.now <= last) && Accounted(calls, limits, key, last)
    requires key in Run(calls, limits) ==> Run(calls, limits)[key].expiresAt <= now
    ensures Count(calls, limits, key, now, now + 1) == 0
    ensures forall from :: now - WINDOW < from <= now ==> Count(calls, limits, key, from, now) <= limits.Of(key)
  {
    hide Run;
    var buckets := Run(calls, limits);
    CountUpTo(calls, limits, key, now, last, now + 1);
    if last < now { CountNone(calls, limits, key, now, now + 1); }
    else if key in buckets { CountSplit(calls, limits, key, buckets[key].expiresAt, now, now + 1); }
    forall from | now - WINDOW < from <= now ensures Count(calls, limits, key, from, now) <= limits.Of(key) {
      CountSplit(calls, limits, key, from, now, now + 1);
      CountUpTo(calls, limits, key, from, last, now + 1);
      if key in buckets {
        CountSplit(calls, limits, key, buckets[key].expiresAt - WINDOW, from, now + 1);
        CountUpTo(calls, limits, key, buckets[key].expiresAt - WINDOW, last, now + 1);
      } else {
        assert AtMost(calls, limits, key, from, last, limits.Of(key));
      }
    }
  }

  /** One more attempt on the key. */
  lemma StepOnKey(calls: seq<Call>, c: Call, limits: Limits, key: Key, last: Time)
    requires limits.Valid() && key in KeySet(c) && last <= c.now
    requires (forall d :: d in calls ==> d.now <= last) && Accounted(calls, limits, key, last)
    ensures Accounted(calls + [c], limits, key, c.now)
  {
    hide Accounted, Run, Admits, Ready;
    PoisedFromAccounted(calls, limits, key, last, c.now);
    WindowsFromAccounted(calls, limits, key, last);
    var b := Current(Run(calls, limits), key, c.now);
    var spent := if Admits(Run(calls, limits), c, limits) then 1 else 0;
    RunSnoc(calls, c, limits);
    BucketAfter(Run(calls, limits), c, limits, key);
    PoisedStep(calls, c, limits, key, b.expiresAt - WINDOW, b.attempts, spent, last);
    AccountedBy(calls + [c], limits, key, c.now, Bucket(b.attempts + spent, b.expiresAt));
  }

  lemma WindowsFromAccounted(calls: seq<Call>, limits: Limits, key: Key, last: Time)
    requires Accounted(calls, limits, key, last)
    ensures forall from :: WithinTwice(calls, limits, key, from)
  {}

  lemma RunSnoc(calls: seq<Call>, c: Call, limits: Limits)
    ensures Run(calls + [c], limits) == After(Run(calls, limits), c, limits)
    ensures forall key, from, to ::
      Count(calls + [c], limits, key, from, to) == Count(calls, limits, key, from, to) +
      Gain(key in KeySet(c) && Admits(Run(calls, limits), c, limits), c.now, from, to)
  {
    assert (calls + [c])[..|calls|] == calls;
  }

  lemma BucketAfter(buckets: map<Key, Bucket>, c: Call, limits: Limits, key: Key)
    ensures var b, after := Current(buckets, key, c.now), After(buckets, c, limits);
      var spent := if Admits(buckets, c, limits) then 1 else 0;
      key in KeySet(c) ==>
        && key in after && after[key] == Bucket(b.attempts + spent, b.expiresAt)
        && (spent == 1 ==> b.attempts < limits.Of(key))
  {
    assert forall k :: k in KeySet(c) ==> k in c.Keys() by {
      assert c.Keys()[0] == Global && c.Keys()[1] == Account(c.account) && c.Keys()[2] == Source(c.source);
    }
  }

  /** The attempt `c` adds `more` to every count of the key that its time falls in. */
  ghost predicate Grew(calls: seq<Call>, c: Call, limits: Limits, key: Key, more: nat) {
    forall from, to ::
      Count(calls + [c], limits, key, from, to)
        == Count(calls, limits, key, from, to) + Gain(more == 1, c.now, from, to)
  }

  lemma GrewAt(calls: seq<Call>, c: Call, limits: Limits, key: Key, more: nat, from: Time, to: Time)
    requires Grew(calls, c, limits, key, more)
    ensures Count(calls + [c], limits, key, from, to)
      == Count(calls, limits, key, from, to) + Gain(more == 1, c.now, from, to)
  {}

  lemma PoisedStep(calls: seq<Call>, c: Call, limits: Limits, key: Key, start: Time, spent: nat, more: nat, last: Time)
    requires limits.Valid() && last <= c.now && forall d :: d in calls ==> d.now <= last
    requires Poised(calls, limits, key, start, spent, c.now) && more <= 1
    requires more == 1 ==> spent < limits.Of(key)
    requires forall from :: WithinTwice(calls, limits, key, from)
    requires Grew(calls, c, limits, key, more)
    ensures Poised(calls + [c], limits, key, start, spent + more, c.now)
    ensures AtMost(calls + [c], limits, key, start + WINDOW, c.now, 0)
    ensures forall from :: WithinTwice(calls + [c], limits, key, from)
  {
    hide Count, Grew;
    CountNone(calls, limits, key, start + WINDOW, c.now + 1);
    GrewAt(calls, c, limits, key, more, start + WINDOW, c.now + 1);
    GrewAt(calls, c, limits, key, more, start, c.now + 1);
    forall from | start - WINDOW < from <= start
      ensures Count(calls + [c], limits, key, from, start) <= limits.Of(key) {
      GrewAt(calls, c, limits, key, more, from, start);
    }
    forall from ensures WithinTwice(calls + [c], limits, key, from) {
      assert WithinTwice(calls, limits, key, from);
      WindowStep(calls, c, limits, key, start, spent, more, from);
    }
  }

  lemma WindowStep(calls: seq<Call>, c: Call, limits: Limits, key: Key, start: Time, spent: nat, more: nat, from: Time)
    requires (forall d :: d in calls ==> d.now <= c.now) && Poised(calls, limits, key, start, spent, c.now)
    requires more <= 1 && (more == 1 ==> spent < limits.Of(key))
    requires WithinTwice(calls, limits, key, from) && Grew(calls, c, limits, key, more)
    ensures WithinTwice(calls + [c], limits, key, from)
  {
    hide Count, Grew;
    GrewAt(calls, c, limits, key, more, from, from + WINDOW);
    if from <= c.now < from + WINDOW {
      CountUpTo(calls, limits, key, from, c.now, from + WINDOW);
      if from <= start { CountSplit(calls, limits, key, from, start, c.now + 1); }
      else { CountSplit(calls, limits, key, start, from, c.now + 1); }
    }
  }

  lemma AccountedBy(calls: seq<Call>, limits: Limits, key: Key, last: Time, b: Bucket)
    requires key in Run(calls, limits) && Run(calls, limits)[key] == b
    requires Poised(calls, limits, key, b.expiresAt - WINDOW, b.attempts, last)
    requires AtMost(calls, limits, key, b.expiresAt, last, 0)
    requires forall from :: WithinTwice(calls, limits, key, from)
    ensures Accounted(calls, limits, key, last)
  {
    hide Run, Count;
  }

  /** One more attempt on other keys. */
  lemma StepOffKey(calls: seq<Call>, c: Call, limits: Limits, key: Key, last: Time)
    requires key !in KeySet(c) && last <= c.now
    requires (forall d :: d in calls ==> d.now <= last) && Accounted(calls, limits, key, last)
    ensures Accounted(calls + [c], limits, key, c.now)
  {
    hide Run, Count, Admits;
    var before, after := Run(calls, limits), Run(calls + [c], limits);
    RunSnoc(calls, c, limits);
    assert forall from, to :: Count(calls + [c], limits, key, from, to) == Count(calls, limits, key, from, to);
    forall from ensures WithinTwice(calls + [c], limits, key, from) { assert WithinTwice(calls, limits, key, from); }
    assert key in after <==> key in before && before[key].expiresAt > c.now;
    if key in after {
      CountUpTo(calls, limits, key, before[key].expiresAt - WINDOW, last, c.now + 1);
      CountUpTo(calls, limits, key, before[key].expiresAt, last, c.now + 1);
    } else {
      FreshCounts(calls, limits, key, last, c.now);
      assert AtMost(calls + [c], limits, key, c.now, c.now, 0);
      forall from | c.now < from + WINDOW ensures AtMost(calls + [c], limits, key, from, c.now, limits.Of(key)) {
        if from <= c.now { CountSplit(calls, limits, key, from, c.now, c.now + 1); }
        else { CountNone(calls, limits, key, from, c.now + 1); }
      }
    }
  }

  lemma {:induction false} AlwaysAccounted(calls: seq<Call>, limits: Limits, key: Key)
    requires limits.Valid() && calls != [] && InOrder(calls)
    ensures Accounted(calls, limits, key, calls[|calls| - 1].now)
  {
    hide Accounted, InOrder;
    var front, c := calls[..|calls| - 1], calls[|calls| - 1];
    InOrderFront(calls);
    assert calls == front + [c];
    if front == [] {
      NothingCounted(limits, key, c.now);
      StepEither(front, c, limits, key, c.now);
    } else {
      AlwaysAccounted(front, limits, key);
      StepEither(front, c, limits, key, front[|front| - 1].now);
    }
  }

  lemma InOrderFront(calls: seq<Call>)
    requires calls != [] && InOrder(calls)
    ensures var front := calls[..|calls| - 1];
      InOrder(front) &&
      (front != [] ==>
         front[|front| - 1].now <= calls[|calls| - 1].now && forall d :: d in front ==> d.now <= front[|front| - 1].now)
  {}

  lemma StepEither(calls: seq<Call>, c: Call, limits: Limits, key: Key, last: Time)
    requires limits.Valid() && last <= c.now
    requires (forall d :: d in calls ==> d.now <= last) && Accounted(calls, limits, key, last)
    ensures Accounted(calls + [c], limits, key, c.now)
  {
    hide *;
    if key in KeySet(c) { StepOnKey(calls, c, limits, key, last); } else { StepOffKey(calls, c, limits, key, last); }
  }

  lemma NothingCounted(limits: Limits, key: Key, last: Time)
    ensures Accounted([], limits, key, last)
  {}

  /** For any account slot, any source slot and globally, no half-open sixty-second interval
      admits more than twice the limit, whatever the attempts. */
  lemma WindowBound(calls: seq<Call>, limits: Limits, key: Key, from: Time)
    requires limits.Valid() && InOrder(calls)
    ensures Count(calls, limits, key, from, from + 60 * 1000000) <= 2 * limits.Of(key)
  {
    hide Run;
    if calls != [] {
      AlwaysAccounted(calls, limits, key);
      assert WithinTwice(calls, limits, key, from);
    }
  }

  // ---------------------------------------------------------------- refusals and cardinality

  /** A refused attempt consumes nothing: whichever bucket counts a key's attempts at that time
      is the same as before.  But it does leave a bucket behind for each of its keys, so it starts
      a lifetime wherever none was running. */
  lemma RefusalConsumesNothing(buckets: map<Key, Bucket>, c: Call, limits: Limits, key: Key)
    requires !Admits(buckets, c, limits)
    ensures Current(After(buckets, c, limits), key, c.now) == Current(buckets, key, c.now)
    ensures key in KeySet(c) ==>
      && key in After(buckets, c, limits) && After(buckets, c, limits)[key] == Current(buckets, key, c.now)
      && (key !in buckets || buckets[key].expiresAt <= c.now ==> After(buckets, c, limits)[key] == Fresh(c.now))
  {}

  function KeysBelow(n: nat): set<Key> {
    if n == 0 then {Global} else KeysBelow(n - 1) + {Account(n - 1)} + {Source(n - 1)}
  }

  lemma {:induction false} KeysBelowAre(n: nat)
    ensures forall key :: key in KeysBelow(n) <==> key == Global || key.slot < n
  {
    if n > 0 { KeysBelowAre(n - 1); }
  }

  lemma {:induction false} KeysBelowCount(n: nat)
    ensures |KeysBelow(n)| == 1 + 2 * n
  {
    hide KeysBelow;
    KeysBelowNext(n);
    if n > 0 {
      KeysBelowCount(n - 1);
      AddTwo(KeysBelow(n - 1), Account(n - 1), Source(n - 1));
    }
  }

  lemma KeysBelowNext(n: nat)
    ensures n == 0 ==> KeysBelow(n) == {Global}
    ensures n > 0 ==>
      && KeysBelow(n) == KeysBelow(n - 1) + {Account(n - 1)} + {Source(n - 1)}
      && Account(n - 1) !in KeysBelow(n - 1) && Source(n - 1) !in KeysBelow(n - 1)
  {
    if n > 0 { KeysBelowAre(n - 1); }
  }

  lemma AddTwo(keys: set<Key>, x: Key, y: Key)
    requires x !in keys && y !in keys && x != y
    ensures |keys + {x} + {y}| == |keys| + 2
  {
    assert y !in keys + {x};
  }

  lemma {:induction false} RunKeys(calls: seq<Call>, limits: Limits, slots: nat)
    requires forall c :: c in calls ==> c.account < slots && c.source < slots
    ensures Run(calls, limits).Keys <= KeysBelow(slots)
  {
    hide Admits, KeysBelow;
    KeysBelowAre(slots);
    if calls != [] { RunKeys(calls[..|calls| - 1], limits, slots); }
  }

  /** The table never holds more than one global bucket and one per slot and kind. */
  lemma BucketsBounded(calls: seq<Call>, limits: Limits)
    requires forall c :: c in calls ==> c.Valid()
    ensures |Run(calls, limits)| <= 1 + 2 * 4096
  {
    hide KeysBelow, Run;
    var keys, all := Run(calls, limits).Keys, KeysBelow(SLOTS);
    RunKeys(calls, limits, SLOTS);
    KeysBelowCount(SLOTS);
    assert all == keys + (all - keys);
  }
}
