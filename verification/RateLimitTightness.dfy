/** Exactly which limits some sixty-second interval can admit twice over. */
module RateLimitTightness {
  import opened RateLimit
  import opened RateLimitBound

  /** What an attempt leaves behind for one key. */
  lemma BucketAt(buckets: map<Key, Bucket>, c: Call, limits: Limits, key: Key)
    ensures var after := After(buckets, c, limits);
      if key in KeySet(c) then
        key in after && after[key] == Bucket(
          Current(buckets, key, c.now).attempts + (if Admits(buckets, c, limits) then 1 else 0),
          Current(buckets, key, c.now).expiresAt)
      else
        (key in after <==> key in buckets && buckets[key].expiresAt > c.now)
        && (key in after ==> after[key] == buckets[key])
  {}

  lemma AdmitsIff(buckets: map<Key, Bucket>, c: Call, limits: Limits)
    ensures Admits(buckets, c, limits) <==>
      && Current(buckets, Global, c.now).attempts < limits.global
      && Current(buckets, Account(c.account), c.now).attempts < limits.account
      && Current(buckets, Source(c.source), c.now).attempts < limits.source
  {
    assert c.Keys()[0] == Global && c.Keys()[1] == Account(c.account) && c.Keys()[2] == Source(c.source);
  }

  /** The attempts a live bucket has counted; an expired or missing one has counted none. */
  ghost function Used(buckets: map<Key, Bucket>, key: Key, now: Time): nat {
    if key in buckets && now < buckets[key].expiresAt then buckets[key].attempts else 0
  }

  /** One attempt in full: it is admitted if and only if none of the three buckets of its slots has counted
      its limit; those count it then, and each that was not alive starts a minute's life; the others stay
      as long as they live. */
  lemma AttemptByFields(buckets: map<Key, Bucket>, c: Call, limits: Limits)
    ensures var after := After(buckets, c, limits);
      var admitted := Used(buckets, Global, c.now) < limits.global
        && Used(buckets, Account(c.account), c.now) < limits.account
        && Used(buckets, Source(c.source), c.now) < limits.source;
      && Admits(buckets, c, limits) == admitted
      && forall key ::
           var alive := key in buckets && c.now < buckets[key].expiresAt;
           if key in {Global, Account(c.account), Source(c.source)} then
             && key in after
             && after[key].attempts == Used(buckets, key, c.now) + (if admitted then 1 else 0)
             && after[key].expiresAt == (if alive then buckets[key].expiresAt else c.now + 60 * 1000000)
           else (key in after <==> alive) && (alive ==> after[key] == buckets[key])
  {
    hide After, Admits;
    AdmitsIff(buckets, c, limits);
    forall key {
      BucketAt(buckets, c, limits, key);
    }
  }

  /** Everything one more attempt changes, for the keys it touches and the others. */
  lemma Attempt(calls: seq<Call>, c: Call, limits: Limits)
    requires InOrder(calls) && c.Valid() && forall d :: d in calls ==> d.now <= c.now
    ensures InOrder(calls + [c]) && forall d :: d in calls + [c] ==> d.now <= c.now
    ensures var before, after := Run(calls, limits), Run(calls + [c], limits);
      var admitted := Current(before, Global, c.now).attempts < limits.global
        && Current(before, Account(c.account), c.now).attempts < limits.account
        && Current(before, Source(c.source), c.now).attempts < limits.source;
      && (forall key :: key in KeySet(c) ==>
            var b := Current(before, key, c.now);
            key in after && after[key] == Bucket(b.attempts + (if admitted then 1 else 0), b.expiresAt))
      && (forall key :: key !in KeySet(c) ==>
            (key in after <==> key in before && before[key].expiresAt > c.now)
            && (key in after ==> after[key] == before[key]))
      && (forall key, from, to :: Count(calls + [c], limits, key, from, to)
            == Count(calls, limits, key, from, to) + Gain(key in KeySet(c) && admitted, c.now, from, to))
  {
    hide After, Run, Count, Admits;
    RunSnoc(calls, c, limits);
    AdmitsIff(Run(calls, limits), c, limits);
    forall key
      ensures var before, after := Run(calls, limits), After(Run(calls, limits), c, limits);
        if key in KeySet(c) then
          key in after && after[key] == Bucket(
            Current(before, key, c.now).attempts + (if Admits(before, c, limits) then 1 else 0),
            Current(before, key, c.now).expiresAt)
        else (key in after <==> key in before && before[key].expiresAt > c.now)
             && (key in after ==> after[key] == before[key])
    {
      BucketAt(Run(calls, limits), c, limits, key);
    }
  }

  // ---------------------------------------------------------------- an account below the global limit

  // The run that reaches the bound for account 2: the global bucket is exhausted at once, and half a
  // window later a refused attempt opens the account's bucket.  The global bucket starts again when
  // it expires.  The account is used to its limit in the last microsecond of its bucket, and again
  // in the next one, when the global bucket has just expired too.

  const OPENED := WINDOW / 2
  const LATE := OPENED + WINDOW - 1

  /** There are slots enough for the runs below; a global limit up to 1362 leaves them. */
  ghost predicate Spacious(limits: Limits) { 10 + 3 * limits.global <= SLOTS }

  /** One account may not use up the global limit. */
  ghost predicate Roomy(limits: Limits) {
    limits.Valid() && limits.account < limits.global && Spacious(limits)
  }

  ghost predicate SourcesBelow(buckets: map<Key, Bucket>, n: nat) {
    forall s: nat :: Source(s) in buckets ==> s < n
  }

  /** `n` admissions at time 0, each on its own account and source. */
  ghost predicate Exhausting(calls: seq<Call>, limits: Limits, n: nat) {
    var b := Run(calls, limits);
    && InOrder(calls) && (forall d :: d in calls ==> d.now <= 0)
    && Current(b, Global, 0) == Bucket(n, WINDOW) && (n > 0 ==> Global in b)
    && (forall a: nat :: Account(a) in b ==> 10 <= a < 10 + n)
    && (forall s: nat :: Source(s) in b ==> 10 <= s < 10 + n)
    && Count(calls, limits, Account(2), LATE, LATE + WINDOW) == 0
  }

  /** `n` admissions of account 2 in its first lifetime, each from another source. */
  ghost predicate UsingUp(calls: seq<Call>, limits: Limits, n: nat) {
    var b := Run(calls, limits);
    && InOrder(calls) && (forall d :: d in calls ==> d.now <= LATE)
    && Global in b && b[Global] == Bucket(1 + n, 2 * WINDOW)
    && Account(2) in b && b[Account(2)] == Bucket(n, LATE + 1)
    && SourcesBelow(b, 10 + limits.global + n)
    && Count(calls, limits, Account(2), LATE, LATE + WINDOW) == n
  }

  /** And `n` more in its second. */
  ghost predicate UsingAgain(calls: seq<Call>, limits: Limits, n: nat) {
    var b := Run(calls, limits);
    && InOrder(calls) && (forall d :: d in calls ==> d.now <= 2 * WINDOW)
    && Current(b, Global, 2 * WINDOW) == Bucket(n, 3 * WINDOW)
    && Current(b, Account(2), 2 * WINDOW) == Bucket(n, 3 * WINDOW)
    && SourcesBelow(b, 10 + limits.global + limits.account + n)
    && Count(calls, limits, Account(2), LATE, LATE + WINDOW) == limits.account + n
  }

  lemma {:induction false} Exhaust(limits: Limits, n: nat) returns (calls: seq<Call>)
    requires Roomy(limits) && n <= limits.global
    ensures Exhausting(calls, limits, n)
  {
    hide Run, Count, InOrder;
    if n == 0 {
      calls := [];
      NothingYet(limits);
      EmptyInOrder();
    } else {
      calls := Exhaust(limits, n - 1);
      var c := Call(10 + n - 1, 10 + n - 1, 0);
      Attempt(calls, c, limits);
      calls := calls + [c];
    }
  }

  lemma EmptyInOrder()
    ensures InOrder([])
  {}

  lemma OpenEarly(limits: Limits) returns (calls: seq<Call>)
    requires Roomy(limits)
    ensures UsingUp(calls, limits, 0)
  {
    hide Run, Count, InOrder;
    calls := Exhaust(limits, limits.global);
    var refused, other := Call(2, 9, OPENED), Call(1, 8, WINDOW);
    Attempt(calls, refused, limits);
    calls := calls + [refused];
    Attempt(calls, other, limits);
    calls := calls + [other];
  }

  lemma {:induction false} UseUp(limits: Limits, n: nat) returns (calls: seq<Call>)
    requires Roomy(limits) && n <= limits.account
    ensures UsingUp(calls, limits, n)
  {
    hide Run, Count, InOrder;
    if n == 0 {
      calls := OpenEarly(limits);
    } else {
      calls := UseUp(limits, n - 1);
      var c := Call(2, 10 + limits.global + n - 1, LATE);
      Attempt(calls, c, limits);
      calls := calls + [c];
    }
  }

  lemma {:induction false} UseAgain(limits: Limits, n: nat) returns (calls: seq<Call>)
    requires Roomy(limits) && n <= limits.account
    ensures UsingAgain(calls, limits, n)
  {
    hide Run, Count, InOrder;
    if n == 0 {
      calls := UseUp(limits, limits.account);
    } else {
      calls := UseAgain(limits, n - 1);
      var c := Call(2, 10 + limits.global + limits.account + n - 1, 2 * WINDOW);
      Attempt(calls, c, limits);
      calls := calls + [c];
    }
  }

  /** Whenever one account may not use up the global limit, some run admits it twice its own limit
      within one interval. */
  lemma BelowGlobalIsReached(limits: Limits) returns (calls: seq<Call>)
    requires Roomy(limits)
    ensures InOrder(calls)
    ensures Count(calls, limits, Account(2), LATE, LATE + 60 * 1000000) == 2 * limits.account
  {
    hide Run, Count, InOrder;
    calls := UseAgain(limits, limits.account);
  }

  // ---------------------------------------------------------------- a source below the global limit

  // The run that reaches the bound for the global bucket: source 0 is exhausted half a window after
  // the global bucket opens, and so refuses the attempt that opens the next global bucket.  That
  // one is used up in its last microsecond, and the one after it at once.  When an account may use
  // up the global limit by itself, the attempts are all on account 2.

  const LAST := 2 * WINDOW - 1

  /** Source 0 can be exhausted within one global bucket; `shared` is whether account 2 makes all
      the counted attempts. */
  ghost predicate Blockable(limits: Limits, shared: bool) {
    limits.Valid() && limits.source < limits.global && Spacious(limits) && (shared ==> limits.account >= limits.global)
  }

  ghost predicate NoneCounted(calls: seq<Call>, limits: Limits) {
    Count(calls, limits, Global, LAST, LAST + WINDOW) == 0 && Count(calls, limits, Account(2), LAST, LAST + WINDOW) == 0
  }

  /** One admission at time 0, then `n` from source 0, each on another account. */
  ghost predicate Blocking(calls: seq<Call>, limits: Limits, n: nat) {
    var b := Run(calls, limits);
    && InOrder(calls) && (forall d :: d in calls ==> d.now <= OPENED)
    && Global in b && b[Global] == Bucket(1 + n, WINDOW)
    && Current(b, Source(0), OPENED) == Bucket(n, OPENED + WINDOW) && (n > 0 ==> Source(0) in b)
    && (forall a: nat :: Account(a) in b ==> a == 1 || 10 <= a < 10 + n)
    && SourcesBelow(b, 2)
    && NoneCounted(calls, limits)
  }

  function Caller(limits: Limits, shared: bool, n: nat): nat { if shared then 2 else 10 + limits.source + n }

  ghost predicate AccountsBelow(b: map<Key, Bucket>, limits: Limits, n: nat) {
    forall a: nat :: Account(a) in b ==> a < 10 + limits.source + n
  }

  ghost predicate Counted(calls: seq<Call>, limits: Limits, shared: bool, n: nat) {
    && Count(calls, limits, Global, LAST, LAST + WINDOW) == n
    && (shared ==> Count(calls, limits, Account(2), LAST, LAST + WINDOW) == n)
  }

  /** `n` admissions in the last microsecond of the global bucket that the refusal opened. */
  ghost predicate Filling(calls: seq<Call>, limits: Limits, shared: bool, n: nat) {
    var b := Run(calls, limits);
    && InOrder(calls) && (forall d :: d in calls ==> d.now <= LAST)
    && Global in b && b[Global] == Bucket(n, 2 * WINDOW)
    && (shared ==> Account(2) in b && b[Account(2)] == Bucket(n, 2 * WINDOW))
    && AccountsBelow(b, limits, n) && SourcesBelow(b, 10 + n)
    && Counted(calls, limits, shared, n)
  }

  /** And `n` more when it expires. */
  ghost predicate Refilling(calls: seq<Call>, limits: Limits, shared: bool, n: nat) {
    var b := Run(calls, limits);
    && InOrder(calls) && (forall d :: d in calls ==> d.now <= 2 * WINDOW)
    && Current(b, Global, 2 * WINDOW) == Bucket(n, 3 * WINDOW)
    && (shared ==> Current(b, Account(2), 2 * WINDOW) == Bucket(n, 3 * WINDOW))
    && AccountsBelow(b, limits, limits.global + n) && SourcesBelow(b, 10 + limits.global + n)
    && Counted(calls, limits, shared, limits.global + n)
  }

  lemma {:induction false} Block(limits: Limits, shared: bool, n: nat) returns (calls: seq<Call>)
    requires Blockable(limits, shared) && n <= limits.source
    ensures Blocking(calls, limits, n)
  {
    hide Run, Count, InOrder;
    var c;
    if n == 0 {
      calls, c := [], Call(1, 1, 0);
      NothingYet(limits);
      EmptyInOrder();
    } else {
      calls := Block(limits, shared, n - 1);
      c := Call(10 + n - 1, 0, OPENED);
    }
    Attempt(calls, c, limits);
    calls := calls + [c];
  }

  lemma Refuse(limits: Limits, shared: bool) returns (calls: seq<Call>)
    requires Blockable(limits, shared)
    ensures Filling(calls, limits, shared, 0)
  {
    hide Run, Count, InOrder;
    calls := Block(limits, shared, limits.source);
    var c := Call(2, 0, WINDOW);
    Attempt(calls, c, limits);
    calls := calls + [c];
  }

  lemma {:induction false} Fill(limits: Limits, shared: bool, n: nat) returns (calls: seq<Call>)
    requires Blockable(limits, shared) && n <= limits.global
    ensures Filling(calls, limits, shared, n)
  {
    hide Run, Count, InOrder;
    if n == 0 {
      calls := Refuse(limits, shared);
    } else {
      calls := Fill(limits, shared, n - 1);
      var c := Call(Caller(limits, shared, n - 1), 10 + n - 1, LAST);
      Attempt(calls, c, limits);
      calls := calls + [c];
    }
  }

  lemma {:induction false} Refill(limits: Limits, shared: bool, n: nat) returns (calls: seq<Call>)
    requires Blockable(limits, shared) && n <= limits.global
    ensures Refilling(calls, limits, shared, n)
  {
    hide Run, Count, InOrder;
    if n == 0 {
      calls := Fill(limits, shared, limits.global);
    } else {
      calls := Refill(limits, shared, n - 1);
      var c := Call(Caller(limits, shared, limits.global + n - 1), 10 + limits.global + n - 1, 2 * WINDOW);
      Attempt(calls, c, limits);
      calls := calls + [c];
    }
  }

  /** Whenever one source may not use up the global limit, some run admits twice the global limit
      within one interval, all of it on one account if that account's limit allows. */
  lemma GlobalIsReached(limits: Limits, shared: bool) returns (calls: seq<Call>)
    requires Blockable(limits, shared)
    ensures InOrder(calls)
    ensures Count(calls, limits, Global, LAST, LAST + 60 * 1000000) == 2 * limits.global
    ensures shared ==> Count(calls, limits, Account(2), LAST, LAST + 60 * 1000000) == 2 * limits.global
  {
    hide Run, Count, InOrder;
    calls := Refill(limits, shared, limits.global);
  }

  // ---------------------------------------------------------------- accounts and sources exchanged

  function MirrorKey(key: Key): Key {
    match key
    case Global => Global
    case Account(slot) => Source(slot)
    case Source(slot) => Account(slot)
  }

  function MirrorCall(c: Call): Call { Call(c.source, c.account, c.now) }

  function MirrorLimits(limits: Limits): Limits { Limits(limits.global, limits.source, limits.account) }

  function Mirror(calls: seq<Call>): (mirrored: seq<Call>)
    ensures |mirrored| == |calls| && forall i :: 0 <= i < |calls| ==> mirrored[i] == MirrorCall(calls[i])
  {
    seq(|calls|, i requires 0 <= i < |calls| => MirrorCall(calls[i]))
  }

  ghost predicate Mirrors(b: map<Key, Bucket>, m: map<Key, Bucket>) {
    forall key :: (key in b <==> MirrorKey(key) in m) && (key in b ==> b[key] == m[MirrorKey(key)])
  }

  lemma MirrorAdmits(b: map<Key, Bucket>, m: map<Key, Bucket>, c: Call, limits: Limits)
    requires Mirrors(b, m)
    ensures Admits(b, c, limits) <==> Admits(m, MirrorCall(c), MirrorLimits(limits))
  {
    hide Admits, Mirrors;
    AdmitsIff(b, c, limits);
    AdmitsIff(m, MirrorCall(c), MirrorLimits(limits));
    MirrorCurrent(b, m, Global, c.now);
    MirrorCurrent(b, m, Account(c.account), c.now);
    MirrorCurrent(b, m, Source(c.source), c.now);
  }

  lemma MirrorCurrent(b: map<Key, Bucket>, m: map<Key, Bucket>, key: Key, now: Time)
    requires Mirrors(b, m)
    ensures Current(b, key, now) == Current(m, MirrorKey(key), now)
  {}

  lemma MirrorBucket(b: map<Key, Bucket>, m: map<Key, Bucket>, c: Call, limits: Limits, key: Key)
    requires Mirrors(b, m)
    ensures var b', m' := After(b, c, limits), After(m, MirrorCall(c), MirrorLimits(limits));
      (key in b' <==> MirrorKey(key) in m') && (key in b' ==> b'[key] == m'[MirrorKey(key)])
  {
    hide After, Admits, Current;
    MirrorAdmits(b, m, c, limits);
    MirrorCurrent(b, m, key, c.now);
    BucketAt(b, c, limits, key);
    BucketAt(m, MirrorCall(c), MirrorLimits(limits), MirrorKey(key));
  }

  lemma MirrorAfter(b: map<Key, Bucket>, m: map<Key, Bucket>, c: Call, limits: Limits)
    requires Mirrors(b, m)
    ensures Mirrors(After(b, c, limits), After(m, MirrorCall(c), MirrorLimits(limits)))
    ensures Admits(b, c, limits) <==> Admits(m, MirrorCall(c), MirrorLimits(limits))
  {
    hide After, Admits;
    MirrorAdmits(b, m, c, limits);
    forall key { MirrorBucket(b, m, c, limits, key); }
  }

  lemma {:induction false} MirrorRun(calls: seq<Call>, limits: Limits)
    ensures Mirrors(Run(calls, limits), Run(Mirror(calls), MirrorLimits(limits)))
    ensures forall key, from, to ::
      Count(calls, limits, key, from, to) == Count(Mirror(calls), MirrorLimits(limits), MirrorKey(key), from, to)
  {
    hide After, Admits, Mirrors;
    if calls == [] {
      NothingYet(limits);
      NothingYet(MirrorLimits(limits));
      assert Mirror(calls) == [] && Mirrors(map[], map[]) by { EmptyMirrors(); }
    } else {
      var front, c := calls[..|calls| - 1], calls[|calls| - 1];
      assert calls == front + [c] && Mirror(calls) == Mirror(front) + [MirrorCall(c)];
      MirrorRun(front, limits);
      MirrorAfter(Run(front, limits), Run(Mirror(front), MirrorLimits(limits)), c, limits);
      hide Run, Count;
      RunSnoc(front, c, limits);
      RunSnoc(Mirror(front), MirrorCall(c), MirrorLimits(limits));
      forall key ensures key in KeySet(c) <==> MirrorKey(key) in KeySet(MirrorCall(c)) {}
    }
  }

  lemma EmptyMirrors()
    ensures Mirrors(map[], map[])
  {}

  lemma MirrorInOrder(calls: seq<Call>)
    requires InOrder(calls)
    ensures InOrder(Mirror(calls))
  {
    forall c | c in Mirror(calls) ensures c.Valid() {
      var i :| 0 <= i < |calls| && Mirror(calls)[i] == c;
      assert calls[i] in calls;
    }
  }

  // ---------------------------------------------------------------- when nothing can be refused early

  /** Where neither an account nor a source runs out before the global bucket does: the attempt that
      opened the global bucket was admitted, a bucket opened after it counts less than it, and an
      interval that reaches back before it has seen less than a whole limit there. */
  ghost predicate OpenersCounted(calls: seq<Call>, limits: Limits, last: Time) {
    var b := Run(calls, limits);
    && Global in b
    && var start := b[Global].expiresAt - WINDOW;
    && start <= last < start + WINDOW && 1 <= b[Global].attempts <= limits.global
    && (forall key :: key in b ==> b[key].expiresAt <= last + WINDOW)
    && (forall key :: key in b && b[key].expiresAt > b[Global].expiresAt ==> b[key].attempts < b[Global].attempts)
    && OnGlobal(calls, limits, start, last, b[Global].attempts)
  }

  ghost predicate OnGlobal(calls: seq<Call>, limits: Limits, start: Time, last: Time, attempts: nat) {
    && Count(calls, limits, Global, start, start + 1) >= 1
    && Count(calls, limits, Global, start, last + 1) <= attempts
    && (forall from :: start - WINDOW < from <= start ==>
          Count(calls, limits, Global, from, start) <= limits.global - 1)
    && (forall from :: ShortOfTwice(calls, limits, from))
  }

  ghost predicate ShortOfTwice(calls: seq<Call>, limits: Limits, from: Time) {
    Count(calls, limits, Global, from, from + WINDOW) <= 2 * limits.global - 1
  }

  /** One more attempt while the global bucket lives. */
  lemma OnGlobalAlive(calls: seq<Call>, c: Call, limits: Limits, start: Time, last: Time, attempts: nat, more: nat)
    requires limits.Valid() && (forall d :: d in calls ==> d.now <= last)
    requires start <= last <= c.now < start + WINDOW && attempts + more <= limits.global && more <= 1
    requires OnGlobal(calls, limits, start, last, attempts) && Grew(calls, c, limits, Global, more)
    ensures OnGlobal(calls + [c], limits, start, c.now, attempts + more)
  {
    hide Count, Grew;
    CountUpTo(calls, limits, Global, start, last, c.now + 1);
    GrewAt(calls, c, limits, Global, more, start, start + 1);
    GrewAt(calls, c, limits, Global, more, start, c.now + 1);
    forall from | start - WINDOW < from <= start
      ensures Count(calls + [c], limits, Global, from, start) <= limits.global - 1
    {
      GrewAt(calls, c, limits, Global, more, from, start);
    }
    forall from ensures ShortOfTwice(calls + [c], limits, from) {
      assert ShortOfTwice(calls, limits, from);
      GrewAt(calls, c, limits, Global, more, from, from + WINDOW);
      if from <= c.now < from + WINDOW {
        CountUpTo(calls, limits, Global, from, c.now, from + WINDOW);
        if from <= start { CountSplit(calls, limits, Global, from, start, c.now + 1); }
        else { CountSplit(calls, limits, Global, start, from, c.now + 1); }
      }
    }
  }

  /** An admitted attempt that opens the next global bucket. */
  lemma OnGlobalAfresh(calls: seq<Call>, c: Call, limits: Limits, start: Time, last: Time, attempts: nat)
    requires limits.Valid() && (forall d :: d in calls ==> d.now <= last) && attempts <= limits.global
    requires start <= last < start + WINDOW <= c.now
    requires OnGlobal(calls, limits, start, last, attempts) && Grew(calls, c, limits, Global, 1)
    ensures OnGlobal(calls + [c], limits, c.now, c.now, 1)
  {
    hide Count, Grew;
    CountNone(calls, limits, Global, c.now, c.now + 1);
    GrewAt(calls, c, limits, Global, 1, c.now, c.now + 1);
    forall from | c.now - WINDOW < from <= c.now
      ensures Count(calls, limits, Global, from, c.now) <= limits.global - 1 {
      RestOfBucket(calls, limits, start, last, attempts, from, c.now);
    }
    forall from | c.now - WINDOW < from <= c.now
      ensures Count(calls + [c], limits, Global, from, c.now) <= limits.global - 1
    {
      GrewAt(calls, c, limits, Global, 1, from, c.now);
    }
    forall from ensures ShortOfTwice(calls + [c], limits, from) {
      assert ShortOfTwice(calls, limits, from);
      GrewAt(calls, c, limits, Global, 1, from, from + WINDOW);
      if from <= c.now < from + WINDOW {
        CountSplit(calls, limits, Global, from, c.now, from + WINDOW);
        CountNone(calls, limits, Global, c.now, from + WINDOW);
      }
    }
  }

  /** After its opener, a bucket admits less than a whole limit. */
  lemma RestOfBucket(calls: seq<Call>, limits: Limits, start: Time, last: Time, attempts: nat, from: Time, to: Time)
    requires (forall d :: d in calls ==> d.now <= last) && attempts <= limits.global
    requires start < from <= to && start <= last < to && OnGlobal(calls, limits, start, last, attempts)
    ensures Count(calls, limits, Global, from, to) <= limits.global - 1
  {
    hide Count;
    CountUpTo(calls, limits, Global, from, last, to);
    CountSplit(calls, limits, Global, start, start + 1, last + 1);
    if from <= last {
      CountSplit(calls, limits, Global, start + 1, from, last + 1);
    } else {
      CountNone(calls, limits, Global, from, last + 1);
    }
  }

  lemma FirstOpener(c: Call, limits: Limits)
    requires limits.Valid() && c.Valid()
    ensures OpenersCounted([c], limits, c.now)
  {
    hide Run, Count;
    NothingYet(limits);
    EmptyInOrder();
    Attempt([], c, limits);
    assert [] + [c] == [c];
    assert Gain(true, c.now, c.now, c.now + 1) == 1;
    forall from ensures ShortOfTwice([c], limits, from) {}
  }

  lemma OpenersStep(calls: seq<Call>, c: Call, limits: Limits, last: Time)
    requires limits.Valid() && limits.global <= limits.account && limits.global <= limits.source
    requires InOrder(calls) && c.Valid() && (forall d :: d in calls ==> d.now <= last) && last <= c.now
    requires OpenersCounted(calls, limits, last)
    ensures OpenersCounted(calls + [c], limits, c.now)
  {
    hide Run, Count, OnGlobal, InOrder;
    var b := Run(calls, limits);
    var start, attempts := b[Global].expiresAt - WINDOW, b[Global].attempts;
    Attempt(calls, c, limits);
    if c.now < b[Global].expiresAt {
      var more := if Run(calls + [c], limits)[Global].attempts == attempts then 0 else 1;
      assert Grew(calls, c, limits, Global, more);
      OnGlobalAlive(calls, c, limits, start, last, attempts, more);
    } else {
      assert Current(b, Account(c.account), c.now).attempts < limits.account;
      assert Current(b, Source(c.source), c.now).attempts < limits.source;
      assert Grew(calls, c, limits, Global, 1);
      OnGlobalAfresh(calls, c, limits, start, last, attempts);
    }
  }

  lemma {:induction false} OpenersOverRuns(calls: seq<Call>, limits: Limits)
    requires limits.Valid() && limits.global <= limits.account && limits.global <= limits.source
    requires InOrder(calls) && calls != []
    ensures OpenersCounted(calls, limits, calls[|calls| - 1].now)
  {
    hide OpenersCounted;
    var front, c := calls[..|calls| - 1], calls[|calls| - 1];
    InOrderFront(calls);
    assert calls == front + [c] && c in calls;
    if front == [] {
      FirstOpener(c, limits);
      assert calls == [c];
    } else {
      OpenersOverRuns(front, limits);
      OpenersStep(front, c, limits, front[|front| - 1].now);
    }
  }

  /** When no account and no source may run out before the global limit does, no interval admits
      twice that limit. */
  lemma NeverTwice(calls: seq<Call>, limits: Limits, key: Key, from: Time)
    requires limits.Valid() && limits.global <= limits.account && limits.global <= limits.source && InOrder(calls)
    ensures Count(calls, limits, key, from, from + 60 * 1000000) <= 2 * limits.global - 1
  {
    hide Run, InOrder;
    CountGlobal(calls, limits, key, from, from + WINDOW);
    if calls != [] {
      OpenersOverRuns(calls, limits);
      assert ShortOfTwice(calls, limits, from);
    }
  }

  lemma {:induction false} CountGlobal(calls: seq<Call>, limits: Limits, key: Key, from: Time, to: Time)
    ensures Count(calls, limits, key, from, to) <= Count(calls, limits, Global, from, to)
  {
    hide Run, Admits;
    if calls != [] { CountGlobal(calls[..|calls| - 1], limits, key, from, to); }
  }

  /** A limit above the global one is never reached twice over. */
  lemma GlobalBoundsAll(calls: seq<Call>, limits: Limits, key: Key, from: Time)
    requires limits.Valid() && InOrder(calls)
    ensures Count(calls, limits, key, from, from + 60 * 1000000) <= 2 * limits.global
  {
    hide Count;
    CountGlobal(calls, limits, key, from, from + WINDOW);
    WindowBound(calls, limits, Global, from);
  }

  // ---------------------------------------------------------------- exactly

  /** Some run admits `key` twice its limit within one minute. */
  ghost predicate Reached(limits: Limits, key: Key) { exists calls, from :: Twice(calls, limits, key, from) }

  ghost predicate Twice(calls: seq<Call>, limits: Limits, key: Key, from: Time) {
    InOrder(calls) && Count(calls, limits, key, from, from + 60 * 1000000) == 2 * limits.Of(key)
  }

  lemma ReachedBy(limits: Limits, key: Key, calls: seq<Call>, from: Time)
    requires InOrder(calls) && Count(calls, limits, key, from, from + 60 * 1000000) == 2 * limits.Of(key)
    ensures Reached(limits, key)
  {
    assert Twice(calls, limits, key, from);
  }

  /** An account is admitted twice its limit in some interval if and only if its limit is below the
      global one, or equals it while the source limit is below. */
  lemma AccountReachedIff(limits: Limits)
    requires limits.Valid() && Spacious(limits)
    ensures Reached(limits, Account(2)) <==>
      limits.account < limits.global || (limits.account == limits.global && limits.source < limits.global)
  {
    hide Count, InOrder;
    if limits.account < limits.global {
      var calls := BelowGlobalIsReached(limits);
      ReachedBy(limits, Account(2), calls, LATE);
    } else if limits.account == limits.global && limits.source < limits.global {
      var calls := GlobalIsReached(limits, true);
      ReachedBy(limits, Account(2), calls, LAST);
    } else {
      forall calls, from | Twice(calls, limits, Account(2), from) ensures false {
        if limits.account > limits.global { GlobalBoundsAll(calls, limits, Account(2), from); }
        else { NeverTwice(calls, limits, Account(2), from); }
      }
    }
  }

  lemma MirrorReached(limits: Limits, key: Key)
    requires Reached(limits, key)
    ensures Reached(MirrorLimits(limits), MirrorKey(key))
  {
    hide Count, InOrder;
    var calls, from :| Twice(calls, limits, key, from);
    MirrorRun(calls, limits);
    MirrorInOrder(calls);
    ReachedBy(MirrorLimits(limits), MirrorKey(key), Mirror(calls), from);
  }

  /** And so for a source, the account limit in the source's place. */
  lemma SourceReachedIff(limits: Limits)
    requires limits.Valid() && Spacious(limits)
    ensures Reached(limits, Source(2)) <==>
      limits.source < limits.global || (limits.source == limits.global && limits.account < limits.global)
  {
    hide Reached;
    AccountReachedIff(MirrorLimits(limits));
    if Reached(limits, Source(2)) { MirrorReached(limits, Source(2)); }
    if Reached(MirrorLimits(limits), Account(2)) { MirrorReached(MirrorLimits(limits), Account(2)); }
  }

  /** Twice the global limit is admitted in some interval if and only if an account or a source runs
      out before the global limit does. */
  lemma GlobalReachedIff(limits: Limits)
    requires limits.Valid() && Spacious(limits)
    ensures Reached(limits, Global) <==> limits.account < limits.global || limits.source < limits.global
  {
    hide Count, InOrder;
    if limits.source < limits.global {
      var calls := GlobalIsReached(limits, false);
      ReachedBy(limits, Global, calls, LAST);
    } else if limits.account < limits.global {
      var calls := GlobalIsReached(MirrorLimits(limits), false);
      ReachedBy(MirrorLimits(limits), Global, calls, LAST);
      MirrorReached(MirrorLimits(limits), Global);
    } else {
      forall calls, from | Twice(calls, limits, Global, from) ensures false {
        NeverTwice(calls, limits, Global, from);
      }
    }
  }

  lemma NothingYet(limits: Limits)
    ensures Run([], limits) == map[] && forall key, from, to :: Count([], limits, key, from, to) == 0
  {}
}
