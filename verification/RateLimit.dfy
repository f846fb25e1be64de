/** Fixed-window admission control: one global bucket, one bucket per account slot and one per
    source slot, each admitting a limited number of attempts per sixty-second lifetime. */
module RateLimit {
  /** Clock readings are whole microseconds, the resolution of the timestamps stored. */
  type Time = int

  const WINDOW := 60000000
  const SLOTS := 4096

  datatype Key = Global | Account(slot: nat) | Source(slot: nat)

  datatype Bucket = Bucket(attempts: nat, expiresAt: Time)

  datatype Limits = Limits(global: nat, account: nat, source: nat) {
    predicate Valid() { 1 <= global && 1 <= account && 1 <= source }

    function Of(key: Key): nat {
      match key
      case Global => global
      case Account(_) => account
      case Source(_) => source
    }
  }

  /** One attempt: the slots its login and source hash to, and the clock it read. */
  datatype Call = Call(account: nat, source: nat, now: Time) {
    predicate Valid() { account < SLOTS && source < SLOTS }

    function Keys(): seq<Key> { [Global, Account(account), Source(source)] }
  }

  function Fresh(now: Time): Bucket { Bucket(0, now + WINDOW) }

  /** The bucket that counts an attempt at `now`: the stored one unless missing or expired. */
  function Current(buckets: map<Key, Bucket>, key: Key, now: Time): Bucket {
    if key in buckets && buckets[key].expiresAt > now then buckets[key] else Fresh(now)
  }

  predicate Admits(buckets: map<Key, Bucket>, c: Call, limits: Limits) {
    forall key :: key in c.Keys() ==> Current(buckets, key, c.now).attempts < limits.Of(key)
  }

  /** The attempt's own buckets brought up to date, and every other one that is still alive. */
  function Ready(buckets: map<Key, Bucket>, c: Call): map<Key, Bucket> {
    map key | key in buckets.Keys + KeySet(c) && (key in KeySet(c) || buckets[key].expiresAt > c.now) ::
      if key in KeySet(c) then Current(buckets, key, c.now) else buckets[key]
  }

  function KeySet(c: Call): set<Key> { {Global, Account(c.account), Source(c.source)} }

  function Spend(buckets: map<Key, Bucket>, keys: set<Key>): map<Key, Bucket> {
    map key | key in buckets ::
      if key in keys then buckets[key].(attempts := buckets[key].attempts + 1) else buckets[key]
  }

  /** The buckets after an attempt: only an admitted attempt is counted. */
  function After(buckets: map<Key, Bucket>, c: Call, limits: Limits): map<Key, Bucket> {
    var ready := Ready(buckets, c);
    if Admits(buckets, c, limits) then Spend(ready, KeySet(c)) else ready
  }

  ghost function Swept(buckets: map<Key, Bucket>, now: Time): map<Key, Bucket> {
    var seeded := if Global in buckets then buckets else buckets[Global := Fresh(now)];
    map key | key in seeded && (key == Global || seeded[key].expiresAt > now) :: seeded[key]
  }

  /** A missing or expired bucket is replaced by a fresh one, key by key. */
  ghost function Refreshed(buckets: map<Key, Bucket>, keys: seq<Key>, now: Time): map<Key, Bucket> {
    if keys == [] then buckets
    else
      var front, key := Refreshed(buckets, keys[..|keys| - 1], now), keys[|keys| - 1];
      front[key := Current(front, key, now)]
  }

  lemma CurrentSurvives(before: map<Key, Bucket>, keys: seq<Key>, i: nat, now: Time)
    requires i < |keys| && keys[i] !in keys[..i]
    ensures Current(Refreshed(Swept(before, now), keys[..i], now), keys[i], now) == Current(before, keys[i], now)
  {
    RefreshedElsewhere(Swept(before, now), keys[..i], now, keys[i]);
  }

  lemma {:induction false} RefreshedElsewhere(buckets: map<Key, Bucket>, keys: seq<Key>, now: Time, key: Key)
    requires key !in keys
    ensures var after := Refreshed(buckets, keys, now);
      (key in after <==> key in buckets) && (key in buckets ==> after[key] == buckets[key])
  {
    if keys != [] { RefreshedElsewhere(buckets, keys[..|keys| - 1], now, key); }
  }

  lemma RefreshedIsReady(before: map<Key, Bucket>, c: Call)
    ensures Refreshed(Swept(before, c.now), c.Keys(), c.now) == Ready(before, c)
  {
    var b0 := Swept(before, c.now);
    var b1 := b0[Global := Current(b0, Global, c.now)];
    var b2 := b1[Account(c.account) := Current(b1, Account(c.account), c.now)];
    var b3 := b2[Source(c.source) := Current(b2, Source(c.source), c.now)];
    var keys := c.Keys();
    assert keys[..2][..1][..0] == [] && keys[..2][..1] == [Global] && keys[..2] == [Global, Account(c.account)];
    assert Refreshed(b0, keys[..2][..1], c.now) == b1;
    assert Refreshed(b0, keys[..2], c.now) == b2;
    assert Refreshed(b0, keys, c.now) == b3;
    hide Refreshed;
    forall key ensures key in b3 <==> key in Ready(before, c) {}
    forall key | key in b3 ensures b3[key] == Ready(before, c)[key] {}
  }

  lemma NotAdmitted(before: map<Key, Bucket>, c: Call, limits: Limits)
    ensures Admits(before, c, limits) <==>
      !exists j :: 0 <= j < |c.Keys()| && Current(before, c.Keys()[j], c.now).attempts >= limits.Of(c.Keys()[j])
  {}

  class RateTable {
    var buckets: map<Key, Bucket>

    constructor ()
      ensures buckets == map[]
    {
      buckets := map[];
    }

    /** Inserts the global bucket and deletes every other expired one. */
    method Sweep(now: Time)
      modifies this
      ensures buckets == Swept(old(buckets), now)
      ensures Global in buckets && (Global !in old(buckets) ==> buckets[Global] == Fresh(now))
      ensures forall key | key != Global :: key in buckets <==> key in old(buckets) && old(buckets[key].expiresAt) > now
      ensures forall key | key in buckets && key in old(buckets) :: buckets[key] == old(buckets[key])
    {
      if Global !in buckets {
        buckets := buckets[Global := Fresh(now)];
      }
      buckets := map key | key in buckets && (key == Global || buckets[key].expiresAt > now) :: buckets[key];
    }

    /** Readies the attempt's three buckets, reporting whether any of them is exhausted. */
    method Prepare(c: Call, limits: Limits) returns (limited: bool)
      modifies this
      ensures buckets == Ready(old(buckets), c)
      ensures limited == !Admits(old(buckets), c, limits)
    {
      hide Swept, Ready, Current, Admits;
      ghost var before := buckets;
      Sweep(c.now);
      var keys := c.Keys();
      limited := false;
      var i := 0;
      while i < |keys|
        invariant 0 <= i <= |keys|
        invariant buckets == Refreshed(Swept(before, c.now), keys[..i], c.now)
        invariant limited <==> exists j :: 0 <= j < i && Current(before, keys[j], c.now).attempts >= limits.Of(keys[j])
      {
        var key := keys[i];
        assert keys[..i + 1][..i] == keys[..i];
        CurrentSurvives(before, keys, i, c.now);
        buckets := buckets[key := Current(buckets, key, c.now)];
        limited := limited || buckets[key].attempts >= limits.Of(key);
        i := i + 1;
      }
      assert keys[..i] == keys;
      RefreshedIsReady(before, c);
      NotAdmitted(before, c, limits);
    }

    /** Counts one attempt in each of its buckets. */
    method CountAttempt(c: Call)
      requires KeySet(c) <= buckets.Keys
      modifies this
      ensures buckets == Spend(old(buckets), KeySet(c))
    {
      ghost var ready := buckets;
      var keys := c.Keys();
      var i := 0;
      while i < |keys|
        invariant 0 <= i <= |keys| && buckets.Keys == ready.Keys
        invariant forall k :: k in ready ==>
          buckets[k] == if k in keys[..i] then ready[k].(attempts := ready[k].attempts + 1) else ready[k]
      {
        buckets := buckets[keys[i] := buckets[keys[i]].(attempts := buckets[keys[i]].attempts + 1)];
        i := i + 1;
      }
      assert keys[..i] == keys;
      assert forall k :: k in keys <==> k in KeySet(c);
    }

    /** The transaction of `throttle`. */
    method Throttle(c: Call, limits: Limits) returns (admitted: bool)
      modifies this
      ensures admitted == Admits(old(buckets), c, limits)
      ensures buckets == After(old(buckets), c, limits)
    {
      hide Admits, Spend, Current;
      var limited := Prepare(c, limits);
      if !limited {
        CountAttempt(c);
      }
      admitted := !limited;
    }
  }
}
