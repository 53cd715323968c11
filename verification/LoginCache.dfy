/** The cache of successful logins (src/auth.rs), shared by any number of threads. */
module LoginCache {
  import opened Wrappers
  import opened ByteStrings

  const TTL := 300_000
  const MAX_ENTRIES := 1024

  /** Text as long as memory allows. */
  type Part = b: Bytes | |b| < USIZE witness []

  datatype Attempt = Attempt(username: Part, stored: Part, password: Part)

  // ----- the key -----

  /** `to_le_bytes` of a number. */
  function Le(n: nat, width: nat): (b: Bytes)
    ensures |b| == width
  {
    if width == 0 then [] else [n % 256] + Le(n / 256, width - 1)
  }

  function FromLe(b: Bytes): nat {
    if b == [] then 0 else b[0] + 256 * FromLe(b[1..])
  }

  function Power(width: nat): nat {
    if width == 0 then 1 else 256 * Power(width - 1)
  }

  lemma {:induction false} LeRoundTrip(n: nat, width: nat)
    requires n < Power(width)
    ensures FromLe(Le(n, width)) == n
  {
    if width > 0 {
      LeRoundTrip(n / 256, width - 1);
      assert Le(n, width)[1..] == Le(n / 256, width - 1);
    }
  }

  lemma EightBytes()
    ensures Power(8) == USIZE
  {
    assert Power(2) == 0x1_0000;
    assert Power(4) == 0x1_0000_0000;
    assert Power(6) == 0x1_0000_0000_0000;
  }

  function LengthBytes(part: Part): (b: Bytes)
    ensures |b| == 8
  {
    Le(|part|, 8)
  }

  lemma LengthIs(part: Part)
    ensures FromLe(LengthBytes(part)) == |part|
  {
    hide Le, FromLe, Power;
    EightBytes();
    LeRoundTrip(|part|, 8);
  }

  /** What is hashed: every part after its length in eight bytes. */
  function Encode(parts: seq<Part>): Bytes {
    if parts == [] then [] else LengthBytes(parts[0]) + parts[0] + Encode(parts[1..])
  }

  lemma EncodedHead(parts: seq<Part>)
    requires parts != []
    ensures var b := Encode(parts);
      && |b| >= 8 && var n := FromLe(b[..8]);
         8 + n <= |b| && b[8..8 + n] == parts[0] && b[8 + n..] == Encode(parts[1..])
  {
    hide LengthBytes, FromLe;
    LengthIs(parts[0]);
    var (b, rest) := (Encode(parts), Encode(parts[1..]));
    assert b == LengthBytes(parts[0]) + parts[0] + rest;
    hide Encode;
    assert b[..8] == LengthBytes(parts[0]);
  }

  /** No two lists of parts are encoded alike. */
  lemma {:induction false} EncodeIsInjective(a: seq<Part>, b: seq<Part>)
    requires Encode(a) == Encode(b)
    ensures a == b
  {
    if a != [] {
      EncodedHead(a);
    }
    if b != [] {
      EncodedHead(b);
    }
    if a != [] && b != [] {
      EncodeIsInjective(a[1..], b[1..]);
      assert a == [a[0]] + a[1..] && b == [b[0]] + b[1..];
    }
  }

  type Key = Bytes

  function KeyOf(hash: Bytes -> Key, salt: Part, a: Attempt): Key {
    hash(Encode([salt, a.username, a.stored, a.password]))
  }

  ghost predicate Injective(hash: Bytes -> Key) {
    forall x: Bytes, y: Bytes :: hash(x) == hash(y) ==> x == y
  }

  lemma KeyIsAttempt(hash: Bytes -> Key, salt: Part, a: Attempt, b: Attempt)
    requires Injective(hash) && KeyOf(hash, salt, a) == KeyOf(hash, salt, b)
    ensures a == b
  {
    var (x, y) := ([salt, a.username, a.stored, a.password], [salt, b.username, b.stored, b.password]);
    EncodeIsInjective(x, y);
    assert x[1] == y[1] && x[2] == y[2] && x[3] == y[3];
  }

  // ----- the critical sections -----

  predicate Hit(cache: map<Key, int>, key: Key, now: int) {
    key in cache && cache[key] > now
  }

  function Unexpired(cache: map<Key, int>, now: int): map<Key, int> {
    map k | k in cache && cache[k] > now :: cache[k]
  }

  function MakeRoom(cache: map<Key, int>, now: int): map<Key, int> {
    if |cache| < MAX_ENTRIES then cache
    else if |Unexpired(cache, now)| < MAX_ENTRIES then Unexpired(cache, now)
    else map[]
  }

  function Inserted(cache: map<Key, int>, key: Key, now: int): map<Key, int> {
    MakeRoom(cache, now)[key := now + TTL]
  }

  /** The entry is there for five minutes; the others stay, or the expired ones go when the cache is full, or all do. */
  ghost predicate Stored(before: map<Key, int>, after: map<Key, int>, key: Key, now: int) {
    var live := set k | k in before && before[k] > now;
    && key in after && after[key] == now + 300_000
    && (forall k :: k in after && k != key ==> k in before && after[k] == before[k])
    && (forall k :: k in before && k != key ==>
          (k in after <==> |before| < 1024 || (before[k] > now && |live| < 1024)))
  }

  lemma InsertedIsStored(cache: map<Key, int>, key: Key, now: int)
    ensures Stored(cache, Inserted(cache, key, now), key, now)
  {
    var live := set k | k in cache && cache[k] > now;
    assert Unexpired(cache, now).Keys == live;
    assert |Unexpired(cache, now)| == |Unexpired(cache, now).Keys|;
  }

  class Cache {
    var entries: map<Key, int>

    constructor ()
      ensures entries == map[]
    {
      entries := map[];
    }

    method Lookup(key: Key, now: int) returns (hit: bool)
      ensures hit == Hit(entries, key, now)
      ensures hit <==> key in entries && entries[key] > now
    {
      hit := key in entries;
      if hit {
        hit := entries[key] > now;
      }
    }

    method Insert(key: Key, now: int)
      modifies this
      ensures entries == Inserted(old(entries), key, now)
      ensures Stored(old(entries), entries, key, now)
    {
      InsertedIsStored(entries, key, now);
      if |entries| >= MAX_ENTRIES {
        entries := map k | k in entries && entries[k] > now :: entries[k];
        if |entries| >= MAX_ENTRIES {
          entries := map[];
        }
      }
      entries := entries[key := now + TTL];
    }

    /** `verify_cached` with nobody else at the cache; `verified` is what the password check would say. */
    method VerifyCached(key: Key, now: int, verified: bool) returns (ok: bool)
      modifies this
      ensures ok == (Hit(old(entries), key, now) || verified)
      ensures entries == if ok && !Hit(old(entries), key, now) then Inserted(old(entries), key, now) else old(entries)
      ensures ok <==> (key in old(entries) && old(entries)[key] > now) || verified
      ensures if !verified || (key in old(entries) && old(entries)[key] > now) then entries == old(entries)
              else Stored(old(entries), entries, key, now)
    {
      var hit := Lookup(key, now);
      if hit {
        return true;
      }
      if !verified {
        return false;
      }
      Insert(key, now);
      return true;
    }
  }

  // ----- threads -----

  /** A call in progress, with the time it read when it started. */
  datatype Thread = Missed(attempt: Attempt, now: int) | Passed(attempt: Attempt, now: int)

  /** `checks` records each password check that succeeded and the starting time of its call. */
  datatype Sys = Sys(cache: map<Key, int>, threads: map<nat, Thread>, checks: set<(Attempt, int)>)

  datatype Step = Start(thread: nat, attempt: Attempt, now: int) | Check(thread: nat) | Store(thread: nat)

  /** What does not change: the hash, the salt, and the password check for each stored credential. */
  datatype World = World(hash: Bytes -> Key, salt: Part, verify: (Bytes, Bytes) -> bool) {
    function Key(a: Attempt): Key {
      KeyOf(hash, salt, a)
    }

    predicate Verifies(a: Attempt) {
      verify(a.stored, a.password)
    }
  }

  function Apply(w: World, s: Sys, step: Step): Sys {
    match step
    case Start(t, a, now) =>
      if t in s.threads || Hit(s.cache, w.Key(a), now) then s
      else s.(threads := s.threads[t := Missed(a, now)])
    case Check(t) =>
      if !(t in s.threads && s.threads[t].Missed?) then s
      else if !w.Verifies(s.threads[t].attempt) then s.(threads := s.threads - {t})
      else s.(threads := s.threads[t := Passed(s.threads[t].attempt, s.threads[t].now)],
              checks := s.checks + {(s.threads[t].attempt, s.threads[t].now)})
    case Store(t) =>
      if !(t in s.threads && s.threads[t].Passed?) then s
      else s.(cache := Inserted(s.cache, w.Key(s.threads[t].attempt), s.threads[t].now), threads := s.threads - {t})
  }

  function Exec(w: World, steps: seq<Step>): Sys {
    if steps == [] then Sys(map[], map[], {}) else Apply(w, Exec(w, steps[..|steps| - 1]), steps[|steps| - 1])
  }

  /** The call that ends with this step, and what it returns. */
  function Answer(w: World, s: Sys, step: Step): Option<(Attempt, bool)> {
    match step
    case Start(t, a, now) => if t !in s.threads && Hit(s.cache, w.Key(a), now) then Some((a, true)) else None
    case Check(t) =>
      if t in s.threads && s.threads[t].Missed? && !w.Verifies(s.threads[t].attempt)
      then Some((s.threads[t].attempt, false)) else None
    case Store(t) => if t in s.threads && s.threads[t].Passed? then Some((s.threads[t].attempt, true)) else None
  }

  /** An entry comes from a check that succeeded, and expires a TTL after it started. */
  ghost predicate EntryOk(w: World, s: Sys, key: Key)
    requires key in s.cache
  {
    exists check :: check in s.checks && key == w.Key(check.0) && s.cache[key] == check.1 + TTL
  }

  ghost predicate Inv(w: World, s: Sys) {
    && |s.cache| <= MAX_ENTRIES
    && (forall key :: key in s.cache ==> EntryOk(w, s, key))
    && (forall check :: check in s.checks ==> w.Verifies(check.0))
    && (forall t :: t in s.threads && s.threads[t].Passed? ==> (s.threads[t].attempt, s.threads[t].now) in s.checks)
  }

  lemma InsertedIsSmall(cache: map<Key, int>, key: Key, now: int)
    requires |cache| <= MAX_ENTRIES
    ensures |Inserted(cache, key, now)| <= MAX_ENTRIES
  {
    var room := MakeRoom(cache, now);
    assert room[key := now + TTL].Keys == room.Keys + {key};
    assert |room[key := now + TTL]| == |room[key := now + TTL].Keys|;
    assert |room| == |room.Keys|;
  }

  lemma InsertedFrom(cache: map<Key, int>, key: Key, now: int)
    ensures var after := Inserted(cache, key, now);
      && key in after && after[key] == now + TTL
      && forall k :: k in after && k != key ==> k in cache && after[k] == cache[k]
  {
  }

  lemma StoreKeepsInv(w: World, s: Sys, t: nat)
    requires Inv(w, s) && t in s.threads && s.threads[t].Passed?
    ensures Inv(w, Apply(w, s, Store(t)))
  {
    hide KeyOf, Inserted;
    var (a, now) := (s.threads[t].attempt, s.threads[t].now);
    var s' := Apply(w, s, Store(t));
    InsertedIsSmall(s.cache, w.Key(a), now);
    InsertedFrom(s.cache, w.Key(a), now);
    forall key | key in s'.cache ensures EntryOk(w, s', key) {
      if key == w.Key(a) {
        assert (a, now) in s'.checks;
      } else {
        SameEntry(w, s, s', key);
      }
    }
  }

  lemma SameEntry(w: World, s: Sys, s': Sys, key: Key)
    requires key in s.cache && EntryOk(w, s, key) && s.checks <= s'.checks
    requires key in s'.cache && s'.cache[key] == s.cache[key]
    ensures EntryOk(w, s', key)
  {
    hide KeyOf;
    var check :| check in s.checks && key == w.Key(check.0) && s.cache[key] == check.1 + TTL;
    assert check in s'.checks;
  }

  lemma StepKeepsInv(w: World, s: Sys, step: Step)
    requires Inv(w, s)
    ensures Inv(w, Apply(w, s, step))
  {
    hide KeyOf, Inserted, EntryOk;
    if step.Store? && step.thread in s.threads && s.threads[step.thread].Passed? {
      StoreKeepsInv(w, s, step.thread);
    } else {
      var s' := Apply(w, s, step);
      forall key | key in s'.cache ensures EntryOk(w, s', key) {
        SameEntry(w, s, s', key);
      }
    }
  }

  lemma {:induction false} ExecKeepsInv(w: World, steps: seq<Step>)
    ensures Inv(w, Exec(w, steps))
  {
    if steps != [] {
      ExecKeepsInv(w, steps[..|steps| - 1]);
      StepKeepsInv(w, Exec(w, steps[..|steps| - 1]), steps[|steps| - 1]);
    }
  }

  /**
   However the threads interleave: every call returns what the password check itself says, a call answered from the
   cache comes within the TTL of a check of the same attempt that succeeded, and the cache stays within its bound.
   */
  lemma CacheAgreesWithVerify(w: World, steps: seq<Step>, step: Step)
    requires Injective(w.hash)
    ensures var s := Exec(w, steps);
      && |s.cache| <= MAX_ENTRIES
      && (Answer(w, s, step).Some? ==> Answer(w, s, step).value.1 == w.Verifies(Answer(w, s, step).value.0))
      && (step.Start? && Answer(w, s, step).Some? ==>
            exists check :: check in s.checks && check.0 == step.attempt && step.now < check.1 + TTL)
  {
    var s := Exec(w, steps);
    ExecKeepsInv(w, steps);
    if step.Start? && Answer(w, s, step).Some? {
      var key := w.Key(step.attempt);
      assert EntryOk(w, s, key);
      var check :| check in s.checks && key == w.Key(check.0) && s.cache[key] == check.1 + TTL;
      KeyIsAttempt(w.hash, w.salt, step.attempt, check.0);
    }
  }

  // ----- comparing secrets -----

  /** `ct_eq`: every byte is looked at, whatever the earlier ones were. */
  method CtEq(a: seq<bv8>, b: seq<bv8>) returns (equal: bool)
    ensures equal <==> a == b
  {
    if |a| != |b| {
      return false;
    }
    var diff: bv8 := 0;
    for i := 0 to |a|
      invariant diff == 0 <==> a[..i] == b[..i]
    {
      var before := diff;
      diff := diff | (a[i] ^ b[i]);
      OrXorIsZero(before, a[i], b[i]);
      assert a[..i + 1] == a[..i] + [a[i]] && b[..i + 1] == b[..i] + [b[i]];
    }
    assert a[..|a|] == a && b[..|b|] == b;
    return diff == 0;
  }

  lemma OrXorIsZero(d: bv8, x: bv8, y: bv8)
    ensures (d | (x ^ y)) == 0 <==> d == 0 && x == y
  {
  }
}
