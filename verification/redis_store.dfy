/**
 * The key-value store as the vote functions use it: `get` and `set` with an
 * absolute expiry (`EXAT`).  An entry is readable strictly before its expiry
 * instant and reads as absent at or after it.
 */
module RedisStore {
  import opened Wrappers
  import opened Schemas
  import opened Clock

  /** The store key `votes:<dayKey>:<username>`, by its two components. */
  datatype Key = Key(day: Day, user: Username)

  datatype Entry = Entry(value: string, expiresAt: Instant)

  type Store = map<Key, Entry>

  /** `redis.get`: the value under `key` if it has not yet expired at `now`. */
  function Get(store: Store, key: Key, now: Instant): Option<string> {
    if key in store && Before(now, store[key].expiresAt) then Some(store[key].value) else None
  }

  /** `redis.set(key, value, { exat })`: last write wins, no merge. */
  function Set(store: Store, key: Key, value: string, exat: Instant): Store {
    store[key := Entry(value, exat)]
  }

  /** A read of the key just written sees the value exactly until its expiry. */
  lemma GetSetSame(store: Store, key: Key, value: string, exat: Instant, now: Instant)
    ensures Get(Set(store, key, value, exat), key, now) == (if Before(now, exat) then Some(value) else None)
  {
  }

  /** A write to one key leaves every read of every other key as it was. */
  lemma GetSetOther(store: Store, key: Key, other: Key, value: string, exat: Instant, now: Instant)
    requires other != key
    ensures Get(Set(store, key, value, exat), other, now) == Get(store, other, now)
  {
  }

  /** A second write to the same key hides the first completely. */
  lemma SetSetSame(store: Store, key: Key, v1: string, e1: Instant, v2: string, e2: Instant)
    ensures Set(Set(store, key, v1, e1), key, v2, e2) == Set(store, key, v2, e2)
  {
  }

  // ---- The textual key ----

  /** The shape of the `yyyy-MM-dd` day key that `format` produces. */
  predicate IsDayKeyText(s: string) {
    |s| == 10 &&
    forall i :: 0 <= i < 10 ==> if i == 4 || i == 7 then s[i] == '-' else '0' <= s[i] <= '9'
  }

  /** The key string the server builds for a participant on a day key. */
  function KeyText(dayKey: string, u: Username): string {
    "votes:" + dayKey + ":" + UsernameText(u)
  }

  /**
   * Distinct (day key, participant) pairs give distinct key strings, so a
   * store keyed by `Key` loses nothing against the string-keyed store.
   */
  lemma KeyTextInjective(d1: string, u1: Username, d2: string, u2: Username)
    requires IsDayKeyText(d1) && IsDayKeyText(d2)
    requires KeyText(d1, u1) == KeyText(d2, u2)
    ensures d1 == d2 && u1 == u2
  {
    var k1, k2 := KeyText(d1, u1), KeyText(d2, u2);
    assert k1[6..16] == d1;
    assert k2[6..16] == d2;
    assert k1[17..] == UsernameText(u1);
    assert k2[17..] == UsernameText(u2);
    UsernameTextInjective(u1, u2);
  }
}
