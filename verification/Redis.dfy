/** The key operations the auth package relies on. A key with expiry `e` is
    visible at `now` iff `now < e`; one operation is one atomic step. */
module Redis {
  import opened Wrappers

  type Instant = real

  datatype Key<T> = Gone | Held(value: T, until: Option<Instant>)

  function Get<T>(key: Key<T>, now: Instant): Option<T> {
    if key.Held? && (key.until.None? || now < key.until.value) then Some(key.value) else None
  }

  function Set<T>(value: T): Key<T> {
    Held(value, None)
  }

  function SetEx<T>(value: T, now: Instant, ttl: Instant): Key<T> {
    Held(value, Some(now + ttl))
  }

  function SetNxEx<T>(key: Key<T>, value: T, now: Instant, ttl: Instant): Key<T> {
    if Get(key, now).Some? then key else SetEx(value, now, ttl)
  }

  function Expire<T>(key: Key<T>, now: Instant, ttl: Instant): Key<T> {
    if Get(key, now).Some? then SetEx(key.value, now, ttl) else Gone
  }

  function Incr(key: Key<int>, now: Instant): Key<int> {
    if Get(key, now).Some? then key.(value := key.value + 1) else Held(1, None)
  }
}
