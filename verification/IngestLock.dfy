/** `IngestLock` of `catalog/schedule.py`: one key, one token per round, release
    by compare-and-delete. */
module IngestLock {
  import opened Wrappers
  import opened Redis

  const MIN_LOCK_TTL: Instant := 60.0

  function Ttl(asked: Instant): Instant {
    if asked < MIN_LOCK_TTL then MIN_LOCK_TTL else asked
  }

  function AfterRelease(key: Key<string>, token: string, now: Instant): Key<string> {
    if Get(key, now) == Some(token) then Gone else key
  }

  class Server {
    var key: Key<string>

    constructor ()
      ensures key == Gone
    {
      key := Gone;
    }
  }

  /** One process's handle on the lock; `nonce` is the uuid of the round. */
  class Lock {
    const server: Server
    var token: Option<string>

    constructor (server: Server)
      ensures this.server == server && token == None
    {
      this.server := server;
      token := None;
    }

    method Acquire(nonce: string, ttl: Instant, now: Instant) returns (taken: Option<string>)
      modifies this, server
      ensures server.key == SetNxEx(old(server.key), nonce, now, Ttl(ttl))
      ensures taken == if Get(old(server.key), now).None? then Some(nonce) else None
      ensures token == if taken.Some? then taken else old(token)
    {
      taken := if Get(server.key, now).None? then Some(nonce) else None;
      server.key := SetNxEx(server.key, nonce, now, Ttl(ttl));
      if taken.Some? {
        token := taken;
      }
    }

    method Release(mine: string, now: Instant) returns (released: bool)
      modifies this, server
      ensures server.key == AfterRelease(old(server.key), mine, now)
      ensures released <==> Get(old(server.key), now) == Some(mine)
      ensures token == if old(token) == Some(mine) then None else old(token)
    {
      released := Get(server.key, now) == Some(mine);
      if released {
        server.key := Gone;
      }
      if token == Some(mine) {
        token := None;
      }
    }
  }

  // ---------- runs of any number of processes ----------

  datatype Event = Acquire(token: string, at: Instant, ttl: Instant) | Release(token: string, at: Instant)

  function Step(key: Key<string>, e: Event): Key<string> {
    match e
    case Acquire(token, at, ttl) => SetNxEx(key, token, at, Ttl(ttl))
    case Release(token, at) => AfterRelease(key, token, at)
  }

  function After(es: seq<Event>): Key<string> {
    if es == [] then Gone else Step(After(es[..|es| - 1]), es[|es| - 1])
  }

  /** Rounds in time order, each with its own uuid. */
  ghost predicate Rounds(es: seq<Event>) {
    && (forall i, j :: 0 <= i < j < |es| ==> es[i].at <= es[j].at)
    && (forall i, j :: 0 <= i < j < |es| && es[i].Acquire? && es[j].Acquire? ==> es[i].token != es[j].token)
  }

  predicate Took(es: seq<Event>, i: int) {
    0 <= i < |es| && es[i].Acquire? && Get(After(es[..i]), es[i].at).None?
  }

  /** The key stays with the round that took it until that round releases it or
      its time is up, whatever the other rounds do. */
  lemma {:induction false} HeldUntilExpiry(es: seq<Event>, i: nat, n: nat)
    requires Rounds(es) && Took(es, i) && i < n <= |es|
    requires forall j :: i < j < n ==> es[j] != Release(es[i].token, es[j].at)
    requires es[n - 1].at < es[i].at + Ttl(es[i].ttl)
    ensures After(es[..n]) == Held(es[i].token, Some(es[i].at + Ttl(es[i].ttl)))
  {
    assert es[..n][..n - 1] == es[..n - 1];
    if n > i + 1 {
      assert es[n - 2].at <= es[n - 1].at;
      HeldUntilExpiry(es, i, n - 1);
    }
  }

  /** Two rounds run at once only when the first overran: a second round takes
      the lock after the first has released it, or after its time is up. */
  lemma RoundsExclude(es: seq<Event>, i: nat, j: nat)
    requires Rounds(es) && i < j && Took(es, i) && Took(es, j)
    ensures (exists r :: i < r < j && es[r] == Release(es[i].token, es[r].at)) || es[j].at >= es[i].at + Ttl(es[i].ttl)
  {
    if (forall r :: i < r < j ==> es[r] != Release(es[i].token, es[r].at)) && es[j].at < es[i].at + Ttl(es[i].ttl) {
      assert es[j - 1].at <= es[j].at;
      HeldUntilExpiry(es, i, j);
    }
  }

  /** An overran round that releases late never frees the lock of a later round. */
  lemma LateReleaseFreesNobody(es: seq<Event>, i: nat, j: nat, n: nat)
    requires Rounds(es) && i < j < n < |es| && Took(es, i) && Took(es, j)
    requires forall r :: j < r < n ==> es[r] != Release(es[j].token, es[r].at)
    requires es[n] == Release(es[i].token, es[n].at) && es[n].at < es[j].at + Ttl(es[j].ttl)
    ensures After(es[..n + 1]) == Held(es[j].token, Some(es[j].at + Ttl(es[j].ttl)))
  {
    HeldUntilExpiry(es, j, n + 1);
  }

  // ---------- a round that dies ----------

  predicate Ticks(es: seq<Event>) {
    forall i :: 0 <= i < |es| ==> es[i].Acquire?
  }

  /** When the lock the first tick took lapses. */
  function Lapse(es: seq<Event>): Instant
    requires es != [] && es[0].Acquire?
  {
    es[0].at + Ttl(es[0].ttl)
  }

  /** The lock's time is what was asked for, a minute at the least. */
  lemma LapseIs(es: seq<Event>)
    requires es != [] && es[0].Acquire?
    ensures Lapse(es) == es[0].at + if es[0].ttl >= 60.0 then es[0].ttl else 60.0
  {
  }

  /** The first tick takes the lock and its round dies. Up to the first tick at or
      after the lapse, whenever the ticks come, a tick is lost exactly when it
      comes before the lapse. */
  lemma CrashSkipsTicks(es: seq<Event>, k: nat)
    requires Rounds(es) && Ticks(es) && 1 <= k < |es| && es[k - 1].at < Lapse(es)
    ensures Took(es, k) <==> es[k].at >= Lapse(es)
  {
    assert Took(es, 0);
    HeldUntilExpiry(es, 0, k);
  }

  /** At most one tick is lost exactly when the second tick after the crash comes
      no earlier than the lapse: the two gaps together are the lock's time. */
  lemma OneTickLostExactly(es: seq<Event>)
    requires Rounds(es) && Ticks(es) && |es| >= 3
    ensures Took(es, 1) || Took(es, 2) <==> es[2].at - es[0].at >= Ttl(es[0].ttl)
  {
    assert es[1].at <= es[2].at;
    if es[0].at < Lapse(es) {
      CrashSkipsTicks(es, 1);
    }
    if es[1].at < Lapse(es) {
      CrashSkipsTicks(es, 2);
    }
  }

  /** The first `n` ticks after the crash are all lost. */
  predicate AllLost(es: seq<Event>, n: nat) {
    n < |es| && forall k :: 1 <= k <= n ==> !Took(es, k)
  }

  /** They are exactly when the last of them comes before the lapse. */
  lemma LostExactly(es: seq<Event>, n: nat)
    requires Rounds(es) && Ticks(es) && 1 <= n < |es|
    ensures AllLost(es, n) <==> es[n].at < Lapse(es)
  {
    if es[n].at < Lapse(es) {
      forall k | 1 <= k <= n ensures !Took(es, k) {
        assert es[k - 1].at <= es[k].at && (k < n ==> es[k].at <= es[n].at);
        CrashSkipsTicks(es, k);
      }
    } else {
      var k := FirstAfter(es, Lapse(es), n);
      CrashSkipsTicks(es, k);
      assert !AllLost(es, n);
    }
  }

  lemma {:induction false} FirstAfter(es: seq<Event>, lapse: Instant, n: nat) returns (k: nat)
    requires 1 <= n < |es| && es[0].at < lapse <= es[n].at
    ensures 1 <= k <= n && es[k - 1].at < lapse <= es[k].at
  {
    k := n;
    if es[n - 1].at >= lapse {
      k := FirstAfter(es, lapse, n - 1);
    }
  }

  /** While ticks keep at least the interval the lock's time was asked for, twice
      that interval covers one tick, the floor of a minute aside. */
  lemma SteadyTicksLoseOne(es: seq<Event>, interval: Instant)
    requires Rounds(es) && Ticks(es) && |es| >= 3 && es[0].ttl == 2.0 * interval >= MIN_LOCK_TTL
    requires es[1].at - es[0].at >= interval && es[2].at - es[1].at >= interval
    ensures Took(es, 1) || Took(es, 2)
  {
    OneTickLostExactly(es);
  }

  /** The shipped expressions on the eve of a peak day: the round of 23:07 dies,
      having asked for two hours; the next tick, still off-peak, is 00:07, and
      from then on they come at 00:10, 00:20 and so on. */
  function EveOfPeak(tokens: seq<string>, at: Instant): seq<Event> {
    seq(|tokens|, i requires 0 <= i < |tokens| =>
      if i == 0 then Event.Acquire(tokens[0], at, 7200.0)
      else if i == 1 then Event.Acquire(tokens[1], at + 3600.0, 7200.0)
      else Event.Acquire(tokens[i], at + 3780.0 + (i - 2) as real * 600.0, 1200.0))
  }

  /** Seven ticks are lost, up to 01:00; the one of 01:10 takes the lock. */
  lemma EveOfPeakLosesSeven(tokens: seq<string>, at: Instant)
    requires |tokens| == 9 && forall i, j :: 0 <= i < j < |tokens| ==> tokens[i] != tokens[j]
    ensures Rounds(EveOfPeak(tokens, at)) && AllLost(EveOfPeak(tokens, at), 7) && Took(EveOfPeak(tokens, at), 8)
    ensures var es := EveOfPeak(tokens, at);
      && es[0].at == at && es[1].at == at + 3600.0 && es[2].at == at + 3780.0 && es[0].ttl == es[1].ttl == 7200.0
      && forall k :: 2 < k < 9 ==> es[k].at == es[k - 1].at + 600.0 && es[k].ttl == 1200.0
  {
    var es := EveOfPeak(tokens, at);
    LostExactly(es, 7);
    CrashSkipsTicks(es, 8);
  }
}
