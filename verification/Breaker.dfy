/** `auth/breaker.py`: the school circuit breaker over its three keys. */
module Breaker {
  import opened Wrappers
  import opened Redis

  const PROBE_GATE: Instant := 60.0

  datatype Knobs = Knobs(threshold: int, recovery: Instant)
  datatype Keys = Keys(streak: Key<int>, openedAt: Key<Instant>, probe: Key<string>)

  const CLOSED := Keys(Gone, Gone, Gone)

  // ---------- one call ----------

  predicate Admits(k: Knobs, s: Keys, now: Instant) {
    s.openedAt.Gone? || (now - s.openedAt.value >= k.recovery && Get(s.probe, now).None?)
  }

  function AfterAdmit(k: Knobs, s: Keys, now: Instant, nonce: string): Keys {
    if s.openedAt.Gone? || now - s.openedAt.value < k.recovery then s
    else s.(probe := SetNxEx(s.probe, nonce, now, PROBE_GATE))
  }

  function AfterUnknown(k: Knobs, s: Keys, now: Instant): Keys {
    var streak := Expire(Incr(s.streak, now), now, 2.0 * k.recovery);
    if streak.value >= k.threshold then Keys(streak, Set(now), Gone) else s.(streak := streak)
  }

  class SchoolBreaker {
    const knobs: Knobs
    var streak: Key<int>
    var openedAt: Key<Instant>
    var probe: Key<string>

    constructor (knobs: Knobs)
      ensures this.knobs == knobs && State() == CLOSED
    {
      this.knobs := knobs;
      streak, openedAt, probe := Gone, Gone, Gone;
    }

    function State(): Keys
      reads this
    {
      Keys(streak, openedAt, probe)
    }

    method Admit(now: Instant, nonce: string) returns (granted: bool)
      modifies this`probe
      ensures granted == Admits(knobs, old(State()), now)
      ensures State() == AfterAdmit(knobs, old(State()), now, nonce)
    {
      if openedAt.Gone? {
        return true;
      }
      if now - openedAt.value < knobs.recovery {
        return false;
      }
      granted := Get(probe, now).None?;
      probe := SetNxEx(probe, nonce, now, PROBE_GATE);
    }

    method RecordClassified()
      modifies this
      ensures State() == CLOSED
    {
      streak, openedAt, probe := Gone, Gone, Gone;
    }

    method RecordUnknown(now: Instant) returns (count: int)
      modifies this
      ensures State() == AfterUnknown(knobs, old(State()), now)
      ensures State().streak.Held? && count == State().streak.value
    {
      streak := Incr(streak, now);
      count := streak.value;
      streak := Expire(streak, now, 2.0 * knobs.recovery);
      if count >= knobs.threshold {
        openedAt := Set(now);
        probe := Gone;
      }
    }
  }

  // ---------- runs ----------

  datatype Event = Admit(at: Instant, nonce: string) | Classified(at: Instant) | Unknown(at: Instant)

  function Step(k: Knobs, s: Keys, e: Event): Keys {
    match e
    case Admit(at, nonce) => AfterAdmit(k, s, at, nonce)
    case Classified(_) => CLOSED
    case Unknown(at) => AfterUnknown(k, s, at)
  }

  function After(k: Knobs, es: seq<Event>): Keys {
    if es == [] then CLOSED else Step(k, After(k, es[..|es| - 1]), es[|es| - 1])
  }

  predicate InTimeOrder(es: seq<Event>) {
    forall i, j :: 0 <= i < j < |es| ==> es[i].at <= es[j].at
  }

  predicate Granted(k: Knobs, es: seq<Event>, i: int) {
    0 <= i < |es| && es[i].Admit? && Admits(k, After(k, es[..i]), es[i].at)
  }

  predicate Open(k: Knobs, es: seq<Event>, i: int) {
    0 <= i <= |es| && After(k, es[..i]).openedAt.Held?
  }

  /** The unknowns since the last coherent answer. */
  function Unknowns(es: seq<Event>): seq<Instant> {
    if es == [] then []
    else
      var before, e := Unknowns(es[..|es| - 1]), es[|es| - 1];
      match e
      case Admit(_, _) => before
      case Classified(_) => []
      case Unknown(at) => before + [at]
  }

  /** The last `n` unknowns follow one another by less than twice the recovery. */
  predicate Chain(ts: seq<Instant>, n: int, recovery: Instant) {
    && (n >= 1 ==> |ts| >= n)
    && forall j :: |ts| - n < j < |ts| && 1 <= j ==> ts[j] - ts[j - 1] < 2.0 * recovery
  }

  /** The longest such suffix. */
  function ChainLength(ts: seq<Instant>, recovery: Instant): int {
    if ts == [] then 0
    else if |ts| >= 2 && ts[|ts| - 1] - ts[|ts| - 2] < 2.0 * recovery then ChainLength(ts[..|ts| - 1], recovery) + 1
    else 1
  }

  lemma {:induction false} ChainLengthIsChain(ts: seq<Instant>, n: int, recovery: Instant)
    requires ts != []
    ensures 1 <= ChainLength(ts, recovery) <= |ts|
    ensures ChainLength(ts, recovery) >= n <==> Chain(ts, n, recovery)
  {
    var last := |ts| - 1;
    var front := ts[..last];
    if n >= 2 && |ts| >= n {
      assert |ts| - n < last < |ts|;
    }
    if |ts| >= 2 {
      ChainLengthIsChain(front, n - 1, recovery);
      assert forall j :: 0 <= j < last ==> front[j] == ts[j];
    }
  }

  /** The streak key counts the chain and outlives its last unknown by twice the
      recovery. */
  lemma {:induction false} StreakCountsChain(k: Knobs, es: seq<Event>)
    ensures var ts := Unknowns(es);
      After(k, es).streak == if ts == [] then Gone
        else Held(ChainLength(ts, k.recovery), Some(ts[|ts| - 1] + 2.0 * k.recovery))
  {
    if es != [] {
      StreakCountsChain(k, es[..|es| - 1]);
      if es[|es| - 1].Unknown? {
        var before, ts := Unknowns(es[..|es| - 1]), Unknowns(es);
        assert ts[..|ts| - 1] == before;
      }
    }
  }

  /** An unknown writes the stamp exactly when it completes `threshold` unknowns
      with no coherent answer between them and each gap under twice the
      recovery; otherwise the stamp stays as it was. */
  lemma StampedExactlyOnChain(k: Knobs, es: seq<Event>, at: Instant)
    ensures var stamped := Chain(Unknowns(es) + [at], k.threshold, k.recovery);
      After(k, es + [Unknown(at)]).openedAt == if stamped then Held(at, None) else After(k, es).openedAt
  {
    var all := es + [Unknown(at)];
    assert all[..|es|] == es;
    StreakCountsChain(k, all);
    ChainLengthIsChain(Unknowns(all), k.threshold, k.recovery);
  }

  /** The open stamp carries the instant of the last unknown that completed a
      chain, and no coherent answer followed it. */
  lemma {:induction false} StampIsLatest(k: Knobs, es: seq<Event>) returns (p: nat)
    requires After(k, es).openedAt.Held?
    ensures p < |es| && es[p].Unknown? && After(k, es).openedAt == Held(es[p].at, None)
    ensures Chain(Unknowns(es[..p]) + [es[p].at], k.threshold, k.recovery)
    ensures forall j :: p < j < |es| ==> !es[j].Classified?
    ensures forall j ::
      p < j < |es| && es[j].Unknown? ==> !Chain(Unknowns(es[..j]) + [es[j].at], k.threshold, k.recovery)
  {
    var last := |es| - 1;
    var front := es[..last];
    assert es == front + [es[last]];
    if es[last].Unknown? && Chain(Unknowns(front) + [es[last].at], k.threshold, k.recovery) {
      StampedExactlyOnChain(k, front, es[last].at);
      p := last;
    } else {
      if es[last].Unknown? {
        StampedExactlyOnChain(k, front, es[last].at);
      }
      p := StampIsLatest(k, front);
      forall j | 0 <= j < last ensures front[..j] == es[..j] {
      }
    }
  }

  /** While the stamp stays, a grant at `since` is remembered by the probe key
      or overtaken by a newer stamp. */
  predicate Remembers(s: Keys, since: Instant) {
    || (s.probe.Held? && s.probe.until.Some? && s.probe.until.value >= since + PROBE_GATE)
    || (s.openedAt.Held? && s.openedAt.value >= since)
  }

  lemma {:induction false} GrantRemembered(k: Knobs, es: seq<Event>, i: nat, n: nat)
    requires InTimeOrder(es) && Granted(k, es, i) && i < n <= |es|
    requires forall m :: i <= m <= n ==> Open(k, es, m)
    ensures Remembers(After(k, es[..n]), es[i].at)
  {
    assert es[..n][..n - 1] == es[..n - 1];
    assert Open(k, es, n - 1) && Open(k, es, n);
    if n > i + 1 {
      GrantRemembered(k, es, i, n - 1);
    }
  }

  /** While the open stamp stays present, two grants are at least the smaller of
      the probe gate and the recovery apart. */
  lemma GrantsAreSpaced(k: Knobs, es: seq<Event>, i: nat, j: nat)
    requires InTimeOrder(es) && i < j && Granted(k, es, i) && Granted(k, es, j)
    requires forall m :: i <= m <= j ==> Open(k, es, m)
    ensures es[j].at - es[i].at >= if PROBE_GATE < k.recovery then PROBE_GATE else k.recovery
  {
    GrantRemembered(k, es, i, j);
    assert Open(k, es, j);
  }

  /** No grant falls within the recovery of the unknown that stamped last. */
  lemma GrantWaitsForRecovery(k: Knobs, es: seq<Event>, i: nat) returns (p: nat)
    requires Granted(k, es, i) && Open(k, es, i)
    ensures p < i && es[p].Unknown? && es[i].at - es[p].at >= k.recovery
    ensures Chain(Unknowns(es[..p]) + [es[p].at], k.threshold, k.recovery)
    ensures forall j :: p < j < i ==> !es[j].Classified?
    ensures forall j :: p < j < i && es[j].Unknown? ==> !Chain(Unknowns(es[..j]) + [es[j].at], k.threshold, k.recovery)
  {
    p := StampIsLatest(k, es[..i]);
    forall j | 0 <= j < i ensures es[..i][..j] == es[..j] {
    }
  }

  /** The probe key is always the trace of a half-open grant under the stamp that
      still stands: a new stamp clears it. */
  lemma {:induction false} ProbeIsAGrant(k: Knobs, es: seq<Event>) returns (j: nat)
    requires After(k, es).probe.Held?
    ensures Granted(k, es, j) && Open(k, es, j) && After(k, es).probe.until == Some(es[j].at + PROBE_GATE)
    ensures Open(k, es, |es|) && After(k, es).openedAt == After(k, es[..j]).openedAt
  {
    var last := |es| - 1;
    var front := es[..last];
    assert es[..|es|] == es;
    if Granted(k, es, last) && Open(k, es, last) {
      j := last;
    } else {
      j := ProbeIsAGrant(k, front);
      assert front[..j] == es[..j] && front[..last] == front;
    }
  }

  /** Once the recovery has passed a caller is turned away only for a probe that
      was let through less than the gate before, since the latest stamp. */
  lemma RefusedOnlyForAProbe(k: Knobs, es: seq<Event>, i: nat) returns (j: nat)
    requires i < |es| && es[i].Admit? && !Granted(k, es, i)
    requires Open(k, es, i) && es[i].at - After(k, es[..i]).openedAt.value >= k.recovery
    ensures j < i && Granted(k, es, j) && Open(k, es, j) && es[i].at < es[j].at + PROBE_GATE
    ensures After(k, es[..j]).openedAt == After(k, es[..i]).openedAt
  {
    j := ProbeIsAGrant(k, es[..i]);
    assert es[..i][..j] == es[..j];
  }

  /** A failed probe re-stamps exactly while the streak key is alive, or when one
      unknown is enough. `p` is the unknown that stamped, none came since. */
  lemma FailedProbeRestamps(k: Knobs, es: seq<Event>, p: nat, at: Instant)
    requires p < |es| && es[p].Unknown? && Chain(Unknowns(es[..p]) + [es[p].at], k.threshold, k.recovery)
    requires forall j :: p < j < |es| ==> es[j].Admit?
    requires es[p].at <= at
    ensures After(k, es).openedAt == Held(es[p].at, None)
    ensures After(k, es + [Unknown(at)]).openedAt == Held(at, None)
       <==> at - es[p].at < 2.0 * k.recovery || k.threshold <= 1 || at == es[p].at
  {
    OnlyAdmitsSince(k, es, p);
    var ts := Unknowns(es);
    var more := ts + [at];
    StampedExactlyOnChain(k, es, at);
    ChainLengthIsChain(more, k.threshold, k.recovery);
    assert more[..|ts|] == ts;
    ChainLengthIsChain(ts, k.threshold, k.recovery);
  }

  lemma {:induction false} OnlyAdmitsSince(k: Knobs, es: seq<Event>, p: nat)
    requires p < |es| && es[p].Unknown? && Chain(Unknowns(es[..p]) + [es[p].at], k.threshold, k.recovery)
    requires forall j :: p < j < |es| ==> es[j].Admit?
    ensures Unknowns(es) == Unknowns(es[..p]) + [es[p].at]
    ensures After(k, es).openedAt == Held(es[p].at, None)
  {
    var last := |es| - 1;
    if last == p {
      assert es == es[..p] + [es[p]];
      StampedExactlyOnChain(k, es[..p], es[p].at);
    } else {
      assert es[..last][..p] == es[..p];
      OnlyAdmitsSince(k, es[..last], p);
    }
  }

  /** Two unknowns open the breaker, the probe ten minutes later fails, and yet a
      minute later the next caller is let through: the wait did not restart. */
  lemma LateFailedProbeDoesNotRestartTheWait()
    ensures var k := Knobs(2, 300.0);
      var es := [Unknown(0.0), Unknown(1.0), Admit(700.0, "p"), Unknown(701.0), Admit(761.0, "q")];
      Granted(k, es, 2) && Open(k, es, 2) && Open(k, es, 4) && Granted(k, es, 4)
  {
    var k := Knobs(2, 300.0);
    var es := [Unknown(0.0), Unknown(1.0), Admit(700.0, "p"), Unknown(701.0), Admit(761.0, "q")];
    assert es[..1][..0] == es[..0] && es[..2][..1] == es[..1] && es[..3][..2] == es[..2] && es[..4][..3] == es[..3];
    assert After(k, es[..1]) == Keys(Held(1, Some(600.0)), Gone, Gone);
    assert After(k, es[..2]) == Keys(Held(2, Some(601.0)), Held(1.0, None), Gone);
    assert After(k, es[..3]).probe == Held("p", Some(760.0));
    assert After(k, es[..4]) == Keys(Held(1, Some(1301.0)), Held(1.0, None), Held("p", Some(760.0)));
  }
}
