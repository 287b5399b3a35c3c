/** `auth/lockout.py`, `FailureLog`: a sliding failure log and a fixed lock. */
module Lockout {
  import opened Wrappers
  import opened Redis

  datatype Knobs = Knobs(limit: int, window: Instant)

  /** The sorted set holds one score per failure, its expiry instant; only
      pruning and counting look at it, so the scores are kept in adding order. */
  datatype Account = Account(log: Key<seq<Instant>>, lock: Key<string>)

  const FRESH := Account(Gone, Gone)

  /** `zremrangebyscore(-inf, now)`. */
  function Prune(scores: seq<Instant>, now: Instant): seq<Instant> {
    if scores == [] then []
    else
      var last := scores[|scores| - 1];
      Prune(scores[..|scores| - 1], now) + if last > now then [last] else []
  }

  function Visible(log: Key<seq<Instant>>, now: Instant): seq<Instant> {
    if Get(log, now).Some? then log.value else []
  }

  function Locked(a: Account, now: Instant): bool {
    Get(a.lock, now).Some?
  }

  function LogWith(k: Knobs, a: Account, now: Instant): Key<seq<Instant>> {
    SetEx(Prune(Visible(a.log, now), now) + [now + k.window], now, k.window)
  }

  predicate Trips(k: Knobs, a: Account, now: Instant) {
    |Visible(LogWith(k, a, now), now)| >= k.limit
  }

  function AfterFail(k: Knobs, a: Account, now: Instant): Account {
    Account(LogWith(k, a, now), if Trips(k, a, now) then SetNxEx(a.lock, "1", now, k.window) else a.lock)
  }

  /** Reading prunes the stored set; an emptied set is no key at all. */
  function AfterLook(a: Account, now: Instant): Account {
    var kept := Prune(Visible(a.log, now), now);
    a.(log := if kept == [] then Gone else a.log.(value := kept))
  }

  lemma {:induction false} PruneKeepsMembers(scores: seq<Instant>, now: Instant)
    ensures forall x :: x in Prune(scores, now) <==> x in scores && x > now
  {
    if scores != [] {
      var front := scores[..|scores| - 1];
      assert scores == front + [scores[|scores| - 1]];
      PruneKeepsMembers(front, now);
    }
  }

  class FailureLog {
    const knobs: Knobs
    var accounts: map<string, Account>
    var total: int

    constructor (knobs: Knobs)
      ensures this.knobs == knobs && accounts == map[] && total == 0
    {
      this.knobs := knobs;
      accounts, total := map[], 0;
    }

    function Of(student: string): Account
      reads this
    {
      if student in accounts then accounts[student] else FRESH
    }

    method IsLocked(student: string, now: Instant) returns (locked: bool)
      ensures locked == Locked(Of(student), now)
    {
      locked := Get(Of(student).lock, now).Some?;
    }

    method UnexpiredFailures(student: string, now: Instant) returns (count: nat)
      modifies this`accounts
      ensures count == |Prune(Visible(old(Of(student)).log, now), now)|
      ensures accounts == old(accounts)[student := AfterLook(old(Of(student)), now)]
      ensures Of(student).lock == old(Of(student)).lock
      ensures var kept := Prune(Visible(old(Of(student)).log, now), now);
        Of(student).log == if kept == [] then Gone else Held(kept, old(Of(student)).log.until)
    {
      var a := Of(student);
      var kept := Prune(Visible(a.log, now), now);
      PruneKeepsMembers(Visible(a.log, now), now);
      accounts := accounts[student := a.(log := if kept == [] then Gone else a.log.(value := kept))];
      count := |kept|;
    }

    /** The counter moves exactly when a new lock is written. */
    method RecordCredentialFail(student: string, now: Instant) returns (locked: bool)
      modifies this
      ensures accounts == old(accounts)[student := AfterFail(knobs, old(Of(student)), now)]
      ensures locked == Trips(knobs, old(Of(student)), now)
      ensures total == old(total) + if locked && !Locked(old(Of(student)), now) then 1 else 0
    {
      var a := Of(student);
      var log := Prune(Visible(a.log, now), now);
      log := log + [now + knobs.window];
      var key := SetEx(log, now, knobs.window);
      var lock := a.lock;
      locked := |Visible(key, now)| >= knobs.limit;
      if locked {
        var created := Get(lock, now).None?;
        lock := SetNxEx(lock, "1", now, knobs.window);
        if created {
          total := total + 1;
        }
      }
      accounts := accounts[student := Account(key, lock)];
    }
  }

  // ---------- runs of one account ----------

  /** What happens to one account, attempts overlapping freely: an attempt reads
      the lock and goes to the school only when unlocked; an attempt that is out
      comes back rejected and is recorded, or comes back otherwise and is not; or
      the count is looked at. */
  datatype Event = Check(at: Instant) | Fail(at: Instant) | Finish(at: Instant) | Look(at: Instant)

  /** `out` counts the attempts past their check and not yet back; `fails` is
      history: the instants of the recorded failures. */
  datatype Site = Site(account: Account, out: nat, fails: seq<Instant>)

  const START := Site(FRESH, 0, [])

  function Step(k: Knobs, s: Site, e: Event): Site {
    match e
    case Check(at) => if Locked(s.account, at) then s else s.(out := s.out + 1)
    case Fail(at) => if s.out > 0 then Site(AfterFail(k, s.account, at), s.out - 1, s.fails + [at]) else s
    case Finish(_) => if s.out > 0 then s.(out := s.out - 1) else s
    case Look(at) => s.(account := AfterLook(s.account, at))
  }

  /** An attempt goes out only when unlocked, comes back once, and leaves a failure
      behind only when it is rejected; a look drops what has expired. */
  lemma StepMeans(k: Knobs, s: Site, e: Event)
    ensures var t := Step(k, s, e);
      match e
      case Check(at) =>
        t.account == s.account && t.fails == s.fails
        && t.out == if Get(s.account.lock, at).Some? then s.out else s.out + 1
      case Fail(at) =>
        (s.out == 0 ==> t == s) && (s.out > 0 ==> t.out == s.out - 1 && t.fails == s.fails + [at])
      case Finish(_) =>
        t.account == s.account && t.fails == s.fails && t.out == if s.out > 0 then s.out - 1 else 0
      case Look(at) =>
        t.out == s.out && t.fails == s.fails && t.account.lock == s.account.lock
        && (t.account.log.Held? ==> forall x :: x in t.account.log.value ==> x > at)
  {
    if e.Look? {
      PruneKeepsMembers(Visible(s.account.log, e.at), e.at);
    }
  }

  function Run(k: Knobs, s: Site, es: seq<Event>): Site
    decreases |es|
  {
    if es == [] then s else Run(k, Step(k, s, es[0]), es[1..])
  }

  predicate Ordered(es: seq<Event>) {
    forall i, j :: 0 <= i < j < |es| ==> es[i].at <= es[j].at
  }

  predicate NotBefore(es: seq<Event>, since: Instant) {
    es != [] ==> since <= es[0].at
  }

  /** At no time are more than `c` attempts out. */
  predicate AtMost(k: Knobs, s: Site, es: seq<Event>, c: nat)
    decreases |es|
  {
    s.out <= c && (es != [] ==> AtMost(k, Step(k, s, es[0]), es[1..], c))
  }

  /** The failures a history records. */
  function Recorded(k: Knobs, es: seq<Event>): seq<Instant> {
    Run(k, START, es).fails
  }

  function Beginning(es: seq<Event>): Instant {
    if es == [] then 0.0 else es[0].at
  }

  // ---------- the count is exact ----------

  function Scores(k: Knobs, fails: seq<Instant>): seq<Instant> {
    seq(|fails|, i requires 0 <= i < |fails| => fails[i] + k.window)
  }

  /** The recorded failures not yet expired at `now`. */
  function Live(k: Knobs, fails: seq<Instant>, now: Instant): seq<Instant> {
    Prune(Scores(k, fails), now)
  }

  lemma {:induction false} PruneTwice(scores: seq<Instant>, first: Instant, second: Instant)
    requires first <= second
    ensures Prune(Prune(scores, first), second) == Prune(scores, second)
  {
    if scores != [] {
      var front, last := scores[..|scores| - 1], scores[|scores| - 1];
      PruneTwice(front, first, second);
      if last > first {
        assert (Prune(front, first) + [last])[..|Prune(front, first)|] == Prune(front, first);
      } else {
        assert Prune(scores, first) == Prune(front, first);
      }
    }
  }

  lemma {:induction false} AllExpired(scores: seq<Instant>, now: Instant)
    requires forall i :: 0 <= i < |scores| ==> scores[i] <= now
    ensures Prune(scores, now) == []
  {
    if scores != [] {
      AllExpired(scores[..|scores| - 1], now);
    }
  }

  lemma PruneSnoc(scores: seq<Instant>, last: Instant, now: Instant)
    ensures Prune(scores + [last], now) == Prune(scores, now) + if last > now then [last] else []
  {
    assert (scores + [last])[..|scores|] == scores;
  }

  /** The stored set, key expiry included, answers every later count as the
      recorded failures would. */
  ghost predicate Faithful(k: Knobs, a: Account, fails: seq<Instant>, since: Instant) {
    forall now :: now >= since ==> Prune(Visible(a.log, now), now) == Live(k, fails, now)
  }

  ghost predicate Before(fails: seq<Instant>, at: Instant) {
    forall i :: 0 <= i < |fails| ==> fails[i] <= at
  }

  lemma FailKeepsFaithful(k: Knobs, a: Account, fails: seq<Instant>, since: Instant, at: Instant)
    requires Faithful(k, a, fails, since) && Before(fails, at) && since <= at
    ensures Faithful(k, AfterFail(k, a, at), fails + [at], at)
  {
    var log := LogWith(k, a, at);
    var kept := Prune(Visible(a.log, at), at);
    assert kept == Live(k, fails, at);
    assert Scores(k, fails + [at]) == Scores(k, fails) + [at + k.window];
    forall now | now >= at ensures Prune(Visible(log, now), now) == Live(k, fails + [at], now) {
      if now < at + k.window {
        PruneTwice(Scores(k, fails), at, now);
        PruneSnoc(kept, at + k.window, now);
        PruneSnoc(Scores(k, fails), at + k.window, now);
      } else {
        AllExpired(Scores(k, fails + [at]), now);
      }
    }
  }

  lemma LookKeepsFaithful(k: Knobs, a: Account, fails: seq<Instant>, since: Instant, at: Instant)
    requires Faithful(k, a, fails, since) && since <= at
    ensures Faithful(k, AfterLook(a, at), fails, at)
  {
    var kept := Prune(Visible(a.log, at), at);
    forall now | now >= at ensures Prune(Visible(AfterLook(a, at).log, now), now) == Live(k, fails, now) {
      PruneTwice(Visible(a.log, at), at, now);
      assert Prune(Visible(a.log, now), now) == Live(k, fails, now);
    }
  }

  ghost predicate Ascending(fails: seq<Instant>) {
    forall i, j :: 0 <= i < j < |fails| ==> fails[i] <= fails[j]
  }

  /** Recorded failure `i` spends the budget: with it, `limit` are unexpired. */
  predicate Spends(k: Knobs, fails: seq<Instant>, i: int) {
    0 <= i < |fails| && |Live(k, fails[..i + 1], fails[i])| >= k.limit
  }

  /** The number of failures up to and with the one that wrote the lock key: the
      last that spent the budget and found no lock standing. */
  function Writer(k: Knobs, fails: seq<Instant>): (w: nat)
    ensures w <= |fails|
  {
    if fails == [] then 0
    else
      var w := Writer(k, fails[..|fails| - 1]);
      if Spends(k, fails, |fails| - 1) && !Stands(k, fails, w, fails[|fails| - 1]) then |fails| else w
  }

  predicate Stands(k: Knobs, fails: seq<Instant>, w: nat, now: Instant)
    requires w <= |fails|
  {
    w > 0 && now < fails[w - 1] + k.window
  }

  function LockOf(k: Knobs, fails: seq<Instant>): Key<string> {
    var w := Writer(k, fails);
    if w == 0 then Gone else Held("1", Some(fails[w - 1] + k.window))
  }

  /** The keys of the account are what the recorded failures make them. */
  ghost predicate Tracked(k: Knobs, s: Site, since: Instant) {
    && Before(s.fails, since) && Ascending(s.fails)
    && Faithful(k, s.account, s.fails, since)
    && s.account.lock == LockOf(k, s.fails)
  }

  lemma TripsWhenSpent(k: Knobs, a: Account, fails: seq<Instant>, at: Instant)
    requires Faithful(k, a, fails, at) && Before(fails, at)
    ensures Trips(k, a, at) <==> Spends(k, fails + [at], |fails|)
  {
    var more := fails + [at];
    assert more[..|fails| + 1] == more;
    FailKeepsFaithful(k, a, fails, at, at);
    assert Prune(Visible(LogWith(k, a, at), at), at) == Live(k, more, at);
    var kept := Prune(Visible(a.log, at), at);
    PruneTwice(Visible(a.log, at), at, at);
    PruneSnoc(kept, at + k.window, at);
    if at < at + k.window {
      assert Visible(LogWith(k, a, at), at) == Live(k, more, at);
    } else {
      assert Visible(LogWith(k, a, at), at) == [];
    }
  }

  lemma WriterSnoc(k: Knobs, fails: seq<Instant>, at: Instant)
    ensures Writer(k, fails + [at]) ==
      if Spends(k, fails + [at], |fails|) && !Stands(k, fails, Writer(k, fails), at) then |fails| + 1
      else Writer(k, fails)
  {
    assert (fails + [at])[..|fails|] == fails;
  }

  lemma LockAfterFail(k: Knobs, a: Account, fails: seq<Instant>, at: Instant)
    requires Faithful(k, a, fails, at) && Before(fails, at) && a.lock == LockOf(k, fails)
    ensures AfterFail(k, a, at).lock == LockOf(k, fails + [at])
  {
    hide Spends, Trips, Faithful, Writer;
    TripsWhenSpent(k, a, fails, at);
    WriterSnoc(k, fails, at);
  }

  lemma StepTracked(k: Knobs, s: Site, e: Event, since: Instant)
    requires Tracked(k, s, since) && since <= e.at
    ensures Tracked(k, Step(k, s, e), e.at)
  {
    hide Prune, Live, AfterFail, LockOf;
    match e
    case Fail(at) =>
      if s.out > 0 {
        FailKeepsFaithful(k, s.account, s.fails, since, at);
        LockAfterFail(k, s.account, s.fails, at);
      }
    case Look(at) => LookKeepsFaithful(k, s.account, s.fails, since, at);
    case _ =>
  }

  /** The last instant of a history. */
  function Last(es: seq<Event>, since: Instant): Instant {
    if es == [] then since else es[|es| - 1].at
  }

  lemma {:induction false} RunTracked(k: Knobs, s: Site, es: seq<Event>, since: Instant)
    requires Tracked(k, s, since) && Ordered(es) && NotBefore(es, since)
    ensures Tracked(k, Run(k, s, es), Last(es, since))
    decreases |es|
  {
    hide Tracked, Step;
    if es != [] {
      StepTracked(k, s, es[0], since);
      assert forall i, j :: 0 <= i < j < |es[1..]| ==> es[1..][i] == es[i + 1] && es[1..][j] == es[j + 1];
      RunTracked(k, Step(k, s, es[0]), es[1..], es[0].at);
    }
  }

  lemma StartTracked(k: Knobs, since: Instant)
    ensures Tracked(k, START, since)
  {
  }

  /** Key-level expiry never drops an unexpired entry: the count is exact,
      however attempts overlap. */
  lemma CountIsExact(k: Knobs, es: seq<Event>, now: Instant)
    requires Ordered(es) && now >= Last(es, now)
    ensures Prune(Visible(Run(k, START, es).account.log, now), now) == Live(k, Recorded(k, es), now)
  {
    var since := if es == [] then now else es[0].at;
    StartTracked(k, since);
    RunTracked(k, START, es, since);
  }

  /** The lock key is written by every failure that spends the budget and finds
      no lock standing, and by nothing else. */
  lemma LockIsTheLastSpent(k: Knobs, es: seq<Event>)
    requires Ordered(es)
    ensures Run(k, START, es).account.lock == LockOf(k, Recorded(k, es))
  {
    StartTracked(k, Beginning(es));
    RunTracked(k, START, es, Beginning(es));
  }

  // ---------- what a lock lets through ----------

  /** While a lock stands, the failures recorded since it was written and the
      attempts still out are together fewer than `c`. */
  predicate FewSince(k: Knobs, s: Site, c: nat, now: Instant) {
    var w := Writer(k, s.fails);
    s.out <= c && (Stands(k, s.fails, w, now) ==> |s.fails| - w + s.out < c)
  }

  lemma StepFew(k: Knobs, s: Site, e: Event, c: nat, since: Instant)
    requires Tracked(k, s, since) && since <= e.at && FewSince(k, s, c, since)
    requires Step(k, s, e).out <= c
    ensures FewSince(k, Step(k, s, e), c, e.at)
  {
    hide Faithful, AfterFail, AfterLook, Spends, Writer, Before, Ascending;
    if e.Fail? {
      WriterSnoc(k, s.fails, e.at);
    }
  }

  lemma {:induction false} RunFew(k: Knobs, s: Site, es: seq<Event>, c: nat, since: Instant)
    requires Tracked(k, s, since) && FewSince(k, s, c, since)
    requires Ordered(es) && NotBefore(es, since) && AtMost(k, s, es, c)
    ensures FewSince(k, Run(k, s, es), c, Last(es, since))
    decreases |es|
  {
    hide Tracked, Step, FewSince;
    if es != [] {
      assert AtMost(k, Step(k, s, es[0]), es[1..], c);
      StepTracked(k, s, es[0], since);
      StepFew(k, s, es[0], c, since);
      assert forall i, j :: 0 <= i < j < |es[1..]| ==> es[1..][i] == es[i + 1] && es[1..][j] == es[j + 1];
      RunFew(k, Step(k, s, es[0]), es[1..], c, es[0].at);
    }
  }

  lemma {:induction false} PruneDropsPrefix(scores: seq<Instant>, w: nat, now: Instant)
    requires w <= |scores| && forall i :: 0 <= i < w ==> scores[i] <= now
    ensures |Prune(scores, now)| <= |scores| - w
  {
    if w == |scores| {
      AllExpired(scores, now);
    } else {
      PruneDropsPrefix(scores[..|scores| - 1], w, now);
    }
  }

  /** At the instant a lock lapses, fewer than `c` failures are unexpired; with
      serialized attempts none is. */
  lemma LapseLeavesFew(k: Knobs, es: seq<Event>, c: nat)
    requires Ordered(es) && AtMost(k, START, es, c) && es != []
    requires Locked(Run(k, START, es).account, es[|es| - 1].at)
    ensures Run(k, START, es).account.lock.until.Some?
    ensures |Live(k, Recorded(k, es), Run(k, START, es).account.lock.until.value)| < c
  {
    hide Run, AtMost, Writer, Faithful;
    StartTracked(k, es[0].at);
    RunTracked(k, START, es, es[0].at);
    RunFew(k, START, es, c, es[0].at);
    var fails := Recorded(k, es);
    var w := Writer(k, fails);
    PruneDropsPrefix(Scores(k, fails), w, fails[w - 1] + k.window);
  }

  // ---------- how many failures a window can hold ----------

  function Budget(k: Knobs): nat {
    if k.limit < 1 then 1 else k.limit
  }

  function Larger(a: nat, b: nat): nat {
    if a < b then b else a
  }

  /** With at most `c` attempts out at a time. */
  function Bound(k: Knobs, c: nat): int {
    Larger(Budget(k), c) + c - 1
  }

  /** The number of failures in the half-open window. */
  function Tally(fails: seq<Instant>, from: Instant, width: Instant): (n: nat)
    ensures n <= |fails|
  {
    if fails == [] then 0
    else
      Tally(fails[..|fails| - 1], from, width) + if from <= fails[|fails| - 1] < from + width then 1 else 0
  }

  lemma TallySnoc(fails: seq<Instant>, at: Instant, from: Instant, width: Instant)
    ensures Tally(fails + [at], from, width) == Tally(fails, from, width) + if from <= at < from + width then 1 else 0
  {
    assert (fails + [at])[..|fails|] == fails;
  }

  /** What is in the window is unexpired until the window ends. */
  lemma {:induction false} TalliedAreLive(k: Knobs, fails: seq<Instant>, from: Instant, now: Instant)
    requires now < from + k.window
    ensures |Live(k, fails, now)| >= Tally(fails, from, k.window)
  {
    if fails != [] {
      var n := |fails| - 1;
      TalliedAreLive(k, fails[..n], from, now);
      assert Scores(k, fails)[..n] == Scores(k, fails[..n]);
    }
  }

  lemma {:induction false} TallySkips(fails: seq<Instant>, w: nat, from: Instant, width: Instant)
    requires w <= |fails| && forall i :: 0 <= i < w ==> fails[i] < from
    ensures Tally(fails, from, width) <= |fails| - w
  {
    if w == |fails| {
      if w > 0 {
        TallySkips(fails[..w - 1], w - 1, from, width);
      }
    } else {
      TallySkips(fails[..|fails| - 1], w, from, width);
    }
  }

  /** Before the window ends: without a lock it is not full; under a lock that
      outlasts it, what is out still fits. */
  predicate Fits(k: Knobs, s: Site, c: nat, from: Instant, now: Instant) {
    var w := Writer(k, s.fails);
    var n := Tally(s.fails, from, k.window);
    && (!Stands(k, s.fails, w, now) ==> n < Larger(Budget(k), c))
    && (Stands(k, s.fails, w, now) && s.fails[w - 1] >= from ==> n + s.out <= Bound(k, c))
  }

  /** A lock that does not outlast the window leaves it few when it lapses. */
  lemma FitsLater(k: Knobs, s: Site, c: nat, from: Instant, since: Instant, now: Instant)
    requires since <= now < from + k.window
    requires Tracked(k, s, since) && FewSince(k, s, c, since) && Fits(k, s, c, from, since)
    ensures Fits(k, s, c, from, now)
  {
    hide Writer, Faithful;
    var w := Writer(k, s.fails);
    if Stands(k, s.fails, w, since) && !Stands(k, s.fails, w, now) {
      TallySkips(s.fails, w, from, k.window);
    }
  }

  lemma StepFits(k: Knobs, s: Site, e: Event, c: nat, from: Instant, since: Instant)
    requires since <= e.at < from + k.window
    requires Tracked(k, s, since) && FewSince(k, s, c, since) && Fits(k, s, c, from, since)
    requires Step(k, s, e).out <= c
    ensures Fits(k, Step(k, s, e), c, from, e.at)
  {
    FitsLater(k, s, c, from, since, e.at);
    if e.Fail? && s.out > 0 {
      FailFits(k, s, c, from, since, e.at);
    } else {
      hide Writer, Tally, Faithful, AfterFail, AfterLook, Ascending, Before;
    }
  }

  lemma FailFits(k: Knobs, s: Site, c: nat, from: Instant, since: Instant, at: Instant)
    requires since <= at < from + k.window && 0 < s.out <= c
    requires Tracked(k, s, since) && Fits(k, s, c, from, at)
    ensures Fits(k, Step(k, s, Fail(at)), c, from, at)
  {
    hide Writer, Tally, Faithful, AfterFail, Ascending, Before, Live;
    WriterSnoc(k, s.fails, at);
    TallySnoc(s.fails, at, from, k.window);
    TalliedAreLive(k, s.fails + [at], from, at);
    assert (s.fails + [at])[..|s.fails| + 1] == s.fails + [at];
  }

  lemma {:induction false} LateAddsNothing(k: Knobs, s: Site, es: seq<Event>, from: Instant)
    requires Ordered(es) && NotBefore(es, from + k.window)
    ensures Tally(Run(k, s, es).fails, from, k.window) == Tally(s.fails, from, k.window)
    decreases |es|
  {
    hide Tally, AfterFail, AfterLook;
    if es != [] {
      TallySnoc(s.fails, es[0].at, from, k.window);
      assert forall i, j :: 0 <= i < j < |es[1..]| ==> es[1..][i] == es[i + 1] && es[1..][j] == es[j + 1];
      LateAddsNothing(k, Step(k, s, es[0]), es[1..], from);
    }
  }

  lemma FitsMeansBounded(k: Knobs, s: Site, c: nat, from: Instant, now: Instant)
    requires c >= 1 && Tracked(k, s, now) && FewSince(k, s, c, now) && Fits(k, s, c, from, now)
    ensures Tally(s.fails, from, k.window) <= Bound(k, c)
  {
    hide Writer, Faithful;
    var w := Writer(k, s.fails);
    if Stands(k, s.fails, w, now) && s.fails[w - 1] < from {
      TallySkips(s.fails, w, from, k.window);
    }
  }

  lemma {:induction false} RunFits(k: Knobs, s: Site, es: seq<Event>, c: nat, from: Instant, since: Instant)
    requires c >= 1 && Tracked(k, s, since) && FewSince(k, s, c, since) && Fits(k, s, c, from, since)
    requires Ordered(es) && NotBefore(es, since) && AtMost(k, s, es, c)
    ensures Tally(Run(k, s, es).fails, from, k.window) <= Bound(k, c)
    decreases |es|
  {
    hide Tracked, FewSince, Fits, Step, Tally, Bound;
    if es == [] {
      FitsMeansBounded(k, s, c, from, since);
    } else if es[0].at >= from + k.window {
      LateAddsNothing(k, s, es, from);
      FitsMeansBounded(k, s, c, from, since);
    } else {
      assert AtMost(k, Step(k, s, es[0]), es[1..], c);
      StepTracked(k, s, es[0], since);
      StepFew(k, s, es[0], c, since);
      StepFits(k, s, es[0], c, from, since);
      assert forall i, j :: 0 <= i < j < |es[1..]| ==> es[1..][i] == es[i + 1] && es[1..][j] == es[j + 1];
      RunFits(k, Step(k, s, es[0]), es[1..], c, from, es[0].at);
    }
  }

  /** With at most `c` attempts out at a time, every half-open window of one lock
      length holds at most `max(limit, c) + c - 1` recorded failures: leftovers
      of the batch that was out when the lock was written, and a fresh batch
      when it lapses. */
  lemma WindowBound(k: Knobs, es: seq<Event>, c: nat, from: Instant)
    requires c >= 1 && Ordered(es) && AtMost(k, START, es, c)
    ensures Tally(Recorded(k, es), from, k.window) <= Bound(k, c)
  {
    StartTracked(k, Beginning(es));
    RunFits(k, START, es, c, from, Beginning(es));
  }

  lemma {:induction false} TallyOfRun(fails: seq<Instant>, i: nat, j: nat, from: Instant, width: Instant)
    requires i <= j < |fails| && forall m :: i <= m <= j ==> from <= fails[m] < from + width
    ensures Tally(fails, from, width) >= j - i + 1
    decreases |fails|
  {
    var n := |fails| - 1;
    if j < n {
      TallyOfRun(fails[..n], i, j, from, width);
    } else if i < j {
      TallyOfRun(fails[..n], i, j - 1, from, width);
    }
  }

  /** So the failure that many places later comes a whole window later. */
  lemma FailuresAreSpread(k: Knobs, es: seq<Event>, c: nat, i: nat)
    requires c >= 1 && Ordered(es) && AtMost(k, START, es, c)
    requires i + Bound(k, c) < |Recorded(k, es)|
    ensures Recorded(k, es)[i + Bound(k, c)] >= Recorded(k, es)[i] + k.window
  {
    var fails, j := Recorded(k, es), i + Bound(k, c);
    StartTracked(k, Beginning(es));
    RunTracked(k, START, es, Beginning(es));
    WindowBound(k, es, c, fails[i]);
    if fails[j] < fails[i] + k.window {
      TallyOfRun(fails, i, j, fails[i], k.window);
    }
  }

  // ---------- the bound is reached ----------

  function Copies<T>(x: T, n: nat): seq<T> {
    if n == 0 then [] else Copies(x, n - 1) + [x]
  }

  lemma {:induction false} RunConcat(k: Knobs, s: Site, a: seq<Event>, b: seq<Event>, c: nat)
    requires AtMost(k, s, a, c) && AtMost(k, Run(k, s, a), b, c)
    ensures Run(k, s, a + b) == Run(k, Run(k, s, a), b) && AtMost(k, s, a + b, c)
    decreases |a|
  {
    hide Step;
    if a == [] {
      assert a + b == b;
    } else {
      RunConcat(k, Step(k, s, a[0]), a[1..], b, c);
      assert (a + b)[1..] == a[1..] + b;
    }
  }

  lemma RunOne(k: Knobs, s: Site, e: Event, c: nat)
    requires s.out <= c && Step(k, s, e).out <= c
    ensures Run(k, s, [e]) == Step(k, s, e) && AtMost(k, s, [e], c)
  {
    assert [e][1..] == [];
    assert Run(k, Step(k, s, e), []) == Step(k, s, e);
  }

  lemma {:induction false} ManyChecks(k: Knobs, s: Site, at: Instant, n: nat, c: nat)
    requires !Locked(s.account, at) && s.out + n <= c
    ensures Run(k, s, Copies(Check(at), n)) == s.(out := s.out + n) && AtMost(k, s, Copies(Check(at), n), c)
  {
    if n > 0 {
      ManyChecks(k, s, at, n - 1, c);
      var t := s.(out := s.out + n - 1);
      RunOne(k, t, Check(at), c);
      RunConcat(k, s, Copies(Check(at), n - 1), [Check(at)], c);
    }
  }

  /** Whatever the lock, all that is out may come back rejected. */
  lemma {:induction false} ManyFails(k: Knobs, s: Site, at: Instant, n: nat, c: nat)
    requires n <= s.out <= c
    ensures var t := Run(k, s, Copies(Fail(at), n)); t.out == s.out - n && t.fails == s.fails + Copies(at, n)
    ensures Locked(s.account, at) ==> Run(k, s, Copies(Fail(at), n)).account.lock == s.account.lock
    ensures AtMost(k, s, Copies(Fail(at), n), c)
  {
    hide LogWith, Trips;
    if n > 0 {
      ManyFails(k, s, at, n - 1, c);
      var t := Run(k, s, Copies(Fail(at), n - 1));
      RunOne(k, t, Fail(at), c);
      RunConcat(k, s, Copies(Fail(at), n - 1), [Fail(at)], c);
    }
  }

  lemma {:induction false} AllCopies<T>(x: T, n: nat)
    ensures |Copies(x, n)| == n && forall i :: 0 <= i < n ==> Copies(x, n)[i] == x
  {
    if n > 0 {
      AllCopies(x, n - 1);
    }
  }

  lemma {:induction false} TallyCopies(fails: seq<Instant>, at: Instant, n: nat, from: Instant, width: Instant)
    ensures Tally(fails + Copies(at, n), from, width) ==
      Tally(fails, from, width) + if from <= at < from + width then n else 0
  {
    hide Tally;
    if n == 0 {
      assert fails + Copies(at, n) == fails;
    } else {
      TallyCopies(fails, at, n - 1, from, width);
      TallySnoc(fails + Copies(at, n - 1), at, from, width);
      assert fails + Copies(at, n) == fails + Copies(at, n - 1) + [at];
    }
  }

  lemma TallyOnlyCopies(at: Instant, n: nat, from: Instant, width: Instant)
    ensures Tally(Copies(at, n), from, width) == if from <= at < from + width then n else 0
  {
    hide Copies;
    TallyCopies([], at, n, from, width);
    assert [] + Copies(at, n) == Copies(at, n);
  }

  /** Fewer failures than the budget write no lock. */
  lemma {:induction false} NoWriter(k: Knobs, fails: seq<Instant>)
    requires fails == [] || |fails| < k.limit
    ensures Writer(k, fails) == 0
  {
    if fails != [] {
      NoWriter(k, fails[..|fails| - 1]);
      PruneDropsPrefix(Scores(k, fails), 0, fails[|fails| - 1]);
      assert fails[..|fails|] == fails;
    }
  }

  /** `n` serialized failures at instant zero. */
  function Pairs(n: nat): seq<Event> {
    if n == 0 then [] else Pairs(n - 1) + [Check(0.0), Fail(0.0)]
  }

  lemma {:induction false} PairsRun(k: Knobs, n: nat, c: nat)
    requires n < Budget(k) && c >= 1
    ensures var t := Run(k, START, Pairs(n));
      Tracked(k, t, 0.0) && t.out == 0 && t.fails == Copies(0.0, n) && t.account.lock.Gone?
    ensures AtMost(k, START, Pairs(n), c)
  {
    StartTracked(k, 0.0);
    if n > 0 {
      hide Tracked, AfterFail, Writer;
      PairsRun(k, n - 1, c);
      var t := Run(k, START, Pairs(n - 1));
      var u := Step(k, t, Check(0.0));
      RunOne(k, t, Check(0.0), c);
      RunOne(k, u, Fail(0.0), c);
      RunConcat(k, t, [Check(0.0)], [Fail(0.0)], c);
      assert [Check(0.0)] + [Fail(0.0)] == [Check(0.0), Fail(0.0)];
      RunConcat(k, START, Pairs(n - 1), [Check(0.0), Fail(0.0)], c);
      StepTracked(k, t, Check(0.0), 0.0);
      StepTracked(k, u, Fail(0.0), 0.0);
      NoLockYet(k, Step(k, u, Fail(0.0)), n);
    }
  }

  lemma NoLockYet(k: Knobs, s: Site, n: nat)
    requires Tracked(k, s, 0.0) && s.fails == Copies(0.0, n) && n < Budget(k)
    ensures s.account.lock.Gone?
  {
    AllCopies(0.0, n);
    NoWriter(k, s.fails);
  }

  /** Serialized failures up to one short of the budget, then a batch of `c`
      attempts, all of them let through. */
  function Batch(k: Knobs, c: nat): seq<Event> {
    Pairs(Budget(k) - 1) + Copies(Check(0.0), c)
  }

  lemma BatchRun(k: Knobs, c: nat)
    requires c >= 1
    ensures var t := Run(k, START, Batch(k, c));
      && Tracked(k, t, 0.0) && t.out == c && t.fails == Copies(0.0, Budget(k) - 1) && t.account.lock.Gone?
    ensures AtMost(k, START, Batch(k, c), c)
  {
    hide Tracked;
    var n := Budget(k) - 1;
    PairsRun(k, n, c);
    var t := Run(k, START, Pairs(n));
    ManyChecks(k, t, 0.0, c, c);
    RunConcat(k, START, Pairs(n), Copies(Check(0.0), c), c);
    OutIsNoMatter(k, t, c);
  }

  lemma OutIsNoMatter(k: Knobs, s: Site, n: nat)
    requires Tracked(k, s, 0.0)
    ensures Tracked(k, s.(out := n), 0.0)
  {
  }

  /** The whole batch comes back rejected at once. */
  lemma AllAtOnce(k: Knobs, c: nat)
    requires c >= 1 && k.window > 0.0
    ensures var es := Batch(k, c) + Copies(Fail(0.0), c);
      AtMost(k, START, es, c) && Tally(Recorded(k, es), 0.0, k.window) == Budget(k) + c - 1
  {
    hide Tracked, AtMost, Run, Batch, Copies, Tally;
    BatchRun(k, c);
    var t := Run(k, START, Batch(k, c));
    ManyFails(k, t, 0.0, c, c);
    RunConcat(k, START, Batch(k, c), Copies(Fail(0.0), c), c);
    TallyOnlyCopies(0.0, Budget(k) - 1, 0.0, k.window);
    TallyCopies(t.fails, 0.0, c, 0.0, k.window);
  }

  function Half(k: Knobs): Instant {
    k.window / 2.0
  }

  /** One failure of the batch writes the lock; under it the rest come back, and
      a fresh batch is let through the moment it lapses. */
  function UnderTheLock(k: Knobs, c: nat): seq<Event>
    requires c >= 1
  {
    Batch(k, c) + [Fail(0.0)] + Copies(Fail(Half(k)), c - 1)
  }

  function Fresh(k: Knobs, c: nat): seq<Event> {
    Copies(Check(k.window), c) + Copies(Fail(k.window), c)
  }

  lemma SpentAtZero(k: Knobs, c: nat)
    requires c >= 1 && k.window > 0.0
    ensures var t := Run(k, START, Batch(k, c) + [Fail(0.0)]);
      && t.out == c - 1 && t.fails == Copies(0.0, Budget(k)) && t.account.lock == Held("1", Some(k.window))
    ensures AtMost(k, START, Batch(k, c) + [Fail(0.0)], c)
  {
    hide AtMost, Run, Batch, LogWith, Trips, Spends, Faithful;
    BatchRun(k, c);
    var t := Run(k, START, Batch(k, c));
    RunOne(k, t, Fail(0.0), c);
    RunConcat(k, START, Batch(k, c), [Fail(0.0)], c);
    TripsWhenSpent(k, t.account, t.fails, 0.0);
    AllCopies(0.0, Budget(k) - 1);
    FullIsSpent(k);
  }

  lemma FullIsSpent(k: Knobs)
    requires k.window > 0.0
    ensures Spends(k, Copies(0.0, Budget(k) - 1) + [0.0], Budget(k) - 1)
  {
    hide Copies, Tally, Live;
    var fails := Copies(0.0, Budget(k) - 1) + [0.0];
    AllCopies(0.0, Budget(k) - 1);
    TallyOnlyCopies(0.0, Budget(k) - 1, 0.0, k.window);
    TallySnoc(Copies(0.0, Budget(k) - 1), 0.0, 0.0, k.window);
    TalliedAreLive(k, fails, 0.0, 0.0);
    assert fails[..Budget(k)] == fails;
  }

  lemma UnderTheLockRun(k: Knobs, c: nat)
    requires c >= 1 && k.window > 0.0
    ensures var t := Run(k, START, UnderTheLock(k, c));
      && t.out == 0 && t.fails == Copies(0.0, Budget(k)) + Copies(Half(k), c - 1)
      && t.account.lock == Held("1", Some(k.window))
    ensures AtMost(k, START, UnderTheLock(k, c), c)
  {
    hide AtMost, Run, Batch, Copies, Step;
    SpentAtZero(k, c);
    var before := Batch(k, c) + [Fail(0.0)];
    var t := Run(k, START, before);
    ManyFails(k, t, Half(k), c - 1, c);
    RunConcat(k, START, before, Copies(Fail(Half(k)), c - 1), c);
  }

  /** So the leftovers and the fresh batch meet in one window. */
  lemma LeftoversMeetFresh(k: Knobs, c: nat)
    requires c >= 1 && k.window > 0.0
    ensures var es := UnderTheLock(k, c) + Fresh(k, c);
      AtMost(k, START, es, c) && Tally(Recorded(k, es), Half(k), k.window) == c - 1 + c
  {
    hide AtMost, Run, Copies, Step, UnderTheLock, Tally;
    UnderTheLockRun(k, c);
    var t := Run(k, START, UnderTheLock(k, c));
    ManyChecks(k, t, k.window, c, c);
    var u := t.(out := c);
    ManyFails(k, u, k.window, c, c);
    RunConcat(k, t, Copies(Check(k.window), c), Copies(Fail(k.window), c), c);
    RunConcat(k, START, UnderTheLock(k, c), Fresh(k, c), c);
    TallyOnlyCopies(0.0, Budget(k), Half(k), k.window);
    TallyCopies(Copies(0.0, Budget(k)), Half(k), c - 1, Half(k), k.window);
    TallyCopies(t.fails, k.window, c, Half(k), k.window);
  }

  predicate AllAt(es: seq<Event>, at: Instant) {
    forall i :: 0 <= i < |es| ==> es[i].at == at
  }

  lemma {:induction false} PairsAllAtZero(n: nat)
    ensures AllAt(Pairs(n), 0.0)
  {
    if n > 0 {
      PairsAllAtZero(n - 1);
    }
  }

  lemma PartsOrdered(a: seq<Event>, b: seq<Event>, c: seq<Event>, at: Instant, half: Instant, late: Instant)
    requires AllAt(a, at) && AllAt(b, half) && AllAt(c, late) && at <= half <= late
    ensures Ordered(a + b + c)
  {
  }

  lemma BatchAllAtZero(k: Knobs, c: nat)
    ensures AllAt(Batch(k, c), 0.0)
  {
    PairsAllAtZero(Budget(k) - 1);
    AllCopies(Check(0.0), c);
  }

  /** The bound is the best one: for every limit and every number of attempts out
      some history puts exactly that many failures into one window. */
  lemma BoundIsReached(k: Knobs, c: nat)
    requires c >= 1 && k.window > 0.0
    ensures exists es: seq<Event>, from: Instant ::
      Ordered(es) && AtMost(k, START, es, c) && Tally(Recorded(k, es), from, k.window) == Bound(k, c)
  {
    hide AtMost, Run, Copies, Batch, Tally;
    BatchAllAtZero(k, c);
    if Budget(k) >= c {
      AllAtOnce(k, c);
      AllCopies(Fail(0.0), c);
      PartsOrdered(Batch(k, c), Copies(Fail(0.0), c), [], 0.0, 0.0, 0.0);
      var es := Batch(k, c) + Copies(Fail(0.0), c);
      assert es + [] == es;
      assert Tally(Recorded(k, es), 0.0, k.window) == Bound(k, c);
    } else {
      LeftoversMeetFresh(k, c);
      AllCopies(Fail(Half(k)), c - 1);
      AllCopies(Check(k.window), c);
      AllCopies(Fail(k.window), c);
      PartsOrdered(Batch(k, c) + [Fail(0.0)], Copies(Fail(Half(k)), c - 1), Fresh(k, c), 0.0, Half(k), k.window);
      var es := UnderTheLock(k, c) + Fresh(k, c);
      assert Tally(Recorded(k, es), Half(k), k.window) == Bound(k, c);
    }
  }

  ghost predicate BudgetHolds(k: Knobs, c: nat) {
    forall es: seq<Event>, from: Instant :: Ordered(es) && AtMost(k, START, es, c) ==>
      Tally(Recorded(k, es), from, k.window) <= Budget(k)
  }

  /** The budget itself is kept exactly when attempts never overlap. */
  lemma BudgetHoldsExactlySerialized(k: Knobs, c: nat)
    requires c >= 1 && k.window > 0.0
    ensures BudgetHolds(k, c) <==> c == 1
  {
    hide AtMost, Recorded, Tally, Ordered;
    if c == 1 {
      forall es: seq<Event>, from: Instant | Ordered(es) && AtMost(k, START, es, c)
        ensures Tally(Recorded(k, es), from, k.window) <= Budget(k)
      {
        WindowBound(k, es, c, from);
      }
    } else {
      BoundIsReached(k, c);
      var es: seq<Event>, from: Instant :| Ordered(es) && AtMost(k, START, es, c)
        && Tally(Recorded(k, es), from, k.window) == Bound(k, c);
    }
  }
}
