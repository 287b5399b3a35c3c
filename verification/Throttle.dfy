/** `selcrs/http.py`: the two semaphores and the backoff loop they surround. */
module Throttle {
  import opened Wrappers

  const BACKOFF: seq<nat> := [1, 2, 4, 8, 16]
  const MAX_ATTEMPTS: nat := 5
  const SCHOOL_PERMITS: nat := 2
  const CAPTCHA_PERMITS: nat := 1

  // ---------- one call ----------

  datatype Attempt = Answered(body: string) | TransportError | Raised

  /** `reply(n)` is what attempt `n` meets. The answer is that of the first
      attempt not stopped by a transport error; every stopped one waits. */
  method RequestWithBackoff(reply: nat -> Attempt)
    returns (result: Option<Attempt>, attempts: nat, waits: seq<nat>)
    ensures 1 <= attempts <= 5
    ensures result.Some? ==> result.value == reply(attempts - 1) && !result.value.TransportError?
    ensures result.Some? ==>
      (forall n: nat :: n < attempts - 1 ==> reply(n).TransportError?) && waits == [1, 2, 4, 8, 16][..attempts - 1]
    ensures result.None? <==> forall n: nat :: n < 5 ==> reply(n).TransportError?
    ensures result.None? ==> attempts == 5 && waits == [1, 2, 4, 8, 16]
  {
    waits := [];
    for n := 0 to |BACKOFF|
      invariant waits == BACKOFF[..n]
      invariant forall m: nat :: m < n ==> reply(m).TransportError?
    {
      var met := reply(n);
      if !met.TransportError? {
        return Some(met), n + 1, waits;
      }
      waits := waits + [BACKOFF[n]];
    }
    return None, MAX_ATTEMPTS, waits;
  }

  // ---------- all calls together ----------

  /** `failed` attempts so far. A captcha call first takes the captcha permit,
      then the school permit; both are kept through the backoff waits. */
  datatype Phase =
    | WantCaptcha
    | WantSchool
    | Trying(failed: nat)
    | Sleeping(failed: nat)
    | Finished(outcome: Outcome)

  datatype Outcome = Response | Unreachable | Error

  datatype Call = Call(captcha: bool, phase: Phase, attempts: nat, waits: seq<nat>)

  datatype State = State(calls: seq<Call>, school: nat, captcha: nat)

  const IDLE := State([], SCHOOL_PERMITS, CAPTCHA_PERMITS)

  /** `Abort` is any other exception or a cancellation; it releases like a return. */
  datatype Action =
    | Arrive(captcha: bool)
    | TakeCaptcha(id: nat)
    | TakeSchool(id: nat)
    | Answer(id: nat)
    | Fail(id: nat)
    | Wake(id: nat)
    | Abort(id: nat)

  function InFlight(c: Call): nat {
    if c.phase.Trying? || c.phase.Sleeping? then 1 else 0
  }

  function CaptchaHeld(c: Call): nat {
    if c.captcha && (c.phase.WantSchool? || InFlight(c) == 1) then 1 else 0
  }

  function CaptchaInFlight(c: Call): nat {
    if c.captcha then InFlight(c) else 0
  }

  predicate Pending(c: Call) {
    !c.phase.Finished?
  }

  predicate Enabled(s: State, a: Action) {
    a.Arrive? || (a.id < |s.calls| &&
      var phase := s.calls[a.id].phase;
      match a
      case Arrive(_) => true
      case TakeCaptcha(_) => phase.WantCaptcha? && s.captcha > 0
      case TakeSchool(_) => phase.WantSchool? && s.school > 0
      case Answer(_) => phase.Trying?
      case Fail(_) => phase.Trying?
      case Wake(_) => phase.Sleeping?
      case Abort(_) => !phase.Finished?)
  }

  function NextCall(c: Call, a: Action): Call {
    match a
    case Arrive(_) => c
    case TakeCaptcha(_) => c.(phase := WantSchool)
    case TakeSchool(_) => c.(phase := Trying(0), attempts := 1)
    case Answer(_) => c.(phase := Finished(Response))
    case Fail(_) => if c.phase.Trying? && c.phase.failed < MAX_ATTEMPTS then
        c.(phase := Sleeping(c.phase.failed + 1), waits := c.waits + [BACKOFF[c.phase.failed]])
      else c
    case Wake(_) => if c.phase.Sleeping? && c.phase.failed < MAX_ATTEMPTS then
        c.(phase := Trying(c.phase.failed), attempts := c.attempts + 1)
      else c.(phase := Finished(Unreachable))
    case Abort(_) => c.(phase := Finished(Error))
  }

  function Next(s: State, a: Action): State {
    if !Enabled(s, a) then s
    else match a
      case Arrive(captcha) =>
        s.(calls := s.calls + [Call(captcha, if captcha then WantCaptcha else WantSchool, 0, [])])
      case TakeCaptcha(id) => Moved(s, a).(captcha := s.captcha - 1)
      case TakeSchool(id) => Moved(s, a).(school := s.school - 1)
      case Answer(id) => Released(s, a)
      case Fail(id) => Moved(s, a)
      case Wake(id) => if s.calls[id].phase.failed < MAX_ATTEMPTS then Moved(s, a) else Released(s, a)
      case Abort(id) => Released(s, a)
  }

  function Moved(s: State, a: Action): State
    requires !a.Arrive? && a.id < |s.calls|
  {
    s.(calls := s.calls[a.id := NextCall(s.calls[a.id], a)])
  }

  /** Leaving the `async with` blocks returns what had been acquired. */
  function Released(s: State, a: Action): State
    requires !a.Arrive? && a.id < |s.calls|
  {
    match s.calls[a.id].phase
    case Trying(_) => ReleasedBoth(s, a)
    case Sleeping(_) => ReleasedBoth(s, a)
    case WantSchool => if s.calls[a.id].captcha then Moved(s, a).(captcha := s.captcha + 1) else Moved(s, a)
    case _ => Moved(s, a)
  }

  function ReleasedBoth(s: State, a: Action): State
    requires !a.Arrive? && a.id < |s.calls|
  {
    Moved(s, a).(school := s.school + 1, captcha := if s.calls[a.id].captcha then s.captcha + 1 else s.captcha)
  }

  function After(acts: seq<Action>): State {
    if acts == [] then IDLE else Next(After(acts[..|acts| - 1]), acts[|acts| - 1])
  }

  // ---------- a call that is alone ----------

  /** A call arrives and takes its permits. */
  function Entering(captcha: bool): seq<Action> {
    if captcha then [Arrive(true), TakeCaptcha(0), TakeSchool(0)] else [Arrive(false), TakeSchool(0)]
  }

  function Failures(n: nat): seq<Action> {
    if n == 0 then [] else Failures(n - 1) + [Fail(0), Wake(0)]
  }

  lemma AfterTwo(acts: seq<Action>, a: Action, b: Action)
    ensures After(acts + [a, b]) == Next(Next(After(acts), a), b)
  {
    assert (acts + [a, b])[..|acts| + 1] == acts + [a];
    assert (acts + [a])[..|acts|] == acts;
  }

  lemma Entered(captcha: bool)
    ensures After(Entering(captcha)) == Alone(captcha, 0)
  {
    var first := [Arrive(captcha)];
    assert first[..0] == [] && After([]) == IDLE;
    if captcha {
      assert Entering(true) == first + [TakeCaptcha(0), TakeSchool(0)];
      AfterTwo(first, TakeCaptcha(0), TakeSchool(0));
    } else {
      assert Entering(false)[..1] == first;
    }
  }

  /** Where a lone call stands after `n` failures. */
  function Alone(captcha: bool, n: nat): State
    requires n <= 5
  {
    if n < 5 then State([Call(captcha, Trying(n), n + 1, [1, 2, 4, 8, 16][..n])], 1, if captcha then 0 else 1)
    else State([Call(captcha, Finished(Unreachable), 5, [1, 2, 4, 8, 16])], 2, 1)
  }

  lemma FailsOnce(captcha: bool, n: nat)
    requires n < 5
    ensures Next(Next(Alone(captcha, n), Fail(0)), Wake(0)) == Alone(captcha, n + 1)
  {
    var waits := [1, 2, 4, 8, 16];
    assert waits[..n + 1] == waits[..n] + [waits[n]];
    assert waits[..5] == waits;
    assert Next(Alone(captcha, n), Fail(0)).calls == [Call(captcha, Sleeping(n + 1), n + 1, waits[..n + 1])];
  }

  /** A lone call that fails `n` times keeps its permits and has waited 1, 2, 4, 8
      and 16 in turn; the fifth failure ends it and gives them back. */
  lemma {:induction false} LoneCall(captcha: bool, n: nat)
    requires n <= 5
    ensures After(Entering(captcha) + Failures(n)) == Alone(captcha, n)
  {
    hide Next, After, Alone;
    if n == 0 {
      assert Entering(captcha) + Failures(0) == Entering(captcha);
      Entered(captcha);
    } else {
      LoneCall(captcha, n - 1);
      var before := Entering(captcha) + Failures(n - 1);
      assert Entering(captcha) + Failures(n) == before + [Fail(0), Wake(0)];
      AfterTwo(before, Fail(0), Wake(0));
      FailsOnce(captcha, n - 1);
    }
  }

  /** Both permits can be out at once. */
  lemma BoundIsMet()
    ensures var s := After([Arrive(false), TakeSchool(0), Arrive(false), TakeSchool(1)]);
      |s.calls| == 2 && InFlight(s.calls[0]) == InFlight(s.calls[1]) == 1 && s.school == 0
  {
    Entered(false);
    AfterTwo([Arrive(false), TakeSchool(0)], Arrive(false), TakeSchool(1));
    assert [Arrive(false), TakeSchool(0)] + [Arrive(false), TakeSchool(1)]
        == [Arrive(false), TakeSchool(0), Arrive(false), TakeSchool(1)];
  }

  // ---------- what holds over every interleaving ----------

  function Total(calls: seq<Call>, weight: Call -> nat): nat {
    if calls == [] then 0 else Total(calls[..|calls| - 1], weight) + weight(calls[|calls| - 1])
  }

  lemma {:induction false} TotalUpdate(calls: seq<Call>, i: nat, d: Call, weight: Call -> nat)
    requires i < |calls|
    ensures Total(calls[i := d], weight) + weight(calls[i]) == Total(calls, weight) + weight(d)
  {
    var last := |calls| - 1;
    if i < last {
      TotalUpdate(calls[..last], i, d, weight);
      assert calls[i := d][..last] == calls[..last][i := d];
    } else {
      assert calls[i := d][..last] == calls[..last];
    }
  }

  lemma TotalSnoc(calls: seq<Call>, d: Call, weight: Call -> nat)
    ensures Total(calls + [d], weight) == Total(calls, weight) + weight(d)
  {
    assert (calls + [d])[..|calls|] == calls;
  }

  lemma {:induction false} TotalZero(calls: seq<Call>, weight: Call -> nat)
    requires forall i :: 0 <= i < |calls| ==> weight(calls[i]) == 0
    ensures Total(calls, weight) == 0
  {
    if calls != [] {
      TotalZero(calls[..|calls| - 1], weight);
    }
  }

  predicate CallOk(c: Call) {
    (c.phase.WantCaptcha? ==> c.captcha) &&
    match c.phase
    case WantCaptcha => c.attempts == 0 && c.waits == []
    case WantSchool => c.attempts == 0 && c.waits == []
    case Trying(failed) => failed < MAX_ATTEMPTS && c.attempts == failed + 1 && c.waits == BACKOFF[..failed]
    case Sleeping(failed) => 1 <= failed <= MAX_ATTEMPTS && c.attempts == failed && c.waits == BACKOFF[..failed]
    case Finished(Response) => 1 <= c.attempts <= MAX_ATTEMPTS && c.waits == BACKOFF[..c.attempts - 1]
    case Finished(Unreachable) => c.attempts == MAX_ATTEMPTS && c.waits == BACKOFF
    case Finished(Error) =>
      c.attempts <= MAX_ATTEMPTS && c.waits <= BACKOFF && c.attempts - 1 <= |c.waits| <= c.attempts
  }

  ghost predicate Inv(s: State) {
    && (forall i :: 0 <= i < |s.calls| ==> CallOk(s.calls[i]))
    && s.school + Total(s.calls, InFlight) == SCHOOL_PERMITS
    && s.captcha + Total(s.calls, CaptchaHeld) == CAPTCHA_PERMITS
  }

  lemma NextCallOk(s: State, a: Action)
    requires Enabled(s, a) && !a.Arrive? && CallOk(s.calls[a.id])
    ensures CallOk(NextCall(s.calls[a.id], a))
  {
    assert forall n: nat :: n < MAX_ATTEMPTS ==> BACKOFF[..n + 1] == BACKOFF[..n] + [BACKOFF[n]];
    assert BACKOFF[..MAX_ATTEMPTS] == BACKOFF;
  }

  /** One call moves, and the permits move with what it holds. */
  lemma PermitsFollow(s: State, a: Action)
    requires Enabled(s, a) && !a.Arrive? && CallOk(s.calls[a.id])
    ensures var c := s.calls[a.id]; var d := NextCall(c, a); var t := Next(s, a);
      && t.calls == s.calls[a.id := d]
      && t.school + InFlight(d) == s.school + InFlight(c)
      && t.captcha + CaptchaHeld(d) == s.captcha + CaptchaHeld(c)
  {
  }

  lemma NextKeepsInv(s: State, a: Action)
    requires Inv(s)
    ensures Inv(Next(s, a))
  {
    if Enabled(s, a) {
      if a.Arrive? {
        ArriveKeepsInv(s, a.captcha);
      } else {
        var d := NextCall(s.calls[a.id], a);
        PermitsFollow(s, a);
        NextCallOk(s, a);
        hide Next, NextCall, CallOk, InFlight, CaptchaHeld, Enabled;
        TotalUpdate(s.calls, a.id, d, InFlight);
        TotalUpdate(s.calls, a.id, d, CaptchaHeld);
      }
    }
  }

  lemma ArriveKeepsInv(s: State, captcha: bool)
    requires Inv(s)
    ensures Inv(Next(s, Arrive(captcha)))
  {
    var c := Call(captcha, if captcha then WantCaptcha else WantSchool, 0, []);
    TotalSnoc(s.calls, c, InFlight);
    TotalSnoc(s.calls, c, CaptchaHeld);
  }

  lemma {:induction false} InvAlways(acts: seq<Action>)
    ensures Inv(After(acts))
  {
    if acts != [] {
      InvAlways(acts[..|acts| - 1]);
      NextKeepsInv(After(acts[..|acts| - 1]), acts[|acts| - 1]);
    }
  }

  /** At most two school calls and one captcha call are in flight, backoff waits
      included, and each call's attempts and waits are those of the loop. */
  lemma InFlightBounded(acts: seq<Action>)
    ensures Total(After(acts).calls, InFlight) <= 2
    ensures Total(After(acts).calls, CaptchaInFlight) <= 1
    ensures forall i :: 0 <= i < |After(acts).calls| ==> CallOk(After(acts).calls[i])
  {
    InvAlways(acts);
    TotalMonotone(After(acts).calls, CaptchaInFlight, CaptchaHeld);
  }

  lemma {:induction false} TotalMonotone(calls: seq<Call>, less: Call -> nat, more: Call -> nat)
    requires forall i :: 0 <= i < |calls| ==> less(calls[i]) <= more(calls[i])
    ensures Total(calls, less) <= Total(calls, more)
  {
    if calls != [] {
      TotalMonotone(calls[..|calls| - 1], less, more);
    }
  }

  /** A step the program itself takes: no arrival, no outside abort. */
  predicate Progress(a: Action) {
    !a.Arrive? && !a.Abort?
  }

  /** While any call is pending, some call can move. */
  lemma NeverDeadlocked(acts: seq<Action>) returns (a: Action)
    requires exists i :: 0 <= i < |After(acts).calls| && Pending(After(acts).calls[i])
    ensures Progress(a) && Enabled(After(acts), a)
  {
    InvAlways(acts);
    var s := After(acts);
    if i :| 0 <= i < |s.calls| && InFlight(s.calls[i]) == 1 {
      a := if s.calls[i].phase.Trying? then Answer(i) else Wake(i);
    } else {
      TotalZero(s.calls, InFlight);
      if i :| 0 <= i < |s.calls| && s.calls[i].phase.WantSchool? {
        a := TakeSchool(i);
      } else {
        TotalZero(s.calls, CaptchaHeld);
        var i :| 0 <= i < |s.calls| && Pending(s.calls[i]);
        a := TakeCaptcha(i);
      }
    }
  }

  /** Steps a call can still take. */
  function Left(c: Call): nat {
    match c.phase
    case WantCaptcha => 2 * MAX_ATTEMPTS + 2
    case WantSchool => 2 * MAX_ATTEMPTS + 1
    case Trying(failed) => if failed < MAX_ATTEMPTS then 2 * (MAX_ATTEMPTS - failed) else 0
    case Sleeping(failed) => if failed <= MAX_ATTEMPTS then 2 * (MAX_ATTEMPTS - failed) + 1 else 0
    case Finished(_) => 0
  }

  lemma LeftDecreases(s: State, a: Action)
    requires Enabled(s, a) && !a.Arrive? && CallOk(s.calls[a.id])
    ensures Left(NextCall(s.calls[a.id], a)) < Left(s.calls[a.id])
  {
  }

  lemma EveryStepCounts(s: State, a: Action)
    requires Inv(s) && Enabled(s, a) && !a.Arrive?
    ensures Total(Next(s, a).calls, Left) < Total(s.calls, Left)
  {
    PermitsFollow(s, a);
    LeftDecreases(s, a);
    hide Next, NextCall, CallOk, Left, Enabled;
    TotalUpdate(s.calls, a.id, NextCall(s.calls[a.id], a), Left);
  }

  predicate AllEnabled(s: State, acts: seq<Action>)
    decreases |acts|
  {
    acts == [] || (Enabled(s, acts[0]) && !acts[0].Arrive? && AllEnabled(Next(s, acts[0]), acts[1..]))
  }

  /** Without new arrivals the calls present take at most `Left` steps together,
      so with the absence of deadlock every call finishes. */
  lemma {:induction false} RunsEnd(s: State, acts: seq<Action>)
    requires Inv(s) && AllEnabled(s, acts)
    ensures |acts| <= Total(s.calls, Left)
    decreases |acts|
  {
    if acts != [] {
      NextKeepsInv(s, acts[0]);
      EveryStepCounts(s, acts[0]);
      RunsEnd(Next(s, acts[0]), acts[1..]);
    }
  }
}
