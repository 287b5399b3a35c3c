/** `auth/sessions.py`: the sliding jar and its fixed hard cap. */
module JarStore {
  import opened Wrappers
  import opened Redis

  datatype Ttls = Ttls(sliding: Instant, hard: Instant)
  datatype Family = Selcrs | Regweb | Stusco
  datatype Pair = Pair(jar: Key<string>, anchor: Key<string>)

  const NO_JAR := Pair(Gone, Gone)

  function AfterStore(t: Ttls, p: Pair, now: Instant, payload: string): Pair {
    Pair(SetEx(payload, now, t.sliding), SetNxEx(p.anchor, "1", now, t.hard))
  }

  function AfterLoad(t: Ttls, p: Pair, now: Instant): Pair {
    if Get(p.anchor, now).None? then p.(jar := Gone)
    else if Get(p.jar, now).None? then p
    else p.(jar := Expire(p.jar, now, t.sliding))
  }

  function Loaded(p: Pair, now: Instant): Option<string> {
    if Get(p.anchor, now).None? then None else Get(p.jar, now)
  }

  class Sessions {
    const ttls: Ttls
    var pairs: map<(Family, string), Pair>

    constructor (ttls: Ttls)
      ensures this.ttls == ttls && pairs == map[]
    {
      this.ttls := ttls;
      pairs := map[];
    }

    function Of(family: Family, session: string): Pair
      reads this
    {
      if (family, session) in pairs then pairs[(family, session)] else NO_JAR
    }

    method StoreJarPair(family: Family, session: string, now: Instant, payload: string)
      modifies this
      ensures pairs == old(pairs)[(family, session) := AfterStore(ttls, old(Of(family, session)), now, payload)]
      ensures Of(family, session).jar == Held(payload, Some(now + ttls.sliding))
      ensures Of(family, session).anchor ==
        if Get(old(Of(family, session)).anchor, now).Some? then old(Of(family, session)).anchor
        else Held("1", Some(now + ttls.hard))
    {
      var p := Of(family, session);
      p := p.(jar := SetEx(payload, now, ttls.sliding));
      p := p.(anchor := SetNxEx(p.anchor, "1", now, ttls.hard));
      pairs := pairs[(family, session) := p];
    }

    method LoadJarPair(family: Family, session: string, now: Instant) returns (payload: Option<string>)
      modifies this
      ensures payload == Loaded(old(Of(family, session)), now)
      ensures pairs == old(pairs)[(family, session) := AfterLoad(ttls, old(Of(family, session)), now)]
      ensures Get(old(Of(family, session)).anchor, now).None? ==> payload == None && Of(family, session).jar == Gone
      ensures payload.Some? ==> Of(family, session).jar == Held(payload.value, Some(now + ttls.sliding))
      ensures Of(family, session).anchor == old(Of(family, session)).anchor
    {
      var p := Of(family, session);
      if Get(p.anchor, now).None? {
        pairs := pairs[(family, session) := p.(jar := Gone)];
        return None;
      }
      payload := Get(p.jar, now);
      if payload.Some? {
        p := p.(jar := Expire(p.jar, now, ttls.sliding));
      }
      pairs := pairs[(family, session) := p];
    }

    /** Logout drops the jars of every family of the session, and of no other. */
    method DeleteSiteSession(session: string)
      modifies this
      ensures forall family, other :: Of(family, other) == if other == session then NO_JAR else old(Of(family, other))
    {
      pairs := pairs - {(Selcrs, session), (Regweb, session), (Stusco, session)};
      forall family, other
        ensures Of(family, other) == if other == session then NO_JAR else old(Of(family, other))
      {
        assert family == Selcrs || family == Regweb || family == Stusco;
      }
    }
  }

  // ---------- runs of one jar ----------

  datatype Event = Store(at: Instant, payload: string) | Load(at: Instant) | Logout(at: Instant)

  function Step(t: Ttls, p: Pair, e: Event): Pair {
    match e
    case Store(at, payload) => AfterStore(t, p, at, payload)
    case Load(at) => AfterLoad(t, p, at)
    case Logout(_) => NO_JAR
  }

  function After(t: Ttls, es: seq<Event>): Pair {
    if es == [] then NO_JAR else Step(t, After(t, es[..|es| - 1]), es[|es| - 1])
  }

  predicate InTimeOrder(es: seq<Event>) {
    forall i, j :: 0 <= i < j < |es| ==> es[i].at <= es[j].at
  }

  /** The instant the current cap counts from: the first store of the session
      that found no standing cap. Loads and re-stores never move it. */
  function Anchor(t: Ttls, es: seq<Event>): Option<Instant> {
    if es == [] then None
    else
      var before, e := Anchor(t, es[..|es| - 1]), es[|es| - 1];
      match e
      case Load(_) => before
      case Logout(_) => None
      case Store(at, _) => if before.Some? && at < before.value + t.hard then before else Some(at)
  }

  lemma {:induction false} AnchorKeyIsAnchor(t: Ttls, es: seq<Event>)
    ensures After(t, es).anchor == match Anchor(t, es) case None => Gone case Some(a) => Held("1", Some(a + t.hard))
  {
    if es != [] {
      AnchorKeyIsAnchor(t, es[..|es| - 1]);
    }
  }

  /** Since the store at `i` there was nothing but loads, each within the sliding
      window of the one before. */
  predicate KeptWarm(t: Ttls, es: seq<Event>, i: int) {
    && 0 <= i < |es| && es[i].Store?
    && forall j :: i < j < |es| ==> es[j].Load? && es[j].at - es[j - 1].at < t.sliding
  }

  predicate Holds(t: Ttls, es: seq<Event>, i: int, now: Instant) {
    && KeptWarm(t, es, i) && now - es[|es| - 1].at < t.sliding
    && Anchor(t, es).Some? && now < Anchor(t, es).value + t.hard
  }

  /** A load answers exactly when a store was kept warm up to now and the cap
      still stands, and then with that store's payload. */
  lemma {:induction false} LoadsExactly(t: Ttls, es: seq<Event>, now: Instant, payload: string)
    requires InTimeOrder(es) && (es != [] ==> es[|es| - 1].at <= now)
    ensures Loaded(After(t, es), now) == Some(payload)
       <==> exists i :: Holds(t, es, i, now) && es[i].payload == payload
  {
    AnchorKeyIsAnchor(t, es);
    if es != [] {
      var last := |es| - 1;
      var front, e := es[..last], es[last];
      match e
      case Logout(_) =>
        assert forall i :: !KeptWarm(t, es, i);
      case Store(at, p) =>
        assert KeptWarm(t, es, last);
        assert forall i :: KeptWarm(t, es, i) ==> i == last || es[last].Load?;
        if Loaded(After(t, es), now) == Some(payload) {
          assert Holds(t, es, last, now);
        }
      case Load(at) =>
        AnchorKeyIsAnchor(t, front);
        LoadsExactly(t, front, at, payload);
        LoadAgain(t, front, at, now);
        forall i
          ensures Holds(t, es, i, now) <==>
            Holds(t, front, i, at) && now - at < t.sliding && now < Anchor(t, es).value + t.hard
        {
          WarmSnoc(t, es, i);
        }
    }
  }

  lemma WarmSnoc(t: Ttls, es: seq<Event>, i: int)
    requires es != [] && es[|es| - 1].Load?
    ensures KeptWarm(t, es, i) <==> KeptWarm(t, es[..|es| - 1], i) && es[|es| - 1].at - es[|es| - 2].at < t.sliding
  {
    var last := |es| - 1;
    if KeptWarm(t, es, i) {
      assert i < last;
    }
  }

  lemma LoadAgain(t: Ttls, front: seq<Event>, at: Instant, now: Instant)
    requires at <= now
    ensures var p := After(t, front);
      Loaded(AfterLoad(t, p, at), now)
        == if Loaded(p, at).Some? && Get(p.anchor, now).Some? && now - at < t.sliding then Loaded(p, at) else None
  {
    AnchorKeyIsAnchor(t, front);
    JarHasUntil(t, front);
  }

  lemma {:induction false} JarHasUntil(t: Ttls, es: seq<Event>)
    ensures After(t, es).jar.Held? ==> After(t, es).jar.until.Some?
  {
    if es != [] {
      JarHasUntil(t, es[..|es| - 1]);
    }
  }

  /** A jar parked at `s` is never returned at or after `s + hard`, whatever
      loads and re-stores there were: the cap counts from `s` or earlier. */
  lemma NeverPastTheHardCap(t: Ttls, es: seq<Event>, now: Instant)
    requires InTimeOrder(es) && (es != [] ==> es[|es| - 1].at <= now)
    requires Loaded(After(t, es), now).Some?
    ensures exists i :: (
        && 0 <= i < |es| && es[i].Store? && Loaded(After(t, es), now) == Some(es[i].payload)
        && (forall j :: i < j < |es| ==> es[j].Load?) && now < es[i].at + t.hard)
  {
    LoadsExactly(t, es, now, Loaded(After(t, es), now).value);
    var i :| Holds(t, es, i, now) && es[i].payload == Loaded(After(t, es), now).value;
    AnchorBeforeStore(t, es, i);
  }

  lemma {:induction false} AnchorBeforeStore(t: Ttls, es: seq<Event>, i: nat)
    requires InTimeOrder(es) && i < |es| && es[i].Store? && forall j :: i < j < |es| ==> es[j].Load?
    ensures Anchor(t, es).Some? && Anchor(t, es).value <= es[i].at
  {
    var last := |es| - 1;
    if i < last {
      AnchorBeforeStore(t, es[..last], i);
    } else {
      AnchorInPast(t, es[..last], es[i].at);
    }
  }

  lemma {:induction false} AnchorInPast(t: Ttls, es: seq<Event>, now: Instant)
    requires forall j :: 0 <= j < |es| ==> es[j].at <= now
    ensures Anchor(t, es).Some? ==> Anchor(t, es).value <= now
  {
    if es != [] {
      AnchorInPast(t, es[..|es| - 1], now);
    }
  }
}
