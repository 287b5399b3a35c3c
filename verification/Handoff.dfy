/** `walk_chain` of `stuenroll/handoff.py`: redirects and auto-submit forms are
    followed to the content page, each call with the jar of the page before. */
module Handoff {
  import opened Wrappers

  const HANDOFF_MAX_BYTES: nat := 2048

  type Jar = Option<string>
  datatype Form = Form(action: string, fields: seq<(string, string)>)
  datatype Page = Page(status: int, content: string, location: Option<string>, jar: Jar)

  /** One call: a redirect followed, or a handoff posted. */
  datatype Visit = Visit(redirect: bool, url: string, sent: Jar, page: Page)

  /** Everything outside the walk: the network, the URL join, the page reader. The
      first argument of a call is its number in the walk, so two equal calls may
      be answered differently. */
  datatype Outside = Outside(
    get: (nat, string, Jar) -> Page,
    post: (nat, string, seq<(string, string)>, Jar, string) -> Page,
    join: (string, string) -> string,
    read: string -> Option<Form>)

  predicate Redirects(p: Page) {
    p.status in {301, 302, 303} && p.location.Some? && p.location.value != ""
  }

  predicate HandsOff(out: Outside, p: Page) {
    |p.content| < HANDOFF_MAX_BYTES && out.read(p.content).Some?
  }

  function Count(trace: seq<Visit>, redirect: bool): nat {
    if trace == [] then 0
    else Count(trace[..|trace| - 1], redirect) + if trace[|trace| - 1].redirect == redirect then 1 else 0
  }

  function PageBefore(start: Page, trace: seq<Visit>, k: int): Page {
    if 1 <= k <= |trace| then trace[k - 1].page else start
  }

  function UrlBefore(startUrl: string, trace: seq<Visit>, k: int): string {
    if 1 <= k <= |trace| then trace[k - 1].url else startUrl
  }

  /** Visit `v`, the `k`th, is what page `before` at `url` asks for, sent with its
      jar. */
  predicate Asked(out: Outside, k: nat, before: Page, url: string, v: Visit) {
    && v.sent == before.jar
    && if v.redirect then
         Redirects(before) && v.url == out.join(url, before.location.value) && v.page == out.get(k, v.url, before.jar)
       else
         HandsOff(out, before) && v.url == out.join(url, out.read(before.content).value.action)
         && v.page == out.post(k, v.url, out.read(before.content).value.fields, before.jar, url)
  }

  /** A handoff is posted only where no redirect may be followed. */
  predicate InTurn(limit: nat, followed: nat, before: Page, v: Visit) {
    v.redirect || !Redirects(before) || followed == limit
  }

  ghost predicate Threaded(out: Outside, start: Page, startUrl: string, limit: nat, trace: seq<Visit>) {
    forall k :: 0 <= k < |trace| ==>
      && Asked(out, k, PageBefore(start, trace, k), UrlBefore(startUrl, trace, k), trace[k])
      && InTurn(limit, Count(trace[..k], true), PageBefore(start, trace, k), trace[k])
  }

  /** Where the walk stands after `trace`. */
  ghost predicate Stands(out: Outside, start: Page, startUrl: string, limit: nat, trace: seq<Visit>, page: Page,
        url: string, hops: nat, redirects: nat)
  {
    && Threaded(out, start, startUrl, limit, trace)
    && page == PageBefore(start, trace, |trace|) && url == UrlBefore(startUrl, trace, |trace|)
    && redirects == Count(trace, true) && hops == Count(trace, false)
  }

  lemma StandsNext(out: Outside, start: Page, startUrl: string, limit: nat, trace: seq<Visit>, page: Page, url: string,
        hops: nat, redirects: nat, v: Visit)
    requires Stands(out, start, startUrl, limit, trace, page, url, hops, redirects)
    requires Asked(out, |trace|, page, url, v) && InTurn(limit, redirects, page, v)
    ensures Stands(out, start, startUrl, limit, trace + [v], v.page, v.url,
                   if v.redirect then hops else hops + 1, if v.redirect then redirects + 1 else redirects)
  {
    hide Asked, InTurn, PageBefore, UrlBefore, Count;
    var longer := trace + [v];
    CountNext(trace, v);
    LastIs(start, startUrl, trace, v);
    forall k | 0 <= k < |longer|
      ensures Asked(out, k, PageBefore(start, longer, k), UrlBefore(startUrl, longer, k), longer[k])
      ensures InTurn(limit, Count(longer[..k], true), PageBefore(start, longer, k), longer[k])
    {
      BeforeSame(start, startUrl, trace, v, k);
      assert longer[..k] == trace[..k];
      if k < |trace| {
        assert Asked(out, k, PageBefore(start, trace, k), UrlBefore(startUrl, trace, k), trace[k]);
      } else {
        assert trace[..k] == trace;
      }
    }
  }

  lemma BeforeSame(start: Page, startUrl: string, trace: seq<Visit>, v: Visit, k: nat)
    requires k <= |trace|
    ensures PageBefore(start, trace + [v], k) == PageBefore(start, trace, k)
    ensures UrlBefore(startUrl, trace + [v], k) == UrlBefore(startUrl, trace, k)
    ensures (trace + [v])[k] == if k < |trace| then trace[k] else v
  {
  }

  lemma LastIs(start: Page, startUrl: string, trace: seq<Visit>, v: Visit)
    ensures PageBefore(start, trace + [v], |trace| + 1) == v.page
      && UrlBefore(startUrl, trace + [v], |trace| + 1) == v.url
  {
  }

  lemma CountNext(trace: seq<Visit>, v: Visit)
    ensures forall redirect ::
      Count(trace + [v], redirect) == Count(trace, redirect) + if v.redirect == redirect then 1 else 0
  {
    assert (trace + [v])[..|trace|] == trace;
  }

  /** What the `k`th call of a walk is: a redirect of the page before followed at
      its location, or its form posted with its fields and its URL as the referer;
      either is sent with the jar of the page before. */
  lemma CallsMean(out: Outside, start: Page, startUrl: string, limit: nat, trace: seq<Visit>, k: nat)
    requires Threaded(out, start, startUrl, limit, trace) && k < |trace|
    ensures var before := if k == 0 then start else trace[k - 1].page;
            var base := if k == 0 then startUrl else trace[k - 1].url;
            var leads := before.status in {301, 302, 303} && before.location.Some? && before.location.value != "";
            var v := trace[k];
            && v.sent == before.jar
            && (v.redirect ==>
                  leads && v.url == out.join(base, before.location.value) && v.page == out.get(k, v.url, before.jar))
            && (!v.redirect ==>
                  && (leads ==> Count(trace[..k], true) == limit)
                  && |before.content| < 2048 && out.read(before.content).Some?
                  && var form := out.read(before.content).value;
                  v.url == out.join(base, form.action)
                  && v.page == out.post(k, v.url, form.fields, before.jar, base))
  {
    hide Count;
    var before := if k == 0 then start else trace[k - 1].page;
    var base := if k == 0 then startUrl else trace[k - 1].url;
    assert PageBefore(start, trace, k) == before && UrlBefore(startUrl, trace, k) == base;
    assert Asked(out, k, before, base, trace[k]) && InTurn(limit, Count(trace[..k], true), before, trace[k]);
  }

  /** The walk ends, within both bounds, at the first page it may not or need not
      leave; what each call was is `CallsMean`. */
  method WalkChain(out: Outside, start: Page, startUrl: string, maxHops: nat, maxRedirects: nat)
    returns (page: Page, url: string, hops: nat, redirects: nat, trace: seq<Visit>)
    ensures Threaded(out, start, startUrl, maxRedirects, trace)
    ensures page == (if trace == [] then start else trace[|trace| - 1].page)
    ensures url == if trace == [] then startUrl else trace[|trace| - 1].url
    ensures redirects == Count(trace, true) && hops == Count(trace, false)
    ensures redirects <= maxRedirects && hops <= maxHops
    ensures page.status in {301, 302, 303} && page.location.Some? && page.location.value != "" ==>
              redirects == maxRedirects
    ensures |page.content| < 2048 && out.read(page.content).Some? ==> hops == maxHops
  {
    hide Stands, Threaded, Count;
    page, url, hops, redirects, trace := start, startUrl, 0, 0, [];
    StandsAtStart(out, start, startUrl, maxRedirects);
    while true
      invariant Stands(out, start, startUrl, maxRedirects, trace, page, url, hops, redirects)
      invariant redirects <= maxRedirects && hops <= maxHops
      decreases maxRedirects - redirects + maxHops - hops
    {
      if Redirects(page) && redirects < maxRedirects {
        var target := out.join(url, page.location.value);
        var v := Visit(true, target, page.jar, out.get(|trace|, target, page.jar));
        StandsNext(out, start, startUrl, maxRedirects, trace, page, url, hops, redirects, v);
        page, url, redirects, trace := v.page, v.url, redirects + 1, trace + [v];
        continue;
      }
      if hops >= maxHops || |page.content| >= HANDOFF_MAX_BYTES {
        break;
      }
      var form := out.read(page.content);
      if form.None? {
        break;
      }
      var target := out.join(url, form.value.action);
      var v := Visit(false, target, page.jar, out.post(|trace|, target, form.value.fields, page.jar, url));
      StandsNext(out, start, startUrl, maxRedirects, trace, page, url, hops, redirects, v);
      page, url, hops, trace := v.page, v.url, hops + 1, trace + [v];
    }
    StandsMeans(out, start, startUrl, maxRedirects, trace, page, url, hops, redirects);
  }

  lemma StandsMeans(out: Outside, start: Page, startUrl: string, limit: nat, trace: seq<Visit>, page: Page, url: string,
        hops: nat, redirects: nat)
    requires Stands(out, start, startUrl, limit, trace, page, url, hops, redirects)
    ensures Threaded(out, start, startUrl, limit, trace)
    ensures page == (if trace == [] then start else trace[|trace| - 1].page)
    ensures url == if trace == [] then startUrl else trace[|trace| - 1].url
    ensures redirects == Count(trace, true) && hops == Count(trace, false)
  {
  }

  lemma StandsAtStart(out: Outside, start: Page, startUrl: string, limit: nat)
    ensures Stands(out, start, startUrl, limit, [], start, startUrl, 0, 0)
  {
  }
}
