/** The caching middleware: what a client gets from it, against what the handler
    would have written. */
module OutputCache {
  import opened Options
  import opened Store
  import opened CacheKey
  import Text

  // ------------------------------------------------- what a handler writes

  /** What a handler does to its writer. */
  datatype Act = SetHeader(name: string, value: string) | AddHeader(name: string, value: string)
      | Status(code: int) | Body(data: string)

  datatype Head = Head(status: int, headers: Headers)

  /** A response being written: the header map, the header once sent, the body. */
  datatype Out = Out(header: Headers, sent: Option<Head>, body: string)

  const NOTHING: Out := Out(map[], None, "")

  function Added(h: Headers, name: string, value: string): Headers {
    h[name := (if name in h then h[name] else []) + [value]]
  }

  function Edited(h: Headers, a: Act): Headers {
    match a
    case SetHeader(name, value) => h[name := [value]]
    case AddHeader(name, value) => Added(h, name, value)
    case _ => h
  }

  /** Only the first header counts; a body without one implies 200. */
  function Sending(o: Out, status: int): Out {
    if o.sent.Some? then o else o.(sent := Some(Head(status, o.header)))
  }

  /** Setting replaces a header's values, adding goes after them, and neither
      touches another header. */
  lemma EditsExactly(h: Headers, name: string, value: string, other: string)
    requires other != name
    ensures var anew, added := Edited(h, SetHeader(name, value)), Edited(h, AddHeader(name, value));
            && name in anew && anew[name] == [value]
            && name in added && added[name] == (if name in h then h[name] + [value] else [value])
            && (other in anew <==> other in h) && (other in added <==> other in h)
            && (other in h ==> anew[other] == added[other] == h[other])
  {
  }

  function Does(o: Out, a: Act): Out {
    match a
    case Status(code) => Sending(o, code)
    case Body(data) => var s := Sending(o, 200); s.(body := s.body + data)
    case _ => o.(header := Edited(o.header, a))
  }

  function Play(script: seq<Act>): Out {
    if script == [] then NOTHING else Does(Play(script[..|script| - 1]), script[|script| - 1])
  }

  datatype Response = Response(status: int, headers: Headers, body: string)

  /** What the client has when the handler returns. */
  function Finished(o: Out): Response {
    var head := Sending(o, 200).sent.value;
    Response(head.status, head.headers, o.body)
  }

  /** What the recorder has: the last status, the header map as it is left. */
  function Recorded(script: seq<Act>): Response {
    Response(LastStatus(script), Play(script).header, Play(script).body)
  }

  function LastStatus(script: seq<Act>): int {
    if script == [] then 200
    else if script[|script| - 1].Status? then script[|script| - 1].code
    else LastStatus(script[..|script| - 1])
  }

  /** Where a script sends its header: at its first status or body. */
  function Sends(script: seq<Act>): nat
    ensures Sends(script) <= |script|
  {
    if script == [] then 0
    else
      var front := script[..|script| - 1];
      if Sends(front) < |front| then Sends(front)
      else if script[|front|].Status? || script[|front|].Body? then |front|
      else |script|
  }

  /** The status sent there. */
  function SettledAt(script: seq<Act>, i: nat): int {
    if i < |script| && script[i].Status? then script[i].code else 200
  }

  /** The header map its edits make. */
  function Edits(script: seq<Act>): Headers {
    if script == [] then map[] else Edited(Edits(script[..|script| - 1]), script[|script| - 1])
  }

  /** No status after the one sent differs from it, and the edits after it leave
      the header map as it was. */
  predicate Repeatable(script: seq<Act>) {
    var i := Sends(script);
    i < |script| ==> LastStatus(script) == SettledAt(script, i) && Edits(script) == Edits(script[..i])
  }

  lemma {:induction false} PlayedIs(script: seq<Act>)
    ensures Play(script).header == Edits(script)
    ensures var i := Sends(script);
            if i < |script| then Play(script).sent == Some(Head(SettledAt(script, i), Edits(script[..i])))
            else Play(script).sent.None? && Play(script).body == "" && LastStatus(script) == 200
  {
    if script != [] {
      var front := script[..|script| - 1];
      PlayedIs(front);
      var i := Sends(script);
      if i < |front| {
        assert front[..i] == script[..i] && front[i] == script[i];
      } else if i == |front| {
        assert script[..i] == front;
      }
    }
  }

  /** The recorder has what the client saw exactly when the handler's script is
      repeatable. */
  lemma RecordedExactly(script: seq<Act>)
    ensures Recorded(script) == Finished(Play(script)) <==> Repeatable(script)
  {
    PlayedIs(script);
  }

  /** Headers first, then at most one status, then the body. */
  predicate Orderly(script: seq<Act>) {
    forall i, j | 0 <= i < j < |script| && (script[i].Status? || script[i].Body?) :: script[j].Body?
  }

  lemma {:induction false} OrderlyRepeatable(script: seq<Act>)
    requires Orderly(script)
    ensures Repeatable(script)
    ensures Sends(script) < |script| ==> script[Sends(script)].Status? || script[Sends(script)].Body?
  {
    if script != [] {
      var front := script[..|script| - 1];
      OrderlyRepeatable(front);
      PlayedIs(front);
      var i := Sends(script);
      if i < |front| {
        assert front[..i] == script[..i] && front[i] == script[i];
      } else if i == |front| {
        assert script[..i] == front;
      }
    }
  }

  /** A handler that sets a second status has the first one seen, the second one
      cached. */
  lemma SecondStatusIsCached(a: int, b: int)
    requires a != b
    ensures Finished(Play([Status(a), Status(b)])).status == a && Recorded([Status(a), Status(b)]).status == b
  {
    var script := [Status(a), Status(b)];
    assert script[..1] == [Status(a)] && [Status(a)][..0] == [];
    assert Play([Status(a)]).sent == Some(Head(a, map[]));
  }

  // ---------------------------------------------------------- configuration

  /** What a route's options come to. */
  datatype Settings = Settings(vary: Vary, tags: seq<string>, cacheWhen: Option<(int, Headers) -> bool>,
      sliding: bool, revalidate: bool)

  datatype Route = Route(duration: int, settings: Settings, profile: string)

  datatype Profile = Profile(duration: int, settings: Settings)

  datatype Config = Config(defaultDuration: int, onlyStatus: seq<int>, excludeMethods: seq<string>,
      profiles: map<string, Profile>)

  /** The cache, the routes it serves and the handlers behind them; `hash` and
      `etagOf` stand for SHA-256 and the tag made of it. */
  datatype Site<!D> = Site(config: Config, route: Request -> Option<Route>, handler: (Request, D) -> seq<Act>,
                           hash: string -> string, etagOf: string -> string)

  function ShouldCacheStatus(c: Config, status: int): bool {
    if c.onlyStatus != [] then status in c.onlyStatus else 200 <= status < 300
  }

  /** The duration and settings in force, a named profile before the route's own;
      None where the request is not cached. */
  function InForce<D>(s: Site<D>, r: Request): Option<Profile> {
    if r.verb in s.config.excludeMethods then None
    else
      match s.route(r)
      case None => None
      case Some(route) =>
        if route.profile != "" && route.profile in s.config.profiles then Some(s.config.profiles[route.profile])
        else Some(Profile(route.duration, route.settings))
  }

  function Key<D>(s: Site<D>, r: Request): string
    requires InForce(s, r).Some?
  {
    s.hash(KeyText(InForce(s, r).value.settings.vary, r))
  }

  /** `shouldRevalidate` */
  predicate ShouldRevalidate(ifNoneMatch: string, etag: string) {
    ifNoneMatch != "" && etag != "" && (ifNoneMatch == etag || ifNoneMatch == "*")
  }

  function IfNoneMatch(r: Request): string {
    if "If-None-Match" in r.headers then r.headers["If-None-Match"] else ""
  }

  // ------------------------------------------------------------ one request

  const NOT_MODIFIED: Response := Response(304, map[], "")

  function FromCache(settings: Settings, e: Entry, r: Request): Response {
    if settings.revalidate && e.content.etag != "" && ShouldRevalidate(IfNoneMatch(r), e.content.etag) then NOT_MODIFIED
    else Response(e.content.status, e.content.headers, e.content.body)
  }

  predicate Keeps(c: Config, settings: Settings, status: int, h: Headers) {
    && (settings.cacheWhen.Some? ==> settings.cacheWhen.value(status, h))
    && ShouldCacheStatus(c, status)
  }

  function ETagged(settings: Settings, h: Headers, etag: string): Headers {
    if settings.revalidate then h["ETag" := [etag]] else h
  }

  function Kept<D>(s: Site<D>, p: Profile, rec: Response, at: int): Content {
    var etag := if p.settings.revalidate then s.etagOf(rec.body) else "";
    Content(rec.status, ETagged(p.settings, rec.headers, etag), rec.body, at, p.settings.tags, p.settings.sliding,
            Duration(s, p), etag)
  }

  function Duration<D>(s: Site<D>, p: Profile): int {
    if p.duration == 0 then s.config.defaultDuration else p.duration
  }

  /** The store after a request that came at `now`, its handler done at `done`. */
  function StoreAfter<D>(s: Site<D>, v: View, d: D, r: Request, now: int, done: int): View {
    if InForce(s, r).None? then v
    else
      var p, key := InForce(s, r).value, Key(s, r);
      var rec := Recorded(s.handler(r, d));
      if Hit(v, key, now).Some? || !Keeps(s.config, p.settings, rec.status, rec.headers) then DoGet(v, key, now)
      else DoSet(DoGet(v, key, now), key, Kept(s, p, rec, done), Duration(s, p))
  }

  /** The response the client gets. */
  function Answer<D>(s: Site<D>, v: View, d: D, r: Request, now: int): Response {
    var out := Play(s.handler(r, d));
    if InForce(s, r).None? then Finished(out)
    else
      var settings := InForce(s, r).value.settings;
      var rec := Recorded(s.handler(r, d));
      match Hit(v, Key(s, r), now)
      case Some(e) => FromCache(settings, e, r)
      case None =>
        if Keeps(s.config, settings, rec.status, rec.headers) then
          Finished(out.(header := ETagged(settings, out.header, s.etagOf(rec.body))))
        else Finished(out)
  }

  // ------------------------------------------------------------ whole runs

  datatype Event<D> = Ask(r: Request, now: int, done: int) | Change(data: D, tags: seq<string>) | Tick(now: int)

  datatype World<D> = World(store: View, data: D)

  function After<D>(s: Site<D>, w: World<D>, e: Event<D>): World<D> {
    match e
    case Ask(r, now, done) => w.(store := StoreAfter(s, w.store, w.data, r, now, done))
    case Change(data, tags) => World(DoInvalidateTags(w.store, tags), data)
    case Tick(now) => w.(store := DoCleanup(w.store, now))
  }

  function Worlds<D>(s: Site<D>, d: D, events: seq<Event<D>>): World<D> {
    if events == [] then World(EMPTY, d)
    else After(s, Worlds(s, d, events[..|events| - 1]), events[|events| - 1])
  }

  /** The requests a site gets in a run. */
  type Requests = Request -> bool

  /** Among these requests a handler depends on what its key is made of and on the
      data, and so do its settings; and it writes what can be repeated. */
  ghost predicate Regular<D(!new)>(s: Site<D>, among: Requests) {
    && (forall r, q, d | Shared(s, among, r, q) :: s.handler(r, d) == s.handler(q, d))
    && (forall r, q | Shared(s, among, r, q) :: InForce(s, r) == InForce(s, q))
    && (forall r, d | Cached(s, among, r) :: Repeatable(s.handler(r, d)))
  }

  predicate Cached<D>(s: Site<D>, among: Requests, r: Request) {
    among(r) && InForce(s, r).Some?
  }

  predicate Shared<D>(s: Site<D>, among: Requests, r: Request, q: Request) {
    Cached(s, among, r) && Cached(s, among, q) && Key(s, r) == Key(s, q)
  }

  predicate Affected<D(==)>(s: Site<D>, among: Requests, r: Request, a: D, b: D) {
    Cached(s, among, r) && s.handler(r, a) != s.handler(r, b)
  }

  /** Only these requests come, and every change is followed by invalidating a tag
      of every one it affects. */
  ghost predicate Announced<D(!new)>(s: Site<D>, among: Requests, d: D, events: seq<Event<D>>) {
    events == [] || (
      var front, e := events[..|events| - 1], events[|events| - 1];
      && Announced(s, among, d, front)
      && (e.Ask? ==> among(e.r))
      && (e.Change? ==> forall r | Affected(s, among, r, Worlds(s, d, front).data, e.data) ::
            exists t :: t in e.tags && t in InForce(s, r).value.settings.tags))
  }

  /** What is stored under a key is what the handler writes now for any of the
      requests with that key. */
  ghost predicate Current<D(!new)>(s: Site<D>, among: Requests, w: World<D>) {
    forall r | Cached(s, among, r) && Key(s, r) in w.store.cache :: UpToDate(s, w, r)
  }

  ghost predicate UpToDate<D(!new)>(s: Site<D>, w: World<D>, r: Request)
    requires InForce(s, r).Some? && Key(s, r) in w.store.cache
  {
    var c := w.store.cache[Key(s, r)].content;
    var p := InForce(s, r).value;
    c == Kept(s, p, Recorded(s.handler(r, w.data)), c.cachedAt)
  }

  lemma AskKeepsListed<D>(s: Site<D>, v: View, d: D, r: Request, now: int, done: int)
    requires Listed(v)
    ensures Listed(StoreAfter(s, v, d, r, now, done))
  {
    hide Listed, DoGet, DoSet, Kept, Keeps, Key, Recorded, Hit;
    if InForce(s, r).Some? {
      var p, key := InForce(s, r).value, Key(s, r);
      StepKeepsListed(v, Op.Get(key, now));
      var rec := Recorded(s.handler(r, d));
      StepKeepsListed(DoGet(v, key, now), Op.Set(key, Kept(s, p, rec, done), Duration(s, p)));
    }
  }

  lemma GetCaches(v: View, key: string, now: int)
    ensures forall k | k in DoGet(v, key, now).cache ::
              k in v.cache && DoGet(v, key, now).cache[k].content == v.cache[k].content
  {
    hide Unlist;
  }

  lemma AskKeepsCurrent<D(!new)>(s: Site<D>, among: Requests, w: World<D>, r: Request, now: int, done: int)
    requires Regular(s, among) && Current(s, among, w) && among(r)
    ensures Current(s, among, After(s, w, Ask(r, now, done)))
  {
    hide DoGet, Kept, Keeps, Hit, Recorded, List, Repeatable, InForce, Key;
    var next := After(s, w, Ask(r, now, done));
    if InForce(s, r).Some? {
      GetCaches(w.store, Key(s, r), now);
      forall q | Cached(s, among, q) && Key(s, q) in next.store.cache ensures UpToDate(s, next, q) {
        if Key(s, q) == Key(s, r) {
          assert Shared(s, among, r, q);
          StoredForAll(s, w, r, now, done);
          KeptIs(s, InForce(s, r).value, Recorded(s.handler(r, w.data)), done);
        }
        if Key(s, q) in w.store.cache {
          assert UpToDate(s, w, q);
        }
      }
    }
  }

  /** Under its own key, a request leaves what was there or what it recorded. */
  lemma StoredForAll<D>(s: Site<D>, w: World<D>, r: Request, now: int, done: int)
    requires InForce(s, r).Some?
    ensures var key, next := Key(s, r), StoreAfter(s, w.store, w.data, r, now, done);
            key in next.cache ==>
              || (key in w.store.cache && next.cache[key].content == w.store.cache[key].content)
              || next.cache[key].content == Kept(s, InForce(s, r).value, Recorded(s.handler(r, w.data)), done)
  {
    hide Unlist, List, Kept, Keeps, Recorded, InForce, Key;
    GetCaches(w.store, Key(s, r), now);
  }

  lemma ChangeKeepsCurrent<D(!new)>(s: Site<D>, among: Requests, w: World<D>, data: D, tags: seq<string>)
    requires Current(s, among, w) && Listed(w.store)
    requires forall r | Affected(s, among, r, w.data, data) ::
               exists t :: t in tags && t in InForce(s, r).value.settings.tags
    ensures Current(s, among, After(s, w, Change(data, tags)))
  {
    hide Listed, Recorded, InForce, Key, KeysUnderAny;
    NoneCarries(w.store, tags);
    var next := After(s, w, Change(data, tags));
    forall r | Cached(s, among, r) && Key(s, r) in next.store.cache ensures UpToDate(s, next, r) {
      assert UpToDate(s, w, r);
      assert w.store.cache[Key(s, r)].content.tags == InForce(s, r).value.settings.tags;
      assert !Affected(s, among, r, w.data, data);
    }
  }

  lemma {:induction false} AlwaysCurrent<D(!new)>(s: Site<D>, among: Requests, d: D, events: seq<Event<D>>)
    requires Regular(s, among) && Announced(s, among, d, events)
    ensures Current(s, among, Worlds(s, d, events)) && Listed(Worlds(s, d, events).store)
  {
    if events != [] {
      var front, e := events[..|events| - 1], events[|events| - 1];
      AlwaysCurrent(s, among, d, front);
      var w := Worlds(s, d, front);
      hide Regular, Current, Listed, StoreAfter, DoInvalidateTags, DoCleanup;
      match e {
        case Ask(r, now, done) =>
          AskKeepsCurrent(s, among, w, r, now, done);
          AskKeepsListed(s, w.store, w.data, r, now, done);
        case Change(data, tags) =>
          ChangeKeepsCurrent(s, among, w, data, tags);
          InvalidateListed(w.store, tags);
        case Tick(now) => TickKeeps(s, among, w, now);
      }
    }
  }

  lemma InvalidateListed(v: View, tags: seq<string>)
    requires Listed(v)
    ensures Listed(DoInvalidateTags(v, tags))
  {
    hide Listed;
    StepKeepsListed(v, Op.InvalidateTags(tags));
  }

  lemma TickKeeps<D(!new)>(s: Site<D>, among: Requests, w: World<D>, now: int)
    requires Current(s, among, w) && Listed(w.store)
    ensures Current(s, among, After(s, w, Tick(now))) && Listed(After(s, w, Tick(now)).store)
  {
    hide Kept, InForce, Key;
    StepKeepsListed(w.store, Op.Cleanup(now));
    forall r | Cached(s, among, r) && Key(s, r) in DoCleanup(w.store, now).cache
      ensures UpToDate(s, After(s, w, Tick(now)), r)
    {
      assert UpToDate(s, w, r);
    }
  }

  /** The same response, but for its ETag. */
  predicate UpToETag(a: Response, b: Response) {
    a.status == b.status && a.body == b.body && a.headers - {"ETag"} == b.headers - {"ETag"}
  }

  /** A client that already holds the present body may be told so. */
  predicate StillFresh<D>(s: Site<D>, r: Request, wanted: Response) {
    && InForce(s, r).Some? && InForce(s, r).value.settings.revalidate
    && (IfNoneMatch(r) == "*" || IfNoneMatch(r) == s.etagOf(wanted.body))
  }

  /** Whatever came before, a client gets what the handler would write now, but
      for the ETag, or is told that what it has is what the handler would write. */
  lemma AnswersAreCurrent<D(!new)>(s: Site<D>, among: Requests, d: D, events: seq<Event<D>>, r: Request, now: int)
    requires Regular(s, among) && Announced(s, among, d, events) && among(r)
    ensures var w := Worlds(s, d, events);
            var wanted, answer := Finished(Play(s.handler(r, w.data))), Answer(s, w.store, w.data, r, now);
            || (answer == NOT_MODIFIED && StillFresh(s, r, wanted))
            || if InForce(s, r).Some? && InForce(s, r).value.settings.revalidate then UpToETag(answer, wanted)
               else answer == wanted
  {
    hide Worlds, Announced, Play, InForce, Key, Keeps, Repeatable;
    AlwaysCurrent(s, among, d, events);
    var w := Worlds(s, d, events);
    var script := s.handler(r, w.data);
    if InForce(s, r).Some? {
      RecordedExactly(script);
      ETagOnly(InForce(s, r).value.settings, Play(script), s.etagOf(Recorded(script).body));
      if Hit(w.store, Key(s, r), now).Some? {
        assert UpToDate(s, w, r);
        ETagOut(InForce(s, r).value.settings, Recorded(script).headers, s.etagOf(Recorded(script).body));
      }
    }
  }

  lemma ETagOut(settings: Settings, h: Headers, etag: string)
    ensures ETagged(settings, h, etag) - {"ETag"} == h - {"ETag"}
  {
  }

  lemma ETagOnly(settings: Settings, out: Out, etag: string)
    ensures UpToETag(Finished(out.(header := ETagged(settings, out.header, etag))), Finished(out))
  {
    ETagOut(settings, out.header, etag);
  }

  // --------------------------------------------------- how long a response stays

  predicate Comes<D>(among: Requests, events: seq<Event<D>>) {
    forall i | 0 <= i < |events| && events[i].Ask? :: among(events[i].r)
  }

  /** The tags of the route behind a key. */
  ghost function TagsOf<D(!new)>(s: Site<D>, among: Requests, key: string): set<string> {
    if r :| Cached(s, among, r) && Key(s, r) == key then set t | t in InForce(s, r).value.settings.tags else {}
  }

  ghost function Tags<D(!new)>(s: Site<D>, among: Requests): Tagging {
    key => TagsOf(s, among, key)
  }

  lemma TagsAreOfRoute<D(!new)>(s: Site<D>, among: Requests, r: Request)
    requires Regular(s, among) && Cached(s, among, r)
    ensures TagsOf(s, among, Key(s, r)) == set t | t in InForce(s, r).value.settings.tags
  {
    var q :| Cached(s, among, q) && Key(s, q) == Key(s, r)
      && TagsOf(s, among, Key(s, r)) == set t | t in InForce(s, q).value.settings.tags;
    assert Shared(s, among, r, q);
  }

  /** Keys are listed only under the tags of their route. */
  lemma {:induction false} AlwaysTidy<D(!new)>(s: Site<D>, among: Requests, d: D, events: seq<Event<D>>)
    requires Regular(s, among) && Comes(among, events)
    ensures Tidy(Worlds(s, d, events).store, Tags(s, among))
  {
    if events != [] {
      var front, e := events[..|events| - 1], events[|events| - 1];
      AlwaysTidy(s, among, d, front);
      var w := Worlds(s, d, front);
      hide Regular, Tidy, DoGet, DoSet, DoInvalidateTags, DoCleanup, Kept, Keeps, Recorded, TagsOf, Hit;
      match e {
        case Ask(r, now, done) =>
          if Cached(s, among, r) {
            var p, key, rec := InForce(s, r).value, Key(s, r), Recorded(s.handler(r, w.data));
            TagsAreOfRoute(s, among, r);
            KeptIs(s, p, rec, done);
            StepTidy(w.store, Op.Get(key, now), Tags(s, among));
            StepTidy(DoGet(w.store, key, now), Op.Set(key, Kept(s, p, rec, done), Duration(s, p)), Tags(s, among));
          }
        case Change(_, tags) => StepTidy(w.store, Op.InvalidateTags(tags), Tags(s, among));
        case Tick(now) => StepTidy(w.store, Op.Cleanup(now), Tags(s, among));
      }
    }
  }

  lemma KeptIs<D>(s: Site<D>, p: Profile, rec: Response, at: int)
    ensures var c := Kept(s, p, rec, at);
            && c.cachedAt == at && c.tags == p.settings.tags
            && c.sliding == p.settings.sliding && c.slide == Duration(s, p)
  {
  }

  predicate Asks<D>(s: Site<D>, e: Event<D>, key: string) {
    e.Ask? && InForce(s, e.r).Some? && Key(s, e.r) == key
  }

  /** Until when a response stored at `done` can be served, if it slides counted
      from the last request for it. */
  function Until<D>(s: Site<D>, p: Profile, key: string, done: int, events: seq<Event<D>>): int {
    if events == [] || !p.settings.sliding then done + Duration(s, p)
    else if Asks(s, events[|events| - 1], key) then events[|events| - 1].now + Duration(s, p)
    else Until(s, p, key, done, events[..|events| - 1])
  }

  /** Requests for the key and cleanups come before its time runs out, and no
      change invalidates it; requests for other keys come at any time. */
  predicate Undisturbed<D>(s: Site<D>, p: Profile, key: string, done: int, events: seq<Event<D>>) {
    events == [] || (
      var front, e := events[..|events| - 1], events[|events| - 1];
      && Undisturbed(s, p, key, done, front)
      && (Asks(s, e, key) || e.Tick? ==> e.now <= Until(s, p, key, done, front))
      && (e.Change? ==> forall t | t in e.tags :: t !in p.settings.tags))
  }

  /** What an entry stored at `done` is after these events. */
  ghost predicate Holds<D>(s: Site<D>, v: View, p: Profile, rec: Response, key: string, done: int,
                           events: seq<Event<D>>)
  {
    key in v.cache && v.cache[key] == Entry(Kept(s, p, rec, done), Until(s, p, key, done, events))
  }

  lemma StepHolds<D(!new)>(s: Site<D>, among: Requests, w: World<D>, e: Event<D>, p: Profile, rec: Response,
                           key: string, done: int, front: seq<Event<D>>)
    requires Tidy(w.store, Tags(s, among)) && TagsOf(s, among, key) == set t | t in p.settings.tags
    requires Holds(s, w.store, p, rec, key, done, front) && Undisturbed(s, p, key, done, front + [e])
    ensures Holds(s, After(s, w, e).store, p, rec, key, done, front + [e])
  {
    hide Kept, Keeps, Recorded, TagsOf, InForce, Key, Unlist, List;
    assert (front + [e])[..|front|] == front;
    KeptIs(s, p, rec, done);
    assert forall t :: t in w.store.index && key in w.store.index[t] ==> ListedUnder(w.store.index, t, key);
  }

  /** A response kept at `done` is what its key is answered with exactly until its
      time runs out, whatever happens in between that neither invalidates it nor
      comes too late. */
  lemma {:induction false} StaysUntil<D(!new)>(s: Site<D>, among: Requests, d: D, events: seq<Event<D>>, r: Request,
                                               now: int, done: int, more: seq<Event<D>>)
    requires Regular(s, among) && Comes(among, events + [Ask(r, now, done)] + more) && Cached(s, among, r)
    requires var w := Worlds(s, d, events);
             var rec := Recorded(s.handler(r, w.data));
             && Hit(w.store, Key(s, r), now).None?
             && Keeps(s.config, InForce(s, r).value.settings, rec.status, rec.headers)
    requires Undisturbed(s, InForce(s, r).value, Key(s, r), done, more)
    ensures var rec := Recorded(s.handler(r, Worlds(s, d, events).data));
            Holds(s, Worlds(s, d, events + [Ask(r, now, done)] + more).store, InForce(s, r).value, rec, Key(s, r), done,
                  more)
  {
    hide Regular, Tidy, Kept, Keeps, Recorded, TagsOf, InForce, Key, Holds, Hit;
    var ask := Ask(r, now, done);
    var all := events + [ask] + more;
    if more == [] {
      assert all[..|events|] == events && all[|events|] == ask && |all| == |events| + 1;
      StoredHolds(s, Worlds(s, d, events), r, now, done);
    } else {
      var n := |more| - 1;
      var front := events + [ask] + more[..n];
      assert all[..|all| - 1] == front && all[|all| - 1] == more[n] && more == more[..n] + [more[n]];
      StaysUntil(s, among, d, events, r, now, done, more[..n]);
      AlwaysTidy(s, among, d, front);
      TagsAreOfRoute(s, among, r);
      StepHolds(s, among, Worlds(s, d, front), more[n], InForce(s, r).value,
                Recorded(s.handler(r, Worlds(s, d, events).data)), Key(s, r), done, more[..n]);
    }
  }

  lemma StoredHolds<D>(s: Site<D>, w: World<D>, r: Request, now: int, done: int)
    requires InForce(s, r).Some? && Hit(w.store, Key(s, r), now).None?
    requires var rec := Recorded(s.handler(r, w.data));
             Keeps(s.config, InForce(s, r).value.settings, rec.status, rec.headers)
    ensures Holds(s, After(s, w, Ask(r, now, done)).store, InForce(s, r).value, Recorded(s.handler(r, w.data)),
                  Key(s, r), done, [])
  {
    hide Kept, Keeps, Recorded, InForce, Key, List, DoGet;
    KeptIs(s, InForce(s, r).value, Recorded(s.handler(r, w.data)), done);
  }

  lemma SameProfile<D(!new)>(s: Site<D>, among: Requests, r: Request, q: Request)
    requires Regular(s, among) && Shared(s, among, r, q)
    ensures InForce(s, q) == InForce(s, r)
  {
  }

  /** Kept once, a response is served to every request with its key exactly until
      its time runs out. */
  lemma KeptIsServed<D(!new)>(s: Site<D>, among: Requests, d: D, events: seq<Event<D>>, r: Request, now: int, done: int,
                              more: seq<Event<D>>, q: Request, later: int)
    requires Regular(s, among) && Comes(among, events + [Ask(r, now, done)] + more) && Shared(s, among, r, q)
    requires var w := Worlds(s, d, events);
             var rec := Recorded(s.handler(r, w.data));
             && Hit(w.store, Key(s, r), now).None?
             && Keeps(s.config, InForce(s, r).value.settings, rec.status, rec.headers)
    requires Undisturbed(s, InForce(s, r).value, Key(s, r), done, more)
    ensures var p, w := InForce(s, r).value, Worlds(s, d, events + [Ask(r, now, done)] + more);
            var rec := Recorded(s.handler(r, Worlds(s, d, events).data));
            && (Hit(w.store, Key(s, q), later).Some? <==> later <= Until(s, p, Key(s, r), done, more))
            && (later <= Until(s, p, Key(s, r), done, more) ==>
                  && Hit(w.store, Key(s, q), later).value.content == Kept(s, p, rec, done)
                  && Answer(s, w.store, w.data, q, later)
                       == FromCache(p.settings, Hit(w.store, Key(s, q), later).value, q))
  {
    StaysUntil(s, among, d, events, r, now, done, more);
    hide Regular, Worlds, Kept, Keeps, Recorded, Play, Key, Until;
    SameProfile(s, among, r, q);
  }

  // ------------------------------------------------ what is kept, spelled out

  /** Statuses the configuration names, or the successful ones where it names none. */
  predicate MayBeKept(only: seq<int>, status: int) {
    if |only| == 0 then 200 <= status < 300 else exists i :: 0 <= i < |only| && only[i] == status
  }

  /** What a route says itself counts where no profile of its name is configured. */
  ghost predicate Governs<D>(s: Site<D>, r: Request, p: Profile) {
    && (forall i | 0 <= i < |s.config.excludeMethods| :: s.config.excludeMethods[i] != r.verb)
    && s.route(r).Some?
    && var rt := s.route(r).value;
       if rt.profile != "" && rt.profile in s.config.profiles then p == s.config.profiles[rt.profile]
       else p.duration == rt.duration && p.settings == rt.settings
  }

  lemma InForceExactly<D>(s: Site<D>, r: Request, p: Profile)
    ensures InForce(s, r) == Some(p) <==> Governs(s, r, p)
  {
    if !(forall i | 0 <= i < |s.config.excludeMethods| :: s.config.excludeMethods[i] != r.verb) {
      assert r.verb in s.config.excludeMethods;
    }
  }

  /** Of a request nothing governs, the cache takes no notice. */
  lemma PassedBy<D>(s: Site<D>, v: View, d: D, r: Request, now: int, done: int)
    requires forall p :: !Governs(s, r, p)
    ensures StoreAfter(s, v, d, r, now, done) == v && Answer(s, v, d, r, now) == Finished(Play(s.handler(r, d)))
  {
    hide Governs, Play, InForce;
    if InForce(s, r).Some? {
      InForceExactly(s, r, InForce(s, r).value);
    }
  }

  /** The lifetime in force: the default one where none is given. */
  function Lifetime<D>(s: Site<D>, p: Profile): int {
    if p.duration != 0 then p.duration else s.config.defaultDuration
  }

  predicate WantsIt(settings: Settings, status: int, h: Headers) {
    match settings.cacheWhen case None => true case Some(condition) => condition(status, h)
  }

  /** After a miss the response is stored exactly if its status may be kept and the
      route's condition, if any, holds: as it was recorded, for its lifetime, under
      its tags, with an ETag where revalidation is on. */
  lemma StoredExactly<D>(s: Site<D>, v: View, d: D, r: Request, now: int, done: int, p: Profile)
    requires Governs(s, r, p) && Hit(v, Key(s, r), now).None?
    ensures var rec, key := Recorded(s.handler(r, d)), s.hash(KeyText(p.settings.vary, r));
            var next := StoreAfter(s, v, d, r, now, done);
            && (key in next.cache <==>
                  MayBeKept(s.config.onlyStatus, rec.status) && WantsIt(p.settings, rec.status, rec.headers))
            && (key in next.cache ==>
                  var tag := if p.settings.revalidate then s.etagOf(rec.body) else "";
                  next.cache[key] ==
                    Entry(Content(rec.status,
                                  if p.settings.revalidate then rec.headers["ETag" := [tag]] else rec.headers,
                                  rec.body, done, p.settings.tags, p.settings.sliding, Lifetime(s, p), tag),
                          done + Lifetime(s, p)))
  {
    hide Unlist, List, Recorded, KeyText, Governs;
    InForceExactly(s, r, p);
  }

  /** A hit leaves the store but for a sliding deadline, and no one asks the handler:
      a client that names the response's ETag, or any, is told it has not changed. */
  lemma ServedExactly<D>(s: Site<D>, v: View, d: D, r: Request, now: int, p: Profile)
    requires Governs(s, r, p) && Hit(v, Key(s, r), now).Some?
    ensures var c := v.cache[s.hash(KeyText(p.settings.vary, r))].content;
            var asked := if "If-None-Match" in r.headers then r.headers["If-None-Match"] else "";
            Answer(s, v, d, r, now) ==
              if p.settings.revalidate && c.etag != "" && asked != "" && (asked == "*" || asked == c.etag) then
                Response(304, map[], "")
              else Response(c.status, c.headers, c.body)
  {
    hide Recorded, KeyText, Governs, Play;
    InForceExactly(s, r, p);
  }

  /** Only what may be kept is ever in the store. */
  ghost predicate AllMayBeKept<D>(s: Site<D>, v: View) {
    forall k | k in v.cache :: MayBeKept(s.config.onlyStatus, v.cache[k].content.status)
  }

  lemma AskKeepsAllowed<D>(s: Site<D>, v: View, d: D, r: Request, now: int, done: int)
    requires AllMayBeKept(s, v)
    ensures AllMayBeKept(s, StoreAfter(s, v, d, r, now, done))
  {
    hide Unlist, List, Recorded, Key, InForce, DoGet;
    if InForce(s, r).Some? {
      GetCaches(v, Key(s, r), now);
    }
  }

  lemma {:induction false} StoredIsAllowed<D>(s: Site<D>, d: D, events: seq<Event<D>>)
    ensures AllMayBeKept(s, Worlds(s, d, events).store)
  {
    hide AllMayBeKept, StoreAfter;
    if events == [] {
      NothingStored(s);
    } else {
      var front, e := events[..|events| - 1], events[|events| - 1];
      StoredIsAllowed(s, d, front);
      var w := Worlds(s, d, front);
      match e {
        case Ask(r, now, done) => AskKeepsAllowed(s, w.store, w.data, r, now, done);
        case _ => FewerAllowed(s, w.store, After(s, w, e).store);
      }
    }
  }

  lemma NothingStored<D>(s: Site<D>)
    ensures AllMayBeKept(s, EMPTY)
  {
  }

  lemma FewerAllowed<D>(s: Site<D>, v: View, next: View)
    requires AllMayBeKept(s, v) && forall k | k in next.cache :: k in v.cache && next.cache[k] == v.cache[k]
    ensures AllMayBeKept(s, next)
  {
  }

  /** Whoever misses gets the handler's response; with revalidation on, its ETag too
      where the handler had sent nothing yet. */
  lemma FirstAnswer<D>(s: Site<D>, v: View, d: D, r: Request, now: int, p: Profile)
    requires Governs(s, r, p) && Hit(v, Key(s, r), now).None?
    ensures var script := s.handler(r, d);
            var rec, whole := Recorded(script), Finished(Play(script));
            Answer(s, v, d, r, now) ==
              if p.settings.revalidate && Sends(script) == |script| && MayBeKept(s.config.onlyStatus, rec.status)
                 && WantsIt(p.settings, rec.status, rec.headers)
              then whole.(headers := whole.headers["ETag" := [s.etagOf(rec.body)]])
              else whole
  {
    hide Recorded, KeyText, Governs, Play, Sends, Hit, Key;
    InForceExactly(s, r, p);
    PlayedIs(s.handler(r, d));
  }

  // ------------------------------------------- what a regular site comes down to

  /** Routes go by method and path; among these requests, no component of a key
      holds a separator, and handlers look at nothing but what their settings
      list, of which the order does not matter. */
  ghost predicate KeyedByInputs<D(!new)>(s: Site<D>, among: Requests) {
    && (forall a, b | s.hash(a) == s.hash(b) :: a == b)
    && (forall r: Request, q: Request | r.verb == q.verb && r.path == q.path :: s.route(r) == s.route(q))
    && (forall r | Cached(s, among, r) :: Clean(InForce(s, r).value.settings.vary, r))
    && (forall r, q, d | Listens(s, among, r, q) :: s.handler(r, d) == s.handler(q, d))
    && (forall r, d | Cached(s, among, r) :: Repeatable(s.handler(r, d)))
  }

  ghost predicate Listens<D>(s: Site<D>, among: Requests, r: Request, q: Request) {
    && Cached(s, among, r) && Cached(s, among, q) && InForce(s, r) == InForce(s, q)
    && Alike(InForce(s, r).value.settings.vary, r, q)
  }

  lemma InputsSuffice<D(!new)>(s: Site<D>, among: Requests)
    requires KeyedByInputs(s, among)
    ensures Regular(s, among)
  {
    hide Clean, Alike, KeyText, Repeatable;
    forall r, q | Shared(s, among, r, q) ensures Listens(s, among, r, q) {
      var v, w := InForce(s, r).value.settings.vary, InForce(s, q).value.settings.vary;
      assert KeyText(v, r) == KeyText(w, q);
      FirstLines(v, w, r, q);
      KeyDecides(v, r, q);
    }
  }

  lemma FirstLines(v: Vary, w: Vary, r: Request, q: Request)
    requires Clean(v, r) && Clean(w, q) && KeyText(v, r) == KeyText(w, q)
    ensures r.verb == q.verb && r.path == q.path
  {
    hide Clean, Text.Join, KeyText, QueryParts, HeaderParts, Inline, Section, Custom;
    TextIsFlat(v, r);
    TextIsFlat(w, q);
    FlatFree(v, r);
    FlatFree(w, q);
    Text.JoinInjective(Flat(v, r), Flat(w, q), '|');
    assert Flat(v, r)[0] == r.verb && Flat(w, q)[0] == q.verb;
    assert Flat(v, r)[1] == r.path && Flat(w, q)[1] == q.path;
  }
}
