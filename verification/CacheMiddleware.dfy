/** `Cache.Middleware` as it runs: a writer, a recorder over it, and the store. */
module CacheMiddleware {
  import opened Options
  import opened CacheKey
  import opened OutputCache
  import S = Store
  import opened MemoryStore

  /** The client's side of a request. */
  class Writer {
    var header: S.Headers
    var sent: Option<Head>
    var body: string

    constructor ()
      ensures Shown() == NOTHING
    {
      header, sent, body := map[], None, "";
    }

    ghost function Shown(): Out
      reads this
    {
      Out(header, sent, body)
    }

    method WriteHeader(status: int)
      modifies this
      ensures Shown() == Sending(old(Shown()), status)
    {
      if sent.None? {
        sent := Some(Head(status, header));
      }
    }

    method Write(data: string)
      modifies this
      ensures Shown() == Does(old(Shown()), Body(data))
    {
      WriteHeader(200);
      body := body + data;
    }

    method Edit(a: Act)
      requires a.SetHeader? || a.AddHeader?
      modifies this
      ensures Shown() == Does(old(Shown()), a)
    {
      match a {
        case SetHeader(name, value) => header := header[name := [value]];
        case AddHeader(name, value) => header := Added(header, name, value);
      }
    }
  }

  function Whole(chunks: seq<string>): string {
    if chunks == [] then "" else Whole(chunks[..|chunks| - 1]) + chunks[|chunks| - 1]
  }

  /** `responseRecorder` */
  class Recorder {
    const inner: Writer
    var statusCode: int
    var body: string

    constructor (inner: Writer)
      ensures this.inner == inner && statusCode == 200 && body == ""
    {
      this.inner, statusCode, body := inner, 200, "";
    }

    method WriteHeader(status: int)
      modifies this, inner
      ensures statusCode == status && body == old(body) && inner.Shown() == Sending(old(inner.Shown()), status)
    {
      statusCode := status;
      inner.WriteHeader(status);
    }

    method Write(data: string)
      modifies this, inner
      ensures statusCode == old(statusCode) && body == old(body) + data
      ensures inner.Shown() == Does(old(inner.Shown()), Body(data))
    {
      body := body + data;
      inner.Write(data);
    }

    /** `io.Copy` to the client and a buffer at once, for what the source yields
        until it ends or fails. */
    method ReadFrom(chunks: seq<string>)
      modifies this, inner
      ensures statusCode == old(statusCode) && body == old(body) + Whole(chunks)
      ensures inner.Shown() == if Whole(chunks) == "" then old(inner.Shown())
                               else Does(old(inner.Shown()), Body(Whole(chunks)))
    {
      var buf := "";
      for i := 0 to |chunks|
        invariant statusCode == old(statusCode) && body == old(body) && buf == Whole(chunks[..i])
        invariant inner.Shown() == if buf == "" then old(inner.Shown()) else Does(old(inner.Shown()), Body(buf))
      {
        if chunks[i] != "" {
          inner.Write(chunks[i]);
          buf := buf + chunks[i];
        }
        assert chunks[..i + 1][..i] == chunks[..i];
      }
      assert chunks[..|chunks|] == chunks;
      body := body + buf;
    }

    /** `next.ServeHTTP(recorder, r)` */
    method Run(script: seq<Act>)
      requires inner.Shown() == NOTHING && statusCode == 200 && body == ""
      modifies this, inner
      ensures inner.Shown() == Play(script)
      ensures Response(statusCode, inner.header, body) == Recorded(script)
    {
      for i := 0 to |script|
        invariant inner.Shown() == Play(script[..i])
        invariant Response(statusCode, inner.header, body) == Recorded(script[..i])
      {
        assert script[..i + 1][..i] == script[..i];
        match script[i] {
          case Status(code) => WriteHeader(code);
          case Body(data) => Write(data);
          case SetHeader(name, value) => inner.Edit(script[i]);
          case AddHeader(name, value) => inner.Edit(script[i]);
        }
      }
      assert script[..|script|] == script;
    }
  }

  /** No header is without a value. */
  ghost predicate Solid(h: S.Headers) {
    forall k | k in h :: h[k] != []
  }

  ghost predicate AllSolid(v: S.View) {
    forall k | k in v.cache :: Solid(v.cache[k].content.headers)
  }

  lemma {:induction false} PlaySolid(script: seq<Act>)
    ensures Solid(Play(script).header)
  {
    if script != [] {
      PlaySolid(script[..|script| - 1]);
    }
  }

  lemma StaysSolid<D>(s: Site<D>, v: S.View, d: D, r: Request, now: int, done: int)
    requires AllSolid(v)
    ensures AllSolid(StoreAfter(s, v, d, r, now, done))
  {
    hide S.List, S.Unlist, Keeps, Play, S.Hit, Duration;
    if InForce(s, r).Some? {
      PlaySolid(s.handler(r, d));
      GetCaches(v, Key(s, r), now);
    }
  }

  class Cache<D> {
    const site: Site<D>
    const store: MemoryStore

    constructor (site: Site<D>)
      ensures this.site == site && fresh(store) && Valid() && store.Shown() == S.EMPTY
    {
      this.site := site;
      store := new MemoryStore();
    }

    ghost predicate Valid()
      reads this, store, store.cache.Values
    {
      store.Valid() && AllSolid(store.Shown())
    }

    /** The body of `Middleware`; the handler's data as `data`. */
    method ServeHTTP(w: Writer, r: Request, data: D, now: int, done: int)
      requires Valid() && w.Shown() == NOTHING
      modifies w, store, store.cache.Values
      ensures Valid()
      ensures Finished(w.Shown()) == Answer(site, old(store.Shown()), data, r, now)
      ensures store.Shown() == StoreAfter(site, old(store.Shown()), data, r, now, done)
    {
      hide AllSolid, S.DoGet, S.DoSet, S.Hit, KeyText, Play, LastStatus, Solid, Keeps, Kept, Duration, ETagged;
      StaysSolid(site, store.Shown(), data, r, now, done);
      var p := InForce(site, r);
      if p.None? {
        Pass(w, site.handler(r, data));
        return;
      }
      var settings := p.value.settings;
      var key := site.hash(KeyText(settings.vary, r));
      var cached := store.Get(key, now);
      if cached != null {
        HitSolid(old(store.Shown()), key, now);
        if settings.revalidate && cached.content.etag != "" && ShouldRevalidate(IfNoneMatch(r), cached.content.etag) {
          w.WriteHeader(304);
          return;
        }
        ServeCachedResponse(w, cached.content);
        return;
      }
      Record(w, site.handler(r, data), p.value, key, done);
    }

    /** What follows a miss: the handler runs over a recorder, and what it wrote
        is kept if it may be. */
    method Record(w: Writer, script: seq<Act>, p: Profile, key: string, done: int)
      requires store.Valid() && w.Shown() == NOTHING
      modifies w, store
      ensures store.Valid()
      ensures var rec, out := Recorded(script), Play(script);
              if Keeps(site.config, p.settings, rec.status, rec.headers) then
                && Finished(w.Shown()) ==
                   Finished(out.(header := ETagged(p.settings, out.header, site.etagOf(rec.body))))
                && store.Shown() == S.DoSet(old(store.Shown()), key, Kept(site, p, rec, done), Duration(site, p))
              else Finished(w.Shown()) == Finished(out) && store.Shown() == old(store.Shown())
    {
      hide S.DoSet, Play, LastStatus, Sending, ETagged, Kept, Duration;
      var recorder := new Recorder(w);
      recorder.Run(script);
      assert Recorded(script) == Response(recorder.statusCode, w.header, recorder.body);
      hide Recorded;
      if p.settings.cacheWhen.Some? && !p.settings.cacheWhen.value(recorder.statusCode, w.header) {
        return;
      }
      if !ShouldCacheStatus(site.config, recorder.statusCode) {
        return;
      }
      Keep(w, recorder, p, key, done);
    }

    /** The end of `Middleware`: the recorded response, tagged, goes to the store. */
    method Keep(w: Writer, recorder: Recorder, p: Profile, key: string, done: int)
      requires store.Valid()
      modifies w, store
      ensures store.Valid()
      ensures var rec := Response(recorder.statusCode, old(w.header), recorder.body);
              && w.Shown() == old(w.Shown()).(header := ETagged(p.settings, rec.headers, site.etagOf(rec.body)))
              && store.Shown() == S.DoSet(old(store.Shown()), key, Kept(site, p, rec, done), Duration(site, p))
    {
      hide S.DoSet;
      var duration, settings := p.duration, p.settings;
      if duration == 0 {
        duration := site.config.defaultDuration;
      }
      var etag := "";
      if settings.revalidate {
        etag := site.etagOf(recorder.body);
        w.header := w.header["ETag" := [etag]];
      }
      var response := new CachedResponse(S.Content(recorder.statusCode, w.header, recorder.body, done, settings.tags,
                                                   settings.sliding, duration, etag));
      store.Set(key, response, duration);
    }

    /** The request as if there were no cache. */
    method Pass(w: Writer, script: seq<Act>)
      requires w.Shown() == NOTHING
      modifies w
      ensures w.Shown() == Play(script)
    {
      for i := 0 to |script|
        invariant w.Shown() == Play(script[..i])
      {
        assert script[..i + 1][..i] == script[..i];
        match script[i] {
          case Status(code) => w.WriteHeader(code);
          case Body(data) => w.Write(data);
          case SetHeader(name, value) => w.Edit(script[i]);
          case AddHeader(name, value) => w.Edit(script[i]);
        }
      }
      assert script[..|script|] == script;
    }

    /** `serveCachedResponse`: the headers in whatever order the map is walked. */
    method ServeCachedResponse(w: Writer, c: S.Content)
      requires w.Shown() == NOTHING && Solid(c.headers)
      modifies w
      ensures Finished(w.Shown()) == Response(c.status, c.headers, c.body)
    {
      var left := c.headers.Keys;
      while left != {}
        invariant left <= c.headers.Keys && w.sent.None? && w.body == ""
        invariant w.header == map k | k in c.headers && k !in left :: c.headers[k]
      {
        var key :| key in left;
        var values := c.headers[key];
        for i := 0 to |values|
          invariant w.sent.None? && w.body == ""
          invariant w.header == if i == 0 then (map k | k in c.headers && k !in left :: c.headers[k])
                                else (map k | k in c.headers && k !in left :: c.headers[k])[key := values[..i]]
        {
          w.header := Added(w.header, key, values[i]);
          assert (if i == 0 then [] else values[..i]) + [values[i]] == values[..i + 1];
        }
        assert values[..|values|] == values;
        left := left - {key};
      }
      assert w.header == c.headers;
      w.WriteHeader(c.status);
      w.Write(c.body);
    }
  }

  lemma HitSolid(v: S.View, key: string, now: int)
    requires AllSolid(v) && S.Hit(v, key, now).Some?
    ensures Solid(S.Hit(v, key, now).value.content.headers)
  {
  }
}
