/** Handlers that read what their routes vary by: the sites the currency of the
    cache is about. */
module VaryBy {
  import opened Options
  import opened CacheKey
  import opened OutputCache
  import Store
  import Text

  /** What a handler may look at: listed query parameters by their first value, as
      `Query().Get` answers, listed headers as `Header.Get` answers. */
  datatype Inputs = Inputs(verb: string, path: string, query: seq<Option<string>>, headers: seq<string>, custom: string)

  function First(r: Request, param: string): Option<string> {
    if param in r.query && r.query[param] != [] then Some(r.query[param][0]) else None
  }

  function Value(r: Request, name: string): string {
    if name in r.headers then r.headers[name] else ""
  }

  function Listed(v: Vary, r: Request): Inputs {
    Inputs(r.verb, r.path,
           seq(|v.query|, i requires 0 <= i < |v.query| => First(r, v.query[i])),
           seq(|v.headers|, i requires 0 <= i < |v.headers| => Value(r, v.headers[i])),
           v.custom(r))
  }

  /** No listed parameter comes twice. */
  predicate Single(v: Vary, r: Request) {
    forall p | p in v.query && p in r.query :: |r.query[p]| <= 1
  }

  /** The requests whose keys hold no stray separator and no repeated parameter. */
  ghost function Ordinary<D>(s: Site<D>): Requests {
    r => InForce(s, r).Some? ==>
           Clean(InForce(s, r).value.settings.vary, r) && Single(InForce(s, r).value.settings.vary, r)
  }

  /** Behind cached routes, handlers write what they do from the listed inputs. */
  ghost predicate ReadsListed<D(!new)>(s: Site<D>, write: (Inputs, D) -> seq<Act>) {
    forall r, d | InForce(s, r).Some? :: s.handler(r, d) == write(Listed(InForce(s, r).value.settings.vary, r), d)
  }

  lemma AlikeListed(v: Vary, r: Request, q: Request)
    requires Alike(v, r, q) && Single(v, r) && Single(v, q)
    ensures Listed(v, r) == Listed(v, q)
  {
    forall p | p in v.query ensures First(r, p) == First(q, p) {
      if First(r, p).Some? {
        assert SameValues(r.query, q.query, p);
        assert r.query[p] == [r.query[p][0]] && q.query[p] == [q.query[p][0]];
        assert r.query[p][0] in multiset(q.query[p]);
      }
    }
    forall n | n in v.headers ensures Value(r, n) == Value(q, n) {
      assert SameHeader(r.headers, q.headers, n);
    }
  }

  /** Whatever a route varies by, a handler that writes from those inputs is one
      whose answers stay current. */
  lemma ReadersAreKeyed<D(!new)>(s: Site<D>, write: (Inputs, D) -> seq<Act>)
    requires forall a, b | s.hash(a) == s.hash(b) :: a == b
    requires forall r: Request, q: Request | r.verb == q.verb && r.path == q.path :: s.route(r) == s.route(q)
    requires ReadsListed(s, write) && forall i, d :: Repeatable(write(i, d))
    ensures KeyedByInputs(s, Ordinary(s)) && Regular(s, Ordinary(s))
  {
    var among := Ordinary(s);
    forall r, q, d | Listens(s, among, r, q) ensures s.handler(r, d) == s.handler(q, d) {
      AlikeListed(InForce(s, r).value.settings.vary, r, q);
    }
    hide Clean, Single, InForce, Repeatable, Listed;
    InputsSuffice(s, among);
  }

  // --------------------------------------------- a page in the client's language

  const BY_PAGE: Vary := Vary(["page"], ["Accept", "Accept-Language"], (_: Request) => "")

  const ARTICLES: Route := Route(60, Settings(BY_PAGE, ["articles"], None, false, false), "")

  /** The page, the kind and the language asked for, and what there is to show. */
  function WriteArticles(i: Inputs, data: string): seq<Act> {
    var page := if |i.query| == 1 && i.query[0].Some? then i.query[0].value else "1";
    [Body(page + "\n" + Text.Join(i.headers, '\n') + "\n" + data)]
  }

  const ARTICLES_SITE: Site<string> := Site(
    Config(0, [], [], map[]),
    (r: Request) => if r.verb == "GET" && r.path == "/articles" then Some(ARTICLES) else None,
    (r: Request, data: string) => WriteArticles(Listed(BY_PAGE, r), data),
    (text: string) => text,
    (text: string) => text)

  function Article(page: string, language: string): Request {
    Request("GET", "/articles", map["page" := [page]], map["Accept" := "text/html", "Accept-Language" := language])
  }

  lemma ArticleIsOrdinary(page: string, language: string)
    requires Free(page, ",&|") && '|' !in language
    ensures Ordinary(ARTICLES_SITE)(Article(page, language))
  {
    var r := Article(page, language);
    assert Single(BY_PAGE, r);
    assert Clean(BY_PAGE, r) by {
      assert BY_PAGE.custom(r) == "" && r.verb == "GET" && r.path == "/articles";
      assert Free("page", "=&|") && Free("Accept", ":|") && Free("Accept-Language", ":|");
      assert forall x | x in r.query["page"] :: x == page;
    }
    hide Clean, Single, BY_PAGE;
  }

  lemma ArticlesRepeatable(i: Inputs, data: string)
    ensures Repeatable(WriteArticles(i, data))
  {
    hide Text.Join;
    OrderlyRepeatable(WriteArticles(i, data));
  }

  /** A site that varies by a parameter and two headers, and whose handler reads
      all three. */
  lemma ArticlesStayCurrent()
    ensures KeyedByInputs(ARTICLES_SITE, Ordinary(ARTICLES_SITE)) && Regular(ARTICLES_SITE, Ordinary(ARTICLES_SITE))
    ensures forall page, language | Free(page, ",&|") && '|' !in language ::
              Ordinary(ARTICLES_SITE)(Article(page, language))
  {
    forall i, d ensures Repeatable(WriteArticles(i, d)) {
      ArticlesRepeatable(i, d);
    }
    forall page, language | Free(page, ",&|") && '|' !in language
      ensures Ordinary(ARTICLES_SITE)(Article(page, language))
    {
      ArticleIsOrdinary(page, language);
    }
    hide WriteArticles, Article, Free, Repeatable, Ordinary, KeyedByInputs, Regular, Listed;
    ReadersAreKeyed(ARTICLES_SITE, WriteArticles);
  }

  /** What it writes differs with each of them, so none could be left out. */
  lemma ArticlesReadTheirInputs(data: string)
    ensures var wrote := (r: Request) => Finished(Play(ARTICLES_SITE.handler(r, data)));
            && wrote(Article("1", "en")) != wrote(Article("2", "en"))
            && wrote(Article("1", "en")) != wrote(Article("1", "de"))
  {
    Wrote("1", "en", data);
    Wrote("2", "en", data);
    Wrote("1", "de", data);
    hide Play, Listed, WriteArticles, Article;
    ShownTells(data);
  }

  lemma ShownTells(data: string)
    ensures Shown("1", "en", data) != Shown("2", "en", data) && Shown("1", "en", data) != Shown("1", "de", data)
  {
    var a, b, c := Shown("1", "en", data), Shown("2", "en", data), Shown("1", "de", data);
    assert a[0] == '1' && b[0] == '2' && a[12] == 'e' && c[12] == 'd';
  }

  function Shown(page: string, language: string, data: string): string {
    page + "\n" + ("text/html" + "\n" + language) + "\n" + data
  }

  lemma Wrote(page: string, language: string, data: string)
    ensures Finished(Play(ARTICLES_SITE.handler(Article(page, language), data)))
            == Response(200, map[], Shown(page, language, data))
  {
    var i := Listed(BY_PAGE, Article(page, language));
    assert i.query == [Some(page)] && i.headers == ["text/html", language];
    assert Text.Join(i.headers, '\n') == "text/html" + "\n" + language by {
      assert i.headers[1..] == [language];
    }
    var script := ARTICLES_SITE.handler(Article(page, language), data);
    assert script == [Body(Shown(page, language, data))];
    assert script[..0] == [];
  }

  // ----------------------------------------------------- a parameter sent twice

  /** Of requests that share a key on account of what is listed, a handler is
      given the same inputs exactly when no listed parameter starts with another
      value. */
  lemma SameInputsExactly(v: Vary, r: Request, q: Request)
    requires Clean(v, r) && Clean(v, q) && KeyText(v, r) == KeyText(v, q)
    ensures Listed(v, r) == Listed(v, q) <==> forall p | p in v.query :: First(r, p) == First(q, p)
  {
    hide Clean, KeyText;
    KeyDecides(v, r, q);
    forall n | n in v.headers ensures Value(r, n) == Value(q, n) {
      assert SameHeader(r.headers, q.headers, n);
    }
    if Listed(v, r) == Listed(v, q) {
      forall p | p in v.query ensures First(r, p) == First(q, p) {
        var i :| 0 <= i < |v.query| && v.query[i] == p;
        assert Listed(v, r).query[i] == First(r, p) && Listed(v, q).query[i] == First(q, p);
      }
    }
  }

  function Articles(first: string, second: string): Request {
    Article(first, "en").(query := map["page" := [first, second]])
  }

  /** `?page=1&page=2` and `?page=2&page=1` have one key and two responses: who asks
      second gets the other's page. */
  lemma RepeatedParameterIsStale(data: string, now: int)
    ensures var s, r, q := ARTICLES_SITE, Articles("1", "2"), Articles("2", "1");
            && Key(s, r) == Key(s, q)
            && Finished(Play(s.handler(r, data))) != Finished(Play(s.handler(q, data)))
            && Answer(s, StoreAfter(s, Store.EMPTY, data, r, now, now), data, q, now)
               == Finished(Play(s.handler(r, data)))
  {
    var r, q := Articles("1", "2"), Articles("2", "1");
    OneKey();
    ArticlesWrote("1", "2", data);
    ArticlesWrote("2", "1", data);
    PagesDiffer(data);
    hide Shown, Articles, KeyText, Key, InForce, Play, Answer, StoreAfter, Repeatable, ARTICLES_SITE;
    KeptAndServed(data, r, q, now);
  }

  lemma PagesDiffer(data: string)
    ensures Shown("1", "en", data) != Shown("2", "en", data)
  {
    assert Shown("1", "en", data)[0] == '1' && Shown("2", "en", data)[0] == '2';
  }

  lemma OneKey()
    ensures InForce(ARTICLES_SITE, Articles("1", "2")) == InForce(ARTICLES_SITE, Articles("2", "1"))
            == Some(Profile(60, ARTICLES.settings))
    ensures Key(ARTICLES_SITE, Articles("1", "2")) == Key(ARTICLES_SITE, Articles("2", "1"))
  {
    var r, q := Articles("1", "2"), Articles("2", "1");
    TwiceAlike();
    ArticlesInForce("1", "2");
    ArticlesInForce("2", "1");
    hide KeyText, Articles, Alike, InForce, BY_PAGE;
    KeyForgetsOrder(BY_PAGE, BY_PAGE, r, q);
  }

  lemma ArticlesInForce(first: string, second: string)
    ensures InForce(ARTICLES_SITE, Articles(first, second)) == Some(Profile(60, ARTICLES.settings))
    ensures ARTICLES.settings.vary == BY_PAGE && forall text :: ARTICLES_SITE.hash(text) == text
  {
    hide BY_PAGE;
  }

  lemma TwiceAlike()
    ensures Alike(BY_PAGE, Articles("1", "2"), Articles("2", "1"))
  {
    var a, b := Articles("1", "2").query, Articles("2", "1").query;
    assert SameValues(a, b, "page") by {
      assert a["page"] == ["1", "2"] && b["page"] == ["2", "1"];
      assert multiset(["1", "2"]) == multiset(["2", "1"]);
    }
    hide SameValues;
    assert forall p | p in BY_PAGE.query :: p == "page";
  }

  lemma ArticlesWrote(first: string, second: string, data: string)
    ensures Finished(Play(ARTICLES_SITE.handler(Articles(first, second), data)))
            == Response(200, map[], Shown(first, "en", data))
    ensures Repeatable(ARTICLES_SITE.handler(Articles(first, second), data))
  {
    var i := Listed(BY_PAGE, Articles(first, second));
    assert i == Listed(BY_PAGE, Article(first, "en")) by {
      assert i.query == [Some(first)] && i.headers == ["text/html", "en"];
    }
    Wrote(first, "en", data);
    ArticlesRepeatable(i, data);
  }

  /** A miss is kept, and the next request with its key gets it. */
  lemma KeptAndServed(data: string, r: Request, q: Request, now: int)
    requires InForce(ARTICLES_SITE, r) == InForce(ARTICLES_SITE, q) == Some(Profile(60, ARTICLES.settings))
    requires Key(ARTICLES_SITE, r) == Key(ARTICLES_SITE, q)
    requires var script := ARTICLES_SITE.handler(r, data); Repeatable(script) && Finished(Play(script)).status == 200
    ensures Answer(ARTICLES_SITE, StoreAfter(ARTICLES_SITE, Store.EMPTY, data, r, now, now), data, q, now)
            == Finished(Play(ARTICLES_SITE.handler(r, data)))
  {
    hide Play, KeyText, Store.List, Repeatable, LastStatus, Sending;
    RecordedExactly(ARTICLES_SITE.handler(r, data));
  }
}
