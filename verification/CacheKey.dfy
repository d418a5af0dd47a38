/** The key a request is cached under: what it forgets and what it keeps. */
module CacheKey {
  import opened Options
  import Compress
  import Negotiate
  import Text

  /** What the key is made of: `headers` as `Header.Get` answers, "" for a header
      that is missing. */
  datatype Request = Request(verb: string, path: string, query: map<string, seq<string>>,
                             headers: map<string, string>)

  /** The fields of `CacheKeyGenerator` that shape the key; `custom` yields ""
      where there is no custom function. */
  datatype Vary = Vary(query: seq<string>, headers: seq<string>, custom: Request -> string)

  // --------------------------------------------------------- collected parts

  function Gather<T, U>(xs: seq<T>, f: T -> seq<U>): seq<U> {
    if xs == [] then [] else Gather(xs[..|xs| - 1], f) + f(xs[|xs| - 1])
  }

  lemma {:induction false} GatherAppend<T, U>(a: seq<T>, b: seq<T>, f: T -> seq<U>)
    ensures Gather(a + b, f) == Gather(a, f) + Gather(b, f)
  {
    if b == [] {
      assert a + b == a;
    } else {
      GatherAppend(a, b[..|b| - 1], f);
      assert (a + b)[..|a + b| - 1] == a + b[..|b| - 1];
    }
  }

  lemma GatherOne<T, U>(x: T, f: T -> seq<U>)
    ensures Gather([x], f) == f(x)
  {
    assert [x][..0] == [];
  }

  /** One element's parts, wherever it stands. */
  lemma GatherWithout<T, U>(b: seq<T>, i: nat, f: T -> seq<U>)
    requires i < |b|
    ensures multiset(Gather(b, f)) == multiset(Gather(b[..i] + b[i + 1..], f)) + multiset(f(b[i]))
  {
    hide Gather;
    var front, back := b[..i], b[i + 1..];
    assert b == front + [b[i]] + back;
    GatherAppend(front, back, f);
    GatherAppend(front + [b[i]], back, f);
    GatherAppend(front, [b[i]], f);
    GatherOne(b[i], f);
  }

  /** The parts gathered do not depend on the order of the list, but for theirs. */
  lemma {:induction false} GatherPermuted<T, U>(a: seq<T>, b: seq<T>, f: T -> seq<U>)
    requires multiset(a) == multiset(b)
    ensures multiset(Gather(a, f)) == multiset(Gather(b, f))
  {
    hide Gather;
    if a == [] {
      assert |multiset(b)| == |b|;
    } else {
      var n := |a| - 1;
      assert a == a[..n] + [a[n]];
      var i := IndexOf(a[n], a, b);
      var rest := b[..i] + b[i + 1..];
      Removed(b, i);
      assert multiset(a) == multiset(a[..n]) + multiset{a[n]};
      assert multiset(a[..n]) == multiset(a) - multiset{a[n]} == multiset(rest);
      GatherPermuted(a[..n], rest, f);
      GatherWithout(b, i, f);
      GatherWithout(a, n, f);
      assert a[..n] + a[n + 1..] == a[..n];
    }
  }

  lemma IndexOf<T>(x: T, a: seq<T>, b: seq<T>) returns (i: nat)
    requires multiset(a) == multiset(b) && x in a
    ensures i < |b| && b[i] == x
  {
    assert x in multiset(a);
    i :| 0 <= i < |b| && b[i] == x;
  }

  lemma Removed<T>(b: seq<T>, i: nat)
    requires i < |b|
    ensures multiset(b) == multiset(b[..i] + b[i + 1..]) + multiset{b[i]}
  {
    assert b == b[..i] + [b[i]] + b[i + 1..];
  }

  lemma {:induction false} GatherSame<T, U>(xs: seq<T>, f: T -> seq<U>, g: T -> seq<U>)
    requires forall x | x in xs :: multiset(f(x)) == multiset(g(x))
    ensures multiset(Gather(xs, f)) == multiset(Gather(xs, g))
  {
    if xs != [] {
      GatherSame(xs[..|xs| - 1], f, g);
    }
  }

  lemma {:induction false} GatherHas<T, U>(xs: seq<T>, f: T -> seq<U>, u: U)
    ensures u in Gather(xs, f) <==> exists x :: x in xs && u in f(x)
  {
    if xs != [] {
      var n := |xs| - 1;
      GatherHas(xs[..n], f, u);
      assert xs == xs[..n] + [xs[n]];
    }
  }

  function QueryPart(query: map<string, seq<string>>, param: string): seq<string> {
    if param in query && query[param] != [] then [param + "=" + Text.Join(Text.Sort(query[param]), ',')] else []
  }

  function HeaderPart(headers: map<string, string>, name: string): seq<string> {
    if name in headers && headers[name] != "" then [name + ":" + headers[name]] else []
  }

  function ByParam(query: map<string, seq<string>>): string -> seq<string> {
    p => QueryPart(query, p)
  }

  function ByName(headers: map<string, string>): string -> seq<string> {
    n => HeaderPart(headers, n)
  }

  function QueryParts(v: Vary, r: Request): seq<string> {
    Gather(v.query, ByParam(r.query))
  }

  function HeaderParts(v: Vary, r: Request): seq<string> {
    Gather(v.headers, ByName(r.headers))
  }

  function Section(tag: string, parts: seq<string>, c: char): seq<string> {
    if parts == [] then [] else [tag + Text.Join(Text.Sort(parts), c)]
  }

  function Custom(v: Vary, r: Request): seq<string> {
    if v.custom(r) == "" then [] else ["c:" + v.custom(r)]
  }

  function Parts(v: Vary, r: Request): seq<string> {
    [r.verb, r.path] + Section("q:", QueryParts(v, r), '&') + Section("h:", HeaderParts(v, r), '|') + Custom(v, r)
  }

  /** The text that is hashed into the key. */
  function KeyText(v: Vary, r: Request): string {
    Text.Join(Parts(v, r), '|')
  }

  /** `GenerateKey` */
  method GenerateKey(v: Vary, r: Request, hash: string -> string) returns (key: string)
    ensures key == hash(KeyText(v, r))
  {
    hide Gather, Text.Join, Text.Sort;
    var parts := [r.verb, r.path];
    if |v.query| > 0 {
      var queryParts := CollectQuery(v, r);
      if |queryParts| > 0 {
        parts := parts + ["q:" + Text.Join(Text.Sort(queryParts), '&')];
      }
    } else {
      assert QueryParts(v, r) == [] by { GatherNone(ByParam(r.query)); }
    }
    if |v.headers| > 0 {
      var headerParts := CollectHeaders(v, r);
      if |headerParts| > 0 {
        parts := parts + ["h:" + Text.Join(Text.Sort(headerParts), '|')];
      }
    } else {
      assert HeaderParts(v, r) == [] by { GatherNone(ByName(r.headers)); }
    }
    var custom := v.custom(r);
    if custom != "" {
      parts := parts + ["c:" + custom];
    }
    assert parts == Parts(v, r);
    return hash(Text.Join(parts, '|'));
  }

  lemma GatherNone<T, U>(f: T -> seq<U>)
    ensures Gather([], f) == []
  {
  }

  /** The loop over `varyByQuery`. */
  method CollectQuery(v: Vary, r: Request) returns (queryParts: seq<string>)
    ensures queryParts == QueryParts(v, r)
  {
    hide Text.Join, Text.Sort;
    queryParts := [];
    for i := 0 to |v.query|
      invariant queryParts == Gather(v.query[..i], ByParam(r.query))
    {
      assert v.query[..i + 1][..i] == v.query[..i];
      var param := v.query[i];
      if param in r.query && |r.query[param]| > 0 {
        queryParts := queryParts + [param + "=" + Text.Join(Text.Sort(r.query[param]), ',')];
      }
    }
    assert v.query[..|v.query|] == v.query;
  }

  /** The loop over `varyByHeaders`. */
  method CollectHeaders(v: Vary, r: Request) returns (headerParts: seq<string>)
    ensures headerParts == HeaderParts(v, r)
  {
    hide Text.Join, Text.Sort;
    headerParts := [];
    for i := 0 to |v.headers|
      invariant headerParts == Gather(v.headers[..i], ByName(r.headers))
    {
      assert v.headers[..i + 1][..i] == v.headers[..i];
      var header := v.headers[i];
      var value := if header in r.headers then r.headers[header] else "";
      if value != "" {
        headerParts := headerParts + [header + ":" + value];
      }
    }
    assert v.headers[..|v.headers|] == v.headers;
  }

  // ------------------------------------------------------- what it forgets

  predicate SameValues(a: map<string, seq<string>>, b: map<string, seq<string>>, param: string) {
    (param in a && a[param] != []) == (param in b && b[param] != [])
    && (param in a && param in b ==> multiset(a[param]) == multiset(b[param]))
  }

  predicate SameHeader(a: map<string, string>, b: map<string, string>, name: string) {
    (if name in a then a[name] else "") == (if name in b then b[name] else "")
  }

  /** The two requests agree on everything listed, up to order. */
  ghost predicate Alike(v: Vary, r: Request, s: Request) {
    && r.verb == s.verb && r.path == s.path && v.custom(r) == v.custom(s)
    && (forall p | p in v.query :: SameValues(r.query, s.query, p))
    && (forall n | n in v.headers :: SameHeader(r.headers, s.headers, n))
  }

  lemma KeyForgetsOrder(v: Vary, w: Vary, r: Request, s: Request)
    requires multiset(v.query) == multiset(w.query) && multiset(v.headers) == multiset(w.headers)
            && v.custom == w.custom
    requires Alike(v, r, s)
    ensures KeyText(v, r) == KeyText(w, s)
  {
    forall p | p in v.query ensures QueryPart(r.query, p) == QueryPart(s.query, p) {
      SameQueryPart(r.query, s.query, p);
    }
    hide Gather, Section, QueryPart, HeaderPart;
    GatherForgets(v.query, w.query, ByParam(r.query), ByParam(s.query));
    SectionForgets("q:", QueryParts(v, r), QueryParts(w, s), '&');
    forall n | n in v.headers ensures HeaderPart(r.headers, n) == HeaderPart(s.headers, n) {
      SameHeaderPart(r.headers, s.headers, n);
    }
    GatherForgets(v.headers, w.headers, ByName(r.headers), ByName(s.headers));
    SectionForgets("h:", HeaderParts(v, r), HeaderParts(w, s), '|');
  }

  lemma SameQueryPart(a: map<string, seq<string>>, b: map<string, seq<string>>, p: string)
    requires SameValues(a, b, p)
    ensures QueryPart(a, p) == QueryPart(b, p)
  {
    hide Text.Sort, Text.Join;
    if p in a && p in b {
      Text.SortForgetsOrder(a[p], b[p]);
    }
  }

  lemma SameHeaderPart(a: map<string, string>, b: map<string, string>, n: string)
    requires SameHeader(a, b, n)
    ensures HeaderPart(a, n) == HeaderPart(b, n)
  {
  }

  lemma GatherForgets<T, U>(a: seq<T>, b: seq<T>, f: T -> seq<U>, g: T -> seq<U>)
    requires multiset(a) == multiset(b) && forall x | x in a :: f(x) == g(x)
    ensures multiset(Gather(a, f)) == multiset(Gather(b, g))
  {
    hide Gather;
    GatherSame(a, f, g);
    GatherPermuted(a, b, g);
  }

  lemma SectionForgets(tag: string, a: seq<string>, b: seq<string>, c: char)
    requires multiset(a) == multiset(b)
    ensures Section(tag, a, c) == Section(tag, b, c)
  {
    Text.SortForgetsOrder(a, b);
    assert |multiset(a)| == |a| && |multiset(b)| == |b|;
  }

  // --------------------------------------------------------- what it keeps

  predicate Free(s: string, separators: string) {
    forall c | c in separators :: c !in s
  }

  /** No component holds a separator of the key; a header named "c" would pass
      for the custom part. */
  ghost predicate Clean(v: Vary, r: Request) {
    && '|' !in r.verb && '|' !in r.path && '|' !in v.custom(r)
    && (forall p | p in v.query :: Free(p, "=&|") && (p in r.query ==> forall x | x in r.query[p] :: Free(x, ",&|")))
    && (forall n | n in v.headers :: Free(n, ":|") && n != "c" && (n in r.headers ==> '|' !in r.headers[n]))
  }

  /** The parts as they stand in the text, with the headers laid out in line. */
  function Inline(tag: string, parts: seq<string>): seq<string> {
    if parts == [] then []
    else
      var sorted := Text.Sort(parts);
      assert |multiset(sorted)| == |sorted| > 0;
      [tag + sorted[0]] + sorted[1..]
  }

  function Flat(v: Vary, r: Request): seq<string> {
    [r.verb, r.path] + Section("q:", QueryParts(v, r), '&') + Inline("h:", HeaderParts(v, r)) + Custom(v, r)
  }

  lemma TextIsFlat(v: Vary, r: Request)
    ensures KeyText(v, r) == Text.Join(Flat(v, r), '|')
  {
    hide Text.Join, Text.Sort, Section, QueryParts, Custom;
    var front, hs, back := [r.verb, r.path] + Section("q:", QueryParts(v, r), '&'), HeaderParts(v, r), Custom(v, r);
    if hs == [] {
      NoSection("h:", '|');
    } else {
      SectionInline(hs);
      var one, many := Section("h:", hs, '|'), Inline("h:", hs);
      JoinBetween(front, one, back, '|');
      JoinBetween(front, many, back, '|');
    }
  }

  lemma NoSection(tag: string, c: char)
    ensures Section(tag, [], c) == [] && Inline(tag, []) == []
  {
  }

  lemma SectionInline(hs: seq<string>)
    requires hs != []
    ensures Section("h:", hs, '|') != [] && Inline("h:", hs) != []
    ensures Text.Join(Section("h:", hs, '|'), '|') == Text.Join(Inline("h:", hs), '|')
  {
    var sorted := Text.Sort(hs);
    assert |multiset(sorted)| == |sorted| && |multiset(hs)| == |hs|;
    Text.JoinPrefix("h:", sorted, '|');
  }

  lemma JoinBetween(a: seq<string>, b: seq<string>, c: seq<string>, sep: char)
    requires a != [] && b != []
    ensures Text.Join(a + b + c, sep) ==
            Text.Join(a, sep) + [sep]
            + (if c == [] then Text.Join(b, sep) else Text.Join(b, sep) + [sep] + Text.Join(c, sep))
  {
    hide Text.Join;
    assert a + b + c == a + (b + c);
    Text.JoinConcat(a, b + c, sep);
    if c == [] {
      assert b + c == b;
    } else {
      Text.JoinConcat(b, c, sep);
    }
  }

  // ---- the text falls apart in one way

  /** At most one `q` first, at most one `c` last, and `h` in between. */
  ghost predicate Tagged<T>(q: seq<T>, h: seq<T>, c: seq<T>, isQ: T -> bool, isC: T -> bool) {
    && |q| <= 1 && |c| <= 1
    && (forall x | x in q :: isQ(x))
    && (h != [] ==> !isQ(h[0]))
    && (forall x | x in h :: !isC(x))
    && (forall x | x in c :: isC(x) && !isQ(x))
  }

  lemma OneWay<T>(q: seq<T>, h: seq<T>, c: seq<T>, q': seq<T>, h': seq<T>, c': seq<T>, isQ: T -> bool, isC: T -> bool)
    requires Tagged(q, h, c, isQ, isC) && Tagged(q', h', c', isQ, isC)
    requires q + h + c == q' + h' + c'
    ensures q == q' && h == h' && c == c'
  {
    FirstTag(q, h, c, isQ, isC);
    FirstTag(q', h', c', isQ, isC);
    Aligned(q, h + c, q', h' + c');
    assert q + h + c == q + (h + c) && q' + h' + c' == q' + (h' + c');
    LastTag(h, c, isQ, isC);
    LastTag(h', c', isQ, isC);
    assert |h + c| == |h' + c'|;
    Aligned(h, c, h', c');
  }

  lemma Aligned<T>(a: seq<T>, b: seq<T>, a': seq<T>, b': seq<T>)
    ensures |a| == |a'| && a + b == a' + b' ==> a == a' && b == b'
  {
    if |a| == |a'| && a + b == a' + b' {
      assert a == (a + b)[..|a|] && a' == (a' + b')[..|a|];
      assert b == (a + b)[|a|..] && b' == (a' + b')[|a|..];
    }
  }

  lemma FirstTag<T>(q: seq<T>, h: seq<T>, c: seq<T>, isQ: T -> bool, isC: T -> bool)
    requires Tagged(q, h, c, isQ, isC)
    ensures var all := q + h + c; |q| == if all != [] && isQ(all[0]) then 1 else 0
  {
    var all := q + h + c;
    if q != [] {
      assert all[0] == q[0];
    } else if h != [] {
      assert all[0] == h[0];
    } else if c != [] {
      assert all[0] == c[0];
    }
  }

  lemma LastTag<T>(h: seq<T>, c: seq<T>, isQ: T -> bool, isC: T -> bool)
    requires exists q: seq<T> :: Tagged(q, h, c, isQ, isC)
    ensures var all := h + c; |c| == if all != [] && isC(all[|all| - 1]) then 1 else 0
  {
    var all := h + c;
    if c != [] {
      assert all[|all| - 1] == c[0];
    } else if h != [] {
      assert all[|all| - 1] == h[|h| - 1];
    }
  }

  // ---- what each part is made of

  lemma PartOfQuery(v: Vary, r: Request, x: string) returns (p: string)
    requires x in QueryParts(v, r)
    ensures p in v.query && p in r.query && r.query[p] != [] && x == p + "=" + Text.Join(Text.Sort(r.query[p]), ',')
  {
    GatherHas(v.query, ByParam(r.query), x);
    p :| p in v.query && x in ByParam(r.query)(p);
  }

  lemma PartOfHeaders(v: Vary, r: Request, x: string) returns (n: string)
    requires x in HeaderParts(v, r)
    ensures n in v.headers && n in r.headers && r.headers[n] != "" && x == n + ":" + r.headers[n]
  {
    GatherHas(v.headers, ByName(r.headers), x);
    n :| n in v.headers && x in ByName(r.headers)(n);
  }

  lemma {:induction false} JoinFree(parts: seq<string>, c: char, d: char)
    requires c != d && forall x | x in parts :: d !in x
    ensures d !in Text.Join(parts, c)
  {
    if |parts| > 1 {
      JoinFree(parts[1..], c, d);
    }
  }

  lemma SortHas(parts: seq<string>, x: string)
    ensures x in Text.Sort(parts) <==> x in parts
  {
    assert x in multiset(Text.Sort(parts)) <==> x in multiset(parts);
  }

  lemma ValuesFree(v: Vary, r: Request, p: string, d: char)
    requires Clean(v, r) && p in v.query && p in r.query && d in "&|"
    ensures d !in p + "=" + Text.Join(Text.Sort(r.query[p]), ',')
  {
    forall x | x in Text.Sort(r.query[p]) ensures d !in x {
      SortHas(r.query[p], x);
      assert Free(x, ",&|") && d in ",&|";
    }
    JoinFree(Text.Sort(r.query[p]), ',', d);
    assert Free(p, "=&|") && d in "=&|";
  }

  /** Every line of the text is free of the bar that separates them. */
  lemma FlatFree(v: Vary, r: Request)
    requires Clean(v, r)
    ensures forall x | x in Flat(v, r) :: '|' !in x
  {
    hide Clean, Text.Sort, Text.Join, QueryParts, HeaderParts;
    QueryFree(v, r);
    HeadersFree(v, r);
    CleanParts(v, r);
  }

  lemma CleanParts(v: Vary, r: Request)
    requires Clean(v, r)
    ensures '|' !in r.verb && '|' !in r.path && '|' !in v.custom(r)
  {
  }

  lemma QueryFree(v: Vary, r: Request)
    requires Clean(v, r)
    ensures forall x | x in QueryParts(v, r) :: '&' !in x && '|' !in x
    ensures forall x | x in Section("q:", QueryParts(v, r), '&') :: '|' !in x && Text.HasPrefix(x, "q:")
  {
    var qs := QueryParts(v, r);
    forall x | x in qs ensures '&' !in x && '|' !in x {
      var p := PartOfQuery(v, r, x);
      ValuesFree(v, r, p, '&');
      ValuesFree(v, r, p, '|');
    }
    forall x | x in Text.Sort(qs) ensures '|' !in x { SortHas(qs, x); }
    JoinFree(Text.Sort(qs), '&', '|');
  }

  lemma HeadersFree(v: Vary, r: Request)
    requires Clean(v, r)
    ensures forall x | x in HeaderParts(v, r) :: '|' !in x && !Text.HasPrefix(x, "c:")
    ensures var hs := Inline("h:", HeaderParts(v, r));
            (forall x | x in hs :: '|' !in x && !Text.HasPrefix(x, "c:")) && (hs != [] ==> !Text.HasPrefix(hs[0], "q:"))
  {
    var hs := HeaderParts(v, r);
    forall x | x in hs ensures '|' !in x && !Text.HasPrefix(x, "c:") {
      var n := PartOfHeaders(v, r, x);
      assert Free(n, ":|") && ':' in ":|" && '|' in ":|";
      if Text.HasPrefix(x, "c:") {
        assert x == "c" + [':'] + x[2..] && x == n + [':'] + r.headers[n];
        Text.CutAt("c", n, ':', x[2..], r.headers[n]);
      }
    }
    if hs != [] {
      var sorted := Text.Sort(hs);
      assert |multiset(sorted)| == |sorted| && |multiset(hs)| == |hs|;
      forall x | x in sorted ensures x in hs { SortHas(hs, x); }
      var inline := Inline("h:", hs);
      assert sorted[0] in sorted && inline[0] == "h:" + sorted[0];
      assert inline[0][0] == 'h';
      forall x | x in inline[1..] ensures x in sorted { assert inline[1..] == sorted[1..]; }
      forall x | x in inline ensures '|' !in x && !Text.HasPrefix(x, "c:") {
        if x != inline[0] { assert x in inline[1..]; }
      }
    }
  }

  lemma FlatTagged(v: Vary, r: Request)
    requires Clean(v, r)
    ensures Tagged(Section("q:", QueryParts(v, r), '&'), Inline("h:", HeaderParts(v, r)), Custom(v, r),
                   x => Text.HasPrefix(x, "q:"), x => Text.HasPrefix(x, "c:"))
  {
    hide Clean, Text.Sort, Text.Join, QueryParts, HeaderParts, Inline;
    QueryFree(v, r);
    HeadersFree(v, r);
    assert forall x | x in Custom(v, r) :: x[0] == 'c';
  }

  lemma SameLines(v: Vary, r: Request, s: Request)
    requires Clean(v, r) && Clean(v, s) && KeyText(v, r) == KeyText(v, s)
    ensures r.verb == s.verb && r.path == s.path && Custom(v, r) == Custom(v, s)
    ensures Section("q:", QueryParts(v, r), '&') == Section("q:", QueryParts(v, s), '&')
    ensures Inline("h:", HeaderParts(v, r)) == Inline("h:", HeaderParts(v, s))
  {
    hide Clean, Text.Join, Section, Inline, Custom, QueryParts, HeaderParts, KeyText, Tagged;
    TextIsFlat(v, r);
    TextIsFlat(v, s);
    FlatFree(v, r);
    FlatFree(v, s);
    Text.JoinInjective(Flat(v, r), Flat(v, s), '|');
    FlatTagged(v, r);
    FlatTagged(v, s);
    var q, h, c := Section("q:", QueryParts(v, r), '&'), Inline("h:", HeaderParts(v, r)), Custom(v, r);
    var q', h', c' := Section("q:", QueryParts(v, s), '&'), Inline("h:", HeaderParts(v, s)), Custom(v, s);
    assert [r.verb, r.path] + q + h + c == [r.verb, r.path] + (q + h + c);
    assert [s.verb, s.path] + q' + h' + c' == [s.verb, s.path] + (q' + h' + c');
    Aligned([r.verb, r.path], q + h + c, [s.verb, s.path], q' + h' + c');
    OneWay(q, h, c, q', h', c', x => Text.HasPrefix(x, "q:"), x => Text.HasPrefix(x, "c:"));
    assert [r.verb, r.path][0] == [s.verb, s.path][0] && [r.verb, r.path][1] == [s.verb, s.path][1];
  }

  lemma SectionDecides(a: seq<string>, b: seq<string>, c: char)
    requires Section("q:", a, c) == Section("q:", b, c)
    requires forall x | x in a :: c !in x
    requires forall x | x in b :: c !in x
    ensures multiset(a) == multiset(b)
  {
    if a != [] && b != [] {
      forall x | x in Text.Sort(a) ensures c !in x { SortHas(a, x); }
      forall x | x in Text.Sort(b) ensures c !in x { SortHas(b, x); }
      assert |multiset(a)| == |a| && |multiset(Text.Sort(a))| == |Text.Sort(a)|;
      assert |multiset(b)| == |b| && |multiset(Text.Sort(b))| == |Text.Sort(b)|;
      var x, y := Text.Join(Text.Sort(a), c), Text.Join(Text.Sort(b), c);
      assert ("q:" + x)[2..] == x && ("q:" + y)[2..] == y;
      Text.JoinInjective(Text.Sort(a), Text.Sort(b), c);
      Text.SortForgetsOrder(a, b);
    }
  }

  lemma InlineDecides(a: seq<string>, b: seq<string>)
    requires Inline("h:", a) == Inline("h:", b)
    ensures multiset(a) == multiset(b)
  {
    if a != [] && b != [] {
      var x, y := Text.Sort(a), Text.Sort(b);
      assert |multiset(a)| == |a| && |multiset(x)| == |x| && |multiset(b)| == |b| && |multiset(y)| == |y|;
      assert Inline("h:", a)[0][2..] == x[0] && Inline("h:", b)[0][2..] == y[0];
      assert Inline("h:", a)[1..] == x[1..] && Inline("h:", b)[1..] == y[1..];
      assert x == [x[0]] + x[1..] && y == [y[0]] + y[1..];
      Text.SortForgetsOrder(a, b);
    }
  }

  lemma ParamKept(v: Vary, r: Request, s: Request, p: string)
    requires Clean(v, r) && Clean(v, s) && p in v.query
    requires forall x :: x in QueryParts(v, r) ==> x in QueryParts(v, s)
    requires p in r.query && r.query[p] != []
    ensures p in s.query && s.query[p] != [] && multiset(r.query[p]) == multiset(s.query[p])
  {
    hide Text.Join, Text.Sort, QueryParts;
    var joined := Text.Join(Text.Sort(r.query[p]), ',');
    QueryHas(v, r, p);
    var p' := PartOfQuery(v, s, p + "=" + joined);
    var joined' := Text.Join(Text.Sort(s.query[p']), ',');
    assert Free(p, "=&|") && Free(p', "=&|") && '=' in "=&|";
    assert p + ['='] + joined == p' + ['='] + joined';
    Text.CutAt(p, p', '=', joined, joined');
    ListDecides(v, r, s, p);
  }

  lemma QueryHas(v: Vary, r: Request, p: string)
    requires p in v.query && p in r.query && r.query[p] != []
    ensures p + "=" + Text.Join(Text.Sort(r.query[p]), ',') in QueryParts(v, r)
  {
    GatherHas(v.query, ByParam(r.query), p + "=" + Text.Join(Text.Sort(r.query[p]), ','));
    assert p + "=" + Text.Join(Text.Sort(r.query[p]), ',') in ByParam(r.query)(p);
  }

  lemma ListDecides(v: Vary, r: Request, s: Request, p: string)
    requires Clean(v, r) && Clean(v, s) && p in v.query
    requires p in r.query && r.query[p] != [] && p in s.query && s.query[p] != []
    requires Text.Join(Text.Sort(r.query[p]), ',') == Text.Join(Text.Sort(s.query[p]), ',')
    ensures multiset(r.query[p]) == multiset(s.query[p])
  {
    var a, b := r.query[p], s.query[p];
    assert forall x | x in a :: Free(x, ",&|") && ',' in ",&|";
    assert forall x | x in b :: Free(x, ",&|");
    SectionDecides(a, b, ',');
  }

  lemma HeaderKept(v: Vary, r: Request, s: Request, n: string)
    requires Clean(v, r) && Clean(v, s) && n in v.headers
    requires forall x :: x in HeaderParts(v, r) ==> x in HeaderParts(v, s)
    requires n in r.headers && r.headers[n] != ""
    ensures n in s.headers && s.headers[n] == r.headers[n]
  {
    hide HeaderParts;
    HeadersHas(v, r, n);
    var n' := PartOfHeaders(v, s, n + ":" + r.headers[n]);
    assert Free(n, ":|") && Free(n', ":|") && ':' in ":|";
    assert n + [':'] + r.headers[n] == n' + [':'] + s.headers[n'];
    Text.CutAt(n, n', ':', r.headers[n], s.headers[n']);
  }

  lemma HeadersHas(v: Vary, r: Request, n: string)
    requires n in v.headers && n in r.headers && r.headers[n] != ""
    ensures n + ":" + r.headers[n] in HeaderParts(v, r)
  {
    GatherHas(v.headers, ByName(r.headers), n + ":" + r.headers[n]);
    assert n + ":" + r.headers[n] in ByName(r.headers)(n);
  }

  /** Requests share a key exactly when they agree, up to order, on everything
      the key is made of. */
  lemma KeyDecides(v: Vary, r: Request, s: Request)
    requires Clean(v, r) && Clean(v, s)
    ensures KeyText(v, r) == KeyText(v, s) <==> Alike(v, r, s)
  {
    hide Clean, KeyText, Section, Inline, QueryParts, HeaderParts;
    if Alike(v, r, s) {
      KeyForgetsOrder(v, v, r, s);
    }
    if KeyText(v, r) == KeyText(v, s) {
      SameLines(v, r, s);
      QueryFree(v, r);
      QueryFree(v, s);
      SectionDecides(QueryParts(v, r), QueryParts(v, s), '&');
      InlineDecides(HeaderParts(v, r), HeaderParts(v, s));
      SameMembers(QueryParts(v, r), QueryParts(v, s));
      SameMembers(HeaderParts(v, r), HeaderParts(v, s));
      forall p | p in v.query ensures SameValues(r.query, s.query, p) {
        if p in r.query && r.query[p] != [] { ParamKept(v, r, s, p); }
        if p in s.query && s.query[p] != [] { ParamKept(v, s, r, p); }
      }
      forall n | n in v.headers ensures SameHeader(r.headers, s.headers, n) {
        if n in r.headers && r.headers[n] != "" { HeaderKept(v, r, s, n); }
        if n in s.headers && s.headers[n] != "" { HeaderKept(v, s, r, n); }
      }
      CustomDecides(v, r, s);
    }
  }

  lemma SameMembers<T>(a: seq<T>, b: seq<T>)
    requires multiset(a) == multiset(b)
    ensures forall x :: x in a <==> x in b
  {
    forall x ensures x in a <==> x in b {
      assert x in multiset(a) <==> x in multiset(b);
    }
  }

  lemma CustomDecides(v: Vary, r: Request, s: Request)
    requires Custom(v, r) == Custom(v, s)
    ensures v.custom(r) == v.custom(s)
  {
    if v.custom(r) != "" && v.custom(s) != "" {
      assert Custom(v, r)[0][2..] == v.custom(r) && Custom(v, s)[0][2..] == v.custom(s);
    }
  }

  /** Without anything listed, the text is made of the verb, the path and the custom
      part, and what is empty leaves no trace. */
  lemma PlainKey(v: Vary, r: Request)
    requires forall p | p in v.query :: p !in r.query || r.query[p] == []
    requires forall n | n in v.headers :: n !in r.headers || r.headers[n] == ""
    ensures KeyText(v, r) == r.verb + "|" + r.path + (if v.custom(r) == "" then "" else "|c:" + v.custom(r))
  {
    hide Text.Join, Text.Sort;
    NothingGathered(v.query, ByParam(r.query));
    NothingGathered(v.headers, ByName(r.headers));
    assert Parts(v, r) == [r.verb, r.path] + Custom(v, r);
    assert [r.verb, r.path] + [] == [r.verb, r.path];
    assert [r.verb, r.path] + ["c:" + v.custom(r)] == [r.verb, r.path, "c:" + v.custom(r)];
    JoinFew(r.verb, r.path, v.custom(r));
  }

  lemma JoinFew(a: string, b: string, c: string)
    ensures Text.Join([a, b], '|') == a + "|" + b
    ensures Text.Join([a, b, "c:" + c], '|') == a + "|" + b + ("|c:" + c)
  {
    var d := "c:" + c;
    assert [a, b, d][1..] == [b, d] && [b, d][1..] == [d] && [a, b][1..] == [b];
    assert Text.Join([b, d], '|') == b + ['|'] + d;
    assert Text.Join([a, b, d], '|') == a + ['|'] + (b + ['|'] + d);
    assert a + ['|'] + (b + ['|'] + d) == a + "|" + b + ("|c:" + c);
  }

  lemma {:induction false} NothingGathered<T, U>(xs: seq<T>, f: T -> seq<U>)
    requires forall x | x in xs :: f(x) == []
    ensures Gather(xs, f) == []
  {
    if xs != [] {
      NothingGathered(xs[..|xs| - 1], f);
    }
  }

  /** With a bar in a header value the two sides of the bar can trade places:
      requests that differ in both headers share a key. */
  lemma BarsCollide(v: Vary, r: Request, s: Request)
    requires v.query == [] && v.headers == ["A", "B"] && v.custom(r) == "" && v.custom(s) == ""
    requires r.verb == s.verb && r.path == s.path
    requires r.headers == map["A" := "x|B:y"] && s.headers == map["A" := "x", "B" := "y"]
    ensures KeyText(v, r) == KeyText(v, s) && !Alike(v, r, s)
  {
    hide Text.Join, Text.Sort, HeaderPart;
    GatherNone(ByParam(r.query));
    GatherNone(ByParam(s.query));
    BarParts(v, r, s);
    BarsJoin();
    assert "A" in v.headers && !SameHeader(r.headers, s.headers, "A");
  }

  lemma BarParts(v: Vary, r: Request, s: Request)
    requires v.headers == ["A", "B"]
    requires r.headers == map["A" := "x|B:y"] && s.headers == map["A" := "x", "B" := "y"]
    ensures HeaderParts(v, r) == ["A:x|B:y"] && HeaderParts(v, s) == ["A:x", "B:y"]
  {
    GatherPair(ByName(r.headers), "A", "B");
    GatherPair(ByName(s.headers), "A", "B");
    assert "A" + ":" + "x|B:y" == "A:x|B:y" && "A" + ":" + "x" == "A:x" && "B" + ":" + "y" == "B:y";
    assert "A" in r.headers && "B" !in r.headers && "A" in s.headers && "B" in s.headers;
  }

  lemma BarsJoin()
    ensures Text.Join(Text.Sort(["A:x|B:y"]), '|') == Text.Join(Text.Sort(["A:x", "B:y"]), '|')
  {
    assert ["A:x", "B:y"][1..] == ["B:y"] && ["A:x|B:y"][1..] == [] && ["B:y"][1..] == [];
    assert Text.Sort(["B:y"]) == ["B:y"];
    assert Text.Leq("A:x", "B:y");
    assert Text.Sort(["A:x", "B:y"]) == ["A:x", "B:y"] && Text.Sort(["A:x|B:y"]) == ["A:x|B:y"];
  }

  lemma GatherPair<T, U>(f: T -> seq<U>, a: T, b: T)
    ensures Gather([a, b], f) == f(a) + f(b)
  {
    assert [a] + [b] == [a, b];
    GatherAppend([a], [b], f);
    GatherOne(a, f);
    GatherOne(b, f);
  }

  // ------------------------------------------------ encodings in the cache

  /** With `VaryByEncoding`, and compression inside the cache, what one request
      left in the cache is encoded in a way every request that hits it accepts. */
  lemma HitIsReadable(v: Vary, stored: Request, hit: Request, parse: Negotiate.Parser,
                      o: Compress.Setup, h: Compress.Headers, calls: seq<Compress.Call>)
    requires "Accept-Encoding" in v.headers && Clean(v, stored) && Clean(v, hit)
    requires KeyText(v, stored) == KeyText(v, hit)
    requires var accepted := if "Accept-Encoding" in stored.headers then stored.headers["Accept-Encoding"] else "";
             o.encoding == Negotiate.Chosen(accepted, parse)
    requires Compress.Lawful(o.codec) && Compress.Running(calls) && h.contentEncoding == ""
    ensures var sent := Compress.Run(o, h, calls + [Compress.End]).wire.sent;
            var accepted := if "Accept-Encoding" in hit.headers then hit.headers["Accept-Encoding"] else "";
            |sent| == 1 && Negotiate.Accepts(accepted, sent[0].headers.contentEncoding, parse)
  {
    hide Clean, KeyText, Compress.Run, Compress.Lawful, Compress.Running, Compress.GoesEncoded, Negotiate.Weight;
    KeyDecides(v, stored, hit);
    assert SameHeader(stored.headers, hit.headers, "Accept-Encoding");
    Compress.EncodedExactly(o, h, calls);
  }
}
