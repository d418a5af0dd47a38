/** The in-memory store of the output cache: what its operations do, what its
    tag index always knows, and when it answers like a plain map. */
module Store {
  import opened Options

  type Headers = map<string, seq<string>>

  /** `CachedResponse`, without the deadline that moves. Times are in
      nanoseconds. */
  datatype Content = Content(status: int, headers: Headers, body: string, cachedAt: int, tags: seq<string>,
                             sliding: bool, slide: int, etag: string)

  datatype Entry = Entry(content: Content, deadline: int)

  type Index = map<string, seq<string>>

  datatype View = View(cache: map<string, Entry>, index: Index)

  const EMPTY: View := View(map[], map[])

  // ---------------------------------------------------------- the tag index

  function RemoveFirst<T(==)>(keys: seq<T>, key: T): seq<T> {
    if keys == [] then []
    else if keys[0] == key then keys[1..]
    else [keys[0]] + RemoveFirst(keys[1..], key)
  }

  lemma {:induction false} RemoveFirstSpares(keys: seq<string>, key: string, k: string)
    requires k != key
    ensures k in RemoveFirst(keys, key) <==> k in keys
  {
    if keys != [] {
      RemoveFirstSpares(keys[1..], key, k);
      assert keys == [keys[0]] + keys[1..];
    }
  }

  lemma {:induction false} RemoveFirstAt<T>(front: seq<T>, key: T, back: seq<T>)
    requires key !in front
    ensures RemoveFirst(front + [key] + back, key) == front + back
  {
    if front == [] {
      HeadOf([key], back);
      assert front + [key] + back == [key] + back && front + back == back;
    } else {
      var x, rest := [front[0]], front[1..];
      assert front == x + rest;
      RemoveFirstAt(rest, key, back);
      Regroup(x, rest, [key], back);
      HeadOf(x, rest + [key] + back);
    }
  }

  lemma HeadOf<T>(x: seq<T>, rest: seq<T>)
    requires |x| == 1
    ensures (x + rest)[0] == x[0] && (x + rest)[1..] == rest
  {
  }

  lemma Regroup<T>(x: seq<T>, a: seq<T>, b: seq<T>, c: seq<T>)
    ensures (x + a) + b + c == x + (a + b + c) && (x + a) + c == x + (a + c)
  {
  }

  lemma {:induction false} RemoveFirstAbsent(keys: seq<string>, key: string)
    requires key !in keys
    ensures RemoveFirst(keys, key) == keys
  {
    if keys != [] {
      RemoveFirstAbsent(keys[1..], key);
    }
  }

  function ListUnder(index: Index, tag: string, key: string): Index {
    index[tag := (if tag in index then index[tag] else []) + [key]]
  }

  function List(index: Index, tags: seq<string>, key: string): Index {
    if tags == [] then index
    else ListUnder(List(index, tags[..|tags| - 1], key), tags[|tags| - 1], key)
  }

  function UnlistUnder(index: Index, tag: string, key: string): Index {
    var left := if tag in index then RemoveFirst(index[tag], key) else [];
    if left == [] then index - {tag} else index[tag := left]
  }

  function Unlist(index: Index, tags: seq<string>, key: string): Index {
    if tags == [] then index
    else UnlistUnder(Unlist(index, tags[..|tags| - 1], key), tags[|tags| - 1], key)
  }

  predicate ListedUnder(index: Index, tag: string, key: string) {
    tag in index && key in index[tag]
  }

  lemma {:induction false} ListLists(index: Index, tags: seq<string>, key: string, t: string, k: string)
    ensures ListedUnder(List(index, tags, key), t, k) <==> ListedUnder(index, t, k) || (k == key && t in tags)
  {
    if tags != [] {
      var n := |tags| - 1;
      ListLists(index, tags[..n], key, t, k);
      assert tags == tags[..n] + [tags[n]];
    }
  }

  lemma UnlistUnderSpares(index: Index, tag: string, key: string, t: string, k: string)
    requires k != key
    ensures ListedUnder(UnlistUnder(index, tag, key), t, k) <==> ListedUnder(index, t, k)
  {
    if tag in index {
      RemoveFirstSpares(index[tag], key, k);
    }
  }

  lemma {:induction false} UnlistSpares(index: Index, tags: seq<string>, key: string, t: string, k: string)
    requires k != key
    ensures ListedUnder(Unlist(index, tags, key), t, k) <==> ListedUnder(index, t, k)
  {
    if tags != [] {
      UnlistSpares(index, tags[..|tags| - 1], key, t, k);
      UnlistUnderSpares(Unlist(index, tags[..|tags| - 1], key), tags[|tags| - 1], key, t, k);
    }
  }

  /** No key is listed anew. */
  lemma {:induction false} UnlistShrinks(index: Index, tags: seq<string>, key: string, t: string, k: string)
    requires ListedUnder(Unlist(index, tags, key), t, k)
    ensures ListedUnder(index, t, k)
  {
    if tags != [] {
      var before := Unlist(index, tags[..|tags| - 1], key);
      if t == tags[|tags| - 1] && t in before {
        RemoveFirstShrinks(before[t], key, k);
      }
      UnlistShrinks(index, tags[..|tags| - 1], key, t, k);
    }
  }

  lemma {:induction false} RemoveFirstShrinks(keys: seq<string>, key: string, k: string)
    requires k in RemoveFirst(keys, key)
    ensures k in keys
  {
    if keys != [] && keys[0] != key && keys[0] != k {
      RemoveFirstShrinks(keys[1..], key, k);
    }
  }

  // ------------------------------------------------------------ operations

  function Expired(e: Entry, now: int): bool {
    now > e.deadline
  }

  function DoSet(v: View, key: string, c: Content, ttl: int): View {
    View(v.cache[key := Entry(c, c.cachedAt + ttl)], List(v.index, c.tags, key))
  }

  function DoDelete(v: View, key: string): View {
    if key !in v.cache then v
    else View(v.cache - {key}, Unlist(v.index, v.cache[key].content.tags, key))
  }

  function Extended(e: Entry, now: int): Entry {
    if e.content.sliding then e.(deadline := now + e.content.slide) else e
  }

  function DoGet(v: View, key: string, now: int): View {
    if key !in v.cache then v
    else if Expired(v.cache[key], now) then DoDelete(v, key)
    else v.(cache := v.cache[key := Extended(v.cache[key], now)])
  }

  function Hit(v: View, key: string, now: int): Option<Entry> {
    if key !in v.cache || Expired(v.cache[key], now) then None else Some(Extended(v.cache[key], now))
  }

  function KeysUnder(index: Index, tag: string): set<string> {
    if tag in index then set k | k in index[tag] else {}
  }

  function DoInvalidateTag(v: View, tag: string): View {
    View(v.cache - KeysUnder(v.index, tag), v.index - {tag})
  }

  function KeysUnderAny(index: Index, tags: seq<string>): set<string> {
    set t, k | t in tags && t in index && k in index[t] :: k
  }

  function DoInvalidateTags(v: View, tags: seq<string>): View {
    View(v.cache - KeysUnderAny(v.index, tags), v.index - (set t | t in tags))
  }

  function DoCleanup(v: View, now: int): View {
    v.(cache := map k | k in v.cache && !Expired(v.cache[k], now) :: v.cache[k])
  }

  // ---------------------------------------------- what the index always knows

  /** Every cached key is listed under each tag of its response. */
  ghost predicate Listed(v: View) {
    forall k, t | k in v.cache && t in v.cache[k].content.tags :: ListedUnder(v.index, t, k)
  }

  datatype Op =
    | Get(key: string, now: int)
    | Set(key: string, content: Content, ttl: int)
    | Delete(key: string)
    | Clear
    | InvalidateTag(tag: string)
    | InvalidateTags(tags: seq<string>)
    | Cleanup(now: int)

  function Step(v: View, op: Op): View {
    match op
    case Get(key, now) => DoGet(v, key, now)
    case Set(key, content, ttl) => DoSet(v, key, content, ttl)
    case Delete(key) => DoDelete(v, key)
    case Clear => EMPTY
    case InvalidateTag(tag) => DoInvalidateTag(v, tag)
    case InvalidateTags(tags) => DoInvalidateTags(v, tags)
    case Cleanup(now) => DoCleanup(v, now)
  }

  function Run(ops: seq<Op>): View {
    if ops == [] then EMPTY else Step(Run(ops[..|ops| - 1]), ops[|ops| - 1])
  }

  lemma DeleteKeepsListed(v: View, key: string)
    requires Listed(v)
    ensures Listed(DoDelete(v, key))
  {
    hide Unlist, ListedUnder;
    if key in v.cache {
      var after := DoDelete(v, key);
      forall k, t | k in after.cache && t in after.cache[k].content.tags ensures ListedUnder(after.index, t, k) {
        UnlistSpares(v.index, v.cache[key].content.tags, key, t, k);
      }
    }
  }

  lemma SetKeepsListed(v: View, key: string, c: Content, ttl: int)
    requires Listed(v)
    ensures Listed(DoSet(v, key, c, ttl))
  {
    hide List, ListedUnder;
    var after := DoSet(v, key, c, ttl);
    forall k, t | k in after.cache && t in after.cache[k].content.tags ensures ListedUnder(after.index, t, k) {
      ListLists(v.index, c.tags, key, t, k);
    }
  }

  lemma StepKeepsListed(v: View, op: Op)
    requires Listed(v)
    ensures Listed(Step(v, op))
  {
    hide Unlist, List;
    match op {
      case Get(key, now) => DeleteKeepsListed(v, key);
      case Set(key, content, ttl) => SetKeepsListed(v, key, content, ttl);
      case Delete(key) => DeleteKeepsListed(v, key);
      case _ =>
    }
  }

  lemma {:induction false} AlwaysListed(ops: seq<Op>)
    ensures Listed(Run(ops))
  {
    if ops != [] {
      AlwaysListed(ops[..|ops| - 1]);
      StepKeepsListed(Run(ops[..|ops| - 1]), ops[|ops| - 1]);
    }
  }

  /** Whatever came before, no entry with an invalidated tag is left. */
  lemma InvalidatedIsGone(ops: seq<Op>, tags: seq<string>)
    ensures forall k, t | k in DoInvalidateTags(Run(ops), tags).cache && t in tags ::
              t !in DoInvalidateTags(Run(ops), tags).cache[k].content.tags
  {
    hide Run;
    AlwaysListed(ops);
    var v := Run(ops);
    NoneCarries(v, tags);
  }

  lemma NoneCarries(v: View, tags: seq<string>)
    requires Listed(v)
    ensures forall k, t | k in DoInvalidateTags(v, tags).cache && t in tags :: t !in v.cache[k].content.tags
  {
    forall k, t | k in v.cache && t in tags && t in v.cache[k].content.tags ensures k in KeysUnderAny(v.index, tags) {
      assert ListedUnder(v.index, t, k);
    }
  }

  lemma NoneCarriesOne(v: View, tag: string)
    requires Listed(v)
    ensures forall k | k in DoInvalidateTag(v, tag).cache :: tag !in v.cache[k].content.tags
  {
    forall k | k in v.cache && tag in v.cache[k].content.tags ensures k in KeysUnder(v.index, tag) {
      assert ListedUnder(v.index, tag, k);
    }
  }

  /** `InvalidateTags` is `InvalidateTag` on each tag in turn. */
  function InvalidateEach(v: View, tags: seq<string>): View {
    if tags == [] then v else DoInvalidateTag(InvalidateEach(v, tags[..|tags| - 1]), tags[|tags| - 1])
  }

  lemma {:induction false} TagsInTurn(v: View, tags: seq<string>)
    ensures DoInvalidateTags(v, tags) == InvalidateEach(v, tags)
  {
    hide KeysUnder, KeysUnderAny;
    if tags == [] {
      NoTags(v);
    } else {
      var n := |tags| - 1;
      TagsInTurn(v, tags[..n]);
      OneTagMore(v, tags[..n], tags[n]);
      assert tags == tags[..n] + [tags[n]];
    }
  }

  lemma NoTags(v: View)
    ensures DoInvalidateTags(v, []) == v
  {
    assert KeysUnderAny(v.index, []) == {};
  }

  lemma OneTagMore(v: View, front: seq<string>, last: string)
    ensures DoInvalidateTag(DoInvalidateTags(v, front), last) == DoInvalidateTags(v, front + [last])
  {
    var before, tags := DoInvalidateTags(v, front), front + [last];
    assert KeysUnderAny(v.index, tags) == KeysUnderAny(v.index, front) + KeysUnder(v.index, last);
    assert last in front ==> KeysUnder(v.index, last) <= KeysUnderAny(v.index, front);
    assert before.index - {last} == v.index - (set t | t in tags);
  }

  /** Invalidation is a filter on tags exactly where no key is still listed
      under a tag its present response does not carry. */
  lemma FilterExactly(v: View, tag: string)
    requires Listed(v)
    ensures DoInvalidateTag(v, tag).cache == Without(v.cache, tag) <==>
              forall k | k in v.cache && ListedUnder(v.index, tag, k) :: tag in v.cache[k].content.tags
  {
    var after, filtered := DoInvalidateTag(v, tag).cache, Without(v.cache, tag);
    forall k | k in v.cache
      ensures k in after <==> !ListedUnder(v.index, tag, k)
      ensures k in filtered <==> tag !in v.cache[k].content.tags
      ensures k in filtered && k !in after ==> after != filtered
    {
    }
    NoneCarriesOne(v, tag);
    if forall k | k in v.cache && ListedUnder(v.index, tag, k) :: tag in v.cache[k].content.tags {
      assert after.Keys == filtered.Keys;
      assert after == filtered;
    }
  }

  // ------------------------------------------------------------ a plain map

  function Without(m: map<string, Entry>, tag: string): map<string, Entry> {
    map k | k in m && tag !in m[k].content.tags :: m[k]
  }

  /** The same operations on a map of key to (response, deadline). */
  function PlainStep(m: map<string, Entry>, op: Op): map<string, Entry> {
    match op
    case Get(key, now) => if PlainHit(m, key, now).Some? then m[key := PlainHit(m, key, now).value] else m
    case Set(key, content, ttl) => m[key := Entry(content, content.cachedAt + ttl)]
    case Delete(key) => m - {key}
    case Clear => map[]
    case InvalidateTag(tag) => Without(m, tag)
    case InvalidateTags(tags) => map k | k in m && (forall t | t in tags :: t !in m[k].content.tags) :: m[k]
    case Cleanup(_) => m
  }

  function PlainHit(m: map<string, Entry>, key: string, now: int): Option<Entry> {
    if key in m && now <= m[key].deadline then
      Some(if m[key].content.sliding then Entry(m[key].content, now + m[key].content.slide) else m[key])
    else None
  }

  function PlainRun(ops: seq<Op>): map<string, Entry> {
    if ops == [] then map[] else PlainStep(PlainRun(ops[..|ops| - 1]), ops[|ops| - 1])
  }

  ghost predicate Within(cache: map<string, Entry>, m: map<string, Entry>) {
    forall k | k in cache :: k in m && m[k] == cache[k]
  }

  lemma StepWithin(v: View, m: map<string, Entry>, op: Op)
    requires Listed(v) && Within(v.cache, m)
    ensures Within(Step(v, op).cache, PlainStep(m, op))
  {
    hide List, Unlist;
    match op {
      case InvalidateTag(tag) => NoneCarriesOne(v, tag);
      case InvalidateTags(tags) => NoneCarries(v, tags);
      case _ =>
    }
  }

  /** With any tags, any clock and cleanup at any moment, every hit is the hit of
      the plain map. */
  lemma {:induction false} HitsAreRight(ops: seq<Op>, key: string, now: int)
    ensures Within(Run(ops).cache, PlainRun(ops))
    ensures Hit(Run(ops), key, now).Some? ==> Hit(Run(ops), key, now) == PlainHit(PlainRun(ops), key, now)
  {
    if ops != [] {
      var front := ops[..|ops| - 1];
      HitsAreRight(front, key, now);
      AlwaysListed(front);
      hide Step, PlainStep;
      StepWithin(Run(front), PlainRun(front), ops[|ops| - 1]);
    }
  }

  // ------------------------------------------------- how often a key is listed

  function Times(index: Index, tag: string, key: string): nat {
    if tag in index then multiset(index[tag])[key] else 0
  }

  function Less(a: nat, b: nat): nat {
    if b <= a then a - b else 0
  }

  lemma {:induction false} RemoveFirstTimes<T>(keys: seq<T>, key: T, k: T)
    ensures multiset(RemoveFirst(keys, key))[k] == if k == key then Less(multiset(keys)[k], 1) else multiset(keys)[k]
  {
    if keys != [] {
      assert keys == [keys[0]] + keys[1..];
      RemoveFirstTimes(keys[1..], key, k);
      if keys[0] != key {
        assert multiset([keys[0]] + RemoveFirst(keys[1..], key))
            == multiset{keys[0]} + multiset(RemoveFirst(keys[1..], key));
      }
    }
  }

  lemma UnlistUnderTimes(index: Index, tag: string, key: string, t: string, k: string)
    ensures Times(UnlistUnder(index, tag, key), t, k) ==
            if t == tag && k == key then Less(Times(index, t, k), 1) else Times(index, t, k)
  {
    hide RemoveFirst;
    if tag in index {
      RemoveFirstTimes(index[tag], key, k);
    }
  }

  lemma TagsMore(tags: seq<string>, t: string)
    requires tags != []
    ensures multiset(tags)[t] == multiset(tags[..|tags| - 1])[t] + if t == tags[|tags| - 1] then 1 else 0
  {
    assert tags == tags[..|tags| - 1] + [tags[|tags| - 1]];
  }

  lemma {:induction false} ListTimes(index: Index, tags: seq<string>, key: string, t: string, k: string)
    ensures Times(List(index, tags, key), t, k) == Times(index, t, k) + if k == key then multiset(tags)[t] else 0
  {
    if tags != [] {
      ListTimes(index, tags[..|tags| - 1], key, t, k);
      TagsMore(tags, t);
    }
  }

  lemma {:induction false} UnlistTimes(index: Index, tags: seq<string>, key: string, t: string, k: string)
    ensures Times(Unlist(index, tags, key), t, k) ==
            if k == key then Less(Times(index, t, k), multiset(tags)[t]) else Times(index, t, k)
  {
    hide UnlistUnder;
    if tags != [] {
      var n := |tags| - 1;
      UnlistTimes(index, tags[..n], key, t, k);
      TagsMore(tags, t);
      UnlistUnderTimes(Unlist(index, tags[..n], key), tags[n], key, t, k);
    }
  }

  /** How often `k` is listed under `t` after a step: once more for each time a
      response set under it has the tag, once less for each time a deleted one had
      it, and not at all once the tag is invalidated. */
  function TimesAfter(v: View, op: Op, t: string, k: string): nat {
    var was := Times(v.index, t, k);
    var deleted := Less(was, if k in v.cache then multiset(v.cache[k].content.tags)[t] else 0);
    match op
    case Get(key, now) => if k == key && k in v.cache && now > v.cache[k].deadline then deleted else was
    case Set(key, content, _) => was + if k == key then multiset(content.tags)[t] else 0
    case Delete(key) => if k == key then deleted else was
    case Clear => 0
    case InvalidateTag(tag) => if t == tag then 0 else was
    case InvalidateTags(tags) => if t in tags then 0 else was
    case Cleanup(_) => was
  }

  lemma StepTimes(v: View, op: Op, t: string, k: string)
    ensures Times(Step(v, op).index, t, k) == TimesAfter(v, op, t, k)
  {
    hide List, Unlist;
    match op {
      case Get(key, now) =>
        if key in v.cache { UnlistTimes(v.index, v.cache[key].content.tags, key, t, k); }
      case Set(key, content, ttl) => ListTimes(v.index, content.tags, key, t, k);
      case Delete(key) =>
        if key in v.cache { UnlistTimes(v.index, v.cache[key].content.tags, key, t, k); }
      case _ =>
    }
  }

  /** A tag without keys is not in the index. */
  ghost predicate NoneEmpty(index: Index) {
    forall t | t in index :: index[t] != []
  }

  lemma {:induction false} UnlistNoneEmpty(index: Index, tags: seq<string>, key: string)
    requires NoneEmpty(index)
    ensures NoneEmpty(Unlist(index, tags, key))
  {
    if tags != [] {
      UnlistNoneEmpty(index, tags[..|tags| - 1], key);
    }
  }

  lemma {:induction false} ListNoneEmpty(index: Index, tags: seq<string>, key: string)
    requires NoneEmpty(index)
    ensures NoneEmpty(List(index, tags, key))
  {
    if tags != [] {
      ListNoneEmpty(index, tags[..|tags| - 1], key);
    }
  }

  lemma {:induction false} RunNoneEmpty(ops: seq<Op>)
    ensures NoneEmpty(Run(ops).index)
  {
    hide List, Unlist;
    if ops != [] {
      var v, op := Run(ops[..|ops| - 1]), ops[|ops| - 1];
      RunNoneEmpty(ops[..|ops| - 1]);
      match op {
        case Get(key, now) => if key in v.cache { UnlistNoneEmpty(v.index, v.cache[key].content.tags, key); }
        case Delete(key) => if key in v.cache { UnlistNoneEmpty(v.index, v.cache[key].content.tags, key); }
        case Set(key, content, _) => ListNoneEmpty(v.index, content.tags, key);
        case _ =>
      }
    }
  }

  // -------------------------------------------------- fixed tags, fair clock

  type Tagging = string -> set<string>

  predicate TagsFixed(ops: seq<Op>, tagsOf: Tagging) {
    forall op | op in ops && op.Set? :: (set t | t in op.content.tags) == tagsOf(op.key)
  }

  function Clock(ops: seq<Op>, start: int): int {
    if ops == [] then start
    else
      var op := ops[|ops| - 1];
      if op.Get? || op.Cleanup? then op.now else Clock(ops[..|ops| - 1], start)
  }

  predicate ClockAdvances(ops: seq<Op>, start: int) {
    ops == [] || (ClockAdvances(ops[..|ops| - 1], start) && Clock(ops[..|ops| - 1], start) <= Clock(ops, start))
  }

  /** Keys are listed only under tags of their own. */
  ghost predicate Tidy(v: View, tagsOf: Tagging) {
    && (forall k, t | ListedUnder(v.index, t, k) :: t in tagsOf(k))
    && (forall k | k in v.cache :: (set t | t in v.cache[k].content.tags) == tagsOf(k))
  }

  /** What the plain map holds and the store does not has expired. */
  ghost predicate Lazy(v: View, m: map<string, Entry>, now: int) {
    && Within(v.cache, m)
    && (forall k | k in m && k !in v.cache :: m[k].deadline < now)
  }

  lemma StepTidy(v: View, op: Op, tagsOf: Tagging)
    requires Tidy(v, tagsOf) && TagsFixed([op], tagsOf)
    ensures Tidy(Step(v, op), tagsOf)
  {
    hide List, Unlist, RemoveFirst;
    var after := Step(v, op);
    forall k, t | ListedUnder(after.index, t, k) ensures t in tagsOf(k) {
      if op.Set? {
        assert op in [op];
        ListLists(v.index, op.content.tags, op.key, t, k);
      } else if (op.Get? || op.Delete?) && op.key in v.cache && after.index != v.index {
        UnlistShrinks(v.index, v.cache[op.key].content.tags, op.key, t, k);
      }
      assert t in tagsOf(k);
    }
    if op.Set? {
      assert op in [op];
    }
  }

  lemma StepLazy(v: View, m: map<string, Entry>, op: Op, tagsOf: Tagging, was: int)
    requires Listed(v) && Tidy(v, tagsOf) && Lazy(v, m, was)
    requires (op.Get? || op.Cleanup?) ==> was <= op.now
    ensures Lazy(Step(v, op), PlainStep(m, op), if op.Get? || op.Cleanup? then op.now else was)
  {
    hide List, Unlist;
    StepWithin(v, m, op);
    var after := Step(v, op).cache;
    var plain := PlainStep(m, op);
    match op {
      case InvalidateTag(tag) =>
        forall k | k in v.cache && k !in after ensures k !in plain {
          assert ListedUnder(v.index, tag, k);
          assert tag in (set x | x in v.cache[k].content.tags);
        }
      case InvalidateTags(tags) =>
        forall k | k in v.cache && k !in after ensures k !in plain {
          var t :| t in tags && t in v.index && k in v.index[t];
          assert ListedUnder(v.index, t, k);
          assert t in (set x | x in v.cache[k].content.tags);
        }
      case _ =>
    }
  }

  lemma {:induction false} RunLazy(ops: seq<Op>, tagsOf: Tagging, start: int)
    requires TagsFixed(ops, tagsOf) && ClockAdvances(ops, start)
    ensures Tidy(Run(ops), tagsOf) && Lazy(Run(ops), PlainRun(ops), Clock(ops, start))
  {
    if ops != [] {
      var front, op := ops[..|ops| - 1], ops[|ops| - 1];
      RunLazy(front, tagsOf, start);
      AlwaysListed(front);
      hide Step, PlainStep, Tidy, Lazy;
      assert op in ops;
      StepTidy(Run(front), op, tagsOf);
      StepLazy(Run(front), PlainRun(front), op, tagsOf, Clock(front, start));
    }
  }

  /** With tags fixed per key and a clock that does not go back, the store
      answers every Get as the plain map does. */
  lemma AnswersPlainly(ops: seq<Op>, tagsOf: Tagging, start: int, key: string, now: int)
    requires TagsFixed(ops, tagsOf) && ClockAdvances(ops, start) && Clock(ops, start) <= now
    ensures Hit(Run(ops), key, now) == PlainHit(PlainRun(ops), key, now)
  {
    hide Run, PlainRun, Tidy;
    RunLazy(ops, tagsOf, start);
  }

  /** Overwritten under other tags, a key is still listed under the old ones:
      invalidating one of them drops an entry that never carried it. */
  lemma OverwrittenTagsLinger(a: Content, b: Content)
    requires a.tags == ["old"] && b.tags == ["new"] && b.cachedAt == 0
    ensures var ops := [Set("k", a, 10), Set("k", b, 10), InvalidateTag("old")];
            Hit(Run(ops), "k", 5) == None && PlainHit(PlainRun(ops), "k", 5).Some?
  {
    var ops := [Set("k", a, 10), Set("k", b, 10), InvalidateTag("old")];
    var one, two := ops[..1], ops[..2];
    assert two[..1] == one && one[..0] == [] && ops[..2] == two;
    var v := Step(Step(EMPTY, ops[0]), ops[1]);
    assert Run(two) == v by {
      assert Run(one) == Step(EMPTY, ops[0]);
    }
    ListLists(map[], a.tags, "k", "old", "k");
    ListLists(List(map[], a.tags, "k"), b.tags, "k", "old", "k");
    assert "k" in KeysUnder(v.index, "old");
    assert PlainRun(two)["k"] == Entry(b, 10) by {
      assert PlainRun(one) == PlainStep(map[], ops[0]);
    }
  }
}
