/** The store under concurrency: its lock sections in any order, and a Get that
    lets go of the lock between looking and judging. */
module StoreRaces {
  import opened Options
  import opened Store

  /** How far a `Get` has come. `since` and `checked` number the steps at which
      it looked the key up and judged the deadline, `now` is what it took for the
      time in between. */
  datatype Phase =
    | Found(key: string, id: nat, since: nat)
    | Timed(key: string, id: nat, now: int, since: nat)
    | Dropping(key: string, id: nat, now: int, since: nat, checked: nat)
    | Extending(key: string, id: nat, now: int, since: nat, checked: nat)
    | Missed(key: string, since: nat)
    | Returned(key: string, id: nat, now: int, since: nat, checked: nat)

  /** The responses ever put, with the step that put each; the maps of the store
      refer to them by id. */
  datatype State = State(responses: map<nat, Entry>, putAt: map<nat, nat>, cache: map<string, nat>, index: Index,
                         gets: map<nat, Phase>)

  datatype Action =
    | Put(id: nat, key: string, content: Content, ttl: int)
    | Remove(key: string)
    | Wipe
    | Invalidate(tags: seq<string>)
    | Sweep(now: int)
    | Look(get: nat, key: string)
    | Clock(get: nat, now: int)
    | Judge(get: nat)
    | Drop(get: nat)
    | Extend(get: nat)

  const START: State := State(map[], map[], map[], map[], map[])

  /** `Set` brings a response of its own; a `Get` takes its steps in order. */
  predicate Enabled(s: State, a: Action) {
    match a
    case Put(id, _, _, _) => id !in s.responses
    case Look(get, _) => get !in s.gets
    case Clock(get, _) => get in s.gets && s.gets[get].Found?
    case Judge(get) => get in s.gets && s.gets[get].Timed? && s.gets[get].id in s.responses
    case Drop(get) => get in s.gets && s.gets[get].Dropping?
    case Extend(get) => get in s.gets && s.gets[get].Extending?
    case _ => true
  }

  function Unlisted(s: State, key: string): State {
    if key !in s.cache || s.cache[key] !in s.responses then s
    else s.(cache := s.cache - {key}, index := Unlist(s.index, s.responses[s.cache[key]].content.tags, key))
  }

  function Judged(s: State, get: nat, p: Phase, n: nat): State
    requires p.Timed? && p.id in s.responses
  {
    var next :=
      if Expired(s.responses[p.id], p.now) then Dropping(p.key, p.id, p.now, p.since, n)
      else if s.responses[p.id].content.sliding then Extending(p.key, p.id, p.now, p.since, n)
      else Returned(p.key, p.id, p.now, p.since, n);
    s.(gets := s.gets[get := next])
  }

  /** Step number `n`; what is not enabled does not happen. */
  function Next(s: State, a: Action, n: nat): State {
    if !Enabled(s, a) then s
    else
      match a
      case Put(id, key, c, ttl) =>
        s.(responses := s.responses[id := Entry(c, c.cachedAt + ttl)], putAt := s.putAt[id := n],
           cache := s.cache[key := id], index := List(s.index, c.tags, key))
      case Remove(key) => Unlisted(s, key)
      case Wipe => s.(cache := map[], index := map[])
      case Invalidate(tags) =>
        s.(cache := s.cache - KeysUnderAny(s.index, tags), index := s.index - (set t | t in tags))
      case Sweep(now) =>
        s.(cache := map k | k in s.cache && !(s.cache[k] in s.responses && Expired(s.responses[s.cache[k]], now)) ::
            s.cache[k])
      case Look(get, key) =>
        s.(gets := s.gets[get := if key in s.cache then Found(key, s.cache[key], n) else Missed(key, n)])
      case Clock(get, now) =>
        var p := s.gets[get];
        s.(gets := s.gets[get := Timed(p.key, p.id, now, p.since)])
      case Judge(get) => Judged(s, get, s.gets[get], n)
      case Drop(get) =>
        var p := s.gets[get];
        Unlisted(s, p.key).(gets := s.gets[get := Missed(p.key, p.since)])
      case Extend(get) =>
        var p := s.gets[get];
        if p.id !in s.responses then s
        else
          s.(responses := s.responses[p.id := Extended(s.responses[p.id], p.now)],
             gets := s.gets[get := Returned(p.key, p.id, p.now, p.since, p.checked)])
  }

  function Run(actions: seq<Action>): State {
    if actions == [] then START
    else Next(Run(actions[..|actions| - 1]), actions[|actions| - 1], |actions| - 1)
  }

  // --------------------------------------------- lock sections as operations

  /** Every id in use is that of a stored response. */
  ghost predicate Known(s: State) {
    && s.responses.Keys == s.putAt.Keys
    && (forall k | k in s.cache :: s.cache[k] in s.responses)
    && (forall g | g in s.gets && !s.gets[g].Missed? :: s.gets[g].id in s.responses)
  }

  /** What the store holds, as the sequential model has it. */
  function Shown(s: State): View {
    View(Follow(s.cache, s.responses), s.index)
  }

  function Follow<V>(names: map<string, nat>, values: map<nat, V>): map<string, V> {
    map k | k in names && names[k] in values :: values[names[k]]
  }

  lemma FollowNew<V>(names: map<string, nat>, values: map<nat, V>, k: string, id: nat, v: V)
    requires id !in values && forall j | j in names :: names[j] in values
    ensures Follow(names[k := id], values[id := v]) == Follow(names, values)[k := v]
  {
  }

  lemma FollowMoved<V>(names: map<string, nat>, values: map<nat, V>, k: string, v: V)
    requires k in names && names[k] in values && forall j | j in names && names[j] == names[k] :: j == k
    ensures Follow(names, values[names[k] := v]) == Follow(names, values)[k := v]
    ensures k in Follow(names, values) && Follow(names, values)[k] == values[names[k]]
    ensures Follow(names, values)[k := values[names[k]]] == Follow(names, values)
  {
  }

  lemma FollowFewer<V>(names: map<string, nat>, values: map<nat, V>, gone: set<string>)
    ensures Follow(names - gone, values) == Follow(names, values) - gone
  {
  }

  /** Only the deadline of a response moves. */
  ghost predicate SameResponse(a: State, b: State, id: nat)
    requires id in a.responses && id in b.responses
  {
    a.responses[id].content == b.responses[id].content && (id in a.putAt <==> id in b.putAt)
    && (id in a.putAt && id in b.putAt ==> a.putAt[id] == b.putAt[id])
  }

  lemma NextKnown(s: State, a: Action, n: nat)
    requires Known(s)
    ensures Known(Next(s, a, n))
    ensures forall id | id in s.responses :: id in Next(s, a, n).responses && SameResponse(s, Next(s, a, n), id)
  {
    hide List, Unlist, KeysUnderAny;
  }

  /** The operation a lock section carries out; looking, timing and judging carry
      out none, and the late write of `Extend` moves a deadline. */
  function Operation(s: State, a: Action): Option<Op> {
    match a
    case Put(_, key, c, ttl) => Some(Set(key, c, ttl))
    case Remove(key) => Some(Delete(key))
    case Wipe => Some(Clear)
    case Invalidate(tags) => Some(InvalidateTags(tags))
    case Sweep(now) => Some(Cleanup(now))
    case Drop(get) => if get in s.gets then Some(Delete(s.gets[get].key)) else None
    case _ => None
  }

  /** The response `id` is extended under whatever key it has; the others stay. */
  ghost predicate MovedOne(a: View, b: View, names: map<string, nat>, id: nat, now: int) {
    && a.cache.Keys == b.cache.Keys
    && forall k | k in a.cache && k in names ::
         b.cache[k] == if names[k] == id then Extended(a.cache[k], now) else a.cache[k]
  }

  lemma SectionsAreOperations(s: State, a: Action, n: nat)
    requires Known(s) && Enabled(s, a)
    ensures Operation(s, a).Some? ==> Shown(Next(s, a, n)) == Step(Shown(s), Operation(s, a).value)
    ensures a.Look? || a.Clock? || a.Judge? ==> Shown(Next(s, a, n)) == Shown(s)
    ensures a.Extend? ==> Shown(Next(s, a, n)).index == s.index && Next(s, a, n).cache == s.cache
                          && MovedOne(Shown(s), Shown(Next(s, a, n)), s.cache, s.gets[a.get].id, s.gets[a.get].now)
  {
    hide List, Unlist, KeysUnderAny, Step;
    match a {
      case Put(id, key, c, ttl) => PutSection(s, id, key, c, ttl, n);
      case Remove(key) => RemoveSection(s, key); DeleteStep(Shown(s), key);
      case Wipe => assert Shown(Next(s, a, n)).cache == map[]; ClearStep(Shown(s));
      case Invalidate(tags) => InvalidateSection(s, tags, n);
      case Sweep(now) => SweepSection(s, now, n);
      case Drop(get) =>
        RemoveSection(s, s.gets[get].key);
        DeleteStep(Shown(s), s.gets[get].key);
        assert Shown(Next(s, a, n)) == Shown(Unlisted(s, s.gets[get].key));
      case _ =>
    }
  }

  lemma DeleteStep(v: View, key: string)
    ensures Step(v, Delete(key)) == DoDelete(v, key)
  {
    hide Unlist;
  }

  lemma ClearStep(v: View)
    ensures Step(v, Clear) == EMPTY
  {
  }

  lemma PutSection(s: State, id: nat, key: string, c: Content, ttl: int, n: nat)
    requires Known(s) && id !in s.responses
    ensures Shown(Next(s, Put(id, key, c, ttl), n)) == Step(Shown(s), Set(key, c, ttl))
  {
    hide List, Follow;
    FollowNew(s.cache, s.responses, key, id, Entry(c, c.cachedAt + ttl));
  }

  lemma RemoveSection(s: State, key: string)
    requires Known(s)
    ensures Shown(Unlisted(s, key)) == DoDelete(Shown(s), key)
  {
    hide Unlist;
    FollowFewer(s.cache, s.responses, {key});
  }

  lemma InvalidateSection(s: State, tags: seq<string>, n: nat)
    requires Known(s)
    ensures Shown(Next(s, Invalidate(tags), n)) == Step(Shown(s), InvalidateTags(tags))
  {
    hide KeysUnderAny, Follow;
    FollowFewer(s.cache, s.responses, KeysUnderAny(s.index, tags));
  }

  lemma SweepSection(s: State, now: int, n: nat)
    requires Known(s)
    ensures Shown(Next(s, Sweep(now), n)) == Step(Shown(s), Cleanup(now))
  {
    var gone := set k | k in s.cache && Expired(s.responses[s.cache[k]], now);
    hide Follow;
    FollowFewer(s.cache, s.responses, gone);
    assert Next(s, Sweep(now), n).cache == s.cache - gone;
    SweptIs(s.cache, s.responses, now, gone);
  }

  lemma SweptIs(names: map<string, nat>, values: map<nat, Entry>, now: int, gone: set<string>)
    requires forall k | k in names :: names[k] in values
    requires gone == set k | k in names && Expired(values[names[k]], now)
    ensures (map k | k in Follow(names, values) && !Expired(Follow(names, values)[k], now) :: Follow(names, values)[k])
            == Follow(names, values) - gone
  {
  }

  ghost predicate Sound(s: State) {
    Known(s) && Listed(Shown(s))
  }

  lemma NextSound(s: State, a: Action, n: nat)
    requires Sound(s)
    ensures Sound(Next(s, a, n))
  {
    hide Step, Next, ListedUnder;
    NextKnown(s, a, n);
    if !Enabled(s, a) {
      NotEnabled(s, a, n);
    } else {
      SectionsAreOperations(s, a, n);
      if Operation(s, a).Some? {
        StepKeepsListed(Shown(s), Operation(s, a).value);
      } else if a.Extend? {
        ExtendKeepsListed(s, a, n);
      }
    }
  }

  lemma NotEnabled(s: State, a: Action, n: nat)
    requires !Enabled(s, a)
    ensures Next(s, a, n) == s
  {
    hide List, Unlist, KeysUnderAny;
  }

  lemma ExtendKeepsListed(s: State, a: Action, n: nat)
    requires Sound(s) && a.Extend?
    ensures Listed(Shown(Next(s, a, n)))
  {
    hide ListedUnder;
    forall k, t | k in Shown(Next(s, a, n)).cache && t in Shown(Next(s, a, n)).cache[k].content.tags
      ensures ListedUnder(s.index, t, k)
    {
      assert t in Shown(s).cache[k].content.tags;
    }
  }

  lemma {:induction false} RunSound(actions: seq<Action>)
    ensures Sound(Run(actions))
  {
    hide Next, Listed;
    if actions == [] {
      StartSound();
    } else {
      RunSound(actions[..|actions| - 1]);
      NextSound(Run(actions[..|actions| - 1]), actions[|actions| - 1], |actions| - 1);
    }
  }

  lemma StartSound()
    ensures Sound(START)
  {
  }

  // ----------------------------------------------------------- what Get returns

  /** Step `since` found `id` under `key`. */
  ghost predicate WasCurrent(actions: seq<Action>, get: nat, key: string, id: nat, since: nat) {
    && since < |actions| && actions[since] == Look(get, key)
    && key in Run(actions[..since]).cache && Run(actions[..since]).cache[key] == id
  }

  /** A step after `since` read the clock as `now`. */
  ghost predicate WasTimed(actions: seq<Action>, get: nat, now: int, since: nat) {
    exists c :: since < c < |actions| && actions[c] == Clock(get, now)
  }

  /** Step `checked` found that at `now` `id` had expired, or had not. */
  ghost predicate WasJudged(actions: seq<Action>, get: nat, id: nat, now: int, checked: nat, expired: bool) {
    && checked < |actions| && actions[checked] == Judge(get)
    && id in Run(actions[..checked]).responses && Expired(Run(actions[..checked]).responses[id], now) == expired
  }

  ghost predicate Explained(actions: seq<Action>, get: nat, p: Phase) {
    match p
    case Found(key, id, since) => WasCurrent(actions, get, key, id, since)
    case Timed(key, id, now, since) => WasCurrent(actions, get, key, id, since) && WasTimed(actions, get, now, since)
    case Dropping(key, id, now, since, checked) => Settled(actions, get, key, id, now, since, checked, true)
    case Extending(key, id, now, since, checked) => Settled(actions, get, key, id, now, since, checked, false)
    case Returned(key, id, now, since, checked) => Settled(actions, get, key, id, now, since, checked, false)
    case _ => p.since < |actions| && actions[p.since] == Look(get, p.key)
  }

  ghost predicate Settled(actions: seq<Action>, get: nat, key: string, id: nat, now: int, since: nat, checked: nat,
                          expired: bool)
  {
    && WasCurrent(actions, get, key, id, since) && WasJudged(actions, get, id, now, checked, expired)
    && WasTimed(actions[..checked], get, now, since)
  }

  lemma Prefixes(actions: seq<Action>, a: Action, i: nat)
    requires i <= |actions|
    ensures (actions + [a])[..i] == actions[..i]
  {
  }

  lemma TimedStill(actions: seq<Action>, a: Action, get: nat, now: int, since: nat)
    requires WasTimed(actions, get, now, since)
    ensures WasTimed(actions + [a], get, now, since)
  {
    var c :| since < c < |actions| && actions[c] == Clock(get, now);
    assert (actions + [a])[c] == Clock(get, now);
  }

  lemma SettledStill(actions: seq<Action>, a: Action, get: nat, key: string, id: nat, now: int, since: nat,
                     checked: nat, expired: bool)
    requires Settled(actions, get, key, id, now, since, checked, expired)
    ensures Settled(actions + [a], get, key, id, now, since, checked, expired)
  {
    hide Run, WasTimed;
    Prefixes(actions, a, since);
    Prefixes(actions, a, checked);
  }

  lemma LaterStill(actions: seq<Action>, a: Action, get: nat, p: Phase)
    requires Explained(actions, get, p)
    ensures Explained(actions + [a], get, p)
  {
    hide Run, Settled, WasTimed;
    if p.Found? || p.Timed? { Prefixes(actions, a, p.since); }
    match p {
      case Timed(_, _, now, since) => TimedStill(actions, a, get, now, since);
      case Dropping(key, id, now, since, checked) =>
        SettledStill(actions, a, get, key, id, now, since, checked, true);
      case Extending(key, id, now, since, checked) =>
        SettledStill(actions, a, get, key, id, now, since, checked, false);
      case Returned(key, id, now, since, checked) =>
        SettledStill(actions, a, get, key, id, now, since, checked, false);
      case _ =>
    }
  }

  lemma LookExplained(actions: seq<Action>, get: nat, key: string)
    requires get !in Run(actions).gets
    ensures Explained(actions + [Look(get, key)], get, Run(actions + [Look(get, key)]).gets[get])
  {
    var a := Look(get, key);
    RunMore(actions, a);
    Prefixes(actions, a, |actions|);
    assert actions[..|actions|] == actions && (actions + [a])[|actions|] == a;
    hide Run, Unlist, List, KeysUnderAny, WasTimed, WasJudged;
  }

  lemma ClockExplained(actions: seq<Action>, get: nat, now: int)
    requires var s := Run(actions); get in s.gets && s.gets[get].Found? && Explained(actions, get, s.gets[get])
    ensures Explained(actions + [Clock(get, now)], get, Run(actions + [Clock(get, now)]).gets[get])
  {
    var a := Clock(get, now);
    RunMore(actions, a);
    hide Run;
    var p := Run(actions).gets[get];
    LaterStill(actions, a, get, p);
    assert (actions + [a])[|actions|] == a;
  }

  lemma JudgeExplained(actions: seq<Action>, get: nat)
    requires var s := Run(actions);
             get in s.gets && s.gets[get].Timed? && s.gets[get].id in s.responses
                 && Explained(actions, get, s.gets[get])
    ensures Explained(actions + [Judge(get)], get, Run(actions + [Judge(get)]).gets[get])
  {
    var a := Judge(get);
    RunMore(actions, a);
    hide Run, WasTimed;
    Prefixes(actions, a, |actions|);
    assert actions[..|actions|] == actions;
    LaterStill(actions, a, get, Run(actions).gets[get]);
  }

  lemma EndExplained(actions: seq<Action>, a: Action, get: nat)
    requires a == Drop(get) || a == Extend(get)
    requires var s := Run(actions); Known(s) && get in s.gets && Enabled(s, a) && Explained(actions, get, s.gets[get])
    ensures Explained(actions + [a], get, Run(actions + [a]).gets[get])
  {
    RunMore(actions, a);
    LaterStill(actions, a, get, Run(actions).gets[get]);
    hide Run, WasTimed, Unlist;
  }

  /** What a step may do to one Get. */
  predicate Concerns(a: Action, get: nat) {
    (a.Look? || a.Clock? || a.Judge? || a.Drop? || a.Extend?) && a.get == get
  }

  lemma Unconcerned(s: State, a: Action, n: nat, get: nat)
    requires !Enabled(s, a) || !Concerns(a, get)
    ensures get in Next(s, a, n).gets <==> get in s.gets
    ensures get in s.gets ==> Next(s, a, n).gets[get] == s.gets[get]
  {
    hide List, Unlist, KeysUnderAny;
  }

  lemma NextExplained(actions: seq<Action>, a: Action, get: nat)
    requires var s := Run(actions); Known(s) && forall g | g in s.gets :: Explained(actions, g, s.gets[g])
    requires get in Run(actions + [a]).gets
    ensures Explained(actions + [a], get, Run(actions + [a]).gets[get])
  {
    hide Run, Explained, Next;
    var s := Run(actions);
    if !Enabled(s, a) || !Concerns(a, get) {
      RunMore(actions, a);
      Unconcerned(s, a, |actions|, get);
      LaterStill(actions, a, get, s.gets[get]);
    } else {
      match a {
        case Look(_, key) => LookExplained(actions, get, key);
        case Clock(_, now) => ClockExplained(actions, get, now);
        case Judge(_) => JudgeExplained(actions, get);
        case Drop(_) => EndExplained(actions, a, get);
        case Extend(_) => EndExplained(actions, a, get);
      }
    }
  }

  lemma {:induction false} AllExplained(actions: seq<Action>, get: nat)
    requires get in Run(actions).gets
    ensures Explained(actions, get, Run(actions).gets[get])
  {
    if actions != [] {
      var front, a := actions[..|actions| - 1], actions[|actions| - 1];
      forall g | g in Run(front).gets ensures Explained(front, g, Run(front).gets[g]) {
        AllExplained(front, g);
      }
      RunSound(front);
      assert actions == front + [a];
      NextExplained(front, a, get);
    }
  }

  /** In every interleaving, a hit was in the store when it was looked up, and
      when it was judged it had not expired at the time read in between. */
  lemma HitWasCurrent(actions: seq<Action>, get: nat)
    requires get in Run(actions).gets && Run(actions).gets[get].Returned?
    ensures var p := Run(actions).gets[get]; Settled(actions, get, p.key, p.id, p.now, p.since, p.checked, false)
  {
    hide Run;
    AllExplained(actions, get);
  }

  // ------------------------------------------------- invalidation is not undone

  /** From step `i` on, what is stored with tag `t` was put after it. */
  ghost predicate Renewed(s: State, t: string, i: nat) {
    forall k | k in s.cache && s.cache[k] in s.responses && t in s.responses[s.cache[k]].content.tags ::
      s.cache[k] in s.putAt && s.putAt[s.cache[k]] > i
  }

  lemma NextRenewed(s: State, a: Action, n: nat, t: string, i: nat)
    requires Known(s) && Renewed(s, t, i) && n > i
    ensures Renewed(Next(s, a, n), t, i)
  {
    hide List, Unlist, KeysUnderAny;
  }

  lemma InvalidateRenews(s: State, tags: seq<string>, n: nat, t: string)
    requires Sound(s) && t in tags
    ensures Renewed(Next(s, Invalidate(tags), n), t, n)
  {
    hide Listed;
    InvalidateSection(s, tags, n);
    NoneCarries(Shown(s), tags);
    var after := Next(s, Invalidate(tags), n);
    forall k | k in after.cache ensures t !in s.responses[after.cache[k]].content.tags {
      assert k in Shown(after).cache && k in Shown(s).cache;
    }
  }

  lemma {:induction false} RunRenewed(actions: seq<Action>, i: nat, t: string)
    requires i < |actions| && actions[i].Invalidate? && t in actions[i].tags
    ensures Renewed(Run(actions), t, i)
  {
    hide Next, Renewed;
    var n := |actions| - 1;
    RunSound(actions[..n]);
    if i == n {
      InvalidateRenews(Run(actions[..n]), actions[n].tags, n, t);
    } else {
      RunRenewed(actions[..n], i, t);
      NextRenewed(Run(actions[..n]), actions[n], n, t, i);
    }
  }

  lemma {:induction false} ResponsesStay(actions: seq<Action>, i: nat, id: nat)
    requires i <= |actions| && id in Run(actions[..i]).responses
    ensures id in Run(actions).responses && SameResponse(Run(actions[..i]), Run(actions), id)
  {
    hide Next;
    if i == |actions| {
      assert actions[..i] == actions;
    } else {
      var n := |actions| - 1;
      assert actions[..n][..i] == actions[..i];
      ResponsesStay(actions[..n], i, id);
      RunSound(actions[..n]);
      NextKnown(Run(actions[..n]), actions[n], n);
    }
  }

  /** A Get that starts after `t` was invalidated never returns a response with
      that tag stored before, whatever runs in between. */
  lemma InvalidatedNeverReturns(actions: seq<Action>, i: nat, t: string, get: nat)
    requires i < |actions| && actions[i].Invalidate? && t in actions[i].tags
    requires get in Run(actions).gets && Run(actions).gets[get].Returned? && Run(actions).gets[get].since > i
    ensures var id := Run(actions).gets[get].id;
            && id in Run(actions).responses && id in Run(actions).putAt
            && (t in Run(actions).responses[id].content.tags ==> Run(actions).putAt[id] > i)
  {
    var p := Run(actions).gets[get];
    HitWasCurrent(actions, get);
    var seen := actions[..p.since];
    RunRenewed(seen, i, t);
    RunSound(seen);
    hide Run, Listed;
    ResponsesStay(actions, p.since, p.id);
  }

  lemma RunMore(actions: seq<Action>, a: Action)
    ensures Run(actions + [a]) == Next(Run(actions), a, |actions|)
  {
    assert (actions + [a])[..|actions|] == actions;
  }

  // -------------------------------------------------- what a drop takes with it

  /** The response whose deadline a step sets, and the deadline. */
  function Write(s: State, a: Action): Option<(nat, int)> {
    if !Enabled(s, a) then None
    else
      match a
      case Put(id, _, c, ttl) => Some((id, c.cachedAt + ttl))
      case Extend(get) =>
        var p := s.gets[get];
        if p.id in s.responses && s.responses[p.id].content.sliding then
          Some((p.id, p.now + s.responses[p.id].content.slide))
        else None
      case _ => None
  }

  function WriteAt(actions: seq<Action>, w: nat): Option<(nat, int)>
    requires w < |actions|
  {
    Write(Run(actions[..w]), actions[w])
  }

  predicate Writes(actions: seq<Action>, w: nat, id: nat)
    requires w < |actions|
  {
    WriteAt(actions, w).Some? && WriteAt(actions, w).value.0 == id
  }

  /** Step `w` is the last to set the deadline of `id`. */
  predicate WritesLast(actions: seq<Action>, w: nat, id: nat) {
    w < |actions| && Writes(actions, w, id) && forall v | w < v < |actions| :: !Writes(actions, v, id)
  }

  lemma NextDeadline(s: State, a: Action, n: nat, id: nat)
    requires Known(s) && id in Next(s, a, n).responses
    ensures var deadline := Next(s, a, n).responses[id].deadline;
            if Write(s, a).Some? && Write(s, a).value.0 == id then deadline == Write(s, a).value.1
            else id in s.responses && deadline == s.responses[id].deadline
  {
    hide List, Unlist, KeysUnderAny;
  }

  lemma WritesEarlier(actions: seq<Action>, w: nat)
    requires w < |actions| - 1
    ensures WriteAt(actions, w) == WriteAt(actions[..|actions| - 1], w)
  {
    assert actions[..|actions| - 1][..w] == actions[..w];
  }

  /** A deadline is what its last write made it. */
  lemma {:induction false} DeadlineIsLastWrite(actions: seq<Action>, id: nat) returns (w: nat)
    requires id in Run(actions).responses
    ensures WritesLast(actions, w, id) && WriteAt(actions, w).value.1 == Run(actions).responses[id].deadline
  {
    hide Next, Write;
    HasSteps(actions, id);
    var n := |actions| - 1;
    var front := actions[..n];
    RunSound(front);
    NextDeadline(Run(front), actions[n], n, id);
    w := n;
    if !Writes(actions, n, id) {
      w := DeadlineIsLastWrite(front, id);
      WritesEarlier(actions, w);
      forall v | w < v < |actions| ensures !Writes(actions, v, id) {
        if v < n {
          WritesEarlier(actions, v);
          assert !Writes(front, v, id);
        }
      }
    }
  }

  lemma HasSteps(actions: seq<Action>, id: nat)
    requires id in Run(actions).responses
    ensures actions != []
  {
  }

  /** What `key` holds is what it held at step `i`, or was put later. */
  ghost predicate SameOrLater(s: State, key: string, id: nat, i: nat) {
    key in s.cache ==> s.cache[key] == id || (s.cache[key] in s.putAt && s.putAt[s.cache[key]] > i)
  }

  lemma NextSameOrLater(s: State, a: Action, n: nat, key: string, id: nat, i: nat)
    requires Known(s) && SameOrLater(s, key, id, i) && n > i
    ensures SameOrLater(Next(s, a, n), key, id, i)
  {
    hide List, Unlist, KeysUnderAny;
  }

  lemma {:induction false} HeldSince(actions: seq<Action>, get: nat, key: string, id: nat, i: nat)
    requires WasCurrent(actions, get, key, id, i)
    ensures SameOrLater(Run(actions), key, id, i)
  {
    var n := |actions| - 1;
    RunSound(actions[..n]);
    if i < n {
      assert actions[..n][..i] == actions[..i];
      HeldSince(actions[..n], get, key, id, i);
      hide Next;
      NextSameOrLater(Run(actions[..n]), actions[n], n, key, id, i);
    }
  }

  /** A response put at some step is written no earlier. */
  lemma {:induction false} PutIsWrite(actions: seq<Action>, id: nat)
    requires id in Run(actions).putAt
    ensures Run(actions).putAt[id] < |actions| && Writes(actions, Run(actions).putAt[id], id)
  {
    hide Next, Write;
    if actions != [] {
      var n := |actions| - 1;
      NextPut(Run(actions[..n]), actions[n], n, id);
      if id in Run(actions[..n]).putAt {
        PutIsWrite(actions[..n], id);
        WritesEarlier(actions, Run(actions[..n]).putAt[id]);
      }
    }
  }

  lemma NextPut(s: State, a: Action, n: nat, id: nat)
    requires id in Next(s, a, n).putAt
    ensures if id in s.putAt then
              Next(s, a, n).putAt[id] == s.putAt[id] || (Next(s, a, n).putAt[id] == n && WritesTo(s, a, id))
            else Next(s, a, n).putAt[id] == n && WritesTo(s, a, id)
  {
    hide List, Unlist, KeysUnderAny;
  }

  predicate WritesTo(s: State, a: Action, id: nat) {
    Write(s, a).Some? && Write(s, a).value.0 == id
  }

  /** Would be taken by the drop of `get`, though not expired at the time that Get
      had read. */
  predicate TakesFresh(s: State, get: nat)
    requires get in s.gets && s.gets[get].Dropping?
  {
    var p := s.gets[get];
    p.key in s.cache && s.cache[p.key] in s.responses && !Expired(s.responses[s.cache[p.key]], p.now)
  }

  /** Step `w` put another response than the one looked up, or extended the same
      one after it was judged, for longer than to the time read. */
  predicate Overtakes(actions: seq<Action>, w: nat, p: Phase, id: nat)
    requires p.Dropping?
  {
    && WritesLast(actions, w, id) && p.now <= WriteAt(actions, w).value.1
    && if id == p.id then p.checked < w else p.since < w
  }

  /** The drop takes a response that had not expired at the time its Get had read
      exactly when the key now holds one whose deadline another call set past that
      time: one put since the lookup, or the same one, extended since it was
      judged. */
  lemma DropTakesFreshExactly(actions: seq<Action>, get: nat)
    requires get in Run(actions).gets && Run(actions).gets[get].Dropping?
    ensures var s := Run(actions);
            var p := s.gets[get];
            TakesFresh(s, get) <==>
              p.key in s.cache && exists w: nat :: Overtakes(actions, w, p, s.cache[p.key])
  {
    hide Run, Write;
    var s := Run(actions);
    var p := s.gets[get];
    AllExplained(actions, get);
    RunSound(actions);
    if p.key in s.cache {
      var id := s.cache[p.key];
      var w := DeadlineIsLastWrite(actions, id);
      assert forall v: nat | Overtakes(actions, v, p, id) :: v == w;
      if TakesFresh(s, get) {
        WrittenSince(actions, get, id, w);
        assert Overtakes(actions, w, p, id);
      }
    }
  }

  lemma WrittenSince(actions: seq<Action>, get: nat, id: nat, w: nat)
    requires get in Run(actions).gets && Run(actions).gets[get].Dropping?
    requires Explained(actions, get, Run(actions).gets[get]) && TakesFresh(Run(actions), get)
    requires id == Run(actions).cache[Run(actions).gets[get].key]
    requires WritesLast(actions, w, id) && WriteAt(actions, w).value.1 == Run(actions).responses[id].deadline
    ensures var p := Run(actions).gets[get]; if id == p.id then p.checked < w else p.since < w
  {
    hide Run, Write;
    var p := Run(actions).gets[get];
    if id == p.id {
      if w < p.checked {
        var before := actions[..p.checked];
        var v := DeadlineIsLastWrite(before, id);
        SameLastWrite(actions, p.checked, v, w, id);
      } else {
        JudgeWritesNothing(actions, p.checked);
      }
    } else {
      HeldSince(actions, get, p.key, p.id, p.since);
      PutIsWrite(actions, id);
    }
  }

  lemma SameLastWrite(actions: seq<Action>, n: nat, v: nat, w: nat, id: nat)
    requires w < n <= |actions| && WritesLast(actions, w, id) && WritesLast(actions[..n], v, id)
    ensures v == w && WriteAt(actions[..n], v) == WriteAt(actions, w)
  {
    hide Write, Run;
    assert actions[..n][..w] == actions[..w] && actions[..n][..v] == actions[..v];
    assert Writes(actions[..n], w, id) && Writes(actions, v, id);
  }

  lemma JudgeWritesNothing(actions: seq<Action>, w: nat)
    requires w < |actions| && actions[w].Judge?
    ensures WriteAt(actions, w).None?
  {
  }

  /** The gap in Get has a price: the drop of an expired response takes with it
      one that was put after the lookup. */
  lemma DropTakesFreshResponse(stale: Content, fresher: Content)
    requires stale.cachedAt == 0 && fresher.cachedAt == 9
    ensures var before := [Put(0, "k", stale, 5), Look(0, "k"), Clock(0, 9), Judge(0)] + [Put(1, "k", fresher, 5)];
            && Shown(Run(before)).cache == map["k" := Entry(fresher, 14)]
            && Shown(Run(before + [Drop(0)])).cache == map[]
  {
    hide List, Unlist, Run;
    var judged := [Put(0, "k", stale, 5), Look(0, "k"), Clock(0, 9), Judge(0)];
    PutMeanwhile(stale, fresher);
    RunMore(judged + [Put(1, "k", fresher, 5)], Drop(0));
  }

  lemma PutMeanwhile(stale: Content, fresher: Content)
    requires stale.cachedAt == 0 && fresher.cachedAt == 9
    ensures Run([Put(0, "k", stale, 5), Look(0, "k"), Clock(0, 9), Judge(0)] + [Put(1, "k", fresher, 5)]) ==
            State(map[0 := Entry(stale, 5), 1 := Entry(fresher, 14)], map[0 := 0, 1 := 4], map["k" := 1],
                  List(List(map[], stale.tags, "k"), fresher.tags, "k"), map[0 := Dropping("k", 0, 9, 1, 3)])
  {
    hide List, Unlist, Run;
    JudgedExpired(stale);
    RunMore([Put(0, "k", stale, 5), Look(0, "k"), Clock(0, 9), Judge(0)], Put(1, "k", fresher, 5));
  }

  lemma JudgedExpired(stale: Content)
    requires stale.cachedAt == 0
    ensures Run([Put(0, "k", stale, 5), Look(0, "k"), Clock(0, 9), Judge(0)]) ==
            State(map[0 := Entry(stale, 5)], map[0 := 0], map["k" := 0], List(map[], stale.tags, "k"),
                  map[0 := Dropping("k", 0, 9, 1, 3)])
  {
    hide List, Unlist, Run;
    assert Run([]) == START by { Nothing(); }
    RunMore([], Put(0, "k", stale, 5));
    RunMore([Put(0, "k", stale, 5)], Look(0, "k"));
    RunMore([Put(0, "k", stale, 5), Look(0, "k")], Clock(0, 9));
    RunMore([Put(0, "k", stale, 5), Look(0, "k"), Clock(0, 9)], Judge(0));
    assert [] + [Put(0, "k", stale, 5)] == [Put(0, "k", stale, 5)];
    assert [Put(0, "k", stale, 5)] + [Look(0, "k")] == [Put(0, "k", stale, 5), Look(0, "k")];
    assert [Put(0, "k", stale, 5), Look(0, "k")] + [Clock(0, 9)] == [Put(0, "k", stale, 5), Look(0, "k"), Clock(0, 9)];
    assert [Put(0, "k", stale, 5), Look(0, "k"), Clock(0, 9)] + [Judge(0)]
        == [Put(0, "k", stale, 5), Look(0, "k"), Clock(0, 9), Judge(0)];
  }

  lemma Nothing()
    ensures Run([]) == START
  {
  }

  // ---------------------------------------------------------- a Get left alone

  /** No two keys share a response. */
  ghost predicate Distinct(s: State) {
    forall j, k | j in s.cache && k in s.cache && s.cache[j] == s.cache[k] :: j == k
  }

  lemma NextDistinct(s: State, a: Action, n: nat)
    requires Known(s) && Distinct(s)
    ensures Distinct(Next(s, a, n))
  {
    hide List, Unlist, KeysUnderAny;
  }

  lemma {:induction false} RunDistinct(actions: seq<Action>)
    ensures Distinct(Run(actions))
  {
    hide Next, Listed, Distinct;
    if actions == [] {
      assert Distinct(START) by { StartDistinct(); }
    } else {
      RunDistinct(actions[..|actions| - 1]);
      RunSound(actions[..|actions| - 1]);
      NextDistinct(Run(actions[..|actions| - 1]), actions[|actions| - 1], |actions| - 1);
    }
  }

  lemma StartDistinct()
    ensures Distinct(START)
  {
  }

  /** Every step a `Get` may take, in turn; those that do not apply do nothing. */
  function Steps(get: nat, key: string, now: int): seq<Action> {
    [Look(get, key), Clock(get, now), Judge(get), Drop(get), Extend(get)]
  }

  /** The steps of one `Get` with nothing in between are the operation on values:
      they leave the store as it does, and return what it does. */
  lemma AloneIsGet(actions: seq<Action>, get: nat, key: string, now: int)
    requires get !in Run(actions).gets
    ensures var s, t := Run(actions), Run(actions + Steps(get, key, now));
            && Shown(t) == DoGet(Shown(s), key, now) && get in t.gets
            && match Hit(Shown(s), key, now)
               case None => t.gets[get].Missed?
               case Some(e) =>
                 t.gets[get].Returned? && t.gets[get].id in t.responses && t.responses[t.gets[get].id] == e
  {
    hide Run, Next, Distinct, Listed, DoGet, Hit;
    RunSound(actions);
    RunDistinct(actions);
    var s, n := Run(actions), |actions|;
    RunFive(actions, Look(get, key), Clock(get, now), Judge(get), Drop(get), Extend(get));
    if key !in s.cache {
      AloneMisses(s, get, key, now, n);
    } else if Expired(s.responses[s.cache[key]], now) {
      AloneDrops(s, get, key, now, n);
    } else {
      AloneHits(s, get, key, now, n);
    }
  }

  lemma RunFive(actions: seq<Action>, a: Action, b: Action, c: Action, d: Action, e: Action)
    ensures var n, s := |actions|, Run(actions);
            Run(actions + [a, b, c, d, e])
            == Next(Next(Next(Next(Next(s, a, n), b, n + 1), c, n + 2), d, n + 3), e, n + 4)
  {
    hide Run, Next;
    RunMore(actions, a);
    RunMore(actions + [a], b);
    RunMore(actions + [a] + [b], c);
    RunMore(actions + [a] + [b] + [c], d);
    RunMore(actions + [a] + [b] + [c] + [d], e);
    assert actions + [a] + [b] + [c] + [d] + [e] == actions + [a, b, c, d, e];
  }

  /** The state after the steps of one `Get`. */
  function After(s: State, get: nat, key: string, now: int, n: nat): State {
    Next(Next(Next(Next(Next(s, Look(get, key), n), Clock(get, now), n + 1), Judge(get), n + 2), Drop(get), n + 3),
         Extend(get), n + 4)
  }

  lemma AloneMisses(s: State, get: nat, key: string, now: int, n: nat)
    requires Known(s) && get !in s.gets && key !in s.cache
    ensures var t := After(s, get, key, now, n);
            Shown(t) == DoGet(Shown(s), key, now) && Hit(Shown(s), key, now).None?
            && get in t.gets && t.gets[get].Missed?
  {
  }

  /** After looking, timing and judging, the store is as it was. */
  lemma AloneJudged(s: State, get: nat, key: string, now: int, n: nat)
    requires Known(s) && get !in s.gets && key in s.cache
    ensures var t := Next(Next(Next(s, Look(get, key), n), Clock(get, now), n + 1), Judge(get), n + 2);
            var id := s.cache[key];
            && t == s.(gets := t.gets) && get in t.gets
            && t.gets[get] == if Expired(s.responses[id], now) then Dropping(key, id, now, n, n + 2)
                              else if s.responses[id].content.sliding then Extending(key, id, now, n, n + 2)
                              else Returned(key, id, now, n, n + 2)
  {
    var a := Next(s, Look(get, key), n);
    assert a == s.(gets := s.gets[get := Found(key, s.cache[key], n)]);
    var b := Next(a, Clock(get, now), n + 1);
    assert b == s.(gets := b.gets) && b.gets[get] == Timed(key, s.cache[key], now, n);
    assert Next(b, Judge(get), n + 2) == Judged(b, get, b.gets[get], n + 2);
  }

  lemma AloneDrops(s: State, get: nat, key: string, now: int, n: nat)
    requires Known(s) && get !in s.gets && key in s.cache && Expired(s.responses[s.cache[key]], now)
    ensures var t := After(s, get, key, now, n);
            Shown(t) == DoGet(Shown(s), key, now) && Hit(Shown(s), key, now).None?
            && get in t.gets && t.gets[get].Missed?
  {
    AloneJudged(s, get, key, now, n);
    RemoveSection(s, key);
    var t := Next(Next(Next(s, Look(get, key), n), Clock(get, now), n + 1), Judge(get), n + 2);
    hide Unlist, Next;
    DropNext(t, get, n + 3);
    assert Shown(Unlisted(t, key)) == Shown(Unlisted(s, key));
  }

  lemma DropNext(t: State, get: nat, n: nat)
    requires get in t.gets && t.gets[get].Dropping?
    ensures var p := t.gets[get];
            Next(Next(t, Drop(get), n), Extend(get), n + 1)
            == Unlisted(t, p.key).(gets := t.gets[get := Missed(p.key, p.since)])
  {
    hide Unlisted;
  }

  lemma ExtendNext(t: State, get: nat, n: nat)
    requires get in t.gets && (t.gets[get].Extending? || t.gets[get].Returned?) && t.gets[get].id in t.responses
    ensures var p, u := t.gets[get], Next(Next(t, Drop(get), n), Extend(get), n + 1);
            u == if p.Returned? then t
                 else t.(responses := t.responses[p.id := Extended(t.responses[p.id], p.now)],
                         gets := t.gets[get := Returned(p.key, p.id, p.now, p.since, p.checked)])
  {
  }

  lemma AloneHits(s: State, get: nat, key: string, now: int, n: nat)
    requires Known(s) && Distinct(s) && get !in s.gets && key in s.cache && !Expired(s.responses[s.cache[key]], now)
    ensures var t := After(s, get, key, now, n);
            Shown(t) == DoGet(Shown(s), key, now) && get in t.gets && t.gets[get].Returned?
            && t.gets[get].id in t.responses && Hit(Shown(s), key, now) == Some(t.responses[t.gets[get].id])
  {
    AloneJudged(s, get, key, now, n);
    var t := Next(Next(Next(s, Look(get, key), n), Clock(get, now), n + 1), Judge(get), n + 2);
    hide Unlist, Next, Follow;
    ExtendNext(t, get, n + 3);
    FollowMoved(s.cache, s.responses, key, Extended(s.responses[s.cache[key]], now));
  }
}
