/** The device authorization grant of RFC 8628, as the example server keeps it:
    grants under a device code and a user code, and polls that must not come too
    often. */
module DeviceFlow {
  import opened Options

  const SECOND: int := 1_000_000_000
  const DEVICE_TTL: int := 300 * SECOND
  const POLL_MIN: int := 2 * SECOND
  const CLIENT: string := "tv-app"
  const SUBJECT: string := "user-99"

  datatype Decision = Pending | Approved | Denied

  datatype Grant = Grant(userCode: string, scopes: seq<string>, decision: Decision, expiresAt: int, nextPoll: int)

  /** Grants by device code, and the device code under each user code. */
  datatype State = State(grants: map<string, Grant>, users: map<string, string>)

  datatype Answer = Token(subject: string, client: string, scopes: seq<string>) | ExpiredToken | SlowDown
      | AuthorizationPending | AccessDenied

  const START: State := State(map[], map[])

  // ------------------------------------------------------------ lock sections

  function DoStart(s: State, dc: string, uc: string, scopes: seq<string>, born: int): State {
    State(s.grants[dc := Grant(uc, scopes, Pending, born + DEVICE_TTL, born)], s.users[uc := dc])
  }

  function DoVerify(s: State, uc: string, allow: bool, now: int): State {
    if uc in s.users && s.users[uc] in s.grants then
      var dc := s.users[uc];
      var g := s.grants[dc];
      if g.decision == Pending && now < g.expiresAt then
        s.(grants := s.grants[dc := g.(decision := if allow then Approved else Denied)])
      else s
    else s
  }

  function Without(s: State, dc: string): State
    requires dc in s.grants
  {
    State(s.grants - {dc}, s.users - {s.grants[dc].userCode})
  }

  function DoPoll(s: State, dc: string, now: int): State {
    if dc !in s.grants then s
    else
      var g := s.grants[dc];
      if now > g.expiresAt then Without(s, dc)
      else if now < g.nextPoll then s.(grants := s.grants[dc := g.(nextPoll := now + POLL_MIN + SECOND)])
      else if g.decision == Pending then s.(grants := s.grants[dc := g.(nextPoll := now + POLL_MIN)])
      else Without(s, dc)
  }

  function Polled(s: State, dc: string, now: int): Answer {
    if dc !in s.grants || now > s.grants[dc].expiresAt then ExpiredToken
    else if now < s.grants[dc].nextPoll then SlowDown
    else
      match s.grants[dc].decision
      case Pending => AuthorizationPending
      case Denied => AccessDenied
      case Approved => Token(SUBJECT, CLIENT, s.grants[dc].scopes)
  }

  // ------------------------------------------------------------------- runs

  /** `born` is when the request of `Begin` read the clock, before the lock. */
  datatype Action =
    | Begin(dc: string, uc: string, scopes: seq<string>, born: int, now: int)
    | Verify(uc: string, allow: bool, now: int)
    | Poll(dc: string, now: int)

  function Next(s: State, a: Action): State {
    match a
    case Begin(dc, uc, scopes, born, _) => DoStart(s, dc, uc, scopes, born)
    case Verify(uc, allow, now) => DoVerify(s, uc, allow, now)
    case Poll(dc, now) => DoPoll(s, dc, now)
  }

  function Run(actions: seq<Action>): State {
    if actions == [] then START else Next(Run(actions[..|actions| - 1]), actions[|actions| - 1])
  }

  /** Codes are fresh and the clock does not go back. */
  predicate Fair(actions: seq<Action>) {
    && (forall i, j | 0 <= i < j < |actions| :: actions[i].now <= actions[j].now)
    && (forall i | 0 <= i < |actions| && actions[i].Begin? :: actions[i].born <= actions[i].now)
    && (forall i, j | 0 <= i < j < |actions| && actions[i].Begin? && actions[j].Begin? ::
          actions[i].dc != actions[j].dc && actions[i].uc != actions[j].uc)
  }

  predicate Begun(actions: seq<Action>, i: nat, dc: string, uc: string) {
    i < |actions| && actions[i].Begin? && actions[i].dc == dc && actions[i].uc == uc
  }

  /** Both maps hold the same grants. */
  ghost predicate MapsAgree(s: State) {
    && (forall dc | dc in s.grants :: s.grants[dc].userCode in s.users && s.users[s.grants[dc].userCode] == dc)
    && (forall uc | uc in s.users :: s.users[uc] in s.grants && s.grants[s.users[uc]].userCode == uc)
  }

  /** A verdict of the one in-time visit that found the grant undecided. */
  ghost predicate Decided(actions: seq<Action>, i: nat, j: nat, g: Grant) {
    && i < j < |actions|
    && actions[j] == Verify(g.userCode, g.decision == Approved, actions[j].now) && actions[j].now < g.expiresAt
    && forall k | i < k < j && actions[k].Verify? :: actions[k].uc != g.userCode
  }

  /** How a grant came to be as it is: begun at `i`, and decided since or not. */
  ghost predicate ExplainedBy(actions: seq<Action>, i: nat, dc: string, g: Grant) {
    && Begun(actions, i, dc, g.userCode) && g.scopes == actions[i].scopes && g.expiresAt == actions[i].born + DEVICE_TTL
    && if g.decision == Pending then Undecided(actions, i, g) else exists j: nat :: Decided(actions, i, j, g)
  }

  ghost predicate Undecided(actions: seq<Action>, i: nat, g: Grant) {
    forall k | i < k < |actions| && actions[k].Verify? && actions[k].now < g.expiresAt :: actions[k].uc != g.userCode
  }

  ghost predicate Explained(actions: seq<Action>, dc: string, g: Grant) {
    exists i: nat :: ExplainedBy(actions, i, dc, g)
  }

  ghost predicate AllExplained(actions: seq<Action>, s: State) {
    forall dc | dc in s.grants :: Explained(actions, dc, s.grants[dc])
  }

  lemma Later(actions: seq<Action>, a: Action, dc: string, g: Grant)
    requires Explained(actions, dc, g)
    requires g.decision == Pending ==> !(a.Verify? && a.uc == g.userCode && a.now < g.expiresAt)
    ensures Explained(actions + [a], dc, g)
  {
    var i: nat :| ExplainedBy(actions, i, dc, g);
    var more := actions + [a];
    if g.decision != Pending {
      var j: nat :| Decided(actions, i, j, g);
      assert Decided(more, i, j, g);
    }
    assert ExplainedBy(more, i, dc, g);
  }

  lemma SameGrant(actions: seq<Action>, dc: string, g: Grant, nextPoll: int)
    requires Explained(actions, dc, g)
    ensures Explained(actions, dc, g.(nextPoll := nextPoll))
  {
    var h := g.(nextPoll := nextPoll);
    var i: nat :| ExplainedBy(actions, i, dc, g);
    if g.decision != Pending {
      var j: nat :| Decided(actions, i, j, g);
      assert Decided(actions, i, j, h);
    }
    assert ExplainedBy(actions, i, dc, h);
  }

  lemma NowDecided(actions: seq<Action>, dc: string, g: Grant, allow: bool, now: int)
    requires Explained(actions, dc, g) && g.decision == Pending && now < g.expiresAt
    requires forall k | 0 <= k < |actions| :: actions[k].now <= now
    ensures Explained(actions + [Verify(g.userCode, allow, now)], dc,
                      g.(decision := if allow then Approved else Denied))
  {
    var i: nat :| ExplainedBy(actions, i, dc, g);
    var more, h := actions + [Verify(g.userCode, allow, now)], g.(decision := if allow then Approved else Denied);
    assert Decided(more, i, |actions|, h);
    assert ExplainedBy(more, i, dc, h);
  }

  lemma FairFront(actions: seq<Action>)
    requires Fair(actions) && actions != []
    ensures Fair(actions[..|actions| - 1])
    ensures forall k | 0 <= k < |actions| - 1 :: actions[k].now <= actions[|actions| - 1].now
  {
  }

  lemma BeginKeeps(actions: seq<Action>, s: State, a: Action)
    requires MapsAgree(s) && AllExplained(actions, s) && a.Begin? && Fair(actions + [a])
    ensures MapsAgree(Next(s, a)) && AllExplained(actions + [a], Next(s, a))
  {
    var more, t := actions + [a], Next(s, a);
    forall dc | dc in s.grants ensures dc != a.dc && s.grants[dc].userCode != a.uc {
      var i: nat :| ExplainedBy(actions, i, dc, s.grants[dc]);
      assert more[i] == actions[i] && more[|actions|] == a;
    }
    forall dc | dc in t.grants ensures Explained(more, dc, t.grants[dc]) {
      if dc == a.dc {
        assert ExplainedBy(more, |actions|, dc, t.grants[dc]);
      } else {
        Later(actions, a, dc, s.grants[dc]);
      }
    }
  }

  lemma VerifyKeeps(actions: seq<Action>, s: State, a: Action)
    requires MapsAgree(s) && AllExplained(actions, s) && a.Verify?
    requires forall k | 0 <= k < |actions| :: actions[k].now <= a.now
    ensures MapsAgree(Next(s, a)) && AllExplained(actions + [a], Next(s, a))
  {
    hide Explained;
    var t := Next(s, a);
    forall dc | dc in t.grants ensures Explained(actions + [a], dc, t.grants[dc]) {
      var g := s.grants[dc];
      if t.grants[dc] == g {
        Later(actions, a, dc, g);
      } else {
        NowDecided(actions, dc, g, a.allow, a.now);
      }
    }
  }

  lemma PollKeeps(actions: seq<Action>, s: State, a: Action)
    requires MapsAgree(s) && AllExplained(actions, s) && a.Poll?
    ensures MapsAgree(Next(s, a)) && AllExplained(actions + [a], Next(s, a))
  {
    hide Explained;
    var t := Next(s, a);
    forall dc | dc in t.grants ensures Explained(actions + [a], dc, t.grants[dc]) {
      Later(actions, a, dc, s.grants[dc]);
      SameGrant(actions + [a], dc, s.grants[dc], t.grants[dc].nextPoll);
    }
  }

  lemma {:induction false} RunExplained(actions: seq<Action>)
    requires Fair(actions)
    ensures MapsAgree(Run(actions)) && AllExplained(actions, Run(actions))
  {
    hide MapsAgree, AllExplained, Next, Fair;
    if actions == [] {
      NothingYet();
    } else {
      var front, a := actions[..|actions| - 1], actions[|actions| - 1];
      FairFront(actions);
      RunExplained(front);
      assert actions == front + [a];
      match a {
        case Begin(_, _, _, _, _) => BeginKeeps(front, Run(front), a);
        case Verify(_, _, _) => VerifyKeeps(front, Run(front), a);
        case Poll(_, _) => PollKeeps(front, Run(front), a);
      }
    }
  }

  lemma NothingYet()
    ensures MapsAgree(START) && AllExplained([], START)
  {
  }

  // ---------------------------------------------------------------- promises

  /** The answer step `j` gives. */
  function AnswerAt(actions: seq<Action>, j: nat): Answer
    requires j < |actions| && actions[j].Poll?
  {
    Polled(Run(actions[..j]), actions[j].dc, actions[j].now)
  }

  lemma FairPrefix(actions: seq<Action>, j: nat)
    requires Fair(actions) && j <= |actions|
    ensures Fair(actions[..j])
  {
  }

  /** A token answers a device whose user said yes in time, on the first visit
      with that code, and covers the scopes the device asked for. */
  lemma TokenWasApproved(actions: seq<Action>, j: nat) returns (b: nat, v: nat)
    requires Fair(actions) && j < |actions| && actions[j].Poll? && AnswerAt(actions, j).Token?
    ensures b < v < j && actions[b].Begin? && actions[b].dc == actions[j].dc
    ensures actions[v] == Verify(actions[b].uc, true, actions[v].now)
    ensures actions[v].now < actions[b].born + DEVICE_TTL && actions[j].now <= actions[b].born + DEVICE_TTL
    ensures forall k | b < k < v && actions[k].Verify? :: actions[k].uc != actions[b].uc
    ensures AnswerAt(actions, j).scopes == actions[b].scopes
  {
    var before := actions[..j];
    FairPrefix(actions, j);
    RunExplained(before);
    hide Run;
    var g := Run(before).grants[actions[j].dc];
    b :| ExplainedBy(before, b, actions[j].dc, g);
    v :| Decided(before, b, v, g);
    assert before[b] == actions[b] && before[v] == actions[v];
    assert forall k | b < k < v :: before[k] == actions[k];
  }

  /** A code that was begun and is no longer held stays that way. */
  lemma {:induction false} GoneForGood(actions: seq<Action>, i: nat, dc: string)
    requires Fair(actions) && i <= |actions| && dc !in Run(actions[..i]).grants
    requires exists b :: 0 <= b < i && actions[b].Begin? && actions[b].dc == dc
    ensures dc !in Run(actions).grants
  {
    if i == |actions| {
      assert actions[..i] == actions;
    } else {
      var n := |actions| - 1;
      var b :| 0 <= b < i && actions[b].Begin? && actions[b].dc == dc;
      FairFront(actions);
      assert actions[..n][..i] == actions[..i] && actions[..n][b] == actions[b];
      hide Next;
      GoneForGood(actions[..n], i, dc);
      BegunOnce(actions, b, n);
      NextGone(Run(actions[..n]), actions[n], dc);
    }
  }

  lemma BegunOnce(actions: seq<Action>, i: nat, j: nat)
    requires Fair(actions) && i < j < |actions| && actions[i].Begin?
    ensures actions[j].Begin? ==> actions[j].dc != actions[i].dc
  {
  }

  lemma NextGone(s: State, a: Action, dc: string)
    requires dc !in s.grants && (a.Begin? ==> a.dc != dc)
    ensures dc !in Next(s, a).grants
  {
  }

  lemma WasBegun(actions: seq<Action>, dc: string) returns (b: nat)
    requires Fair(actions) && dc in Run(actions).grants
    ensures b < |actions| && actions[b].Begin? && actions[b].dc == dc
  {
    RunExplained(actions);
    hide Run;
    b :| ExplainedBy(actions, b, dc, Run(actions).grants[dc]);
  }

  /** A device code yields at most one token. */
  lemma OneToken(actions: seq<Action>, i: nat, j: nat)
    requires Fair(actions) && i < j < |actions| && actions[i].Poll? && actions[j].Poll?
            && actions[i].dc == actions[j].dc
    requires AnswerAt(actions, i).Token?
    ensures AnswerAt(actions, j) == ExpiredToken
  {
    var dc := actions[i].dc;
    FairPrefix(actions, i);
    FairPrefix(actions, j);
    var b := WasBegun(actions[..i], dc);
    assert actions[..j][..i + 1] == actions[..i + 1] && actions[..i + 1][..i] == actions[..i];
    assert actions[..j][b] == actions[b];
    GoneForGood(actions[..j], i + 1, dc);
  }

  // -------------------------------------------------------------- poll spacing

  /** An answer that counts: not a refusal to answer, nor about a code that is
      gone. */
  predicate Counts(a: Answer) {
    !a.SlowDown? && !a.ExpiredToken?
  }

  ghost predicate NotBefore(s: State, dc: string, t: int) {
    dc in s.grants ==> s.grants[dc].nextPoll >= t
  }

  /** How long an answer puts the next one off that counts. */
  function Wait(a: Answer): int {
    if a.SlowDown? then POLL_MIN + SECOND else POLL_MIN
  }

  lemma {:induction false} Waits(actions: seq<Action>, i: nat, n: nat)
    requires Fair(actions) && i < n <= |actions| && actions[i].Poll? && !AnswerAt(actions, i).ExpiredToken?
    ensures NotBefore(Run(actions[..n]), actions[i].dc, actions[i].now + Wait(AnswerAt(actions, i)))
  {
    var dc := actions[i].dc;
    assert actions[..n][..n - 1] == actions[..n - 1];
    if n > i + 1 {
      Waits(actions, i, n - 1);
      assert actions[i].now <= actions[n - 1].now;
      if actions[n - 1].Begin? && actions[n - 1].dc == dc {
        FairPrefix(actions, i);
        var b := WasBegun(actions[..i], dc);
      }
    }
  }

  /** Answers that count are at least the polling interval apart. */
  lemma Spaced(actions: seq<Action>, i: nat, j: nat)
    requires Fair(actions) && i < j < |actions| && actions[i].Poll? && actions[j].Poll?
            && actions[i].dc == actions[j].dc
    requires Counts(AnswerAt(actions, i)) && Counts(AnswerAt(actions, j))
    ensures actions[j].now - actions[i].now >= POLL_MIN
  {
    Waits(actions, i, j);
  }

  /** Polling too fast costs a second more. */
  lemma SlowDownCosts(actions: seq<Action>, i: nat, j: nat)
    requires Fair(actions) && i < j < |actions| && actions[i].Poll? && actions[j].Poll?
            && actions[i].dc == actions[j].dc
    requires AnswerAt(actions, i).SlowDown? && Counts(AnswerAt(actions, j))
    ensures actions[j].now - actions[i].now >= POLL_MIN + SECOND
  {
    Waits(actions, i, j);
  }

  // ------------------------------------------------- how long slow_down lasts

  /** `j` is the first poll with its code after `i`. */
  predicate NextPollOf(actions: seq<Action>, i: nat, j: nat) {
    && i < j < |actions| && actions[i].Poll? && actions[j].Poll? && actions[i].dc == actions[j].dc
    && NoneBetween(actions, i, j, actions[i].dc)
  }

  predicate NoneBetween(actions: seq<Action>, i: nat, n: nat, dc: string) {
    forall k | i < k < n && k < |actions| && actions[k].Poll? :: actions[k].dc != dc
  }

  lemma {:induction false} NextPollIs(actions: seq<Action>, i: nat, n: nat)
    requires Fair(actions) && i < n <= |actions| && actions[i].Poll? && !AnswerAt(actions, i).ExpiredToken?
    requires NoneBetween(actions, i, n, actions[i].dc)
    ensures var s := Run(actions[..n]);
            actions[i].dc in s.grants ==>
              s.grants[actions[i].dc].nextPoll == actions[i].now + Wait(AnswerAt(actions, i))
  {
    var dc := actions[i].dc;
    assert actions[..n][..n - 1] == actions[..n - 1];
    if n > i + 1 {
      NextPollIs(actions, i, n - 1);
      if actions[n - 1].Begin? && actions[n - 1].dc == dc {
        FairPrefix(actions, i);
        var b := WasBegun(actions[..i], dc);
      }
    }
  }

  /** What a poll must wait for is decided by the answer before it alone. */
  lemma IntervalExactly(actions: seq<Action>, i: nat, j: nat)
    requires Fair(actions) && NextPollOf(actions, i, j)
    requires !AnswerAt(actions, i).ExpiredToken? && !AnswerAt(actions, j).ExpiredToken?
    ensures AnswerAt(actions, j).SlowDown? <==> actions[j].now < actions[i].now + Wait(AnswerAt(actions, i))
  {
    NextPollIs(actions, i, j);
  }

  lemma StaysExpired(actions: seq<Action>, i: nat, n: nat, k: nat)
    requires Fair(actions) && i < n < k < |actions| && actions[i].Poll? && actions[n].Poll? && actions[k].Poll?
    requires actions[i].dc == actions[n].dc == actions[k].dc && !AnswerAt(actions, i).ExpiredToken?
    ensures AnswerAt(actions, n).ExpiredToken? ==> AnswerAt(actions, k).ExpiredToken?
  {
    if AnswerAt(actions, n).ExpiredToken? {
      var dc := actions[i].dc;
      FairPrefix(actions, i);
      FairPrefix(actions, k);
      var b := WasBegun(actions[..i], dc);
      assert actions[..k][..n + 1] == actions[..n + 1] && actions[..n + 1][..n] == actions[..n];
      assert actions[..k][b] == actions[b];
      GoneForGood(actions[..k], n + 1, dc);
    }
  }

  /** Whether the next answer that counts comes after the longer interval depends
      on when the client polls next: it does not exactly when that poll comes
      after the plain interval and before the longer one, whatever slow_down there
      was before. */
  lemma LongerKeptExactly(actions: seq<Action>, i: nat, n: nat, k: nat)
    requires Fair(actions) && NextPollOf(actions, i, n)
    requires n <= k < |actions| && actions[k].Poll? && actions[k].dc == actions[i].dc
    requires Counts(AnswerAt(actions, i)) && Counts(AnswerAt(actions, k))
    requires forall m | n <= m < k && actions[m].Poll? && actions[m].dc == actions[i].dc ::
               !Counts(AnswerAt(actions, m))
    ensures actions[k].now - actions[i].now >= POLL_MIN + SECOND <==>
              !(POLL_MIN <= actions[n].now - actions[i].now < POLL_MIN + SECOND)
  {
    hide AnswerAt, Fair;
    Spaced(actions, i, k);
    if n < k {
      StaysExpired(actions, i, n, k);
      IntervalExactly(actions, i, n);
      SlowDownCosts(actions, n, k);
      InOrder(actions, i, n);
    }
  }

  lemma InOrder(actions: seq<Action>, i: nat, j: nat)
    requires Fair(actions) && i < j < |actions|
    ensures actions[i].now <= actions[j].now
  {
  }

  const IMPATIENT: seq<Action> :=
    [Begin("dc", "uc", [], 0, 0), Poll("dc", 0), Poll("dc", SECOND), Poll("dc", 4 * SECOND), Poll("dc", 6 * SECOND)]

  /** A client told to slow down is answered again after the plain interval. */
  lemma SlowDownForgotten()
    ensures Fair(IMPATIENT)
    ensures AnswerAt(IMPATIENT, 1) == AuthorizationPending && AnswerAt(IMPATIENT, 2) == SlowDown
            && AnswerAt(IMPATIENT, 3) == AuthorizationPending && AnswerAt(IMPATIENT, 4) == AuthorizationPending
    ensures IMPATIENT[4].now - IMPATIENT[3].now == POLL_MIN
  {
    var g := Grant("uc", [], Pending, DEVICE_TTL, 0);
    var at := (t: int) => State(map["dc" := g.(nextPoll := t)], map["uc" := "dc"]);
    hide Run;
    Steps(IMPATIENT);
    assert Run(IMPATIENT[..1]) == at(0);
    assert Run(IMPATIENT[..2]) == at(POLL_MIN);
    assert Run(IMPATIENT[..3]) == at(SECOND + POLL_MIN + SECOND);
    assert Run(IMPATIENT[..4]) == at(4 * SECOND + POLL_MIN);
  }

  lemma Steps(actions: seq<Action>)
    ensures Run(actions[..0]) == START
    ensures forall i: nat | i < |actions| :: Run(actions[..i + 1]) == Next(Run(actions[..i]), actions[i])
  {
    forall i: nat | i < |actions| ensures Run(actions[..i + 1]) == Next(Run(actions[..i]), actions[i]) {
      assert actions[..i + 1][..i] == actions[..i];
    }
  }

  predicate InWindow(actions: seq<Action>, k: nat, dc: string, from: int, to: int)
    requires k < |actions|
  {
    actions[k].Poll? && actions[k].dc == dc && from <= actions[k].now <= to && Counts(AnswerAt(actions, k))
  }

  /** The answers that count among the first `n` steps, to `dc`, within the window. */
  function Answers(actions: seq<Action>, n: nat, dc: string, from: int, to: int): set<nat>
    requires n <= |actions|
  {
    set k: nat | k < n && InWindow(actions, k, dc, from, to)
  }

  lemma {:induction false} LastAnswer(actions: seq<Action>, n: nat, dc: string, from: int, to: int) returns (k: nat)
    requires Fair(actions) && n <= |actions| && Answers(actions, n, dc, from, to) != {}
    ensures k < n && InWindow(actions, k, dc, from, to)
    ensures actions[k].now >= from + (|Answers(actions, n, dc, from, to)| - 1) * POLL_MIN
  {
    hide InWindow, Fair;
    var before := Answers(actions, n - 1, dc, from, to);
    if InWindow(actions, n - 1, dc, from, to) {
      k := n - 1;
      assert Answers(actions, n, dc, from, to) == before + {k};
      if before != {} {
        var last := LastAnswer(actions, n - 1, dc, from, to);
        Apart(actions, last, k, dc, from, to);
      } else {
        InTime(actions, k, dc, from, to);
      }
    } else {
      assert Answers(actions, n, dc, from, to) == before;
      k := LastAnswer(actions, n - 1, dc, from, to);
    }
  }

  lemma Apart(actions: seq<Action>, i: nat, j: nat, dc: string, from: int, to: int)
    requires Fair(actions) && i < j < |actions|
    requires InWindow(actions, i, dc, from, to) && InWindow(actions, j, dc, from, to)
    ensures actions[j].now >= actions[i].now + POLL_MIN
  {
    Spaced(actions, i, j);
  }

  lemma InTime(actions: seq<Action>, k: nat, dc: string, from: int, to: int)
    requires k < |actions| && InWindow(actions, k, dc, from, to)
    ensures from <= actions[k].now <= to
  {
  }

  /** A window of length L holds at most L / POLL_MIN + 1 of them. */
  lemma PollsAreRationed(actions: seq<Action>, dc: string, from: int, to: int)
    requires Fair(actions) && from <= to
    ensures |set k: nat | k < |actions| && actions[k].Poll? && actions[k].dc == dc && from <= actions[k].now <= to
                && AnswerAt(actions, k) != SlowDown && AnswerAt(actions, k) != ExpiredToken| <=
            (to - from) / 2_000_000_000 + 1
  {
    var all := Answers(actions, |actions|, dc, from, to);
    assert all == set k: nat | k < |actions| && actions[k].Poll? && actions[k].dc == dc && from <= actions[k].now <= to
                      && AnswerAt(actions, k) != SlowDown && AnswerAt(actions, k) != ExpiredToken;
    if all != {} {
      var k := LastAnswer(actions, |actions|, dc, from, to);
      InTime(actions, k, dc, from, to);
    }
  }

  // ------------------------------------------------ what every poll is answered

  /** The grant begun at `b` still waits for its user when step `n` comes: no poll
      since was answered for good. */
  predicate Waiting(actions: seq<Action>, b: nat, n: nat) {
    && b < n <= |actions| && actions[b].Begin?
    && forall k | b < k < n && actions[k].Poll? && actions[k].dc == actions[b].dc ::
         AnswerAt(actions, k).SlowDown? || AnswerAt(actions, k).AuthorizationPending?
  }

  lemma {:induction false} WaitingIsHeld(actions: seq<Action>, b: nat, n: nat)
    requires Fair(actions) && b < n <= |actions| && actions[b].Begin?
    ensures actions[b].dc in Run(actions[..n]).grants <==> Waiting(actions, b, n)
    ensures actions[b].dc in Run(actions[..n]).grants ==>
              var g := Run(actions[..n]).grants[actions[b].dc];
              && g.userCode == actions[b].uc && g.scopes == actions[b].scopes
              && g.expiresAt == actions[b].born + 300_000_000_000
  {
    var dc := actions[b].dc;
    assert actions[..n][..n - 1] == actions[..n - 1];
    if n > b + 1 {
      WaitingIsHeld(actions, b, n - 1);
      BegunOnce(actions, b, n - 1);
      StepHolds(Run(actions[..n - 1]), actions[n - 1], dc);
    }
  }

  /** A step that begins nothing under `dc` leaves its grant, unless it is a poll
      answered for good. */
  lemma StepHolds(s: State, a: Action, dc: string)
    requires a.Begin? ==> a.dc != dc
    ensures dc in Next(s, a).grants <==>
              dc in s.grants && (a.Poll? && a.dc == dc ==>
                                   Polled(s, dc, a.now).SlowDown? || Polled(s, dc, a.now).AuthorizationPending?)
    ensures dc in Next(s, a).grants ==>
              var g, h := s.grants[dc], Next(s, a).grants[dc];
              h.userCode == g.userCode && h.scopes == g.scopes && h.expiresAt == g.expiresAt
  {
  }

  /** The first visit with the user code of `b`, before the code ran out. */
  predicate FirstVisit(actions: seq<Action>, b: nat, v: nat, n: nat)
    requires b < |actions| && actions[b].Begin?
  {
    && b < v < n <= |actions| && actions[v].Verify? && actions[v].uc == actions[b].uc
    && actions[v].now < actions[b].born + 300_000_000_000
    && forall k | b < k < v && actions[k].Verify? :: actions[k].uc != actions[b].uc
  }

  /** Neither the first poll nor one the answer before it put off. */
  predicate InPace(actions: seq<Action>, b: nat, j: nat)
    requires j < |actions| && actions[j].Poll?
  {
    forall i | b < i < j && NextPollOf(actions, i, j) ::
      actions[i].now + (if AnswerAt(actions, i).SlowDown? then 3_000_000_000 else 2_000_000_000) <= actions[j].now
  }

  lemma {:induction false} LastPoll(actions: seq<Action>, b: nat, j: nat, n: nat) returns (i: nat)
    requires b < n <= j < |actions| && actions[j].Poll? && NoneBetween(actions, n - 1, j, actions[j].dc)
    ensures i == b || (b < i && NextPollOf(actions, i, j))
    ensures i == b ==> NoneBetween(actions, b, j, actions[j].dc)
  {
    if n == b + 1 {
      i := b;
    } else if actions[n - 1].Poll? && actions[n - 1].dc == actions[j].dc {
      i := n - 1;
    } else {
      i := LastPoll(actions, b, j, n - 1);
    }
  }

  /** Before its first poll a grant may be polled from when it was asked for. */
  lemma {:induction false} Unpolled(actions: seq<Action>, b: nat, n: nat)
    requires Fair(actions) && b < n <= |actions| && actions[b].Begin? && NoneBetween(actions, b, n, actions[b].dc)
    ensures actions[b].dc in Run(actions[..n]).grants
    ensures Run(actions[..n]).grants[actions[b].dc].nextPoll == actions[b].born
  {
    assert actions[..n][..n - 1] == actions[..n - 1];
    if n > b + 1 {
      Unpolled(actions, b, n - 1);
      BegunOnce(actions, b, n - 1);
    }
  }

  lemma PaceExactly(actions: seq<Action>, b: nat, j: nat)
    requires Fair(actions) && Waiting(actions, b, j) && j < |actions|
    requires actions[j].Poll? && actions[j].dc == actions[b].dc
    ensures actions[j].dc in Run(actions[..j]).grants
    ensures Run(actions[..j]).grants[actions[j].dc].nextPoll <= actions[j].now <==> InPace(actions, b, j)
  {
    hide AnswerAt, Run, Fair;
    WaitingIsHeld(actions, b, j);
    var i := LastPoll(actions, b, j, j);
    if i == b {
      Unpolled(actions, b, j);
      BornBefore(actions, b, j);
    } else {
      NextPollIs(actions, i, j);
    }
  }

  lemma BornBefore(actions: seq<Action>, b: nat, j: nat)
    requires Fair(actions) && b < j < |actions| && actions[b].Begin?
    ensures actions[b].born <= actions[j].now
  {
  }

  /** How the grant begun at `b` stands when step `n` comes. */
  lemma DecisionIs(actions: seq<Action>, b: nat, n: nat)
    requires Fair(actions) && Waiting(actions, b, n)
    ensures actions[b].dc in Run(actions[..n]).grants
    ensures var d := Run(actions[..n]).grants[actions[b].dc].decision;
            && (d == Approved <==> exists v: nat :: FirstVisit(actions, b, v, n) && actions[v].allow)
            && (d == Denied <==> exists v: nat :: FirstVisit(actions, b, v, n) && !actions[v].allow)
  {
    WaitingIsHeld(actions, b, n);
    FairPrefix(actions, n);
    RunExplained(actions[..n]);
    hide Run, AnswerAt;
    var g := Run(actions[..n]).grants[actions[b].dc];
    var i: nat :| ExplainedBy(actions[..n], i, actions[b].dc, g);
    BegunHere(actions, b, i, n);
    if g.decision != Pending {
      var v: nat :| Decided(actions[..n], b, v, g);
      VisitSeen(actions, b, v, n, g);
      assert FirstVisit(actions, b, v, n) && actions[v].allow == (g.decision == Approved);
      forall w: nat | FirstVisit(actions, b, w, n) ensures w == v {
      }
    } else {
      forall w: nat | b < w < n && actions[w].Verify? && actions[w].now < g.expiresAt
        ensures actions[w].uc != g.userCode
      {
        assert actions[..n][w] == actions[w];
      }
    }
  }

  lemma BegunHere(actions: seq<Action>, b: nat, i: nat, n: nat)
    requires Fair(actions) && b < n <= |actions| && i < n && actions[b].Begin?
    requires actions[..n][i].Begin? && actions[..n][i].dc == actions[b].dc
    ensures i == b
  {
    assert actions[..n][i] == actions[i];
  }

  lemma VisitSeen(actions: seq<Action>, b: nat, v: nat, n: nat, g: Grant)
    requires n <= |actions| && Decided(actions[..n], b, v, g)
    ensures v < n && actions[v] == Verify(g.userCode, g.decision == Approved, actions[v].now)
            && actions[v].now < g.expiresAt
    ensures forall k | b < k < v && actions[k].Verify? :: actions[k].uc != g.userCode
  {
    assert actions[..n][v] == actions[v];
    forall k | b < k < v && actions[k].Verify? ensures actions[k].uc != g.userCode {
      assert actions[..n][k] == actions[k];
    }
  }

  /** Every answer of every run: a device whose grant waits, in time and not too
      soon, gets a token exactly if the user's first visit in time allowed it, a
      refusal exactly if that visit did not, and is told to wait exactly if there
      was none. Too soon, it is told to slow down; too late, or without a grant
      that waits, that the token has expired. */
  lemma AnswerExactly(actions: seq<Action>, j: nat, b: nat)
    requires Fair(actions) && j < |actions| && actions[j].Poll?
    requires b < j && actions[b].Begin? && actions[b].dc == actions[j].dc
    ensures var answer := AnswerAt(actions, j);
            if !Waiting(actions, b, j) || actions[j].now > actions[b].born + 300_000_000_000 then answer == ExpiredToken
            else if !InPace(actions, b, j) then answer == SlowDown
            else
              && (answer.Token? <==> exists v: nat :: FirstVisit(actions, b, v, j) && actions[v].allow)
              && (answer == AccessDenied <==> exists v: nat :: FirstVisit(actions, b, v, j) && !actions[v].allow)
              && (answer == AuthorizationPending <==> !exists v: nat :: FirstVisit(actions, b, v, j))
              && (answer.Token? ==> answer == Token("user-99", "tv-app", actions[b].scopes))
  {
    WaitingIsHeld(actions, b, j);
    hide Run, Fair;
    if Waiting(actions, b, j) {
      PaceExactly(actions, b, j);
      DecisionIs(actions, b, j);
    }
  }

  /** A code no one asked for is no code. */
  lemma NeverBegun(actions: seq<Action>, j: nat)
    requires Fair(actions) && j < |actions| && actions[j].Poll?
    requires forall b | 0 <= b < j && actions[b].Begin? :: actions[b].dc != actions[j].dc
    ensures AnswerAt(actions, j) == ExpiredToken
  {
    FairPrefix(actions, j);
    assert forall b | 0 <= b < j :: actions[..j][b] == actions[b];
    if actions[j].dc in Run(actions[..j]).grants {
      var b := WasBegun(actions[..j], actions[j].dc);
    }
  }
}
