/** The authorization code grant of section 4.1 of RFC 6749 with PKCE (RFC 7636),
    as the example server keeps it. */
module AuthCode {
  import opened Options
  import opened DeviceFlow

  const CODE_TTL: int := 60 * SECOND
  const USER: string := "user-42"

  datatype Code = Code(clientID: string, redirectURI: string, scopes: seq<string>, challenge: string, expiresAt: int)

  datatype Form = Form(clientID: string, redirectURI: string, verifier: string)

  datatype Reply = Issued(subject: string, client: string, scopes: seq<string>) | InvalidGrant
      | UnsupportedGrantType | Redirected | Refused

  type Hash = string -> string

  /** `verifyPKCE`, with `hash` for the encoded SHA-256. */
  predicate VerifyPKCE(hash: Hash, verifier: string, challenge: string) {
    verifier != "" && challenge != "" && hash(verifier) == challenge
  }

  function Redeemed(hash: Hash, codes: map<string, Code>, code: string, f: Form, now: int): Reply {
    if code !in codes || now > codes[code].expiresAt then InvalidGrant
    else if f.clientID != codes[code].clientID || f.redirectURI != codes[code].redirectURI then InvalidGrant
    else if !VerifyPKCE(hash, f.verifier, codes[code].challenge) then InvalidGrant
    else Issued(USER, codes[code].clientID, codes[code].scopes)
  }

  class Store {
    var codes: map<string, Code>

    constructor ()
      ensures codes == map[]
    {
      codes := map[];
    }

    /** `authCodeAuthorizePOST`, with a code made for the request. */
    method Authorize(decision: string, code: string, clientID: string, redirectURI: string, scopes: seq<string>,
                     challenge: string, now: int)
      returns (r: Reply)
      modifies this
      ensures r == if decision == "allow" then Redirected else Refused
      ensures codes == if decision == "allow"
                       then old(codes)[code := Code(clientID, redirectURI, scopes, challenge, now + CODE_TTL)]
                       else old(codes)
    {
      if decision != "allow" {
        return Refused;
      }
      codes := codes[code := Code(clientID, redirectURI, scopes, challenge, now + CODE_TTL)];
      return Redirected;
    }

    /** `authCodeToken`: a code is spent by being presented, whatever comes of it. */
    method Token(grantType: string, code: string, f: Form, now: int, hash: Hash) returns (r: Reply)
      modifies this
      ensures r == if grantType != "authorization_code" then UnsupportedGrantType
                   else Redeemed(hash, old(codes), code, f, now)
      ensures codes == if grantType == "authorization_code" then old(codes) - {code} else old(codes)
    {
      if grantType != "authorization_code" {
        return UnsupportedGrantType;
      }
      var rec := None;
      if code in codes {
        rec := Some(codes[code]);
        codes := codes - {code};
      }
      if rec.None? || now > rec.value.expiresAt {
        return InvalidGrant;
      }
      if f.clientID != rec.value.clientID || f.redirectURI != rec.value.redirectURI {
        return InvalidGrant;
      }
      if !VerifyPKCE(hash, f.verifier, rec.value.challenge) {
        return InvalidGrant;
      }
      return Issued(USER, rec.value.clientID, rec.value.scopes);
    }
  }

  // ------------------------------------------------------------------- runs

  datatype Action =
    | Allow(code: string, record: Code, now: int)
    | Redeem(code: string, form: Form, now: int)

  function Next(codes: map<string, Code>, a: Action): map<string, Code> {
    match a
    case Allow(code, record, _) => codes[code := record]
    case Redeem(code, _, _) => codes - {code}
  }

  function Run(actions: seq<Action>): map<string, Code> {
    if actions == [] then map[] else Next(Run(actions[..|actions| - 1]), actions[|actions| - 1])
  }

  /** Codes are fresh, and expire on time. */
  predicate Fresh(actions: seq<Action>) {
    && (forall i | 0 <= i < |actions| && actions[i].Allow? :: actions[i].record.expiresAt <= actions[i].now + CODE_TTL)
    && (forall i, j | 0 <= i < j < |actions| && actions[i].Allow? && actions[j].Allow? ::
      actions[i].code != actions[j].code)
  }

  function ReplyAt(hash: Hash, actions: seq<Action>, j: nat): Reply
    requires j < |actions| && actions[j].Redeem?
  {
    Redeemed(hash, Run(actions[..j]), actions[j].code, actions[j].form, actions[j].now)
  }

  /** Where a code that is held came from, unpresented since. */
  lemma {:induction false} HeldSince(actions: seq<Action>, code: string) returns (i: nat)
    requires code in Run(actions)
    ensures i < |actions| && actions[i].Allow? && actions[i].code == code && actions[i].record == Run(actions)[code]
    ensures forall k | i < k < |actions| :: actions[k].code != code
  {
    var n := |actions| - 1;
    if actions[n].Allow? && actions[n].code == code {
      i := n;
    } else {
      i := HeldSince(actions[..n], code);
    }
  }

  /** A token goes to the client the code was made for, that names the same
      redirection, proves it made the request, and is in time; and this is the
      first time the code is presented. */
  lemma TokenIsEarned(hash: Hash, actions: seq<Action>, j: nat) returns (i: nat)
    requires Fresh(actions) && j < |actions| && actions[j].Redeem? && ReplyAt(hash, actions, j).Issued?
    ensures i < j && actions[i].Allow? && actions[i].code == actions[j].code
    ensures forall k | i < k < j :: actions[k].code != actions[j].code
    ensures var rec, f := actions[i].record, actions[j].form;
            && f.clientID == rec.clientID && f.redirectURI == rec.redirectURI
            && f.verifier != "" && hash(f.verifier) == rec.challenge
            && actions[j].now <= actions[i].now + 60_000_000_000
            && ReplyAt(hash, actions, j) == Issued(USER, rec.clientID, rec.scopes)
  {
    i := HeldSince(actions[..j], actions[j].code);
    assert actions[..j][i] == actions[i];
    assert forall k | i < k < j :: actions[..j][k] == actions[k];
  }

  /** Once presented, a code is gone for good. */
  lemma {:induction false} Spent(actions: seq<Action>, b: nat, i: nat)
    requires Fresh(actions) && b < i < |actions| && actions[b].Allow? && actions[i].Redeem?
            && actions[i].code == actions[b].code
    ensures actions[b].code !in Run(actions)
  {
    var n := |actions| - 1;
    if i < n {
      assert actions[..n][b] == actions[b] && actions[..n][i] == actions[i];
      Spent(actions[..n], b, i);
      assert actions[n].Allow? ==> actions[n].code != actions[b].code;
    }
  }

  /** Presented once, for a token or not, a code never yields one again. */
  lemma OneToken(hash: Hash, actions: seq<Action>, b: nat, i: nat, j: nat)
    requires Fresh(actions) && b < i < j < |actions| && actions[b].Allow? && actions[i].Redeem? && actions[j].Redeem?
    requires actions[b].code == actions[i].code == actions[j].code
    ensures ReplyAt(hash, actions, j) == InvalidGrant
  {
    assert actions[..j][b] == actions[b] && actions[..j][i] == actions[i];
    Spent(actions[..j], b, i);
  }

  lemma {:induction false} StaysHeld(actions: seq<Action>, i: nat, n: nat)
    requires i < n <= |actions| && actions[i].Allow? && forall k | i < k < n :: actions[k].code != actions[i].code
    ensures actions[i].code in Run(actions[..n]) && Run(actions[..n])[actions[i].code] == actions[i].record
  {
    assert actions[..n][..n - 1] == actions[..n - 1];
    if n > i + 1 {
      StaysHeld(actions, i, n - 1);
    }
  }

  /** What the token request at `j` must show for the code made at `i`. */
  predicate Earns(hash: Hash, actions: seq<Action>, i: nat, j: nat)
    requires j < |actions| && actions[j].Redeem?
  {
    && i < j && actions[i].Allow? && actions[i].code == actions[j].code
    && (forall k | i < k < j :: actions[k].code != actions[j].code)
    && var rec, f := actions[i].record, actions[j].form;
       && f.clientID == rec.clientID && f.redirectURI == rec.redirectURI
       && f.verifier != "" && rec.challenge != "" && hash(f.verifier) == rec.challenge
       && actions[j].now <= rec.expiresAt
  }

  /** Every answer of every run: a token exactly to a request that earns it, for the
      client and scopes of the code, and invalid_grant to any other. */
  lemma AnswerExactly(hash: Hash, actions: seq<Action>, j: nat)
    requires Fresh(actions) && j < |actions| && actions[j].Redeem?
    ensures ReplyAt(hash, actions, j).Issued? <==> exists i: nat :: Earns(hash, actions, i, j)
    ensures forall i: nat | Earns(hash, actions, i, j) ::
              ReplyAt(hash, actions, j) == Issued("user-42", actions[i].record.clientID, actions[i].record.scopes)
    ensures !ReplyAt(hash, actions, j).Issued? ==> ReplyAt(hash, actions, j) == InvalidGrant
  {
    forall i: nat | Earns(hash, actions, i, j)
      ensures ReplyAt(hash, actions, j) == Issued("user-42", actions[i].record.clientID, actions[i].record.scopes)
    {
      StaysHeld(actions, i, j);
    }
    if ReplyAt(hash, actions, j).Issued? {
      var i := TokenIsEarned(hash, actions, j);
      StaysHeld(actions, i, j);
      assert Earns(hash, actions, i, j);
    }
  }
}
