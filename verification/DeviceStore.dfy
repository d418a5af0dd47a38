/** The device grants in memory: one object under two maps. */
module DeviceStore {
  import opened Options
  import opened DeviceFlow

  class DeviceGrant {
    const deviceCode: string
    const userCode: string
    const scopes: seq<string>
    const expiresAt: int
    var state: Decision
    var subject: string
    var nextPoll: int

    constructor (deviceCode: string, userCode: string, scopes: seq<string>, now: int)
      ensures this.deviceCode == deviceCode && this.userCode == userCode && this.scopes == scopes
      ensures expiresAt == now + DEVICE_TTL && state == Pending && subject == "" && nextPoll == now
    {
      this.deviceCode, this.userCode, this.scopes := deviceCode, userCode, scopes;
      expiresAt, state, subject, nextPoll := now + DEVICE_TTL, Pending, "", now;
    }
  }

  ghost function GrantOf(g: DeviceGrant): Grant
    reads g
  {
    Grant(g.userCode, g.scopes, g.state, g.expiresAt, g.nextPoll)
  }

  /** Each grant is in both maps, under its own codes. */
  ghost predicate Linked(devices: map<string, DeviceGrant>, users: map<string, DeviceGrant>) {
    && (forall dc | dc in devices :: devices[dc].deviceCode == dc && Under(users, devices[dc].userCode, devices[dc]))
    && (forall uc | uc in users :: users[uc].userCode == uc && Under(devices, users[uc].deviceCode, users[uc]))
  }

  ghost predicate Under(grants: map<string, DeviceGrant>, code: string, g: DeviceGrant) {
    code in grants && grants[code] == g
  }

  lemma LinkedMore(devices: map<string, DeviceGrant>, users: map<string, DeviceGrant>, g: DeviceGrant)
    requires Linked(devices, users) && g.deviceCode !in devices && g.userCode !in users
    ensures Linked(devices[g.deviceCode := g], users[g.userCode := g])
  {
  }

  lemma LinkedLess(devices: map<string, DeviceGrant>, users: map<string, DeviceGrant>, g: DeviceGrant)
    requires Linked(devices, users) && Under(devices, g.deviceCode, g)
    ensures Under(users, g.userCode, g) && Linked(devices - {g.deviceCode}, users - {g.userCode})
  {
  }

  ghost function UsersOf(users: map<string, DeviceGrant>): map<string, string> {
    map uc | uc in users :: users[uc].deviceCode
  }

  lemma UsersMore(users: map<string, DeviceGrant>, g: DeviceGrant)
    requires g.userCode !in users
    ensures UsersOf(users[g.userCode := g]) == UsersOf(users)[g.userCode := g.deviceCode]
  {
  }

  datatype Reply = Answered(answer: Answer) | InvalidClient | UnsupportedGrantType

  class Store {
    var byDeviceCode: map<string, DeviceGrant>
    var byUserCode: map<string, DeviceGrant>

    constructor ()
      ensures Valid() && Shown() == START
    {
      byDeviceCode, byUserCode := map[], map[];
    }

    /** Both maps hold the same grants, and approved ones have a subject. */
    ghost predicate Valid()
      reads this, byDeviceCode.Values
    {
      && Linked(byDeviceCode, byUserCode)
      && (forall dc | dc in byDeviceCode && byDeviceCode[dc].state == Approved :: byDeviceCode[dc].subject == SUBJECT)
    }

    ghost function Shown(): State
      reads this, byDeviceCode.Values
    {
      State(map dc | dc in byDeviceCode :: GrantOf(byDeviceCode[dc]), UsersOf(byUserCode))
    }

    /** `deviceAuth`, of a client that is known, with codes made for it. */
    method DeviceAuth(clientID: string, scope: seq<string>, dc: string, uc: string, now: int) returns (ok: bool)
      requires Valid() && dc !in byDeviceCode && uc !in byUserCode
      modifies this
      ensures Valid() && ok == (clientID == CLIENT)
      ensures Shown() == if ok then DoStart(old(Shown()), dc, uc, if scope == [] then ["channels:read"] else scope, now)
                         else old(Shown())
    {
      if clientID != CLIENT {
        return false;
      }
      var scopes := scope;
      if |scopes| == 0 {
        scopes := ["channels:read"];
      }
      Register(dc, uc, scopes, now);
      return true;
    }

    /** The lock section of `deviceAuth`. */
    method Register(dc: string, uc: string, scopes: seq<string>, now: int)
      requires Valid() && dc !in byDeviceCode && uc !in byUserCode
      modifies this
      ensures Valid() && Shown() == DoStart(old(Shown()), dc, uc, scopes, now)
    {
      hide Linked, UsersOf;
      var g := new DeviceGrant(dc, uc, scopes, now);
      LinkedMore(byDeviceCode, byUserCode, g);
      UsersMore(byUserCode, g);
      byDeviceCode := byDeviceCode[dc := g];
      byUserCode := byUserCode[uc := g];
      forall k | k in byDeviceCode
        ensures GrantOf(byDeviceCode[k]) == DoStart(old(Shown()), dc, uc, scopes, now).grants[k]
      {
      }
      assert Shown().grants == DoStart(old(Shown()), dc, uc, scopes, now).grants;
    }

    /** The lock section of `deviceVerifyPOST`. */
    method DeviceVerify(uc: string, decision: string, now: int) returns (known: bool)
      requires Valid()
      modifies byDeviceCode.Values
      ensures Valid() && known == (uc in byUserCode)
      ensures Shown() == DoVerify(old(Shown()), uc, decision == "allow", now)
    {
      if uc !in byUserCode {
        return false;
      }
      var g := byUserCode[uc];
      if g.state == Pending && now < g.expiresAt {
        if decision == "allow" {
          g.state := Approved;
          g.subject := "user-99";
        } else {
          g.state := Denied;
        }
      }
      assert Shown().grants == DoVerify(old(Shown()), uc, decision == "allow", now).grants;
      return true;
    }

    method Drop(g: DeviceGrant)
      requires Valid() && g.deviceCode in byDeviceCode && byDeviceCode[g.deviceCode] == g
      modifies this
      ensures Valid() && Shown() == Without(old(Shown()), g.deviceCode)
    {
      hide Linked;
      LinkedLess(byDeviceCode, byUserCode, g);
      byDeviceCode := byDeviceCode - {g.deviceCode};
      byUserCode := byUserCode - {g.userCode};
      assert Shown().grants == Without(old(Shown()), g.deviceCode).grants;
      assert Shown().users == Without(old(Shown()), g.deviceCode).users;
    }

    /** The next poll of a grant may come no sooner than `until`. */
    method Postpone(g: DeviceGrant, until: int)
      requires Valid() && g.deviceCode in byDeviceCode && byDeviceCode[g.deviceCode] == g
      modifies g
      ensures Valid()
      ensures var was := old(Shown());
              Shown() == was.(grants := was.grants[g.deviceCode := was.grants[g.deviceCode].(nextPoll := until)])
    {
      hide UsersOf;
      g.nextPoll := until;
      ghost var was := old(Shown());
      assert Shown().grants == was.grants[g.deviceCode := was.grants[g.deviceCode].(nextPoll := until)];
    }

    /** `deviceToken` */
    method DeviceToken(grantType: string, clientID: string, dc: string, now: int) returns (r: Reply)
      requires Valid()
      modifies this, byDeviceCode.Values
      ensures Valid()
      ensures r == if grantType != "urn:ietf:params:oauth:grant-type:device_code" then UnsupportedGrantType
                   else if clientID != CLIENT || dc == "" then InvalidClient
                   else Answered(Polled(old(Shown()), dc, now))
      ensures Shown() == if r.Answered? then DoPoll(old(Shown()), dc, now) else old(Shown())
    {
      if grantType != "urn:ietf:params:oauth:grant-type:device_code" {
        return UnsupportedGrantType;
      }
      if clientID != CLIENT || dc == "" {
        return InvalidClient;
      }
      if dc !in byDeviceCode {
        return Answered(ExpiredToken);
      }
      var g := byDeviceCode[dc];
      assert g.deviceCode == dc;
      hide Linked, UsersOf;
      if now > g.expiresAt {
        Drop(g);
        return Answered(ExpiredToken);
      }
      if now < g.nextPoll {
        Postpone(g, now + POLL_MIN + SECOND);
        return Answered(SlowDown);
      }
      match g.state {
        case Pending =>
          Postpone(g, now + POLL_MIN);
          return Answered(AuthorizationPending);
        case Denied =>
          Drop(g);
          return Answered(AccessDenied);
        case Approved =>
          Drop(g);
          return Answered(Token(g.subject, CLIENT, g.scopes));
      }
    }
  }

  /** In the state of a valid store both maps hold the same grants. */
  lemma ValidAgrees(s: Store)
    requires s.Valid()
    ensures MapsAgree(s.Shown())
  {
  }
}
