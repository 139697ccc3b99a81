/**
 The session store of admin_app/auth.py: signed tokens over an allow-list of session ids.

 Over every run the store is a function of its history: a session is live exactly from its
 creation until it expires or is revoked. JSON and the keyed hash are parameters, and so is
 each new session id, which the source draws at random.
 */
module Sessions {
  import opened Wrappers
  import opened Bytes
  import opened Base64

  /** The parsed payload; `exp` is None when it is not an integer. */
  datatype Claims = Claims(v: int, sub: Option<string>, sid: string, iat: int, exp: Option<int>)

  datatype Loaded = NotJson | NotAnObject | Object(claims: Claims)

  datatype Config = Config(username: Option<string>, secret: Option<string>, ttl: int)

  datatype Tools = Tools(
    dump: Claims -> seq<Byte>,
    load: seq<Byte> -> Loaded,
    mac: (string, string) -> seq<Byte>)

  /** Raised: the exception the source lets through when the payload is no JSON object. */
  datatype Outcome = Accepted(claims: Claims) | Refused | Raised

  /** Parsing gives back what was dumped. */
  ghost predicate IsFaithful(tools: Tools) {
    forall c :: tools.load(tools.dump(c)) == Object(c)
  }

  /* ---------- Tokens ---------- */

  /** Both sides of the first dot. */
  function SplitToken(token: string): Option<(string, string)> {
    if token == "" then None
    else if token[0] == '.' then Some(("", token[1..]))
    else
      var rest := SplitToken(token[1..]);
      if rest.None? then None else Some(([token[0]] + rest.value.0, rest.value.1))
  }

  function ClaimsFor(config: Config, sid: string, now: int): Claims {
    Claims(1, config.username, sid, now, Some(now + config.ttl))
  }

  function SecretText(config: Config): string {
    if config.secret.None? then "None" else config.secret.value
  }

  function TokenFor(config: Config, tools: Tools, sid: string, now: int): string {
    var payload := Encode(tools.dump(ClaimsFor(config, sid, now)));
    payload + "." + Encode(tools.mac(SecretText(config), payload))
  }

  /** What the source looks at before it touches the store. */
  predicate IsReadable(token: Option<string>, config: Config) {
    token.Some? && token.value != "" && config.secret.Some? && config.secret.value != ""
  }

  /** The claims of a token this configuration signed, whatever the clock and the store say. */
  function Authenticated(token: Option<string>, config: Config, tools: Tools): Outcome {
    if !IsReadable(token, config) then Refused
    else
      var parts := SplitToken(token.value);
      if parts.None? then Refused
      else
        var (payload, signature) := parts.value;
        if Decode(signature) != Some(tools.mac(config.secret.value, payload)) then Refused
        else if Decode(payload).None? then Refused
        else
          match tools.load(Decode(payload).value)
          case NotJson => Refused
          case NotAnObject => Raised
          case Object(c) => if c.v != 1 || c.sub != config.username then Refused else Accepted(c)
  }

  function Check(token: Option<string>, config: Config, tools: Tools, active: map<string, int>, now: int): Outcome {
    var outcome := Authenticated(token, config, tools);
    if !outcome.Accepted? then outcome
    else
      var c := outcome.claims;
      if c.exp.None? || c.exp.value <= now then Refused
      else if c.sid !in active || active[c.sid] != c.exp.value then Refused
      else outcome
  }

  function Live(active: map<string, int>, now: int): map<string, int> {
    map sid | sid in active && active[sid] > now :: active[sid]
  }

  /* ---------- The store ---------- */

  class SessionStore {
    var active: map<string, int>

    constructor ()
      ensures active == map[]
    {
      active := map[];
    }

    method Cleanup(now: int)
      modifies this
      ensures active == Live(old(active), now)
    {
      active := map sid | sid in active && active[sid] > now :: active[sid];
    }

    method Create(config: Config, tools: Tools, sid: string, now: int) returns (token: string)
      modifies this
      ensures active == After(old(active), Event.Create(sid, now), config, tools)
      ensures token == TokenFor(config, tools, sid, now)
    {
      hide Encode, Live;
      Cleanup(now);
      var expiry := now + config.ttl;
      active := active[sid := expiry];
      var payload := Encode(tools.dump(Claims(1, config.username, sid, now, Some(expiry))));
      var signature := tools.mac(SecretText(config), payload);
      return payload + "." + Encode(signature);
    }

    method Verify(token: Option<string>, config: Config, tools: Tools, now: int) returns (outcome: Outcome)
      modifies this
      ensures active == After(old(active), Event.Verify(token, now), config, tools)
      ensures outcome == Check(token, config, tools, Live(old(active), now), now)
      ensures forall c :: outcome == Accepted(c) <==>
                && Carries(token, c, config, tools)
                && c.exp.Some? && c.exp.value > now && c.sid in old(active) && old(active)[c.sid] == c.exp.value
    {
      hide Encode, Decode, Decoded, SplitToken, Carries;
      forall c
        ensures Check(token, config, tools, Live(active, now), now) == Accepted(c) <==>
                  && Carries(token, c, config, tools)
                  && c.exp.Some? && c.exp.value > now && c.sid in active && active[c.sid] == c.exp.value
      {
        AcceptedExactly(token, c, config, tools, active, now);
      }
      if token.None? || token.value == "" || config.secret.None? || config.secret.value == "" {
        return Refused;
      }
      Cleanup(now);
      var parts := SplitToken(token.value);
      if parts.None? {
        return Refused;
      }
      var (payload, signature) := parts.value;
      var expected := tools.mac(config.secret.value, payload);
      if Decode(signature) != Some(expected) || Decode(payload).None? {
        return Refused;
      }
      var loaded := tools.load(Decode(payload).value);
      if loaded.NotJson? {
        return Refused;
      }
      if loaded.NotAnObject? {
        return Raised;
      }
      var claims := loaded.claims;
      if claims.v != 1 || claims.sub != config.username {
        return Refused;
      }
      if claims.exp.None? || claims.exp.value <= now {
        return Refused;
      }
      if claims.sid !in active || active[claims.sid] != claims.exp.value {
        return Refused;
      }
      return Accepted(claims);
    }

    method Revoke(token: Option<string>, config: Config, tools: Tools, now: int)
      modifies this
      ensures active == After(old(active), Event.Revoke(token, now), config, tools)
    {
      hide Authenticated;
      UnreadableIsRefused(token, config, tools);
      var outcome := Verify(token, config, tools, now);
      if outcome.Accepted? {
        active := active - {outcome.claims.sid};
      }
    }
  }

  /* ---------- Runs ---------- */

  datatype Event =
    | Create(sid: string, now: int)
    | Verify(token: Option<string>, now: int)
    | Revoke(token: Option<string>, now: int)

  function After(active: map<string, int>, e: Event, config: Config, tools: Tools): map<string, int> {
    match e
    case Create(sid, now) => Live(active, now)[sid := now + config.ttl]
    case Verify(token, now) => if IsReadable(token, config) then Live(active, now) else active
    case Revoke(token, now) =>
      if !IsReadable(token, config) then active
      else
        var outcome := Check(token, config, tools, Live(active, now), now);
        if outcome.Accepted? then Live(active, now) - {outcome.claims.sid} else Live(active, now)
  }

  function Run(events: seq<Event>, config: Config, tools: Tools): map<string, int> {
    if events == [] then map[]
    else After(Run(events[..|events| - 1], config, tools), events[|events| - 1], config, tools)
  }

  /** The clock never goes back, up to the moment `now`. */
  predicate ClockRuns(events: seq<Event>, now: int) {
    (forall i, j :: 0 <= i < j < |events| ==> events[i].now <= events[j].now)
    && (forall i :: 0 <= i < |events| ==> events[i].now <= now)
  }

  /** No session id is drawn twice. */
  predicate FreshIds(events: seq<Event>) {
    forall i, j :: 0 <= i < j < |events| && events[i].Create? && events[j].Create? ==> events[i].sid != events[j].sid
  }

  predicate Opens(e: Event, sid: string, exp: int, config: Config) {
    e.Create? && e.sid == sid && e.now + config.ttl == exp
  }

  /** A revocation with a genuine token of this session. */
  predicate Ends(e: Event, sid: string, exp: int, config: Config, tools: Tools) {
    e.Revoke? &&
    var outcome := Authenticated(e.token, config, tools);
    outcome.Accepted? && outcome.claims.sid == sid && outcome.claims.exp == Some(exp)
  }

  /** The session was opened at event `i` and not ended since. */
  predicate OpenSince(events: seq<Event>, i: nat, sid: string, exp: int, config: Config, tools: Tools) {
    i < |events| && Opens(events[i], sid, exp, config)
    && forall j :: i < j < |events| ==> !Ends(events[j], sid, exp, config, tools)
  }

  predicate IsOpen(events: seq<Event>, sid: string, exp: int, config: Config, tools: Tools) {
    exists i: nat :: i < |events| && OpenSince(events, i, sid, exp, config, tools)
  }

  predicate Holds(active: map<string, int>, sid: string, exp: int) {
    sid in active && active[sid] == exp
  }

  lemma OpenGrows(events: seq<Event>, sid: string, exp: int, config: Config, tools: Tools)
    requires events != []
    ensures var n := |events| - 1;
            IsOpen(events, sid, exp, config, tools) <==>
              Opens(events[n], sid, exp, config)
              || (IsOpen(events[..n], sid, exp, config, tools) && !Ends(events[n], sid, exp, config, tools))
  {
    hide Opens, Ends;
    var n := |events| - 1;
    if i: nat :| i < |events| && OpenSince(events, i, sid, exp, config, tools) {
      if i < n {
        assert OpenSince(events[..n], i, sid, exp, config, tools);
      }
    }
    if i: nat :| i < n && OpenSince(events[..n], i, sid, exp, config, tools) {
      if !Ends(events[n], sid, exp, config, tools) {
        assert events[..n][i] == events[i];
        assert OpenSince(events, i, sid, exp, config, tools);
      }
    }
    if Opens(events[n], sid, exp, config) {
      assert OpenSince(events, n, sid, exp, config, tools);
    }
  }

  /** An id that is opened now was never open before. */
  lemma FreshIsNew(events: seq<Event>, sid: string, exp: int, config: Config, tools: Tools)
    requires FreshIds(events) && events != [] && events[|events| - 1].Create? && events[|events| - 1].sid == sid
    ensures !IsOpen(events[..|events| - 1], sid, exp, config, tools)
  {
    hide Ends;
  }

  lemma LiveLater(active: map<string, int>, t: int, now: int)
    requires t <= now
    ensures Live(Live(active, t), now) == Live(active, now)
  {
  }

  lemma {:induction false} StoreIsItsHistory(
    events: seq<Event>, sid: string, exp: int, config: Config, tools: Tools, now: int)
    requires ClockRuns(events, now) && FreshIds(events)
    ensures Holds(Live(Run(events, config, tools), now), sid, exp) <==>
              IsOpen(events, sid, exp, config, tools) && now < exp
  {
    hide Authenticated, IsOpen, Ends, Opens;
    if events == [] {
      NothingIsOpen(sid, exp, config, tools);
    } else {
      var n := |events| - 1;
      var e := events[n];
      StoreIsItsHistory(events[..n], sid, exp, config, tools, now);
      StoreIsItsHistory(events[..n], sid, exp, config, tools, e.now);
      OpenGrows(events, sid, exp, config, tools);
      var before := Run(events[..n], config, tools);
      LiveLater(before, e.now, now);
      match e
      case Create(id, t) => {
        if id == sid {
          FreshIsNew(events, sid, exp, config, tools);
        }
        OpensIs(e, sid, exp, config, tools);
      }
      case Verify(token, t) => OpensIs(e, sid, exp, config, tools);
      case Revoke(token, t) => {
        OpensIs(e, sid, exp, config, tools);
        RevokeStep(before, token, t, sid, exp, config, tools, now);
      }
    }
  }

  lemma NothingIsOpen(sid: string, exp: int, config: Config, tools: Tools)
    ensures !IsOpen([], sid, exp, config, tools)
  {
  }

  lemma OpensIs(e: Event, sid: string, exp: int, config: Config, tools: Tools)
    ensures Opens(e, sid, exp, config) <==> e.Create? && e.sid == sid && e.now + config.ttl == exp
    ensures Ends(e, sid, exp, config, tools) ==> e.Revoke?
  {
    hide Authenticated;
  }

  lemma RevokeStep(
    before: map<string, int>, token: Option<string>, t: int, sid: string, exp: int, config: Config, tools: Tools, now: int)
    requires t <= now
    ensures Holds(Live(After(before, Revoke(token, t), config, tools), now), sid, exp) <==>
              Holds(Live(before, now), sid, exp) && !Ends(Revoke(token, t), sid, exp, config, tools)
  {
    UnreadableIsRefused(token, config, tools);
    hide Authenticated, IsReadable;
    LiveLater(before, t, now);
  }

  lemma UnreadableIsRefused(token: Option<string>, config: Config, tools: Tools)
    ensures !IsReadable(token, config) ==> Authenticated(token, config, tools) == Refused
  {
  }

  /* ---------- What verification accepts ---------- */

  /** A token is accepted exactly when it is genuine and its session is open and not expired. */
  lemma VerifyIsItsHistory(events: seq<Event>, token: Option<string>, config: Config, tools: Tools, now: int)
    requires ClockRuns(events, now) && FreshIds(events)
    ensures var genuine := Authenticated(token, config, tools);
            Check(token, config, tools, Live(Run(events, config, tools), now), now).Accepted? <==>
              && genuine.Accepted? && genuine.claims.exp.Some?
              && IsOpen(events, genuine.claims.sid, genuine.claims.exp.value, config, tools)
              && now < genuine.claims.exp.value
  {
    var genuine := Authenticated(token, config, tools);
    hide Authenticated, IsOpen, Live, Run, ClockRuns, FreshIds;
    if genuine.Accepted? && genuine.claims.exp.Some? {
      StoreIsItsHistory(events, genuine.claims.sid, genuine.claims.exp.value, config, tools, now);
    }
  }

  lemma {:induction false} FirstDotSplits(payload: string, rest: string)
    requires '.' !in payload
    ensures SplitToken(payload + "." + rest) == Some((payload, rest))
  {
    var token := payload + "." + rest;
    if payload == "" {
      assert token == "." + rest && token[1..] == rest;
    } else {
      assert payload[0] in payload && payload == [payload[0]] + payload[1..];
      FirstDotSplits(payload[1..], rest);
      assert token[1..] == payload[1..] + "." + rest;
    }
  }

  /** The two parts are those around the first dot. */
  lemma {:induction false} SplitExactly(token: string, payload: string, rest: string)
    ensures SplitToken(token) == Some((payload, rest)) <==> '.' !in payload && token == payload + "." + rest
  {
    if '.' !in payload && token == payload + "." + rest {
      FirstDotSplits(payload, rest);
    }
    if SplitToken(token) == Some((payload, rest)) {
      SplitJoins(token);
    }
  }

  lemma {:induction false} SplitJoins(token: string)
    requires SplitToken(token).Some?
    ensures var (payload, rest) := SplitToken(token).value; '.' !in payload && token == payload + "." + rest
  {
    if token[0] == '.' {
      assert token == "" + "." + token[1..];
    } else {
      SplitJoins(token[1..]);
      var (payload, rest) := SplitToken(token[1..]).value;
      assert token == [token[0]] + token[1..] == [token[0]] + (payload + "." + rest);
    }
  }

  /** The token is a payload and its keyed hash under this secret, with a dot between them. */
  ghost predicate IsSigned(token: string, payload: string, secret: string, tools: Tools) {
    '.' !in payload
    && exists signature :: token == payload + "." + signature && Decode(signature) == Some(tools.mac(secret, payload))
  }

  /** A token that carries claims of this configuration, under its own secret. */
  ghost predicate Carries(token: Option<string>, c: Claims, config: Config, tools: Tools) {
    && token.Some? && config.secret.Some? && config.secret.value != ""
    && c.v == 1 && c.sub == config.username
    && exists payload :: IsSigned(token.value, payload, config.secret.value, tools)
                         && Decode(payload).Some? && tools.load(Decode(payload).value) == Object(c)
  }

  lemma SignedExactly(token: string, payload: string, secret: string, tools: Tools)
    ensures IsSigned(token, payload, secret, tools) <==>
              && SplitToken(token).Some? && SplitToken(token).value.0 == payload
              && Decode(SplitToken(token).value.1) == Some(tools.mac(secret, payload))
  {
    hide SplitToken, Decode;
    if IsSigned(token, payload, secret, tools) {
      var signature :| token == payload + "." + signature && Decode(signature) == Some(tools.mac(secret, payload));
      SplitExactly(token, payload, signature);
    }
    if SplitToken(token).Some? && SplitToken(token).value.0 == payload {
      SplitExactly(token, payload, SplitToken(token).value.1);
    }
  }

  /** What a signed token holds in front of its first dot. */
  function SignedPart(token: Option<string>, config: Config, tools: Tools): Option<string> {
    if !IsReadable(token, config) then None
    else
      var parts := SplitToken(token.value);
      if parts.None? || Decode(parts.value.1) != Some(tools.mac(config.secret.value, parts.value.0)) then None
      else Some(parts.value.0)
  }

  lemma SignedPartExactly(token: Option<string>, payload: string, config: Config, tools: Tools)
    ensures SignedPart(token, config, tools) == Some(payload) <==>
              && token.Some? && config.secret.Some? && config.secret.value != ""
              && IsSigned(token.value, payload, config.secret.value, tools)
  {
    hide Decode, IsSigned;
    if token.Some? && config.secret.Some? {
      SignedExactly(token.value, payload, config.secret.value, tools);
    }
  }

  /** How the claims follow from the signed part. */
  lemma OutcomeOfPart(token: Option<string>, config: Config, tools: Tools)
    ensures var part := SignedPart(token, config, tools);
            Authenticated(token, config, tools) ==
              if part.None? || Decode(part.value).None? then Refused
              else match tools.load(Decode(part.value).value)
                   case NotJson => Refused
                   case NotAnObject => Raised
                   case Object(c) => if c.v != 1 || c.sub != config.username then Refused else Accepted(c)
  {
    hide Decode;
  }

  /** Claims are taken from a token exactly when it carries them. */
  lemma ClaimsExactly(token: Option<string>, c: Claims, config: Config, tools: Tools)
    ensures Authenticated(token, config, tools) == Accepted(c) <==> Carries(token, c, config, tools)
  {
    hide Authenticated, SignedPart, Decode, IsSigned;
    OutcomeOfPart(token, config, tools);
    var part := SignedPart(token, config, tools);
    if part.Some? {
      SignedPartExactly(token, part.value, config, tools);
    }
    if Carries(token, c, config, tools) {
      var payload :| IsSigned(token.value, payload, config.secret.value, tools)
                     && Decode(payload).Some? && tools.load(Decode(payload).value) == Object(c);
      SignedPartExactly(token, payload, config, tools);
    }
  }

  /**
   Verification accepts claims exactly when the token carries them, they have not expired, and
   the store holds their session with that expiry.
   */
  lemma AcceptedExactly(token: Option<string>, c: Claims, config: Config, tools: Tools, active: map<string, int>, now: int)
    ensures Check(token, config, tools, Live(active, now), now) == Accepted(c) <==>
              && Carries(token, c, config, tools)
              && c.exp.Some? && c.exp.value > now && c.sid in active && active[c.sid] == c.exp.value
  {
    hide Authenticated, Carries;
    ClaimsExactly(token, c, config, tools);
  }

  /** The program lets an exception through exactly for a signed payload that is JSON but no object. */
  lemma RaisedExactly(token: Option<string>, config: Config, tools: Tools, active: map<string, int>, now: int)
    ensures Check(token, config, tools, active, now) == Raised <==>
              && token.Some? && config.secret.Some? && config.secret.value != ""
              && exists payload :: IsSigned(token.value, payload, config.secret.value, tools)
                                   && Decode(payload).Some? && tools.load(Decode(payload).value) == NotAnObject
  {
    hide Authenticated, SignedPart, Decode, IsSigned;
    OutcomeOfPart(token, config, tools);
    var part := SignedPart(token, config, tools);
    if part.Some? {
      SignedPartExactly(token, part.value, config, tools);
    }
    if token.Some? && config.secret.Some? && config.secret.value != "" {
      forall payload | IsSigned(token.value, payload, config.secret.value, tools) ensures part == Some(payload) {
        SignedPartExactly(token, payload, config, tools);
      }
    }
  }

  /** A created token reads back as the claims it was made of. */
  lemma CreatedTokenIsGenuine(config: Config, tools: Tools, sid: string, now: int)
    requires IsFaithful(tools) && config.secret.Some? && config.secret.value != ""
    ensures Authenticated(Some(TokenFor(config, tools, sid, now)), config, tools) == Accepted(ClaimsFor(config, sid, now))
  {
    hide Encode, Decode, SplitToken;
    var payload := Encode(tools.dump(ClaimsFor(config, sid, now)));
    var mac := tools.mac(config.secret.value, payload);
    EncodeIsSpell(tools.dump(ClaimsFor(config, sid, now)));
    FirstDotSplits(payload, Encode(mac));
    DecodeUndoesEncode(tools.dump(ClaimsFor(config, sid, now)));
    DecodeUndoesEncode(mac);
  }

  /** Until it is revoked, a created token verifies before its expiry, and never after. */
  lemma CreatedTokenLivesUntilExpiry(events: seq<Event>, i: nat, config: Config, tools: Tools, now: int)
    requires ClockRuns(events, now) && FreshIds(events)
    requires IsFaithful(tools) && config.secret.Some? && config.secret.value != ""
    requires i < |events| && events[i].Create?
    requires forall j :: i < j < |events| ==> !Ends(events[j], events[i].sid, events[i].now + config.ttl, config, tools)
    ensures var token := TokenFor(config, tools, events[i].sid, events[i].now);
            var active := Live(Run(events, config, tools), now);
            Check(Some(token), config, tools, active, now) ==
              if now < events[i].now + config.ttl then Accepted(ClaimsFor(config, events[i].sid, events[i].now)) else Refused
  {
    hide *;
    var sid, exp := events[i].sid, events[i].now + config.ttl;
    var token := TokenFor(config, tools, sid, events[i].now);
    CreatedTokenIsGenuine(config, tools, sid, events[i].now);
    NotEndedIsOpen(events, i, config, tools);
    VerifyIsItsHistory(events, Some(token), config, tools, now);
    CheckOfGenuine(Some(token), config, tools, Live(Run(events, config, tools), now), now);
    ClaimsAre(config, sid, events[i].now);
  }

  lemma ClaimsAre(config: Config, sid: string, now: int)
    ensures ClaimsFor(config, sid, now).sid == sid && ClaimsFor(config, sid, now).exp == Some(now + config.ttl)
  {
  }

  lemma NotEndedIsOpen(events: seq<Event>, i: nat, config: Config, tools: Tools)
    requires i < |events| && events[i].Create?
    requires forall j :: i < j < |events| ==> !Ends(events[j], events[i].sid, events[i].now + config.ttl, config, tools)
    ensures IsOpen(events, events[i].sid, events[i].now + config.ttl, config, tools)
  {
    hide Ends;
    assert OpenSince(events, i, events[i].sid, events[i].now + config.ttl, config, tools);
  }

  lemma CheckOfGenuine(token: Option<string>, config: Config, tools: Tools, active: map<string, int>, now: int)
    requires Authenticated(token, config, tools).Accepted?
    ensures var outcome := Check(token, config, tools, active, now);
            outcome == Refused || outcome == Authenticated(token, config, tools)
  {
    hide Authenticated;
  }

  /** Once a session is revoked, no token naming it is ever accepted again. */
  lemma RevokedStaysRevoked(
    events: seq<Event>, k: nat, token: Option<string>, config: Config, tools: Tools, now: int)
    requires ClockRuns(events, now) && FreshIds(events)
    requires k < |events| && events[k].Revoke?
    requires var used := Check(events[k].token, config, tools, Live(Run(events[..k], config, tools), events[k].now), events[k].now);
             var shown := Authenticated(token, config, tools);
             used.Accepted? && shown.Accepted? && shown.claims.sid == used.claims.sid
    ensures Check(token, config, tools, Live(Run(events, config, tools), now), now) == Refused
  {
    hide Live, Run, Authenticated, IsOpen, ClockRuns, FreshIds;
    PrefixRuns(events, k, now);
    VerifyIsItsHistory(events[..k], events[k].token, config, tools, events[k].now);
    VerifyIsItsHistory(events, token, config, tools, now);
    CheckOfGenuine(token, config, tools, Live(Run(events, config, tools), now), now);
    var used, shown := Authenticated(events[k].token, config, tools).claims, Authenticated(token, config, tools).claims;
    if shown.exp.Some? {
      RevokedIsClosed(events, k, used.sid, used.exp.value, shown.exp.value, config, tools);
    }
  }

  lemma PrefixRuns(events: seq<Event>, k: nat, now: int)
    requires ClockRuns(events, now) && FreshIds(events) && k < |events|
    ensures ClockRuns(events[..k], events[k].now) && FreshIds(events[..k])
  {
  }

  lemma RevokedIsClosed(events: seq<Event>, k: nat, sid: string, exp: int, other: int, config: Config, tools: Tools)
    requires FreshIds(events) && k < |events| && Ends(events[k], sid, exp, config, tools)
    requires IsOpen(events[..k], sid, exp, config, tools)
    ensures !IsOpen(events, sid, other, config, tools)
  {
    hide Ends;
    var i: nat :| i < k && OpenSince(events[..k], i, sid, exp, config, tools);
    assert events[..k][i] == events[i];
    forall j: nat | j < |events| ensures !OpenSince(events, j, sid, other, config, tools) {
      if Opens(events[j], sid, other, config) {
        assert i == j;
      }
    }
  }
}
