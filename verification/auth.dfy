/** Phone-number login (`AuthService`): one-time codes, agents and refresh tokens.

    The three stores are append-only sequences whose positions are their ids, in
    creation order, so "the newest" row is the last one. Time is a parameter in
    milliseconds; `Math.random` is a parameter `r` in [0, 1); signing and
    verifying a token are opaque, so an issued token is represented by its claims
    and a presented refresh token by the claims its verification yields, if any. */
module Auth {
  import opened Common

  datatype Role = FieldAgent | Admin

  datatype Otp = Otp(id: nat, phone: string, code: string, expiresAt: int, used: bool)

  datatype Agent = Agent(id: nat, phone: string, name: string, role: Role)

  datatype RefreshToken = RefreshToken(id: nat, agentId: nat, expiresAt: int, revoked: bool)

  datatype Store = Store(otps: seq<Otp>, agents: seq<Agent>, tokens: seq<RefreshToken>)

  /** The subject and role a token carries. */
  datatype Claims = Claims(sub: nat, role: Role)

  /** What the service returns on a successful verification or refresh: an access
      token, a refresh token (both by their claims) and the access token's life in
      seconds. */
  datatype Tokens = Tokens(access: Claims, refresh: Claims, expiresIn: nat)

  datatype LoginResponse = LoginResponse(message: string, expiresIn: nat)

  datatype AuthError = Unauthorized(message: string)

  const OtpLifetimeMs: int := 5 * 60 * 1000
  const OtpLifetimeSeconds: nat := 300
  const AccessLifetimeSeconds: nat := 900
  const RefreshLifetimeMs: int := 7 * 24 * 60 * 60 * 1000
  const NewAgentName := "New Agent"
  const InvalidOtp := "Invalid or expired OTP"
  const InvalidRefresh := "Invalid refresh token"

  // ---------------------------------------------------------------------------
  // Codes

  /** `Math.floor(100000 + r * 900000)` rendered in decimal: always six digits. */
  function OtpCode(r: real): (code: string)
    requires 0.0 <= r < 1.0
    ensures |code| == 6 && AllDigits(code)
    ensures 100000 <= ParseNat(code) <= 999999
  {
    var n := (100000.0 + r * 900000.0).Floor;
    assert 100000 <= n <= 999999;
    assert Pow10(5) == 100000 && Pow10(6) == 1000000;
    NatToStringLength(n, 6);
    ParseNatToString(n);
    NatToString(n)
  }

  /** An OTP that can still be used by `phone` at instant `now`. */
  predicate Live(o: Otp, phone: string, now: int) {
    o.phone == phone && !o.used && o.expiresAt > now
  }

  // ---------------------------------------------------------------------------
  // Login

  /** Marks used every live OTP of the phone; nothing else changes. */
  function InvalidateLive(otps: seq<Otp>, phone: string, now: int): (r: seq<Otp>)
    ensures |r| == |otps|
    ensures forall i :: 0 <= i < |otps| ==> !Live(r[i], phone, now)
    ensures forall i :: 0 <= i < |otps| ==> r[i].(used := otps[i].used) == otps[i]
    ensures forall i :: 0 <= i < |otps| && !Live(otps[i], phone, now) ==> r[i] == otps[i]
  {
    if otps == [] then []
    else
      var o := otps[0];
      [if Live(o, phone, now) then o.(used := true) else o] + InvalidateLive(otps[1..], phone, now)
  }

  /** Invalidates the phone's live codes and stores a new one valid for five
      minutes. */
  function Login(s: Store, phone: string, r: real, now: int): (result: (Store, LoginResponse))
    requires 0.0 <= r < 1.0
    ensures result.0.agents == s.agents && result.0.tokens == s.tokens
    ensures |result.0.otps| == |s.otps| + 1
    ensures result.1 == LoginResponse("OTP sent", OtpLifetimeSeconds)
    ensures var o := result.0.otps[|s.otps|];
      o.id == |s.otps| && o.phone == phone && !o.used && o.expiresAt == now + OtpLifetimeMs
      && |o.code| == 6 && AllDigits(o.code)
  {
    var otps := InvalidateLive(s.otps, phone, now);
    var newOtp := Otp(|s.otps|, phone, OtpCode(r), now + OtpLifetimeMs, false);
    (s.(otps := otps + [newOtp]), LoginResponse("OTP sent", OtpLifetimeSeconds))
  }

  /** After a login, the new code is the only one the phone can use. */
  lemma LoginLeavesOneLive(s: Store, phone: string, r: real, now: int)
    requires 0.0 <= r < 1.0
    ensures var otps := Login(s, phone, r, now).0.otps;
      forall i :: 0 <= i < |otps| ==> (Live(otps[i], phone, now) <==> i == |s.otps|)
  {
  }

  /** A login touches no other phone's codes and changes no code's value or
      expiry. */
  lemma LoginKeepsOtherPhones(s: Store, phone: string, r: real, now: int)
    requires 0.0 <= r < 1.0
    ensures var otps := Login(s, phone, r, now).0.otps;
      forall i :: 0 <= i < |s.otps| ==>
        && otps[i].(used := s.otps[i].used) == s.otps[i]
        && (s.otps[i].phone != phone ==> otps[i] == s.otps[i])
  {
  }

  /** The advertised lifetime matches the stored expiry. */
  lemma LoginLifetimeAgrees(s: Store, phone: string, r: real, now: int)
    requires 0.0 <= r < 1.0
    ensures var (s', resp) := Login(s, phone, r, now);
      s'.otps[|s.otps|].expiresAt - now == resp.expiresIn * 1000
  {
  }

  // ---------------------------------------------------------------------------
  // Verification

  predicate Matches(o: Otp, phone: string, code: string, now: int) {
    Live(o, phone, now) && o.code == code
  }

  /** The newest live OTP of the phone with that code. */
  function NewestMatch(otps: seq<Otp>, phone: string, code: string, now: int): (r: Option<nat>)
    ensures r.None? <==> forall i :: 0 <= i < |otps| ==> !Matches(otps[i], phone, code, now)
    ensures r.Some? ==> r.value < |otps| && Matches(otps[r.value], phone, code, now)
    ensures r.Some? ==> forall j :: r.value < j < |otps| ==> !Matches(otps[j], phone, code, now)
  {
    if otps == [] then None
    else if Matches(otps[|otps| - 1], phone, code, now) then Some(|otps| - 1)
    else NewestMatch(otps[..|otps| - 1], phone, code, now)
  }

  /** The agent registered with a phone, if any. */
  function AgentByPhone(agents: seq<Agent>, phone: string): (r: Option<nat>)
    ensures r.None? <==> forall i :: 0 <= i < |agents| ==> agents[i].phone != phone
    ensures r.Some? ==> r.value < |agents| && agents[r.value].phone == phone
  {
    if agents == [] then None
    else if agents[0].phone == phone then Some(0)
    else
      match AgentByPhone(agents[1..], phone)
      case None => None
      case Some(i) => Some(i + 1)
  }

  /** Stores one new unrevoked refresh token for the agent, valid for seven days,
      and returns the access and refresh token claims, the access token living
      fifteen minutes. The stored tokens are kept as they were; the new one is
      the agent's newest usable token, and no other agent gains one. */
  function GenerateTokens(tokens: seq<RefreshToken>, agentId: nat, role: Role, now: int): (r: (seq<RefreshToken>, Tokens))
    ensures |r.0| == |tokens| + 1 && r.0[..|tokens|] == tokens
    ensures var t := r.0[|tokens|];
      t.id == |tokens| && t.agentId == agentId && !t.revoked && t.expiresAt - now == 7 * 24 * 3600 * 1000
    ensures NewestLiveToken(r.0, agentId, now) == Some(|tokens|)
    ensures forall a :: LiveCount(r.0, a, now) == LiveCount(tokens, a, now) + (if a == agentId then 1 else 0)
    ensures r.1.access == Claims(agentId, role) && r.1.refresh == r.1.access && r.1.expiresIn == 15 * 60
  {
    var t := RefreshToken(|tokens|, agentId, now + RefreshLifetimeMs, false);
    LiveCountAppendAll(tokens, t, now);
    (tokens + [t], Tokens(Claims(agentId, role), Claims(agentId, role), AccessLifetimeSeconds))
  }

  /** Checks a code: the newest matching live OTP is marked used, the phone's agent
      is found or created, and tokens are issued to it. Without a match the
      request is unauthorized and nothing changes. `defaultRole` is the role the
      store gives a new agent. */
  function Verify(s: Store, phone: string, code: string, now: int, defaultRole: Role): (r: Result<(Store, Tokens), AuthError>)
    ensures r.Failure? <==> forall i :: 0 <= i < |s.otps| ==> !Matches(s.otps[i], phone, code, now)
    ensures r.Failure? ==> r.error == Unauthorized(InvalidOtp)
    ensures r.Success? ==>
      var s' := r.value.0;
      && |s'.otps| == |s.otps|
      && (exists i :: && 0 <= i < |s.otps| && Matches(s.otps[i], phone, code, now)
                      && (forall k :: i < k < |s.otps| ==> !Matches(s.otps[k], phone, code, now))
                      && s'.otps == s.otps[i := s.otps[i].(used := true)])
      && s.agents <= s'.agents && |s'.agents| <= |s.agents| + 1
      && (exists j :: && 0 <= j < |s'.agents| && s'.agents[j].phone == phone
                      && s'.agents[j].id == r.value.1.access.sub && s'.agents[j].role == r.value.1.access.role)
      && s'.tokens == s.tokens + [RefreshToken(|s.tokens|, r.value.1.access.sub, now + RefreshLifetimeMs, false)]
      && r.value.1.refresh == r.value.1.access && r.value.1.expiresIn == AccessLifetimeSeconds
  {
    match NewestMatch(s.otps, phone, code, now)
    case None => Failure(Unauthorized(InvalidOtp))
    case Some(i) =>
      var otps := s.otps[i := s.otps[i].(used := true)];
      var (agents, j) :=
        match AgentByPhone(s.agents, phone)
        case Some(j) => (s.agents, j)
        case None => (s.agents + [Agent(|s.agents|, phone, NewAgentName, defaultRole)], |s.agents|);
      var agent := agents[j];
      var (tokens, issued) := GenerateTokens(s.tokens, agent.id, agent.role, now);
      Success((Store(otps, agents, tokens), issued))
  }

  /** Every phone has at most one agent (the phone is a unique column). */
  predicate UniquePhones(agents: seq<Agent>) {
    forall i, j :: 0 <= i < j < |agents| ==> agents[i].phone != agents[j].phone
  }

  /** Verification creates an agent only for a phone that had none, so it never
      gives a phone a second agent. */
  lemma VerifyKeepsPhonesUnique(s: Store, phone: string, code: string, now: int, defaultRole: Role)
    requires UniquePhones(s.agents)
    ensures var r := Verify(s, phone, code, now, defaultRole);
      r.Success? ==>
        && UniquePhones(r.value.0.agents)
        && (|r.value.0.agents| == |s.agents| + 1 <==> forall i :: 0 <= i < |s.agents| ==> s.agents[i].phone != phone)
        && (|r.value.0.agents| == |s.agents| + 1 ==>
              r.value.0.agents[|s.agents|] == Agent(|s.agents|, phone, NewAgentName, defaultRole))
  {
    var r := Verify(s, phone, code, now, defaultRole);
    if r.Success? && AgentByPhone(s.agents, phone).None? {
      var a := r.value.0.agents;
      forall i, j | 0 <= i < j < |a|
        ensures a[i].phone != a[j].phone
      {
        if j < |s.agents| {
          assert a[i] == s.agents[i] && a[j] == s.agents[j];
        } else {
          assert a[i] == s.agents[i];
        }
      }
    }
  }

  /** The code a login sends works once: the first verification before expiry
      succeeds, and a second one with the same code fails. */
  lemma CodeWorksOnce(s: Store, phone: string, r: real, now1: int, now2: int, now3: int, defaultRole: Role)
    requires 0.0 <= r < 1.0
    requires now1 <= now2 < now1 + OtpLifetimeMs && now2 <= now3
    ensures var s1 := Login(s, phone, r, now1).0;
      var code := s1.otps[|s.otps|].code;
      var v := Verify(s1, phone, code, now2, defaultRole);
      && v.Success?
      && Verify(v.value.0, phone, code, now3, defaultRole) == Failure(Unauthorized(InvalidOtp))
  {
    var s1 := Login(s, phone, r, now1).0;
    var code := s1.otps[|s.otps|].code;
    LoginLeavesOneLive(s, phone, r, now1);
    assert Matches(s1.otps[|s.otps|], phone, code, now2);
    var v := Verify(s1, phone, code, now2, defaultRole);
    var s2 := v.value.0;
    forall i | 0 <= i < |s2.otps|
      ensures !Matches(s2.otps[i], phone, code, now3)
    {
      if i != |s.otps| {
        assert !Live(s1.otps[i], phone, now1);
      }
    }
  }

  // ---------------------------------------------------------------------------
  // Refresh tokens

  predicate LiveToken(t: RefreshToken, agentId: nat, now: int) {
    t.agentId == agentId && !t.revoked && t.expiresAt > now
  }

  /** The newest unrevoked, unexpired token of the agent. */
  function NewestLiveToken(tokens: seq<RefreshToken>, agentId: nat, now: int): (r: Option<nat>)
    ensures r.None? <==> forall i :: 0 <= i < |tokens| ==> !LiveToken(tokens[i], agentId, now)
    ensures r.Some? ==> r.value < |tokens| && LiveToken(tokens[r.value], agentId, now)
    ensures r.Some? ==> forall j :: r.value < j < |tokens| ==> !LiveToken(tokens[j], agentId, now)
  {
    if tokens == [] then None
    else if LiveToken(tokens[|tokens| - 1], agentId, now) then Some(|tokens| - 1)
    else NewestLiveToken(tokens[..|tokens| - 1], agentId, now)
  }

  /** A store failure during a rotation: the revoke is not written, or the new
      token's insert fails after the revoke was written. Both calls run outside
      any transaction. */
  datatype RefreshFault = NoRefreshFault | RevokeFails | IssueFails

  predicate HasLiveToken(tokens: seq<RefreshToken>, agentId: nat, now: int) {
    exists i :: 0 <= i < |tokens| && LiveToken(tokens[i], agentId, now)
  }

  /** `after` is `before` with the agent's newest usable token revoked. */
  predicate RevokedNewest(before: seq<RefreshToken>, after: seq<RefreshToken>, agentId: nat, now: int) {
    exists k :: && 0 <= k < |before| && LiveToken(before[k], agentId, now)
                && (forall j :: k < j < |before| ==> !LiveToken(before[j], agentId, now))
                && after == before[k := before[k].(revoked := true)]
  }

  /** Rotation: a presented token whose verification yields claims, and whose
      subject has a live stored token, revokes the newest such token and issues a
      new pair. Every failure, whatever its cause, is the same unauthorized
      error. A failure leaves the store as it was, except when the insert of the
      new token fails: the revoke stays written and nothing replaces it.
      `presented` is the outcome of verifying the token's signature and expiry:
      its claims, or nothing. The stored token is not compared with the presented
      one. */
  function Refresh(s: Store, presented: Option<Claims>, now: int, fault: RefreshFault): (r: (Store, Result<Tokens, AuthError>))
    ensures r.1.Failure? <==>
      || presented.None?
      || (forall i :: 0 <= i < |s.tokens| ==> !LiveToken(s.tokens[i], presented.value.sub, now))
      || !fault.NoRefreshFault?
    ensures r.1.Failure? ==> r.1.error == Unauthorized(InvalidRefresh)
    ensures r.0.otps == s.otps && r.0.agents == s.agents
    ensures r.1.Failure? && !(presented.Some? && HasLiveToken(s.tokens, presented.value.sub, now) && fault.IssueFails?) ==>
      r.0 == s
    ensures presented.Some? && HasLiveToken(s.tokens, presented.value.sub, now) && fault.IssueFails? ==>
      RevokedNewest(s.tokens, r.0.tokens, presented.value.sub, now)
    ensures r.1.Success? ==>
      var (s', issued) := (r.0, r.1.value);
      && issued.access == presented.value && issued.refresh == presented.value
      && |s'.tokens| == |s.tokens| + 1
      && RevokedNewest(s.tokens, s'.tokens[..|s.tokens|], presented.value.sub, now)
      && s'.tokens[|s.tokens|] == RefreshToken(|s.tokens|, presented.value.sub, now + RefreshLifetimeMs, false)
  {
    if presented.None? then (s, Failure(Unauthorized(InvalidRefresh)))
    else
      var claims := presented.value;
      match NewestLiveToken(s.tokens, claims.sub, now)
      case None => (s, Failure(Unauthorized(InvalidRefresh)))
      case Some(k) =>
        var rotated := s.tokens[k := s.tokens[k].(revoked := true)];
        assert RevokedNewest(s.tokens, rotated, claims.sub, now);
        if fault.RevokeFails? then (s, Failure(Unauthorized(InvalidRefresh)))
        else if fault.IssueFails? then (s.(tokens := rotated), Failure(Unauthorized(InvalidRefresh)))
        else
          var (tokens, issued) := GenerateTokens(rotated, claims.sub, claims.role, now);
          (s.(tokens := tokens), Success(issued))
  }

  /** A failed insert after the revoke costs the agent a usable token and gives
      nothing back. */
  lemma FailedIssueLosesToken(s: Store, claims: Claims, now: int)
    requires HasLiveToken(s.tokens, claims.sub, now)
    ensures var r := Refresh(s, Some(claims), now, IssueFails);
      && r.1 == Failure(Unauthorized(InvalidRefresh))
      && LiveCount(r.0.tokens, claims.sub, now) + 1 == LiveCount(s.tokens, claims.sub, now)
  {
    var k := NewestLiveToken(s.tokens, claims.sub, now).value;
    LiveCountRevoke(s.tokens, k, claims.sub, now);
  }

  /** A refresh keeps the agent's number of usable tokens: one is revoked and one
      is issued. */
  lemma RefreshKeepsLiveCount(s: Store, claims: Claims, now: int)
    requires Refresh(s, Some(claims), now, NoRefreshFault).1.Success?
    ensures var s' := Refresh(s, Some(claims), now, NoRefreshFault).0;
      LiveCount(s'.tokens, claims.sub, now) == LiveCount(s.tokens, claims.sub, now)
  {
    var k := NewestLiveToken(s.tokens, claims.sub, now).value;
    var rotated := s.tokens[k := s.tokens[k].(revoked := true)];
    var s' := Refresh(s, Some(claims), now, NoRefreshFault).0;
    assert s'.tokens == GenerateTokens(rotated, claims.sub, claims.role, now).0;
    LiveCountRevoke(s.tokens, k, claims.sub, now);
  }

  function LiveCount(tokens: seq<RefreshToken>, agentId: nat, now: int): (n: nat)
    ensures n <= |tokens|
  {
    if tokens == [] then 0
    else LiveCount(tokens[..|tokens| - 1], agentId, now) + (if LiveToken(tokens[|tokens| - 1], agentId, now) then 1 else 0)
  }

  lemma LiveCountAppend(tokens: seq<RefreshToken>, t: RefreshToken, agentId: nat, now: int)
    ensures LiveCount(tokens + [t], agentId, now) == LiveCount(tokens, agentId, now) + (if LiveToken(t, agentId, now) then 1 else 0)
  {
    assert (tokens + [t])[..|tokens|] == tokens;
  }

  lemma LiveCountAppendAll(tokens: seq<RefreshToken>, t: RefreshToken, now: int)
    ensures forall a :: LiveCount(tokens + [t], a, now) == LiveCount(tokens, a, now) + (if LiveToken(t, a, now) then 1 else 0)
  {
    forall a ensures LiveCount(tokens + [t], a, now) == LiveCount(tokens, a, now) + (if LiveToken(t, a, now) then 1 else 0) {
      LiveCountAppend(tokens, t, a, now);
    }
  }

  /** Revoking a live token lowers the live count by one. */
  lemma {:induction false} LiveCountRevoke(tokens: seq<RefreshToken>, k: nat, agentId: nat, now: int)
    requires k < |tokens| && LiveToken(tokens[k], agentId, now)
    ensures LiveCount(tokens[k := tokens[k].(revoked := true)], agentId, now) + 1 == LiveCount(tokens, agentId, now)
    decreases |tokens|
  {
    var t' := tokens[k := tokens[k].(revoked := true)];
    var n := |tokens| - 1;
    if k < n {
      assert t'[..n] == tokens[..n][k := tokens[k].(revoked := true)];
      LiveCountRevoke(tokens[..n], k, agentId, now);
    } else {
      assert t'[..n] == tokens[..n];
    }
  }

  /** Logging an agent out everywhere: every unrevoked token of the agent is
      revoked; other agents' tokens and every token's other fields are kept. */
  function RevokeAllTokens(tokens: seq<RefreshToken>, agentId: nat): (r: seq<RefreshToken>)
    ensures |r| == |tokens|
    ensures forall i :: 0 <= i < |tokens| ==> r[i].(revoked := tokens[i].revoked) == tokens[i]
    ensures forall i :: 0 <= i < |tokens| ==> (r[i].revoked <==> tokens[i].revoked || tokens[i].agentId == agentId)
  {
    if tokens == [] then []
    else
      var t := tokens[0];
      [if t.agentId == agentId && !t.revoked then t.(revoked := true) else t] + RevokeAllTokens(tokens[1..], agentId)
  }

  /** After logging out everywhere the agent cannot refresh, at any time, and the
      attempt changes nothing. */
  lemma NoRefreshAfterRevokeAll(s: Store, claims: Claims, now: int, fault: RefreshFault)
    ensures var s' := s.(tokens := RevokeAllTokens(s.tokens, claims.sub));
      Refresh(s', Some(claims), now, fault) == (s', Failure(Unauthorized(InvalidRefresh)))
  {
  }
}
