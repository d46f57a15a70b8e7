/**
 Refresh-token rotation (src/app/commands/auth.py,
 src/app/repositories/refresh_token_repository.py).

 A token is named by its position in the order of issue.  A presented raw token is the
 position its hash was found at, or nothing.
 */
module RefreshTokens {
  import opened Outcomes

  type UserId = nat

  datatype Reason = Rotated | LoggedOut | ReuseDetected | AccountDisabled | PasswordReset

  datatype Token = Token(user: UserId, parent: Option<nat>, expiresAt: int, revoked: Option<Reason>, mfaVerified: bool)

  predicate IsLive(t: Token) {
    t.revoked.None?
  }

  // ---------------------------------------------------------------- repository

  function Issued(ts: seq<Token>, user: UserId, parent: Option<nat>, expiresAt: int, mfa: bool): seq<Token> {
    ts + [Token(user, parent, expiresAt, None, mfa)]
  }

  /** Revokes unless already revoked, so the first reason stays. */
  function Revoked(ts: seq<Token>, id: nat, reason: Reason): seq<Token>
    requires id < |ts|
  {
    if IsLive(ts[id]) then ts[id := ts[id].(revoked := Some(reason))] else ts
  }

  function RevokedAll(ts: seq<Token>, user: UserId, reason: Reason): seq<Token> {
    seq(|ts|, i requires 0 <= i < |ts| =>
      if ts[i].user == user && IsLive(ts[i]) then ts[i].(revoked := Some(reason)) else ts[i])
  }

  // ---------------------------------------------------------------- commands

  datatype RefreshError = CsrfFailed | Invalid | ReuseSeen

  /** The table after a refresh, and the new token's id or why there is none. */
  function Refreshed(ts: seq<Token>, presented: Option<nat>, csrf: bool, userActive: bool, now: int, ttl: int)
    : (seq<Token>, Result<nat, RefreshError>)
    requires presented.Some? ==> presented.value < |ts|
  {
    if !csrf then (ts, Err(CsrfFailed))
    else if presented.None? then (ts, Err(Invalid))
    else
      var id := presented.value;
      var t := ts[id];
      if t.revoked == Some(Rotated) then (RevokedAll(ts, t.user, ReuseDetected), Err(ReuseSeen))
      else if t.revoked.Some? || t.expiresAt <= now || !userActive then (ts, Err(Invalid))
      else (Issued(Revoked(ts, id, Rotated), t.user, Some(id), now + ttl, t.mfaVerified), Ok(|ts|))
  }

  function LoggedOutBy(ts: seq<Token>, presented: Option<nat>, csrf: bool): seq<Token>
    requires presented.Some? ==> presented.value < |ts|
  {
    if presented.Some? && csrf then Revoked(ts, presented.value, LoggedOut) else ts
  }

  class TokenTable {
    var tokens: seq<Token>

    constructor ()
      ensures tokens == []
    {
      tokens := [];
    }

    method Create(user: UserId, parent: Option<nat>, expiresAt: int, mfa: bool) returns (id: nat)
      modifies this
      ensures tokens == Issued(old(tokens), user, parent, expiresAt, mfa) && id == |old(tokens)|
    {
      id := |tokens|;
      tokens := tokens + [Token(user, parent, expiresAt, None, mfa)];
    }

    /** The token ends revoked, with the first reason ever given, and no other token or field changes. */
    method Revoke(id: nat, reason: Reason)
      requires id < |tokens|
      modifies this
      ensures tokens == Revoked(old(tokens), id, reason) && |tokens| == |old(tokens)|
      ensures forall i :: 0 <= i < |tokens| && i != id ==> tokens[i] == old(tokens)[i]
      ensures !IsLive(tokens[id]) && tokens[id] == old(tokens)[id].(revoked := tokens[id].revoked)
      ensures tokens[id].revoked == if IsLive(old(tokens)[id]) then Some(reason) else old(tokens)[id].revoked
    {
      if tokens[id].revoked.None? {
        tokens := tokens[id := tokens[id].(revoked := Some(reason))];
      }
    }

    method RevokeAllActive(user: UserId, reason: Reason) returns (count: nat)
      modifies this
      ensures tokens == RevokedAll(old(tokens), user, reason)
      ensures count == |set i | 0 <= i < |old(tokens)| && old(tokens)[i].user == user && IsLive(old(tokens)[i])|
    {
      var live := set i | 0 <= i < |tokens| && tokens[i].user == user && tokens[i].revoked.None?;
      tokens := seq(|tokens|, i requires 0 <= i < |tokens| reads this =>
        if i in live then tokens[i].(revoked := Some(reason)) else tokens[i]);
      assert live == set i | 0 <= i < |old(tokens)| && old(tokens)[i].user == user && IsLive(old(tokens)[i]);
      count := |live|;
    }

    method Refresh(presented: Option<nat>, csrf: bool, userActive: bool, now: int, ttl: int)
      returns (r: Result<nat, RefreshError>)
      requires presented.Some? ==> presented.value < |tokens|
      modifies this
      ensures (tokens, r) == Refreshed(old(tokens), presented, csrf, userActive, now, ttl)
    {
      if !csrf {
        return Err(CsrfFailed);
      }
      if presented.None? {
        return Err(Invalid);
      }
      var id := presented.value;
      var token := tokens[id];
      if token.revoked.Some? {
        if token.revoked.value == Rotated {
          var revoked := RevokeAllActive(token.user, ReuseDetected);
          return Err(ReuseSeen);
        }
        return Err(Invalid);
      }
      if token.expiresAt <= now || !userActive {
        return Err(Invalid);
      }
      Revoke(id, Rotated);
      var issued := Create(token.user, Some(id), now + ttl, token.mfaVerified);
      r := Ok(issued);
    }

    method Logout(presented: Option<nat>, csrf: bool)
      requires presented.Some? ==> presented.value < |tokens|
      modifies this
      ensures tokens == LoggedOutBy(old(tokens), presented, csrf)
    {
      if presented.None? || !csrf {
        return;
      }
      Revoke(presented.value, LoggedOut);
    }
  }

  // ---------------------------------------------------------------- the shape of the table

  predicate IsChild(ts: seq<Token>, child: int, parent: int) {
    0 <= child < |ts| && ts[child].parent.Some? && ts[child].parent.value == parent
  }

  /** Parents come first, are of the same user, and are exactly the rotated tokens, one child each. */
  ghost predicate Chained(ts: seq<Token>) {
    && (forall c, p :: IsChild(ts, c, p) ==> p < c && ts[p].user == ts[c].user && ts[p].revoked == Some(Rotated))
    && (forall p :: 0 <= p < |ts| && ts[p].revoked == Some(Rotated) ==> exists c :: IsChild(ts, c, p))
    && (forall c, d, p :: IsChild(ts, c, p) && IsChild(ts, d, p) ==> c == d)
  }

  lemma IssueRootKeepsChained(ts: seq<Token>, user: UserId, expiresAt: int, mfa: bool)
    requires Chained(ts)
    ensures Chained(Issued(ts, user, None, expiresAt, mfa))
  {
    var after := Issued(ts, user, None, expiresAt, mfa);
    assert forall c, p :: IsChild(after, c, p) <==> IsChild(ts, c, p);
    forall p | 0 <= p < |after| && after[p].revoked == Some(Rotated)
      ensures exists c :: IsChild(after, c, p)
    {
      var c :| IsChild(ts, c, p);
      assert IsChild(after, c, p);
    }
  }

  /** Revoking live tokens for any reason but rotation changes no link. */
  lemma RevokingKeepsChained(ts: seq<Token>, after: seq<Token>, reason: Reason)
    requires Chained(ts) && |after| == |ts| && reason != Rotated
    requires forall i :: 0 <= i < |ts| ==>
               after[i] == ts[i] || (IsLive(ts[i]) && after[i] == ts[i].(revoked := Some(reason)))
    ensures Chained(after)
  {
    assert forall c, p :: IsChild(after, c, p) <==> IsChild(ts, c, p);
    forall p | 0 <= p < |after| && after[p].revoked == Some(Rotated)
      ensures exists c :: IsChild(after, c, p)
    {
      var c :| IsChild(ts, c, p);
      assert IsChild(after, c, p);
    }
  }

  lemma RotationKeepsChained(ts: seq<Token>, id: nat, expiresAt: int, mfa: bool)
    requires Chained(ts) && id < |ts| && IsLive(ts[id])
    ensures Chained(Issued(Revoked(ts, id, Rotated), ts[id].user, Some(id), expiresAt, mfa))
  {
    var after := Issued(Revoked(ts, id, Rotated), ts[id].user, Some(id), expiresAt, mfa);
    assert forall c, p :: IsChild(after, c, p) <==> IsChild(ts, c, p) || (c == |ts| && p == id);
    assert IsChild(after, |ts|, id);
    forall p | 0 <= p < |after| && after[p].revoked == Some(Rotated)
      ensures exists c :: IsChild(after, c, p)
    {
      if p != id {
        var c :| IsChild(ts, c, p);
        assert IsChild(after, c, p);
      }
    }
  }

  // ---------------------------------------------------------------- runs

  datatype Command =
    | Login(user: UserId, expiresAt: int)
    | Refresh(presented: Option<nat>, csrf: bool, userActive: bool, now: int, ttl: int)
    | Logout(presented: Option<nat>, csrf: bool)
    | VerifyMfa(id: nat)
    | RevokeUser(user: UserId, reason: Reason)

  predicate Enabled(ts: seq<Token>, c: Command) {
    match c
    case Refresh(presented, _, _, _, _) => presented.Some? ==> presented.value < |ts|
    case Logout(presented, _) => presented.Some? ==> presented.value < |ts|
    case VerifyMfa(id) => id < |ts|
    case RevokeUser(_, reason) => reason.AccountDisabled? || reason.PasswordReset?
    case Login(_, _) => true
  }

  function Apply(ts: seq<Token>, c: Command): seq<Token>
    requires Enabled(ts, c)
  {
    match c
    case Login(user, expiresAt) => Issued(ts, user, None, expiresAt, false)
    case Refresh(presented, csrf, userActive, now, ttl) => Refreshed(ts, presented, csrf, userActive, now, ttl).0
    case Logout(presented, csrf) => LoggedOutBy(ts, presented, csrf)
    case VerifyMfa(id) => ts[id := ts[id].(mfaVerified := true)]
    case RevokeUser(user, reason) => RevokedAll(ts, user, reason)
  }

  ghost predicate Reaches(ts: seq<Token>, commands: seq<Command>, us: seq<Token>)
    decreases |commands|
  {
    if commands == [] then ts == us else Enabled(ts, commands[0]) && Reaches(Apply(ts, commands[0]), commands[1..], us)
  }

  lemma MfaKeepsChained(ts: seq<Token>, id: nat)
    requires Chained(ts) && id < |ts|
    ensures Chained(ts[id := ts[id].(mfaVerified := true)])
  {
    var after := ts[id := ts[id].(mfaVerified := true)];
    assert forall c, p :: IsChild(after, c, p) <==> IsChild(ts, c, p);
    forall p | 0 <= p < |after| && after[p].revoked == Some(Rotated)
      ensures exists c :: IsChild(after, c, p)
    {
      var c :| IsChild(ts, c, p);
      assert IsChild(after, c, p);
    }
  }

  lemma CommandKeepsChained(ts: seq<Token>, c: Command)
    requires Chained(ts) && Enabled(ts, c)
    ensures Chained(Apply(ts, c))
  {
    hide Chained;
    match c
    case Login(user, expiresAt) => IssueRootKeepsChained(ts, user, expiresAt, false);
    case Refresh(presented, csrf, userActive, now, ttl) =>
      if csrf && presented.Some? {
        var id := presented.value;
        if ts[id].revoked == Some(Rotated) {
          RevokingKeepsChained(ts, RevokedAll(ts, ts[id].user, ReuseDetected), ReuseDetected);
        } else if IsLive(ts[id]) {
          RotationKeepsChained(ts, id, now + ttl, ts[id].mfaVerified);
        }
      }
    case Logout(presented, csrf) =>
      if presented.Some? && csrf {
        RevokingKeepsChained(ts, Revoked(ts, presented.value, LoggedOut), LoggedOut);
      }
    case VerifyMfa(id) => MfaKeepsChained(ts, id);
    case RevokeUser(user, reason) => RevokingKeepsChained(ts, RevokedAll(ts, user, reason), reason);
  }

  lemma {:induction false} RunKeepsChained(ts: seq<Token>, commands: seq<Command>, us: seq<Token>)
    requires Chained(ts) && Reaches(ts, commands, us)
    ensures Chained(us)
    decreases |commands|
  {
    hide Chained, Apply;
    if commands != [] {
      CommandKeepsChained(ts, commands[0]);
      RunKeepsChained(Apply(ts, commands[0]), commands[1..], us);
    }
  }

  // ---------------------------------------------------------------- families are paths

  /** `a` is `t` or one of its ancestors. */
  ghost predicate Leads(ts: seq<Token>, a: nat, t: nat)
    requires Chained(ts) && t < |ts|
    decreases t
  {
    a == t || (ts[t].parent.Some? && assert IsChild(ts, t, ts[t].parent.value); Leads(ts, a, ts[t].parent.value))
  }

  /** The login a token descends from. */
  ghost function Family(ts: seq<Token>, t: nat): (root: nat)
    requires Chained(ts) && t < |ts|
    ensures root <= t
    decreases t
  {
    if ts[t].parent.None? then t else assert IsChild(ts, t, ts[t].parent.value); Family(ts, ts[t].parent.value)
  }

  lemma {:induction false} LeadsGoesDown(ts: seq<Token>, a: nat, t: nat)
    requires Chained(ts) && t < |ts| && Leads(ts, a, t)
    ensures a <= t && ts[a].user == ts[t].user && Family(ts, a) == Family(ts, t)
    decreases t
  {
    if a != t {
      assert IsChild(ts, t, ts[t].parent.value);
      LeadsGoesDown(ts, a, ts[t].parent.value);
    }
  }

  /** A proper ancestor leads on through its only child. */
  lemma {:induction false} LeadsThroughChild(ts: seq<Token>, a: nat, c: nat, t: nat)
    requires Chained(ts) && t < |ts| && Leads(ts, a, t) && a != t && IsChild(ts, c, a)
    ensures Leads(ts, c, t)
    decreases t
  {
    var p := ts[t].parent.value;
    assert IsChild(ts, t, p);
    if p == a {
      assert c == t;
    } else {
      LeadsThroughChild(ts, a, c, p);
    }
  }

  /** Two tokens of one login lie on one path. */
  lemma {:induction false} FamilyIsPath(ts: seq<Token>, a: nat, b: nat)
    requires Chained(ts) && a <= b < |ts| && Family(ts, a) == Family(ts, b)
    ensures Leads(ts, a, b)
    decreases b
  {
    if a != b {
      assert ts[b].parent.Some?;
      var p := ts[b].parent.value;
      assert IsChild(ts, b, p);
      if a <= p {
        FamilyIsPath(ts, a, p);
      } else {
        FamilyIsPath(ts, p, a);
        LeadsThroughChild(ts, p, b, a);
        LeadsGoesDown(ts, b, a);
      }
    }
  }

  lemma {:induction false} HasChildOnPath(ts: seq<Token>, a: nat, t: nat)
    requires Chained(ts) && t < |ts| && Leads(ts, a, t) && a != t
    ensures a < |ts| && ts[a].revoked == Some(Rotated)
    decreases t
  {
    var p := ts[t].parent.value;
    assert IsChild(ts, t, p);
    if p != a {
      HasChildOnPath(ts, a, p);
    }
  }

  lemma LiveTokenEndsItsFamily(ts: seq<Token>, a: nat, b: nat)
    requires Chained(ts) && a < |ts| && b < |ts| && IsLive(ts[b]) && Family(ts, a) == Family(ts, b)
    ensures Leads(ts, a, b) && ts[a].user == ts[b].user
    ensures IsLive(ts[a]) ==> a == b
  {
    if a <= b {
      FamilyIsPath(ts, a, b);
      LeadsGoesDown(ts, a, b);
      if a != b {
        HasChildOnPath(ts, a, b);
      }
    } else {
      FamilyIsPath(ts, b, a);
      HasChildOnPath(ts, b, a);
    }
  }

  /**
   In every run: a token is revoked as rotated exactly when it has a child, and then one;
   the tokens of one login form a single path of one user's tokens in order of issue; and a
   live token is the end of its path, so a login never has two.
   */
  lemma EveryRunFormsPaths(commands: seq<Command>, ts: seq<Token>)
    requires Reaches([], commands, ts)
    ensures Chained(ts)
    ensures forall p :: 0 <= p < |ts| ==> (ts[p].revoked == Some(Rotated) <==> exists c :: IsChild(ts, c, p))
    ensures forall c, d, p :: IsChild(ts, c, p) && IsChild(ts, d, p) ==> c == d
    ensures forall a, b :: 0 <= a <= b < |ts| && Family(ts, a) == Family(ts, b) ==> Leads(ts, a, b)
    ensures forall a, b | 0 <= a < |ts| && 0 <= b < |ts| ::
      IsLive(ts[a]) && IsLive(ts[b]) && Family(ts, a) == Family(ts, b) ==> a == b
  {
    RunKeepsChained([], commands, ts);
    forall a, b | 0 <= a <= b < |ts| && Family(ts, a) == Family(ts, b)
      ensures Leads(ts, a, b)
    {
      FamilyIsPath(ts, a, b);
    }
    forall a, b | 0 <= a < |ts| && 0 <= b < |ts| && IsLive(ts[a]) && IsLive(ts[b]) && Family(ts, a) == Family(ts, b)
      ensures a == b
    {
      LiveTokenEndsItsFamily(ts, a, b);
    }
  }

  /**
   In a chained table a refresh succeeds exactly for a live, unexpired token of an active
   user; the new token then takes its place as its login's one live token, with the same
   user and second-factor state, and every other token is as before. A refusal for anything
   but reuse changes nothing.
   */
  lemma RefreshPassesTheLoginOn(ts: seq<Token>, presented: Option<nat>, csrf: bool, userActive: bool, now: int, ttl: int)
    requires Chained(ts) && (presented.Some? ==> presented.value < |ts|)
    ensures var (after, r) := Refreshed(ts, presented, csrf, userActive, now, ttl);
            && (r.Ok? <==> csrf && presented.Some? && IsLive(ts[presented.value]) && now < ts[presented.value].expiresAt && userActive)
            && (r.Ok? ==>
                  var id := presented.value;
                  && r.value == |ts| && |after| == |ts| + 1 && Chained(after)
                  && IsLive(after[|ts|]) && !IsLive(after[id]) && Leads(after, id, |ts|)
                  && Family(after, |ts|) == Family(after, id)
                  && after[|ts|].user == ts[id].user && after[|ts|].mfaVerified == ts[id].mfaVerified
                  && after[|ts|].expiresAt == now + ttl
                  && forall i :: 0 <= i < |ts| && i != id ==> after[i] == ts[i])
            && (r == Err(CsrfFailed) <==> !csrf)
            && (r == Err(ReuseSeen) <==> csrf && presented.Some? && ts[presented.value].revoked == Some(Rotated))
            && (r.Err? && !r.error.ReuseSeen? ==> after == ts)
  {
    var (after, r) := Refreshed(ts, presented, csrf, userActive, now, ttl);
    if r.Ok? {
      CommandKeepsChained(ts, Refresh(presented, csrf, userActive, now, ttl));
      assert after[|ts|].parent == presented;
    }
  }

  /** A logout with the matching pair ends the presented token, whatever state it was in; nothing else ever changes. */
  lemma LogoutIsExact(ts: seq<Token>, presented: Option<nat>, csrf: bool, i: nat)
    requires (presented.Some? ==> presented.value < |ts|) && i < |ts|
    ensures var after := LoggedOutBy(ts, presented, csrf);
            && |after| == |ts|
            && (csrf && presented == Some(i) ==> !IsLive(after[i]) && (IsLive(ts[i]) ==> after[i] == ts[i].(revoked := Some(LoggedOut))))
            && (!(csrf && presented == Some(i) && IsLive(ts[i])) ==> after[i] == ts[i])
  {
  }

  /** A login starts a family of its own, live and without a second factor, beside all that was. */
  lemma LoginIsExact(ts: seq<Token>, user: UserId, expiresAt: int)
    requires Chained(ts)
    ensures var after := Apply(ts, Login(user, expiresAt));
            && Chained(after) && |after| == |ts| + 1 && after[..|ts|] == ts
            && IsLive(after[|ts|]) && after[|ts|].user == user && after[|ts|].expiresAt == expiresAt && !after[|ts|].mfaVerified
            && Family(after, |ts|) == |ts|
  {
    CommandKeepsChained(ts, Login(user, expiresAt));
  }

  /** Presenting a rotated token again leaves its user with no live token at all. */
  lemma ReplayRevokesUser(ts: seq<Token>, id: nat, userActive: bool, now: int, ttl: int, i: nat)
    requires id < |ts| && ts[id].revoked == Some(Rotated)
    ensures var (after, r) := Refreshed(ts, Some(id), true, userActive, now, ttl);
            && r == Err(ReuseSeen) && |after| == |ts|
            && (i < |after| && after[i].user == ts[id].user ==> !IsLive(after[i]))
            && (i < |after| && after[i].user != ts[id].user ==> after[i] == ts[i])
  {
  }
}
