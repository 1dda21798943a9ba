/** `auth.rs`: the delegation in force, and how it is renewed. */
module Auth {
  import opened Bytes
  import opened Records

  /** What a verified token grants: the identity crate's delegation. */
  datatype Grant = Grant(subject: Text, issuer: Text, scopes: seq<Text>, groups: seq<Text>, expiresAtMs: SignedWord,
                         issuedAtMs: Option<SignedWord>, actorChain: seq<Text>, kind: PrincipalKind,
                         readable: Option<(Text, Text)>)

  predicate Expired(g: Grant, nowMs: SignedWord) {
    nowMs >= g.expiresAtMs
  }

  /** What verifying a token would answer right now: the grant it carries, if any, and the bundle reloads the
      verification went through. Token verification itself is a parameter. */
  datatype TokenCheck = TokenCheck(verified: Option<Grant>, reloads: seq<Payload>)

  /** Why an act is refused without asking the policy. */
  datatype Why =
    | DelegationExpired | SameTokenExpired | DiskTokenExpired | TokenUnrecoverable
    | PresentedExpired | PresentedRejected | OutsideSurface | OutsideServerSurface | NoServerRequest

  datatype AuthOutcome = Renewed | Unchanged | Denied(why: Why)

  datatype AuthState = AuthState(proven: bool, tokenFile: bool, presented: Option<Text>, current: Grant,
                                 generation: nat, reloads: seq<Payload>)

  /** A fresh, unexpired grant takes over; only a different one starts a new generation. */
  function Adopt(a: AuthState, granted: Grant): (AuthState, AuthOutcome) {
    if granted != a.current then (a.(current := granted, generation := a.generation + 1), Renewed) else (a, Unchanged)
  }

  function RefreshSpec(a: AuthState, nowMs: SignedWord, check: TokenCheck): (AuthState, AuthOutcome) {
    if !Expired(a.current, nowMs) then (a, Unchanged)
    else if !a.proven || !a.tokenFile then (a, Denied(DelegationExpired))
    else
      var a' := a.(reloads := a.reloads + check.reloads);
      match check.verified
      case None => (a', Denied(TokenUnrecoverable))
      case Some(f) => if Expired(f, nowMs) then (a', Denied(DiskTokenExpired)) else Adopt(a', f)
  }

  function PresentSpec(a: AuthState, token: Text, nowMs: SignedWord, check: TokenCheck): (AuthState, AuthOutcome) {
    if a.presented == Some(token) then
      (a, if Expired(a.current, nowMs) then Denied(SameTokenExpired) else Unchanged)
    else if !a.proven then RefreshSpec(a, nowMs, check)
    else
      var a' := a.(reloads := a.reloads + check.reloads);
      match check.verified
      case None => (a', Denied(PresentedRejected))
      case Some(f) =>
        if Expired(f, nowMs) then (a', Denied(PresentedExpired)) else Adopt(a'.(presented := Some(token)), f)
  }

  /** The token of the moment taken into account: the one presented, or else the one on disk. */
  function Consult(a: AuthState, bearer: Option<Text>, nowMs: SignedWord, check: TokenCheck): (AuthState, AuthOutcome) {
    if bearer.Some? then PresentSpec(a, bearer.value, nowMs, check) else RefreshSpec(a, nowMs, check)
  }

  /** Every generation has its own grant: a renewal changes the grant and counts one more, and nothing else
      changes either. */
  lemma RenewalCounts(a: AuthState, bearer: Option<Text>, nowMs: SignedWord, check: TokenCheck)
    ensures var (a', outcome) := Consult(a, bearer, nowMs, check);
      && a'.generation == a.generation + (if outcome == Renewed then 1 else 0)
      && (a'.current != a.current <==> outcome == Renewed)
      && (outcome != Renewed && !outcome.Denied? ==> !Expired(a'.current, nowMs))
      && (outcome == Renewed ==> !Expired(a'.current, nowMs))
  {
  }

  // ------------------------------------------------- what an answer means

  /** A token that came with the request and is not the one remembered is verified, once anything is verified at all. */
  predicate NewToken(a: AuthState, bearer: Option<Text>) {
    a.proven && bearer.Some? && bearer != a.presented
  }

  /** The token on disk is verified only for a request without one, and only once the delegation has run out. */
  predicate DiskRead(a: AuthState, bearer: Option<Text>, nowMs: SignedWord) {
    a.proven && bearer.None? && a.tokenFile && nowMs >= a.current.expiresAtMs
  }

  /** An act may be judged now under the grant g: the token just verified carries it, or nothing had to be verified
      and it was in force; and it has not run out. */
  predicate Authorizes(a: AuthState, bearer: Option<Text>, nowMs: SignedWord, check: TokenCheck, g: Grant) {
    && nowMs < g.expiresAtMs
    && if NewToken(a, bearer) || DiskRead(a, bearer, nowMs) then check.verified == Some(g) else g == a.current
  }

  /** An act is let through to judgement exactly when some grant is in force, and then that grant is the one the
      authority holds; a refusal leaves the authority's grant, generation and token as they were. */
  lemma ConsultMeans(a: AuthState, bearer: Option<Text>, nowMs: SignedWord, check: TokenCheck, g: Grant)
    ensures var (a', outcome) := Consult(a, bearer, nowMs, check);
      && (Authorizes(a, bearer, nowMs, check, g) <==> !outcome.Denied? && a'.current == g)
      && (outcome.Denied? ==> a' == a.(reloads := a'.reloads))
      && (!outcome.Denied? ==> a'.presented == if NewToken(a, bearer) then bearer else a.presented)
      && a'.reloads == a.reloads + (if NewToken(a, bearer) || DiskRead(a, bearer, nowMs) then check.reloads else [])
      && (!a.proven ==> a' == a)
  {
    assert a.reloads + [] == a.reloads;
  }

  /** Each refusal says what was wrong: with the token presented, with the one on disk, or that there was none to try. */
  lemma DenialSays(a: AuthState, bearer: Option<Text>, nowMs: SignedWord, check: TokenCheck, why: Why)
    requires Consult(a, bearer, nowMs, check).1 == Denied(why)
    ensures why.PresentedRejected? <==> NewToken(a, bearer) && check.verified.None?
    ensures why.PresentedExpired? <==> NewToken(a, bearer) && check.verified.Some?
    ensures why.TokenUnrecoverable? <==> DiskRead(a, bearer, nowMs) && check.verified.None?
    ensures why.DiskTokenExpired? <==> DiskRead(a, bearer, nowMs) && check.verified.Some?
    ensures why.SameTokenExpired? <==> bearer.Some? && bearer == a.presented
    ensures why.PresentedRejected? || why.PresentedExpired? || why.TokenUnrecoverable? || why.DiskTokenExpired?
            || why.SameTokenExpired? || why.DelegationExpired?
  {
  }

  class Authority {
    const proven: bool
    const tokenFile: bool
    var presented: Option<Text>
    var current: Grant
    var generation: nat
    var reloads: seq<Payload>

    function State(): AuthState
      reads this
    {
      AuthState(proven, tokenFile, presented, current, generation, reloads)
    }

    constructor (a: AuthState)
      ensures State() == a
    {
      proven, tokenFile, presented := a.proven, a.tokenFile, a.presented;
      current, generation, reloads := a.current, a.generation, a.reloads;
    }

    method TakeReloads() returns (rs: seq<Payload>)
      modifies this
      ensures rs == old(reloads) && State() == old(State()).(reloads := [])
    {
      rs := reloads;
      reloads := [];
    }

    method Refresh(nowMs: SignedWord, check: TokenCheck) returns (r: AuthOutcome)
      modifies this
      ensures (State(), r) == RefreshSpec(old(State()), nowMs, check)
    {
      if !Expired(current, nowMs) {
        return Unchanged;
      }
      if !proven || !tokenFile {
        return Denied(DelegationExpired);
      }
      reloads := reloads + check.reloads;
      match check.verified {
        case None =>
          return Denied(TokenUnrecoverable);
        case Some(granted) =>
          if Expired(granted, nowMs) {
            return Denied(DiskTokenExpired);
          }
          var changed := granted != current;
          current := granted;
          if changed {
            generation := generation + 1;
            return Renewed;
          }
          return Unchanged;
      }
    }

    method Present(token: Text, nowMs: SignedWord, check: TokenCheck) returns (r: AuthOutcome)
      modifies this
      ensures (State(), r) == PresentSpec(old(State()), token, nowMs, check)
    {
      if presented == Some(token) {
        return if Expired(current, nowMs) then Denied(SameTokenExpired) else Unchanged;
      }
      if !proven {
        r := Refresh(nowMs, check);
        return;
      }
      reloads := reloads + check.reloads;
      match check.verified {
        case None =>
          return Denied(PresentedRejected);
        case Some(granted) =>
          if Expired(granted, nowMs) {
            return Denied(PresentedExpired);
          }
          presented := Some(token);
          var changed := granted != current;
          current := granted;
          if changed {
            generation := generation + 1;
            return Renewed;
          }
          return Unchanged;
      }
    }
  }
}
