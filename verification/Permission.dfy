/** Over every run of a session: nothing was let through that the policy engine was not asked about. */
module Permission {
  import opened Bytes
  import opened Canonical
  import opened Records
  import opened Auth
  import opened SessionLog
  import opened Gateway
  import opened Arbitration
  import opened Protocol

  /** The question is the one a message of the agent or of the server raises under the grant, and the call is its record. */
  predicate AskedBy(ctx: Ctx, m: Method, p: Params, g: Grant, q: Question, call: Payload) {
    || (AskedOf(m, p, g) == Some(q) && call == CallOf(ctx, m, p, Some(q)))
    || (AskedBack(m, g) == Some(q) && call == McpAccess(ctx.server, ctx.name(m), ctx.server, ctx.hash(p.text)))
  }

  /** The engine, asked about the recorded call under the grant, answered what the decision records. */
  ghost predicate Granted(ctx: Ctx, call: Payload, g: Grant, d: Payload) {
    exists m, p, q :: AskedBy(ctx, m, p, g, q, call)
      && d == Decision(ctx.engine(q).outcome, ctx.engine(q).policyId, ctx.host.bundleVersion, ctx.engine(q).reason)
  }

  /** A decision that lets an act through follows the act's call and is the engine's own answer about it. */
  ghost predicate PermittedAt(ctx: Ctx, log: seq<Entry>, judged: map<nat, Grant>, i: nat)
    requires i < |log|
  {
    log[i].id.Dec? && Lets(log[i].payload) ==>
      && 0 < i && log[i - 1].id == Call(log[i].id.n) && log[i].id.n in judged
      && Granted(ctx, log[i - 1].payload, judged[log[i].id.n], log[i].payload)
  }

  ghost predicate AllPermitted(ctx: Ctx, log: seq<Entry>, judged: map<nat, Grant>) {
    forall i :: 0 <= i < |log| ==> PermittedAt(ctx, log, judged, i)
  }

  /** The first log begins the second, and what was added decides nothing. */
  predicate Quiet(before: seq<Entry>, now: seq<Entry>) {
    before <= now && forall i :: |before| <= i < |now| ==> !now[i].id.Dec?
  }

  lemma QuietPermitted(ctx: Ctx, before: seq<Entry>, now: seq<Entry>, judged: map<nat, Grant>)
    requires AllPermitted(ctx, before, judged) && Quiet(before, now)
    ensures AllPermitted(ctx, now, judged)
  {
    forall i | 0 <= i < |now| ensures PermittedAt(ctx, now, judged, i) {
      if i < |before| {
        assert PermittedAt(ctx, before, judged, i) && now[i] == before[i] && (i > 0 ==> now[i - 1] == before[i - 1]);
      }
    }
  }

  /** Judging the next act leaves what was judged before. */
  lemma JudgedPermitted(ctx: Ctx, s: SessionState, t: Trace, judged: map<nat, Grant>)
    requires AllPermitted(ctx, s.log, t.judged) && Traced(s.log, t, s.counter)
    requires forall n :: n in t.judged && n <= s.counter ==> n in judged && judged[n] == t.judged[n]
    ensures AllPermitted(ctx, s.log, judged)
  {
    forall i | 0 <= i < |s.log| ensures PermittedAt(ctx, s.log, judged, i) {
      assert PermittedAt(ctx, s.log, t.judged, i);
      if i > 0 {
        assert EntryOk(t, s.counter, s.log[i - 1]);
      }
    }
  }

  /** An act written after a permitted log, on a question about its own call, is permitted too. */
  lemma WrittenPermitted(ctx: Ctx, before: seq<Entry>, s: SessionState, call: Payload, authorized: bool, q: Option<Question>,
                         effect: Option<EffectStatus>, judged: map<nat, Grant>, m: Method, p: Params)
    requires AllPermitted(ctx, before, judged) && Written(ctx, before, s, call, authorized, q, effect) && s.counter in judged
    requires q.Some? ==> AskedBy(ctx, m, p, judged[s.counter], q.value, call)
    ensures AllPermitted(ctx, s.log, judged)
  {
    var k := |before|;
    forall i | 0 <= i < |s.log| ensures PermittedAt(ctx, s.log, judged, i) {
      if i < k {
        assert PermittedAt(ctx, before, judged, i) && s.log[i] == before[i] && (i > 0 ==> s.log[i - 1] == before[i - 1]);
      } else if i == k + 1 && Lets(s.log[i].payload) {
        assert AskedBy(ctx, m, p, judged[s.counter], q.value, call);
      }
    }
  }

  lemma IntroducedQuiet(ctx: Ctx, s: SessionState, s': SessionState, reloads: seq<Payload>, renewed: Option<(nat, Grant)>)
    requires Introduced(ctx, s, s', reloads, renewed)
    ensures Quiet(s.log, s'.log)
  {
    var m := |s.log| + |reloads|;
    forall i | |s.log| <= i < |s'.log| ensures !s'.log[i].id.Dec? {
      if i < m {
        var j := i - |s.log|;
        assert s'.log[|s.log| + j] == Entry(Reload(s.reloadCounter + 1 + j), None, reloads[j]);
      } else {
        assert s'.log[i] == s'.log[m..][i - m];
      }
    }
  }

  lemma IdentityQuiet(ctx: Ctx, w: World, bearer: Option<Text>, nowMs: SignedWord, check: TokenCheck)
    ensures Quiet(w.s.log, Identify(ctx, w.s, w.a, bearer, nowMs, check).0.log)
  {
    var (s', a', _) := Identify(ctx, w.s, w.a, bearer, nowMs, check);
    IdentityWritten(ctx, w.s, w.a, bearer, nowMs, check);
    IntroducedQuiet(ctx, w.s, s', Consult(w.a, bearer, nowMs, check).0.reloads,
                    if a'.current != w.a.current then Some((a'.generation, a'.current)) else None);
  }

  // ------------------------------------------------- every move

  ghost predicate Sound(ctx: Ctx, w: World) {
    AllPermitted(ctx, w.s.log, w.t.judged)
  }

  lemma ActPermitted(ctx: Ctx, w: World, msg: Msg, bearer: Option<Text>, nowMs: SignedWord, check: TokenCheck, latency: Word)
    requires Good(w) && Sound(ctx, w) && msg.verb.Some? && msg.verb.value !in RELAYED_UP
    ensures var (s', a', _) := FromAgent(ctx, w.s, w.a, msg, bearer, nowMs, check, latency);
      AllPermitted(ctx, s'.log, Judge(w.t, w.s, s', a'.current))
  {
    var (s', a', f) := FromAgent(ctx, w.s, w.a, msg, bearer, nowMs, check, latency);
    var known := Identify(ctx, w.s, w.a, bearer, nowMs, check).0;
    var judged := Judge(w.t, w.s, s', a'.current);
    var q := AskedOf(msg.verb.value, msg.params, a'.current);
    ActDecided(ctx, w.s, w.a, msg, bearer, nowMs, check, latency);
    JudgedPermitted(ctx, w.s, w.t, judged);
    IdentityQuiet(ctx, w, bearer, nowMs, check);
    QuietPermitted(ctx, w.s.log, known.log, judged);
    WrittenPermitted(ctx, known.log, s', CallOf(ctx, msg.verb.value, msg.params, q), Authorizes(w.a, bearer, nowMs, check, a'.current), q,
                     if f == Pass then None else Some(Blocked), judged, msg.verb.value, msg.params);
  }

  lemma AnswerPermitted(ctx: Ctx, w: World, msg: Msg, latency: Word)
    requires Good(w) && Sound(ctx, w)
    ensures var s' := AgentAnswers(ctx, w.s, msg, latency).0; AllPermitted(ctx, s'.log, Judge(w.t, w.s, s', w.a.current))
  {
    var s' := AgentAnswers(ctx, w.s, msg, latency).0;
    var judged := Judge(w.t, w.s, s', w.a.current);
    AnswerDecided(ctx, w.s, msg, latency);
    JudgedPermitted(ctx, w.s, w.t, judged);
    if InFlight(w.s.toAgent, msg.id) || (msg.id.Id? && msg.id in w.s.relayed) {
      QuietPermitted(ctx, w.s.log, s'.log, judged);
    } else {
      WrittenPermitted(ctx, w.s.log, s', McpAccess(ctx.server, ctx.unsolicited, ctx.server, ctx.hash(msg.raw)), false, None, Some(Blocked),
                       judged, Ping, msg.params);
    }
  }

  lemma RequestPermitted(ctx: Ctx, w: World, msg: Msg, m: Method, nowMs: SignedWord)
    requires Good(w) && Sound(ctx, w) && m != NoteMessage
    ensures var s' := ServerAsks(ctx, w.s, w.a, msg, m, CapabilityOf(m), nowMs).0;
      AllPermitted(ctx, s'.log, Judge(w.t, w.s, s', w.a.current))
  {
    var (s', d) := ServerAsks(ctx, w.s, w.a, msg, m, CapabilityOf(m), nowMs);
    RequestDecided(ctx, w.s, w.a, msg, m, nowMs);
    JudgedPermitted(ctx, w.s, w.t, Judge(w.t, w.s, s', w.a.current));
    WrittenPermitted(ctx, w.s.log, s', McpAccess(ctx.server, ctx.name(m), ctx.server, ctx.hash(msg.params.text)),
                     nowMs < w.a.current.expiresAtMs, AskedBack(m, w.a.current), if d == Deliver then None else Some(Blocked),
                     Judge(w.t, w.s, s', w.a.current), m, msg.params);
  }

  lemma NotePermitted(ctx: Ctx, w: World, msg: Msg, nowMs: SignedWord)
    requires Good(w) && Sound(ctx, w)
    ensures var s' := ServerNotes(ctx, w.s, w.a, msg, nowMs).0; AllPermitted(ctx, s'.log, Judge(w.t, w.s, s', w.a.current))
  {
    var (s', d) := ServerNotes(ctx, w.s, w.a, msg, nowMs);
    NoteDecided(ctx, w.s, w.a, msg, nowMs);
    JudgedPermitted(ctx, w.s, w.t, Judge(w.t, w.s, s', w.a.current));
    WrittenPermitted(ctx, w.s.log, s', McpAccess(ctx.server, ctx.name(NoteMessage), ctx.server, ctx.hash(msg.params.text)),
                     nowMs < w.a.current.expiresAtMs, AskedBack(NoteMessage, w.a.current),
                     Some(if d == Deliver then EffectOk else Blocked), Judge(w.t, w.s, s', w.a.current), NoteMessage, msg.params);
  }

  lemma AgentStep(ctx: Ctx, w: World, move: Move)
    requires Good(w) && Sound(ctx, w) && move.AgentMessage?
    ensures Sound(ctx, Next(ctx, w, move))
  {
    if move.msg.verb.None? {
      AnswerPermitted(ctx, w, move.msg, move.latency);
    } else if move.msg.verb.value in RELAYED_UP {
      RelayedUp(ctx, w.s, w.a, move.msg, move.bearer, move.nowMs, move.check, move.latency);
    } else {
      ActPermitted(ctx, w, move.msg, move.bearer, move.nowMs, move.check, move.latency);
    }
  }

  lemma ServerStep(ctx: Ctx, w: World, move: Move)
    requires Good(w) && Sound(ctx, w) && move.ServerMessage?
    ensures Sound(ctx, Next(ctx, w, move))
  {
    ServerHeard(ctx, w.s, w.a, move.said, move.verb, move.atMs);
    if move.verb == NoteMessage {
      NotePermitted(ctx, w, move.said, move.atMs);
    } else if move.verb !in ANSWERED + RELAYED_DOWN {
      RequestPermitted(ctx, w, move.said, move.verb, move.atMs);
    }
  }

  lemma EffectStep(ctx: Ctx, w: World, move: Move)
    requires Good(w) && Sound(ctx, w) && move.ResponseWritten?
    ensures Sound(ctx, Next(ctx, w, move))
  {
    if move.slot in w.t.held {
      EffectRecorded(ctx, w.s, move.slot, move.response, move.took);
      QuietPermitted(ctx, w.s.log, Next(ctx, w, move).s.log, w.t.judged);
    }
  }

  lemma BearerStep(ctx: Ctx, w: World, move: Move)
    requires Good(w) && Sound(ctx, w) && move.BearerSeen?
    ensures Sound(ctx, Next(ctx, w, move))
  {
    IdentityQuiet(ctx, w, Some(move.token), move.seenMs, move.tokenCheck);
    QuietPermitted(ctx, w.s.log, Next(ctx, w, move).s.log, w.t.judged);
  }

  lemma SoundStep(ctx: Ctx, w: World, move: Move)
    requires Good(w) && Sound(ctx, w)
    ensures Sound(ctx, Next(ctx, w, move))
  {
    match move {
      case AgentMessage(_, _, _, _, _) => AgentStep(ctx, w, move);
      case ServerMessage(_, _, _) => ServerStep(ctx, w, move);
      case ResponseTaken(_) =>
      case ResponseWritten(_, _, _) => EffectStep(ctx, w, move);
      case BearerSeen(_, _, _) => BearerStep(ctx, w, move);
    }
  }

  lemma {:induction false} RunSound(ctx: Ctx, w: World, moves: seq<Move>)
    requires Good(w) && Sound(ctx, w)
    ensures Sound(ctx, Run(ctx, w, moves))
    decreases |moves|
  {
    if moves != [] {
      NextGood(ctx, w, moves[0]);
      SoundStep(ctx, w, moves[0]);
      RunSound(ctx, Next(ctx, w, moves[0]), moves[1..]);
    }
  }

  lemma OpenedSound(ctx: Ctx, a: AuthState, cert: Option<SessionCert>, deployment: Option<Payload>)
    ensures Sound(ctx, Opened(ctx, a, cert, deployment))
  {
    var log := Opened(ctx, a, cert, deployment).s.log;
    var empty := SessionState([], NoRecord, map[], map[], {}, 0, 0);
    var s0 := WithReloads(empty, a.reloads);
    ReloadsWritten(empty, a.reloads);
    assert Quiet([], s0.log) by {
      forall i | 0 <= i < |s0.log| ensures !s0.log[i].id.Dec? {
        assert s0.log[|empty.log| + i] == Entry(Reload(0 + 1 + i), None, a.reloads[i]);
      }
    }
    assert Quiet(s0.log, WithOpening(s0, cert, deployment).log);
    assert Quiet(WithOpening(s0, cert, deployment).log, log);
    QuietPermitted(ctx, [], s0.log, map[]);
    QuietPermitted(ctx, s0.log, WithOpening(s0, cert, deployment).log, map[]);
    QuietPermitted(ctx, WithOpening(s0, cert, deployment).log, log, map[]);
  }

  /** The chain-level records a session opens with: its certificate and the deployment bundle, where it has them. */
  function Openers(cert: Option<SessionCert>, deployment: Option<Payload>, n: nat): seq<Entry> {
    match (cert, deployment)
    case (None, None) => []
    case (Some(x), None) => [Entry(CertRec, None, Payload.Session(x))]
    case (None, Some(d)) => [Entry(Deployment(n), None, d)]
    case (Some(x), Some(d)) => [Entry(CertRec, None, Payload.Session(x)), Entry(Deployment(n), None, d)]
  }

  lemma OpenersWritten(s: SessionState, cert: Option<SessionCert>, deployment: Option<Payload>)
    ensures var s' := WithOpening(s, cert, deployment);
      && s'.log == s.log + Openers(cert, deployment, s.reloadCounter + 1)
      && s' == s.(log := s'.log, reloadCounter := s.reloadCounter + if deployment.Some? then 1 else 0)
  {
    match (cert, deployment) {
      case (None, None) =>
      case (Some(x), None) =>
      case (None, Some(d)) =>
      case (Some(x), Some(d)) =>
        var both := Openers(cert, deployment, s.reloadCounter + 1);
        assert (s.log + [both[0]]) + [both[1]] == s.log + both;
    }
  }

  /** A session opens with the reloads gone through so far, then those, then the first delegation; nothing else is in its
      log before the first act. */
  lemma OpeningWritten(ctx: Ctx, a: AuthState, cert: Option<SessionCert>, deployment: Option<Payload>)
    ensures var s, n := Opened(ctx, a, cert, deployment).s, |a.reloads|; var openers := Openers(cert, deployment, n + 1);
      && n + |openers| <= |s.log|
      && (forall i :: 0 <= i < n ==> s.log[i] == Entry(Reload(1 + i), None, a.reloads[i]))
      && s.log[n..n + |openers|] == openers && Presents(ctx, s.log[n + |openers|..], a.generation, a.current)
      && s == SessionState(s.log, Agent(a.generation), map[], map[], {}, 0, n + if deployment.Some? then 1 else 0)
  {
    var empty := SessionState([], NoRecord, map[], map[], {}, 0, 0);
    var s0 := WithReloads(empty, a.reloads);
    ReloadsWritten(empty, a.reloads);
    OpenersWritten(s0, cert, deployment);
    GrantPresents(ctx, a.generation, a.current);
    forall i | 0 <= i < |a.reloads| ensures s0.log[i] == Entry(Reload(1 + i), None, a.reloads[i]) {
      assert s0.log[|empty.log| + i] == Entry(Reload(0 + 1 + i), None, a.reloads[i]);
    }
    Opens(s0.log, Openers(cert, deployment, |a.reloads| + 1), GrantEntries(a.generation, a.current, ctx.host));
  }

  lemma Opens(a: seq<Entry>, b: seq<Entry>, d: seq<Entry>)
    ensures var s := (a + b) + d;
      s[|a|..|a| + |b|] == b && s[|a| + |b|..] == d && forall i :: 0 <= i < |a| ==> s[i] == a[i]
  {
  }

  /** Default deny, over whole runs. Whatever the agent, the server, the tokens and the interleaving: every decision on
      record that lets an act through stands right after the record of that act and is the engine's own answer to the
      question that act raises, under the grant it is attributed to. */
  lemma NothingUnasked(ctx: Ctx, a: AuthState, cert: Option<SessionCert>, deployment: Option<Payload>, moves: seq<Move>, i: nat)
    requires a.generation == 1 && i < |After(ctx, a, cert, deployment, moves).s.log|
    ensures var w := After(ctx, a, cert, deployment, moves); PermittedAt(ctx, w.s.log, w.t.judged, i)
  {
    OpenedGood(ctx, a, cert, deployment);
    OpenedSound(ctx, a, cert, deployment);
    RunSound(ctx, Opened(ctx, a, cert, deployment), moves);
  }
}
