/** What the gateway's handlers decide, told from the message, the grant in force and the policy engine alone. */
module Arbitration {
  import opened Bytes
  import opened Canonical
  import opened Records
  import opened Auth
  import opened SessionLog
  import opened Gateway

  /** Lifecycle and discovery: relayed from the agent without being judged. */
  const RELAYED_UP: set<Method> := {
    Initialize, Ping, ToolsList, ResourcesList, TemplatesList, PromptsList, SetLevel,
    NoteInitialized, NoteCancelled, NoteProgress, NoteRootsChanged }

  /** The same from the server: two requests whose answers are awaited, and the notifications that carry no log text. */
  const ANSWERED: set<Method> := {Ping, RootsList}
  const RELAYED_DOWN: set<Method> := {
    NoteProgress, NoteCancelled, NoteResourceUpdated, NoteResourcesChanged, NoteToolsChanged, NotePromptsChanged }

  /** What the engine is asked about an agent's message; nothing when the message is outside the surface. A completion
      is held to the permission of the object it references. */
  function AskedOf(m: Method, p: Params, g: Grant): Option<Question> {
    match m
    case ToolsCall => Some(AboutTool(p.name, p.arguments, g))
    case ResourcesRead | ResourcesSubscribe | ResourcesUnsubscribe => Some(AboutCapability(ResourceRead, Some(p.uri), g))
    case PromptsGet => Some(AboutCapability(PromptGet, Some(p.name), g))
    case Complete =>
      (match p.reference
       case PromptRef(name) => Some(AboutCapability(PromptGet, Some(name), g))
       case ResourceRef(uri) => Some(AboutCapability(ResourceRead, Some(uri), g))
       case OtherRef => None)
    case _ => None
  }

  /** And about a message of the server. */
  function AskedBack(m: Method, g: Grant): Option<Question> {
    match m
    case SamplingCreate => Some(AboutCapability(Sampling, None, g))
    case ElicitationCreate => Some(AboutCapability(Elicitation, None, g))
    case NoteMessage => Some(AboutCapability(Notify, None, g))
    case _ => None
  }

  /** The record of what the agent attempted. */
  function CallOf(ctx: Ctx, m: Method, p: Params, q: Option<Question>): Payload {
    match q
    case Some(AboutTool(tool, arguments, _)) => ToolCall(ctx.server, tool, ctx.hash(arguments), None)
    case Some(AboutCapability(_, Some(target), _)) => McpAccess(ctx.server, ctx.name(m), target, ctx.hash(p.text))
    case _ => McpAccess(ctx.server, ctx.name(m), [], ctx.hash(p.text))
  }

  /** The engine was asked, under a grant in force, and lets the act through. */
  predicate Permitted(ctx: Ctx, authorized: bool, q: Option<Question>) {
    authorized && q.Some? && ctx.engine(q.value).outcome in {Allow, AllowFailOpen}
  }

  /** The decision record: the engine's own verdict when it was asked, and otherwise a refusal no policy made. */
  predicate Rules(ctx: Ctx, authorized: bool, q: Option<Question>, d: Payload) {
    && d.Decision? && d.bundleVersion == ctx.host.bundleVersion
    && if authorized && q.Some?
       then (d.outcome, d.policyId, d.reason)
            == (ctx.engine(q.value).outcome, ctx.engine(q.value).policyId, ctx.engine(q.value).reason)
       else d.outcome == Deny && d.policyId == None && d.reason.Some?
  }

  /** Act n was written as a call under the session's agent, its decision, and the effect if it is already known. */
  predicate Written(ctx: Ctx, before: seq<Entry>, s: SessionState, call: Payload, authorized: bool, q: Option<Question>,
                    effect: Option<EffectStatus>)
  {
    var n, k := s.counter, |before|;
    && before <= s.log && |s.log| == k + (if effect.Some? then 3 else 2)
    && s.log[k] == Entry(Call(n), Some(s.agent), call)
    && s.log[k + 1].id == Dec(n) && s.log[k + 1].parent == Some(Call(n)) && Rules(ctx, authorized, q, s.log[k + 1].payload)
    && (effect.Some? ==> s.log[k + 2] == Entry(Eff(n), Some(Dec(n)), Effect(effect.value, None, 0)))
  }

  /** A message's id is awaiting an answer already. */
  predicate InFlight(table: map<MsgId, Slot>, id: MsgId) {
    id.Id? && id in table
  }

  /** The table of owed effects after an act: one more when it was let through with an id to answer under. */
  function Owing(table: map<MsgId, Slot>, id: MsgId, n: nat, passed: bool): map<MsgId, Slot> {
    if passed && id.Id? then table[id := Slot(Dec(n), Eff(n))] else table
  }

  // ------------------------------------------------- identity

  /** The reloads a verification went through, and then the new grant if there is one, are in the log before the act. */
  predicate Introduced(ctx: Ctx, s: SessionState, s': SessionState, reloads: seq<Payload>, renewed: Option<(nat, Grant)>) {
    var k, m := |s.log|, |s.log| + |reloads|;
    && s.log <= s'.log && s'.reloadCounter == s.reloadCounter + |reloads|
    && m <= |s'.log|
    && (forall i :: 0 <= i < |reloads| ==> s'.log[k + i] == Entry(Reload(s.reloadCounter + 1 + i), None, reloads[i]))
    && match renewed
       case None => |s'.log| == m && s'.agent == s.agent
       case Some((gen, g)) => s'.agent == Agent(gen) && Presents(ctx, s'.log[m..], gen, g)
  }

  /** The records that introduce one generation: who delegated, under what readable name, who acts, through which agent. */
  predicate Presents(ctx: Ctx, es: seq<Entry>, gen: nat, g: Grant) {
    var named := g.readable.Some? && g.readable.value.0 != g.subject;
    && |es| == (if named then 4 else 3)
    && es[0] == Entry(Deleg(gen), None, Delegation(g.subject, g.issuer, g.scopes, g.expiresAtMs, None, Implicit))
    && (named ==> es[1] == Entry(LabelRec(gen), Some(Deleg(gen)),
                                 PrincipalLabel(g.issuer, g.subject, g.readable.value.0, g.readable.value.1)))
    && es[|es| - 2] == Entry(ActorRec(gen), Some(Deleg(gen)), Actor(g.actorChain, g.kind))
    && es[|es| - 1] == Entry(Agent(gen), Some(ActorRec(gen)), AgentSession(ctx.host.agentId, ctx.host.agentVersion, ctx.host.configHash))
  }

  lemma {:induction false} ReloadsWritten(s: SessionState, reloads: seq<Payload>)
    ensures var s' := WithReloads(s, reloads);
      && s' == s.(log := s'.log, reloadCounter := s.reloadCounter + |reloads|)
      && s.log <= s'.log && |s'.log| == |s.log| + |reloads|
      && forall i :: 0 <= i < |reloads| ==> s'.log[|s.log| + i] == Entry(Reload(s.reloadCounter + 1 + i), None, reloads[i])
    decreases |reloads|
  {
    if reloads != [] {
      var n := s.reloadCounter + 1;
      var s1 := Append(s.(reloadCounter := n), Reload(n), None, reloads[0]);
      ReloadsWritten(s1, reloads[1..]);
      var s' := WithReloads(s1, reloads[1..]);
      forall i | 0 <= i < |reloads| ensures s'.log[|s.log| + i] == Entry(Reload(s.reloadCounter + 1 + i), None, reloads[i]) {
        if i == 0 {
          assert s'.log[..|s1.log|] == s1.log;
        } else {
          assert s'.log[|s1.log| + (i - 1)] == Entry(Reload(s1.reloadCounter + 1 + (i - 1)), None, reloads[1..][i - 1]);
        }
      }
    }
  }

  /** Identity and attribution move together: what the verification went through, and the new generation when there
      is one, are written before anything is judged under it, and nothing else of the session changes. */
  lemma IdentityWritten(ctx: Ctx, s: SessionState, a: AuthState, bearer: Option<Text>, nowMs: SignedWord, check: TokenCheck)
    ensures var (s', a', outcome) := Identify(ctx, s, a, bearer, nowMs, check);
      && a'.reloads == [] && s' == s.(log := s'.log, agent := s'.agent, reloadCounter := s'.reloadCounter)
      && Introduced(ctx, s, s', Consult(a, bearer, nowMs, check).0.reloads,
                    if a'.current != a.current then Some((a'.generation, a'.current)) else None)
  {
    var (a1, outcome) := Consult(a, bearer, nowMs, check);
    var s1 := WithReloads(s, a1.reloads);
    RenewalCounts(a, bearer, nowMs, check);
    ReloadsWritten(s, a1.reloads);
    if outcome == Renewed {
      var es := GrantEntries(a1.generation, a1.current, ctx.host);
      assert (s1.log + es)[|s1.log|..] == es;
      GrantPresents(ctx, a1.generation, a1.current);
    }
  }

  lemma GrantPresents(ctx: Ctx, gen: nat, g: Grant)
    ensures Presents(ctx, GrantEntries(gen, g, ctx.host), gen, g)
  {
  }

  lemma AttemptWritten(ctx: Ctx, s: SessionState, way: Way, id: MsgId, call: Payload, v: Verdict, authorized: bool, q: Option<Question>)
    requires Rules(ctx, authorized, q, DecisionPayload(ctx, v))
    ensures var (s', passed) := Settle(Attempt(ctx, s, call, v), way, id, Allowed(v));
      && (passed <==> Allowed(v) && !InFlight(Table(s, way), id))
      && s'.counter == s.counter + 1 && s'.agent == s.agent && s'.relayed == s.relayed
      && Written(ctx, s.log, s', call, authorized, q, if passed then None else Some(Blocked))
      && s'.pending == (if way == ToServer then Owing(s.pending, id, s'.counter, passed) else s.pending)
      && s'.toAgent == (if way == ToTheAgent then Owing(s.toAgent, id, s'.counter, passed) else s.toAgent)
  {
    var s1 := Attempt(ctx, s, call, v);
    var s' := Settle(s1, way, id, Allowed(v)).0;
    var k := |s.log|;
    assert s1.log[k] == Entry(Call(s1.counter), Some(s.agent), call);
    assert s1.log[k + 1] == Entry(Dec(s1.counter), Some(Call(s1.counter)), DecisionPayload(ctx, v));
    assert s'.log[k] == s1.log[k] && s'.log[k + 1] == s1.log[k + 1];
  }

  // ------------------------------------------------- the agent speaks

  /** An act of the agent passes exactly when a grant is in force for it, the engine, asked about exactly that act under
      that grant, lets it through, and its id awaits no other answer. Whatever is decided is on record: without
      authority, or outside the surface, it is always a refusal that no policy made. */
  lemma ActDecided(ctx: Ctx, s: SessionState, a: AuthState, msg: Msg, bearer: Option<Text>, nowMs: SignedWord, check: TokenCheck,
                   latency: Word)
    requires msg.verb.Some? && msg.verb.value !in RELAYED_UP
    ensures var (s', a', f) := FromAgent(ctx, s, a, msg, bearer, nowMs, check, latency);
      var q := AskedOf(msg.verb.value, msg.params, a'.current);
      var authorized := Authorizes(a, bearer, nowMs, check, a'.current);
      var known := Identify(ctx, s, a, bearer, nowMs, check).0;
      && (f == Pass <==> Permitted(ctx, authorized, q) && !InFlight(s.pending, msg.id))
      && s'.counter == s.counter + 1 && s'.agent == known.agent
      && Written(ctx, known.log, s', CallOf(ctx, msg.verb.value, msg.params, q), authorized, q, if f == Pass then None else Some(Blocked))
      && s'.pending == Owing(s.pending, msg.id, s'.counter, f == Pass) && s'.toAgent == s.toAgent && s'.relayed == s.relayed
      && a' == Identify(ctx, s, a, bearer, nowMs, check).1
  {
    var act := Classify(msg.verb.value, msg.params).value;
    var (s1, a1, outcome) := Identify(ctx, s, a, bearer, nowMs, check);
    IdentityWritten(ctx, s, a, bearer, nowMs, check);
    ConsultMeans(a, bearer, nowMs, check, a1.current);
    var q := AskedOf(msg.verb.value, msg.params, a1.current);
    VerdictMeans(ctx, msg.verb.value, msg.params, act, a1.current, outcome);
    AttemptWritten(ctx, s1, ToServer, msg.id, ActPayload(ctx, act, msg.params), VerdictOn(ctx, act, msg.params, a1.current, outcome),
                   !outcome.Denied?, q);
  }

  /** Judging an act is asking the engine about it, under authority and inside the surface only. */
  lemma VerdictMeans(ctx: Ctx, m: Method, p: Params, act: Act, g: Grant, outcome: AuthOutcome)
    requires m !in RELAYED_UP && Classify(m, p) == Some(act)
    ensures var q, v := AskedOf(m, p, g), VerdictOn(ctx, act, p, g, outcome);
      && (Allowed(v) <==> Permitted(ctx, !outcome.Denied?, q)) && Rules(ctx, !outcome.Denied?, q, DecisionPayload(ctx, v))
      && ActPayload(ctx, act, p) == CallOf(ctx, m, p, q)
  {
  }

  /** What is not an act passes untouched, and only that. */
  lemma RelayedUp(ctx: Ctx, s: SessionState, a: AuthState, msg: Msg, bearer: Option<Text>, nowMs: SignedWord, check: TokenCheck,
                  latency: Word)
    requires msg.verb.Some?
    ensures FromAgent(ctx, s, a, msg, bearer, nowMs, check, latency) == (s, a, Pass) <==> msg.verb.value in RELAYED_UP
  {
    if msg.verb.value !in RELAYED_UP {
      ActDecided(ctx, s, a, msg, bearer, nowMs, check, latency);
    }
  }

  /** The agent's answers: one the gateway arbitrated closes its own effect, telling error from success and pinning
      what crossed back; one it relayed passes once; anything else is recorded as an attempt and refused. */
  lemma AnswerDecided(ctx: Ctx, s: SessionState, msg: Msg, latency: Word)
    ensures var (s', f) := AgentAnswers(ctx, s, msg, latency);
      var owed, relayed := InFlight(s.toAgent, msg.id), msg.id.Id? && msg.id in s.relayed;
      && (f == Pass <==> owed || relayed)
      && (owed ==>
           && s' == s.(toAgent := s.toAgent - {msg.id}, log := s'.log)
           && s'.log == s.log + [Entry(s.toAgent[msg.id].effect, Some(s.toAgent[msg.id].decision),
                                       Effect(if msg.error then EffectError else EffectOk, HashOf(ctx, msg.result), latency))])
      && (!owed && relayed ==> s' == s.(relayed := s.relayed - {msg.id}))
      && (!owed && !relayed ==>
           && s' == s.(counter := s.counter + 1, log := s'.log)
           && Written(ctx, s.log, s', McpAccess(ctx.server, ctx.unsolicited, ctx.server, ctx.hash(msg.raw)), false, None, Some(Blocked)))
  {
  }

  function HashOf(ctx: Ctx, result: Option<Text>): Option<Hash> {
    if result.Some? then Some(ctx.hash(result.value)) else None
  }

  // ------------------------------------------------- the server speaks

  function CapabilityOf(m: Method): Option<Capability> {
    match m case SamplingCreate => Some(Sampling) case ElicitationCreate => Some(Elicitation) case _ => None
  }

  lemma ChannelMeans(m: Method)
    ensures ChannelOf(m) == if m in ANSWERED then RelayAndExpect else if m in RELAYED_DOWN then RelayOnly
                            else if m == NoteMessage then NoteChannel else Arbitrate(CapabilityOf(m))
  {
  }

  lemma ServerVerdictMeans(ctx: Ctx, m: Method, g: Grant, nowMs: SignedWord, cap: Option<Capability>)
    requires cap == if m == NoteMessage then Some(Notify) else CapabilityOf(m)
    ensures var q, v, alive := AskedBack(m, g), ServerVerdict(ctx, cap, g, nowMs), nowMs < g.expiresAtMs;
      (Allowed(v) <==> Permitted(ctx, alive, q)) && Rules(ctx, alive, q, DecisionPayload(ctx, v))
  {
  }

  lemma NoteWritten(ctx: Ctx, s: SessionState, call: Payload, v: Verdict, alive: bool, q: Option<Question>)
    requires Rules(ctx, alive, q, DecisionPayload(ctx, v))
    ensures var s1 := Attempt(ctx, s, call, v);
      var s' := Close(s1, SlotOf(s1.counter), if Allowed(v) then EffectOk else Blocked, None, 0);
      Written(ctx, s.log, s', call, alive, q, Some(if Allowed(v) then EffectOk else Blocked))
  {
    var s1 := Attempt(ctx, s, call, v);
    assert s1.log[|s.log|] == Entry(Call(s1.counter), Some(s.agent), call);
  }

  /** A request of the server reaches the agent exactly when the delegation has not run out, the engine lets its
      capability through and its id awaits no other answer. */
  lemma RequestDecided(ctx: Ctx, s: SessionState, a: AuthState, msg: Msg, m: Method, nowMs: SignedWord)
    requires m != NoteMessage
    ensures var (s', d) := ServerAsks(ctx, s, a, msg, m, CapabilityOf(m), nowMs);
      var q, alive := AskedBack(m, a.current), nowMs < a.current.expiresAtMs;
      && d == (if Permitted(ctx, alive, q) && !InFlight(s.toAgent, msg.id) then Deliver else if msg.id.Id? then Answer else Drop)
      && s' == s.(counter := s.counter + 1, log := s'.log, toAgent := Owing(s.toAgent, msg.id, s.counter + 1, d == Deliver))
      && Written(ctx, s.log, s', McpAccess(ctx.server, ctx.name(m), ctx.server, ctx.hash(msg.params.text)), alive, q,
                 if d == Deliver then None else Some(Blocked))
  {
    var v := ServerVerdict(ctx, CapabilityOf(m), a.current, nowMs);
    ServerVerdictMeans(ctx, m, a.current, nowMs, CapabilityOf(m));
    AttemptWritten(ctx, s, ToTheAgent, msg.id, SelfAccess(ctx, ctx.name(m), msg.params.text), v, nowMs < a.current.expiresAtMs,
                   AskedBack(m, a.current));
  }

  /** A log message of the server closes at once: delivered under a live delegation and a permission, or dropped. */
  lemma NoteDecided(ctx: Ctx, s: SessionState, a: AuthState, msg: Msg, nowMs: SignedWord)
    ensures var (s', d) := ServerNotes(ctx, s, a, msg, nowMs);
      var q, alive := AskedBack(NoteMessage, a.current), nowMs < a.current.expiresAtMs;
      && d == (if Permitted(ctx, alive, q) then Deliver else Drop)
      && s' == s.(counter := s.counter + 1, log := s'.log)
      && Written(ctx, s.log, s', McpAccess(ctx.server, ctx.name(NoteMessage), ctx.server, ctx.hash(msg.params.text)), alive, q,
                 Some(if d == Deliver then EffectOk else Blocked))
  {
    ServerVerdictMeans(ctx, NoteMessage, a.current, nowMs, Some(Notify));
    NoteWritten(ctx, s, SelfAccess(ctx, ctx.name(NoteMessage), msg.params.text), ServerVerdict(ctx, Some(Notify), a.current, nowMs),
                nowMs < a.current.expiresAtMs, AskedBack(NoteMessage, a.current));
  }

  /** Everything the server says is machinery, a log message, or a request that is judged. */
  lemma ServerHeard(ctx: Ctx, s: SessionState, a: AuthState, msg: Msg, m: Method, nowMs: SignedWord)
    ensures ServerSpeaks(ctx, s, a, msg, m, nowMs)
      == if m in ANSWERED then (if msg.id.Id? && |s.relayed| < 1024 then s.(relayed := s.relayed + {msg.id}) else s, Deliver)
         else if m in RELAYED_DOWN then (s, Deliver)
         else if m == NoteMessage then ServerNotes(ctx, s, a, msg, nowMs)
         else ServerAsks(ctx, s, a, msg, m, CapabilityOf(m), nowMs)
  {
    ChannelMeans(m);
  }

  /** The answer to a forwarded act: its effect records error or success, a tool's own error included, and pins what
      came back. */
  lemma EffectRecorded(ctx: Ctx, s: SessionState, slot: Slot, msg: Msg, latency: Word)
    ensures var s' := ServerAnswered(ctx, s, slot, msg, latency);
      && s' == s.(log := s'.log) && |s'.log| == |s.log| + 1 && s.log <= s'.log
      && var e := s'.log[|s.log|];
         && e.id == slot.effect && e.parent == Some(slot.decision) && e.payload.Effect?
         && (e.payload.status == EffectOk <==> !msg.error && !(msg.result.Some? && msg.toolError))
         && (e.payload.status != EffectOk ==> e.payload.status == EffectError)
         && e.payload.resultHash == HashOf(ctx, msg.result) && e.payload.latencyMs == latency
  {
  }
}
