/** `gateway.rs`: every message is arbitrated, recorded, then forwarded or
    refused. Each handler runs under the session lock. */
module Gateway {
  import opened Bytes
  import opened Canonical
  import opened Records
  import opened Auth
  import opened SessionLog

  datatype Method =
    | Initialize | Ping | ToolsList | ResourcesList | TemplatesList | PromptsList | SetLevel
    | NoteInitialized | NoteCancelled | NoteProgress | NoteRootsChanged
    | NoteResourceUpdated | NoteResourcesChanged | NoteToolsChanged | NotePromptsChanged | NoteMessage
    | ToolsCall | ResourcesRead | ResourcesSubscribe | ResourcesUnsubscribe | PromptsGet | Complete
    | SamplingCreate | ElicitationCreate | RootsList
    | NonString | Other(name: Text)

  datatype Reference = PromptRef(name: Text) | ResourceRef(uri: Text) | OtherRef

  /** The parts of `params` the gateway reads, absent text fields being empty, and the whole of it as text. */
  datatype Params = Params(text: Text, name: Text, uri: Text, reference: Reference, arguments: Text)

  /** A JSON-RPC message: its method when it has one, its id, and what a response carries. */
  datatype Msg = Msg(verb: Option<Method>, id: MsgId, params: Params, result: Option<Text>, toolError: bool, error: bool, raw: Text)

  datatype Capability = ResourceRead | PromptGet | Sampling | Elicitation | Notify

  datatype Act = Tool(tool: Text) | Access(cap: Capability, via: Method, target: Text) | OutOfScope(unknown: Method)

  datatype Verdict = Verdict(outcome: Outcome, policyId: Option<Text>, reason: Option<Text>)

  /** What the policy engine is asked, under which grant. */
  datatype Question =
    | AboutTool(tool: Text, arguments: Text, grant: Grant)
    | AboutCapability(cap: Capability, target: Option<Text>, grant: Grant)

  /** The immutable context. The policy engine, the content hash and the texts are parameters. */
  datatype Ctx = Ctx(host: Host, server: Text, hash: Text -> Hash, name: Method -> Text, unsolicited: Text,
                     say: Why -> Text, engine: Question -> Verdict)

  datatype Forward = Pass | Reply
  datatype Downstream = Deliver | Answer | Drop

  const RELAYED_CAP: nat := 1024

  predicate Allowed(v: Verdict) {
    v.outcome == Allow || v.outcome == AllowFailOpen
  }

  /** Relayed untouched from the agent. */
  predicate Machinery(m: Method) {
    match m
    case Initialize | Ping | ToolsList | ResourcesList | TemplatesList | PromptsList | SetLevel => true
    case NoteInitialized | NoteCancelled | NoteProgress | NoteRootsChanged => true
    case _ => false
  }

  /** Relayed untouched from the server. */
  predicate ServerNotification(m: Method) {
    match m
    case NoteProgress | NoteCancelled | NoteResourceUpdated => true
    case NoteResourcesChanged | NoteToolsChanged | NotePromptsChanged => true
    case _ => false
  }

  /** The act a method stands for; none for machinery. */
  function Classify(m: Method, p: Params): (act: Option<Act>)
    ensures act.None? <==> Machinery(m)
  {
    match m
    case ToolsCall => Some(Tool(p.name))
    case ResourcesRead | ResourcesSubscribe | ResourcesUnsubscribe => Some(Access(ResourceRead, m, p.uri))
    case PromptsGet => Some(Access(PromptGet, m, p.name))
    case Complete =>
      (match p.reference
       case PromptRef(name) => Some(Access(PromptGet, m, name))
       case ResourceRef(uri) => Some(Access(ResourceRead, m, uri))
       case OtherRef => Some(OutOfScope(m)))
    case _ => if Machinery(m) then None else Some(OutOfScope(m))
  }

  function ActPayload(ctx: Ctx, act: Act, p: Params): Payload {
    match act
    case Tool(tool) => ToolCall(ctx.server, tool, ctx.hash(p.arguments), None)
    case Access(_, m, target) => McpAccess(ctx.server, ctx.name(m), target, ctx.hash(p.text))
    case OutOfScope(m) => McpAccess(ctx.server, ctx.name(m), [], ctx.hash(p.text))
  }

  /** The target is the wrapped server itself. */
  function SelfAccess(ctx: Ctx, name: Text, text: Text): Payload {
    McpAccess(ctx.server, name, ctx.server, ctx.hash(text))
  }

  function Refused(ctx: Ctx, why: Why): Verdict {
    Verdict(Deny, None, Some(ctx.say(why)))
  }

  function VerdictOn(ctx: Ctx, act: Act, p: Params, grant: Grant, outcome: AuthOutcome): Verdict {
    match outcome
    case Denied(why) => Refused(ctx, why)
    case _ =>
      match act
      case Tool(tool) => ctx.engine(AboutTool(tool, p.arguments, grant))
      case Access(cap, _, target) => ctx.engine(AboutCapability(cap, Some(target), grant))
      case OutOfScope(_) => Refused(ctx, OutsideSurface)
  }

  function ServerVerdict(ctx: Ctx, cap: Option<Capability>, grant: Grant, nowMs: SignedWord): Verdict {
    if cap.None? then Refused(ctx, OutsideServerSurface)
    else if Expired(grant, nowMs) then Refused(ctx, DelegationExpired)
    else ctx.engine(AboutCapability(cap.value, None, grant))
  }

  // ------------------------------------------------- the moves every handler is made of

  function SlotOf(n: nat): Slot {
    Slot(Dec(n), Eff(n))
  }

  function DecisionPayload(ctx: Ctx, v: Verdict): Payload {
    Decision(v.outcome, v.policyId, ctx.host.bundleVersion, v.reason)
  }

  /** The attempted act and the decision on it, numbered alike, under the agent session in force. */
  function Attempt(ctx: Ctx, s: SessionState, payload: Payload, v: Verdict): SessionState {
    var n := s.counter + 1;
    s.(counter := n,
       log := s.log + [Entry(Call(n), Some(s.agent), payload), Entry(Dec(n), Some(Call(n)), DecisionPayload(ctx, v))])
  }

  /** The effect that ends an act. */
  function Close(s: SessionState, slot: Slot, status: EffectStatus, result: Option<Hash>, latency: Word): SessionState {
    Append(s, slot.effect, Some(slot.decision), Effect(status, result, latency))
  }

  function ResultHash(ctx: Ctx, msg: Msg): Option<Hash> {
    match msg.result case Some(r) => Some(ctx.hash(r)) case None => None
  }

  datatype Way = ToServer | ToTheAgent

  function Table(s: SessionState, way: Way): map<MsgId, Slot> {
    if way == ToServer then s.pending else s.toAgent
  }

  function Reserve(s: SessionState, way: Way, id: MsgId, slot: Slot): SessionState {
    if way == ToServer then s.(pending := s.pending[id := slot]) else s.(toAgent := s.toAgent[id := slot])
  }

  /** What follows a decision: refused, the effect is immediate; allowed, it is owed under the message's id,
      unless that id is already in flight, or there is none and nothing will ever answer. */
  function Settle(s: SessionState, way: Way, id: MsgId, allowed: bool): (SessionState, bool) {
    if allowed && !id.Id? then (s, true)
    else if allowed && id !in Table(s, way) then (Reserve(s, way, id, SlotOf(s.counter)), true)
    else (Close(s, SlotOf(s.counter), Blocked, None, 0), false)
  }

  // ------------------------------------------------- the handlers as functions

  function AgentAnswers(ctx: Ctx, s: SessionState, msg: Msg, latency: Word): (SessionState, Forward) {
    if msg.id.Id? && msg.id in s.toAgent then
      (Close(s.(toAgent := s.toAgent - {msg.id}), s.toAgent[msg.id], if msg.error then EffectError else EffectOk,
             ResultHash(ctx, msg), latency), Pass)
    else if msg.id.Id? && msg.id in s.relayed then (s.(relayed := s.relayed - {msg.id}), Pass)
    else
      var s1 := Attempt(ctx, s, SelfAccess(ctx, ctx.unsolicited, msg.raw), Refused(ctx, NoServerRequest));
      (Close(s1, SlotOf(s1.counter), Blocked, None, 0), Reply)
  }

  /** The token of the moment taken into account, and what that put in the log. */
  function Identify(ctx: Ctx, s: SessionState, a: AuthState, bearer: Option<Text>, nowMs: SignedWord, check: TokenCheck)
    : (SessionState, AuthState, AuthOutcome)
  {
    var (a1, outcome) := Consult(a, bearer, nowMs, check);
    var s1 := WithReloads(s, a1.reloads);
    var s2 := if outcome == Renewed then WithGrant(s1, a1.generation, a1.current, ctx.host) else s1;
    (s2, a1.(reloads := []), outcome)
  }

  function AgentActs(ctx: Ctx, s: SessionState, a: AuthState, msg: Msg, act: Act, bearer: Option<Text>, nowMs: SignedWord,
                     check: TokenCheck): (SessionState, AuthState, Forward)
  {
    var (s1, a1, outcome) := Identify(ctx, s, a, bearer, nowMs, check);
    var v := VerdictOn(ctx, act, msg.params, a1.current, outcome);
    var s2 := Attempt(ctx, s1, ActPayload(ctx, act, msg.params), v);
    var (s3, passed) := Settle(s2, ToServer, msg.id, Allowed(v));
    (s3, a1, if passed then Pass else Reply)
  }

  /** `handle_from_agent`. */
  function FromAgent(ctx: Ctx, s: SessionState, a: AuthState, msg: Msg, bearer: Option<Text>, nowMs: SignedWord,
                     check: TokenCheck, latency: Word): (SessionState, AuthState, Forward)
  {
    if msg.verb.None? then
      var (s1, f) := AgentAnswers(ctx, s, msg, latency); (s1, a, f)
    else
      match Classify(msg.verb.value, msg.params)
      case None => (s, a, Pass)
      case Some(act) => AgentActs(ctx, s, a, msg, act, bearer, nowMs, check)
  }

  function Remember(s: SessionState, id: MsgId): SessionState {
    if id.Id? && |s.relayed| < RELAYED_CAP then s.(relayed := s.relayed + {id}) else s
  }

  /** A refusal reaches the server only when it can be answered. */
  function AnswerTo(id: MsgId): Downstream {
    if id.Id? then Answer else Drop
  }

  function ServerAsks(ctx: Ctx, s: SessionState, a: AuthState, msg: Msg, m: Method, cap: Option<Capability>, nowMs: SignedWord)
    : (SessionState, Downstream)
  {
    var v := ServerVerdict(ctx, cap, a.current, nowMs);
    var s1 := Attempt(ctx, s, SelfAccess(ctx, ctx.name(m), msg.params.text), v);
    var (s2, passed) := Settle(s1, ToTheAgent, msg.id, Allowed(v));
    (s2, if passed then Deliver else AnswerTo(msg.id))
  }

  /** `arbitrate_notification`: the three records close in one pass. */
  function ServerNotes(ctx: Ctx, s: SessionState, a: AuthState, msg: Msg, nowMs: SignedWord): (SessionState, Downstream) {
    var v := ServerVerdict(ctx, Some(Notify), a.current, nowMs);
    var s1 := Attempt(ctx, s, SelfAccess(ctx, ctx.name(NoteMessage), msg.params.text), v);
    (Close(s1, SlotOf(s1.counter), if Allowed(v) then EffectOk else Blocked, None, 0), if Allowed(v) then Deliver else Drop)
  }

  /** What a server-initiated method is: relayed with its answer expected, relayed for good, the log message
      channel, or a request to arbitrate, under a capability if one governs it. */
  datatype Channel = RelayAndExpect | RelayOnly | NoteChannel | Arbitrate(cap: Option<Capability>)

  function ChannelOf(m: Method): Channel {
    match m
    case SamplingCreate => Arbitrate(Some(Sampling))
    case ElicitationCreate => Arbitrate(Some(Elicitation))
    case Ping | RootsList => RelayAndExpect
    case NoteMessage => NoteChannel
    case _ => if ServerNotification(m) then RelayOnly else Arbitrate(None)
  }

  /** `handle_server_initiated`. */
  function ServerSpeaks(ctx: Ctx, s: SessionState, a: AuthState, msg: Msg, m: Method, nowMs: SignedWord): (SessionState, Downstream) {
    match ChannelOf(m)
    case RelayAndExpect => (Remember(s, msg.id), Deliver)
    case RelayOnly => (s, Deliver)
    case NoteChannel => ServerNotes(ctx, s, a, msg, nowMs)
    case Arbitrate(cap) => ServerAsks(ctx, s, a, msg, m, cap, nowMs)
  }

  /** First lock of a server response: the slot leaves the table. */
  function TakeSlot(s: SessionState, id: MsgId): (SessionState, Option<Slot>) {
    if id in s.pending then (s.(pending := s.pending - {id}), Some(s.pending[id])) else (s, None)
  }

  /** Second lock: the effect it reserved is written. */
  function ServerAnswered(ctx: Ctx, s: SessionState, slot: Slot, msg: Msg, latency: Word): SessionState {
    Close(s, slot, if msg.error || (msg.result.Some? && msg.toolError) then EffectError else EffectOk, ResultHash(ctx, msg), latency)
  }

  // ------------------------------------------------- the handlers as the source runs them

  /** Counts the call, writes it and the decision; the caller holds the lock. */
  method RecordAttempt(ctx: Ctx, s: Session, payload: Payload, v: Verdict)
    modifies s
    ensures s.State() == Attempt(ctx, old(s.State()), payload, v)
  {
    var callId := s.NextCallId();
    s.Write(callId, Some(s.agent), payload);
    s.Write(Dec(s.counter), Some(callId), DecisionPayload(ctx, v));
    Two(old(s.log), Entry(callId, Some(s.agent), payload), Entry(Dec(s.counter), Some(callId), DecisionPayload(ctx, v)));
  }

  lemma Two<T>(s: seq<T>, a: T, b: T)
    ensures (s + [a]) + [b] == s + [a, b]
  {
  }

  method WriteEffect(s: Session, slot: Slot, status: EffectStatus, result: Option<Hash>, latency: Word)
    modifies s
    ensures s.State() == Close(old(s.State()), slot, status, result, latency)
  {
    s.Write(slot.effect, Some(slot.decision), Effect(status, result, latency));
  }

  method SettleAct(s: Session, way: Way, id: MsgId, allowed: bool) returns (passed: bool)
    modifies s
    ensures (s.State(), passed) == Settle(old(s.State()), way, id, allowed)
  {
    var slot := Slot(Dec(s.counter), Eff(s.counter));
    var table := if way == ToServer then s.pending else s.toAgent;
    if allowed {
      if !id.Id? {
        return true;
      }
      if id !in table {
        if way == ToServer {
          s.pending := s.pending[id := slot];
        } else {
          s.toAgent := s.toAgent[id := slot];
        }
        return true;
      }
      // The id is still in flight: the newcomer is refused with its own effect.
    }
    WriteEffect(s, slot, Blocked, None, 0);
    return false;
  }

  method HandleAgentAnswer(ctx: Ctx, s: Session, msg: Msg, latency: Word) returns (f: Forward)
    modifies s
    ensures (s.State(), f) == AgentAnswers(ctx, old(s.State()), msg, latency)
  {
    if msg.id.Id? {
      if msg.id in s.toAgent {
        var slot := s.toAgent[msg.id];
        s.toAgent := s.toAgent - {msg.id};
        WriteEffect(s, slot, if msg.error then EffectError else EffectOk, ResultHash(ctx, msg), latency);
        return Pass;
      }
      if msg.id in s.relayed {
        s.relayed := s.relayed - {msg.id};
        return Pass;
      }
    }
    RecordAttempt(ctx, s, SelfAccess(ctx, ctx.unsolicited, msg.raw), Refused(ctx, NoServerRequest));
    WriteEffect(s, Slot(Dec(s.counter), Eff(s.counter)), Blocked, None, 0);
    return Reply;
  }

  /** Session lock, then authority lock: identity and attribution move together. */
  method IdentifyAgent(ctx: Ctx, s: Session, a: Authority, bearer: Option<Text>, nowMs: SignedWord, check: TokenCheck)
    returns (outcome: AuthOutcome)
    modifies s, a
    ensures (s.State(), a.State(), outcome) == Identify(ctx, old(s.State()), old(a.State()), bearer, nowMs, check)
  {
    if bearer.Some? {
      outcome := a.Present(bearer.value, nowMs, check);
    } else {
      outcome := a.Refresh(nowMs, check);
    }
    var reloads := a.TakeReloads();
    s.RecordReloads(reloads);
    if outcome == Renewed {
      s.RecordGrant(a.generation, a.current, ctx.host);
    }
  }

  method HandleFromAgent(ctx: Ctx, s: Session, a: Authority, msg: Msg, bearer: Option<Text>, nowMs: SignedWord,
                         check: TokenCheck, latency: Word) returns (f: Forward)
    modifies s, a
    ensures (s.State(), a.State(), f) == FromAgent(ctx, old(s.State()), old(a.State()), msg, bearer, nowMs, check, latency)
  {
    if msg.verb.None? {
      f := HandleAgentAnswer(ctx, s, msg, latency);
      return;
    }
    var act := Classify(msg.verb.value, msg.params);
    if act.None? {
      return Pass;
    }
    var outcome := IdentifyAgent(ctx, s, a, bearer, nowMs, check);
    var v := VerdictOn(ctx, act.value, msg.params, a.current, outcome);
    RecordAttempt(ctx, s, ActPayload(ctx, act.value, msg.params), v);
    var passed := SettleAct(s, ToServer, msg.id, Allowed(v));
    return if passed then Pass else Reply;
  }

  /** `present_bearer`: a token seen on a message that is not arbitrated. */
  method PresentBearer(ctx: Ctx, s: Session, a: Authority, token: Text, nowMs: SignedWord, check: TokenCheck)
    modifies s, a
    ensures var (s', a', _) := Identify(ctx, old(s.State()), old(a.State()), Some(token), nowMs, check);
      s.State() == s' && a.State() == a'
  {
    var outcome := IdentifyAgent(ctx, s, a, Some(token), nowMs, check);
  }

  method HandleServerRequest(ctx: Ctx, s: Session, a: Authority, msg: Msg, m: Method, cap: Option<Capability>, nowMs: SignedWord)
    returns (d: Downstream)
    modifies s
    ensures (s.State(), d) == ServerAsks(ctx, old(s.State()), old(a.State()), msg, m, cap, nowMs)
  {
    var v := ServerVerdict(ctx, cap, a.current, nowMs);
    RecordAttempt(ctx, s, SelfAccess(ctx, ctx.name(m), msg.params.text), v);
    var passed := SettleAct(s, ToTheAgent, msg.id, Allowed(v));
    return if passed then Deliver else AnswerTo(msg.id);
  }

  method ArbitrateNotification(ctx: Ctx, s: Session, a: Authority, msg: Msg, nowMs: SignedWord) returns (d: Downstream)
    modifies s
    ensures (s.State(), d) == ServerNotes(ctx, old(s.State()), old(a.State()), msg, nowMs)
  {
    var v := ServerVerdict(ctx, Some(Notify), a.current, nowMs);
    RecordAttempt(ctx, s, SelfAccess(ctx, ctx.name(NoteMessage), msg.params.text), v);
    var allowed := Allowed(v);
    WriteEffect(s, Slot(Dec(s.counter), Eff(s.counter)), if allowed then EffectOk else Blocked, None, 0);
    return if allowed then Deliver else Drop;
  }

  method HandleServerInitiated(ctx: Ctx, s: Session, a: Authority, msg: Msg, m: Method, nowMs: SignedWord) returns (d: Downstream)
    modifies s
    ensures (s.State(), d) == ServerSpeaks(ctx, old(s.State()), old(a.State()), msg, m, nowMs)
  {
    match ChannelOf(m) {
      case RelayAndExpect =>
        // The agent's answer earns its way back; past the cap it will be refused.
        if msg.id.Id? && |s.relayed| < RELAYED_CAP {
          s.relayed := s.relayed + {msg.id};
        }
        return Deliver;
      case RelayOnly =>
        return Deliver;
      case NoteChannel =>
        d := ArbitrateNotification(ctx, s, a, msg, nowMs);
      case Arbitrate(cap) =>
        d := HandleServerRequest(ctx, s, a, msg, m, cap, nowMs);
    }
  }

  /** `handle_from_server` on a response, first half: the slot is taken and the lock released. */
  method TakePending(s: Session, id: MsgId) returns (slot: Option<Slot>)
    modifies s
    ensures (s.State(), slot) == TakeSlot(old(s.State()), id)
  {
    if id in s.pending {
      slot := Some(s.pending[id]);
      s.pending := s.pending - {id};
    } else {
      slot := None;
    }
  }

  /** Second half, under a new lock: anything may have happened in between. */
  method WriteServerEffect(ctx: Ctx, s: Session, slot: Slot, msg: Msg, latency: Word)
    modifies s
    ensures s.State() == ServerAnswered(ctx, old(s.State()), slot, msg, latency)
  {
    var isError := msg.error || (msg.result.Some? && msg.toolError);
    WriteEffect(s, slot, if isError then EffectError else EffectOk, ResultHash(ctx, msg), latency);
  }
}
