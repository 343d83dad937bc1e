/**
 Remote control in GenWatch: the confirm tokens and the gates of the generator's control service
 (services/control.py), and the transfer switch's control service that spends from the same
 tokens (services/ats_control.py).

 The audit log is a ghost sequence; every use of a token that succeeds leaves one entry in it, and
 for a control command that entry is the Modbus write.
 */
module Control {
  import opened Prelude

  const TOKEN_TTL := 30.0

  datatype Action =
    | Start | Stop | Exercise | Transfer
    | Test | Inhibit | ForceTransfer | BypassDelay
    | Ack | OtherAction(name: string)

  datatype Role = Stranger | Viewer | Operator | Admin

  datatype Engine = Stopped | Running | Exercising | Cranking | Cooling | Alarmed | Unsure

  datatype Panel = Auto | Manual | Off | Hidden

  datatype Comms = Healthy | Degraded | Lost

  datatype Error =
    | Forbidden | UnknownVerb | NoRegister | CommsLost | StaleData | PanelLocked | InvalidState
    | NotAuthoritative | Faulted | OverrideRequired
    | TokenInvalid | TokenExpired | TokenMismatch | ActionMismatch | WriteFailed

  /** The registers of a write, as the map gives them. */
  datatype Command = Command(address: nat, words: seq<nat>)

  datatype Token = Token(operator: string, expires: real, verb: Option<Action>)

  // ----------------------------------------------------------------------- the generator's gates

  /** What the service knows of the generator, and when each register was decoded. */
  datatype Snapshot = Snapshot(comms: Comms, ages: map<string, real>, panel: Panel, engine: Engine)

  /** The register map: the command of each verb, the registers behind engine state and panel
      mode, and the cadence of the prime tier. */
  datatype Map = Map(commands: map<Action, Command>, sources: set<string>, primePollMs: int)
  {
    function Cadence(): real { (if primePollMs < 1 then 1 else primePollMs) as real / 1000.0 }
  }

  predicate IsVerb(a: Action) { a.Start? || a.Stop? || a.Exercise? || a.Transfer? }

  predicate Allowed(verb: Action, engine: Engine) {
    match verb
    case Start => engine.Stopped?
    case Stop => engine.Running? || engine.Exercising? || engine.Cranking? || engine.Cooling? || engine.Alarmed?
    case Exercise => engine.Stopped?
    case Transfer => engine.Running?
    case _ => false
  }

  predicate Stale(m: Map, s: Snapshot, name: string, now: real) {
    name !in s.ages || now - s.ages[name] > 2.0 * m.Cadence()
  }

  /** Every register behind the gates was decoded within two cadences. */
  predicate Fresh(m: Map, s: Snapshot, now: real) {
    forall name :: name in m.sources ==> !Stale(m, s, name, now)
  }

  /** Why a command is refused before its token is looked at, in the order of the checks. */
  function Refusal(m: Map, verb: Action, role: Role, s: Snapshot, now: real): Option<Error> {
    if !role.Operator? && !role.Admin? then Some(Forbidden)
    else if !IsVerb(verb) then Some(UnknownVerb)
    else if verb !in m.commands then Some(NoRegister)
    else if !s.comms.Healthy? then Some(CommsLost)
    else if !Fresh(m, s, now) then Some(StaleData)
    else if !s.panel.Auto? then Some(PanelLocked)
    else if !Allowed(verb, s.engine) then Some(InvalidState)
    else None
  }

  // ------------------------------------------------------------------------- the switch's gates

  /** What the service knows of the transfer switch. */
  datatype Switch = Switch(comms: Comms, authoritative: bool, blockingFault: bool, normalAvailable: Option<bool>)

  predicate Maintained(a: Action) { a.Inhibit? || a.ForceTransfer? }

  predicate IsCommand(a: Action) { a.Test? || a.BypassDelay? || Maintained(a) }

  function Rank(r: Role): nat { if r.Admin? then 2 else if r.Operator? then 1 else 0 }

  predicate Asserts(a: Action, assert_: bool) { !Maintained(a) || assert_ }

  /** The commands of the switch's register map: the maintained ones have one to release. */
  datatype SwitchMap = SwitchMap(asserts: map<Action, Command>, releases: map<Action, Command>)
  {
    function Lookup(a: Action, assert_: bool): Option<Command> {
      var table := if Asserts(a, assert_) then asserts else releases;
      if a in table then Some(table[a]) else None
    }
  }

  function SwitchRefusal(m: SwitchMap, a: Action, role: Role, assert_: bool, override: bool, s: Switch): Option<Error> {
    if !IsCommand(a) then Some(UnknownVerb)
    else if Rank(role) < (if a.ForceTransfer? then 2 else 1) then Some(Forbidden)
    else if s.comms.Lost? then Some(CommsLost)
    else if Asserts(a, assert_) && !s.authoritative then Some(NotAuthoritative)
    else if Asserts(a, assert_) && s.blockingFault then Some(Faulted)
    else if Asserts(a, assert_) && a.ForceTransfer? && !override && s.normalAvailable == Some(true)
    then Some(OverrideRequired)
    else if m.Lookup(a, assert_).None? then Some(NoRegister)
    else None
  }

  // -------------------------------------------------------------------------------- the ledger

  /** What a token is spent on: an acknowledgement, or a write to one of the two devices, with
      what the service knew when it decided. */
  datatype Use =
    | Acknowledgement
    | Generator(verb: Action, role: Role, snapshot: Snapshot, readAt: real, command: Command)
    | Transferer(action: Action, role: Role, assert_: bool, override: bool, switch: Switch, command: Command)

  datatype Entry =
    | Issued(token: string, operator: string, verb: Option<Action>, at: real)
    | Spent(token: string, operator: string, verb: Option<Action>, at: real, use: Use)

  datatype Ledger = Ledger(tokens: map<string, Token>, log: seq<Entry>)

  const EMPTY := Ledger(map[], [])

  /** The tokens that have not expired. */
  function Live(tokens: map<string, Token>, now: real): map<string, Token> {
    map t | t in tokens && tokens[t].expires >= now :: tokens[t]
  }

  function Issue(l: Ledger, token: string, operator: string, verb: Option<Action>, now: real, at: real): Ledger {
    Ledger(Live(l.tokens, now)[token := Token(operator, at + TOKEN_TTL, verb)],
           l.log + [Issued(token, operator, verb, at)])
  }

  /** Why a token is not accepted. */
  function Objection(t: Token, operator: string, verb: Option<Action>, now: real): Option<Error> {
    if t.expires < now then Some(TokenExpired)
    else if t.operator != operator then Some(TokenMismatch)
    else if t.verb.Some? && verb.Some? && t.verb != verb then Some(ActionMismatch)
    else None
  }

  datatype Spending = Spending(ledger: Ledger, error: Option<Error>)

  /** Spends a token. It is gone afterwards, whether or not it was accepted. The clock is read
      twice: to evict, and to check. */
  function Spend(l: Ledger, token: string, operator: string, verb: Option<Action>, now: real, later: real, use: Use)
    : Spending
  {
    var live := Live(l.tokens, now);
    if token !in live then Spending(Ledger(live, l.log), Some(TokenInvalid))
    else
      var objection := Objection(live[token], operator, verb, later);
      var entry := Spent(token, operator, verb, later, use);
      Spending(Ledger(live - {token}, if objection.Some? then l.log else l.log + [entry]), objection)
  }

  function Execute(m: Map, l: Ledger, verb: Action, token: string, operator: string, role: Role, s: Snapshot,
                   readAt: real, now: real, later: real): Spending
  {
    var refusal := Refusal(m, verb, role, s, readAt);
    if refusal.Some? then Spending(l, refusal)
    else Spend(l, token, operator, Some(verb), now, later, Generator(verb, role, s, readAt, m.commands[verb]))
  }

  function ExecuteSwitch(m: SwitchMap, l: Ledger, a: Action, token: string, operator: string, role: Role,
                         assert_: bool, override: bool, s: Switch, now: real, later: real): Spending
  {
    var refusal := SwitchRefusal(m, a, role, assert_, override, s);
    if refusal.Some? then Spending(l, refusal)
    else Spend(l, token, operator, Some(a), now, later,
               Transferer(a, role, assert_, override, s, m.Lookup(a, assert_).value))
  }

  // ------------------------------------------------------------------------------- the objects

  class ControlService {
    const regmap: Map
    var tokens: map<string, Token>
    var wire: seq<Command>              // what has been written to the generator
    ghost var log: seq<Entry>

    ghost function View(): Ledger
      reads this
    {
      Ledger(tokens, log)
    }

    constructor (regmap: Map)
      ensures this.regmap == regmap && View() == EMPTY && wire == []
    {
      this.regmap := regmap;
      tokens, wire := map[], [];
      log := [];
    }

    method EvictExpired(now: real)
      modifies this`tokens
      ensures tokens == Live(old(tokens), now)
    {
      var todo := tokens.Keys;
      ghost var before := tokens;
      while todo != {}
        invariant todo <= before.Keys
        invariant forall t :: t in tokens <==> t in before && (t in todo || before[t].expires >= now)
        invariant forall t :: t in tokens ==> tokens[t] == before[t]
        decreases |todo|
      {
        var t :| t in todo;
        if tokens[t].expires < now {
          tokens := tokens - {t};
        }
        todo := todo - {t};
      }
    }

    /** Issues a token; `draws` are random texts, of which the first one not in use is taken. */
    method IssueToken(operator: string, verb: Option<Action>, draws: seq<string>, now: real, at: real)
      returns (token: string)
      requires exists i :: 0 <= i < |draws| && draws[i] !in Live(tokens, now)
      modifies this`tokens, this`log
      ensures token in draws && token !in Live(old(tokens), now)
      ensures View() == Issue(old(View()), token, operator, verb, now, at)
    {
      EvictExpired(now);
      var i := 0;
      while draws[i] in tokens
        invariant 0 <= i < |draws| && exists k :: i <= k < |draws| && draws[k] !in tokens
        decreases |draws| - i
      {
        i := i + 1;
      }
      token := draws[i];
      tokens := tokens[token := Token(operator, at + TOKEN_TTL, verb)];
      log := log + [Issued(token, operator, verb, at)];
    }

    method ConsumeToken(token: string, operator: string, verb: Option<Action>, now: real, later: real, ghost use: Use)
      returns (error: Option<Error>)
      modifies this`tokens, this`log
      ensures Spending(View(), error) == Spend(old(View()), token, operator, verb, now, later, use)
    {
      EvictExpired(now);
      if token !in tokens {
        return Some(TokenInvalid);
      }
      var t := tokens[token];
      tokens := tokens - {token};
      if t.expires < later {
        return Some(TokenExpired);
      }
      if t.operator != operator {
        return Some(TokenMismatch);
      }
      if t.verb.Some? && verb.Some? && t.verb != verb {
        return Some(ActionMismatch);
      }
      log := log + [Spent(token, operator, verb, later, use)];
      error := None;
    }

    method StaleRegisters(s: Snapshot, now: real) returns (stale: set<string>)
      ensures stale == set name | name in regmap.sources && Stale(regmap, s, name, now)
    {
      stale := {};
      var todo := regmap.sources;
      while todo != {}
        invariant todo <= regmap.sources
        invariant stale == set name | name in regmap.sources - todo && Stale(regmap, s, name, now)
        decreases |todo|
      {
        var name :| name in todo;
        if name !in s.ages || now - s.ages[name] > 2.0 * regmap.Cadence() {
          stale := stale + {name};
        }
        todo := todo - {name};
      }
    }

    /** Executes a command; `landed` says whether the write reached the generator. */
    method Run(verb: Action, token: string, operator: string, role: Role, s: Snapshot,
               readAt: real, now: real, later: real, landed: bool) returns (error: Option<Error>)
      modifies this
      ensures var spending := Execute(regmap, old(View()), verb, token, operator, role, s, readAt, now, later);
              && View() == spending.ledger
              && wire == old(wire) + (if spending.error.None? then [regmap.commands[verb]] else [])
              && error == if spending.error.None? && !landed then Some(WriteFailed) else spending.error
    {
      if role != Operator && role != Admin {
        return Some(Forbidden);
      }
      if !IsVerb(verb) {
        return Some(UnknownVerb);
      }
      if verb !in regmap.commands {
        return Some(NoRegister);
      }
      if s.comms != Healthy {
        return Some(CommsLost);
      }
      var stale := StaleRegisters(s, readAt);
      if stale != {} {
        assert !Fresh(regmap, s, readAt);
        return Some(StaleData);
      }
      assert forall name :: name in regmap.sources && Stale(regmap, s, name, readAt) ==> name in stale;
      if s.panel != Auto {
        return Some(PanelLocked);
      }
      if !Allowed(verb, s.engine) {
        return Some(InvalidState);
      }
      var command := regmap.commands[verb];
      ghost var use := Generator(verb, role, s, readAt, command);
      error := ConsumeToken(token, operator, Some(verb), now, later, use);
      if error.Some? {
        return;
      }
      wire := wire + [command];
      error := if landed then None else Some(WriteFailed);
    }
  }

  class SwitchControlService {
    const regmap: SwitchMap
    const control: ControlService
    var wire: seq<Command>              // what has been written to the transfer switch

    constructor (regmap: SwitchMap, control: ControlService)
      ensures this.regmap == regmap && this.control == control && wire == []
    {
      this.regmap, this.control, wire := regmap, control, [];
    }

    method Run(a: Action, token: string, operator: string, role: Role, assert_: bool, override: bool, s: Switch,
               now: real, later: real, landed: bool) returns (error: Option<Error>)
      modifies this, control`tokens, control`log
      ensures var spending := ExecuteSwitch(regmap, old(control.View()), a, token, operator, role, assert_, override, s,
                                            now, later);
              && control.View() == spending.ledger
              && wire == old(wire) + (if spending.error.None? then [regmap.Lookup(a, assert_).value] else [])
              && error == if spending.error.None? && !landed then Some(WriteFailed) else spending.error
    {
      if !IsCommand(a) {
        return Some(UnknownVerb);
      }
      if Rank(role) < (if a == ForceTransfer then 2 else 1) {
        return Some(Forbidden);
      }
      if s.comms == Lost {
        return Some(CommsLost);
      }
      if !Maintained(a) || assert_ {
        if !s.authoritative {
          return Some(NotAuthoritative);
        }
        if s.blockingFault {
          return Some(Faulted);
        }
        if a == ForceTransfer && !override {
          if s.normalAvailable == Some(true) {
            return Some(OverrideRequired);
          }
        }
      }
      var command := regmap.Lookup(a, assert_);
      if command.None? {
        return Some(NoRegister);
      }
      ghost var use := Transferer(a, role, assert_, override, s, command.value);
      error := control.ConsumeToken(token, operator, Some(a), now, later, use);
      if error.Some? {
        return;
      }
      wire := wire + [command.value];
      error := if landed then None else Some(WriteFailed);
    }
  }

  // ---------------------------------------------------------------------------------- all runs

  datatype Event =
    | Issuing(token: string, operator: string, verb: Option<Action>, now: real, at: real)
    | Acking(token: string, operator: string, now: real, later: real)
    | Commanding(action: Action, token: string, operator: string, role: Role, snapshot: Snapshot,
                 readAt: real, now: real, later: real)
    | Switching(action: Action, token: string, operator: string, role: Role, assert_: bool, override: bool,
                switch: Switch, now: real, later: real)

  function Begin(e: Event): real {
    match e
    case Issuing(_, _, _, now, _) => now
    case Acking(_, _, now, _) => now
    case Commanding(_, _, _, _, _, readAt, _, _) => readAt
    case Switching(_, _, _, _, _, _, _, now, _) => now
  }

  function End(e: Event): real {
    match e
    case Issuing(_, _, _, _, at) => at
    case Acking(_, _, _, later) => later
    case Commanding(_, _, _, _, _, _, _, later) => later
    case Switching(_, _, _, _, _, _, _, _, later) => later
  }

  /** An event can happen: its clock readings are in order, and a new token is a new one. */
  predicate Enabled(l: Ledger, e: Event) {
    && Begin(e) <= End(e)
    && (e.Issuing? ==> e.token !in Live(l.tokens, e.now))
    && (e.Commanding? ==> e.readAt <= e.now <= e.later)
  }

  function Apply(m: Map, sm: SwitchMap, l: Ledger, e: Event): Ledger {
    match e
    case Issuing(token, operator, verb, now, at) => Issue(l, token, operator, verb, now, at)
    case Acking(token, operator, now, later) =>
      Spend(l, token, operator, Some(Ack), now, later, Acknowledgement).ledger
    case Commanding(verb, token, operator, role, s, readAt, now, later) =>
      Execute(m, l, verb, token, operator, role, s, readAt, now, later).ledger
    case Switching(a, token, operator, role, assert_, override, s, now, later) =>
      ExecuteSwitch(sm, l, a, token, operator, role, assert_, override, s, now, later).ledger
  }

  function After(m: Map, sm: SwitchMap, es: seq<Event>): Ledger {
    if es == [] then EMPTY else Apply(m, sm, After(m, sm, es[..|es| - 1]), es[|es| - 1])
  }

  /** The events are serialized by the services' locks, on one clock that does not go backwards. */
  predicate IsRun(m: Map, sm: SwitchMap, es: seq<Event>) {
    var n := |es| - 1;
    es == [] || (IsRun(m, sm, es[..n]) && Enabled(After(m, sm, es[..n]), es[n])
                 && (n > 0 ==> End(es[n - 1]) <= Begin(es[n])))
  }

  /** The entry that issued a token, where it has not been spent since. */
  function Source(log: seq<Entry>, token: string): (i: Option<nat>)
    ensures i.Some? ==> i.value < |log| && log[i.value].Issued? && log[i.value].token == token
  {
    if log == [] then None
    else
      var n := |log| - 1;
      if log[n].token == token then (if log[n].Issued? then Some(n) else None)
      else Source(log[..n], token)
  }

  lemma {:induction false} SourceStep(log: seq<Entry>, e: Entry, token: string)
    ensures Source(log + [e], token)
            == if e.token != token then Source(log, token) else if e.Issued? then Some(|log|) else None
  {
    assert (log + [e])[..|log|] == log;
  }

  /** A token in the store was issued, with what the store says of it, and not spent since. */
  ghost predicate Backed(log: seq<Entry>, token: string, t: Token, clock: real) {
    var i := Source(log, token);
    && i.Some?
    && var issue := log[i.value];
       issue.operator == t.operator && issue.verb == t.verb && t.expires == issue.at + TOKEN_TTL && issue.at <= clock
  }

  ghost predicate AllBacked(l: Ledger, clock: real) {
    forall token :: token in l.tokens ==> Backed(l.log, token, l.tokens[token], clock)
  }

  /** A use of a token goes back to the issue of that token: by the same operator, at most 30
      seconds before, for the same action or for any, and not used in between. */
  predicate Justified(log: seq<Entry>, j: nat)
    requires j < |log|
  {
    log[j].Spent?
    ==> var i := Source(log[..j], log[j].token);
        && i.Some?
        && log[i.value].operator == log[j].operator
        && log[i.value].at <= log[j].at <= log[i.value].at + TOKEN_TTL
        && (log[i.value].verb.None? || log[i.value].verb == log[j].verb)
  }

  /** At the generator every gate is open: an operator or an administrator, a healthy link, gate
      registers decoded at most two poll periods ago, the panel in AUTO, and an engine that is
      stopped for a start or an exercise, anything but stopped for a stop, and running for a
      transfer. */
  predicate GeneratorOpen(m: Map, verb: Action, role: Role, s: Snapshot, now: real) {
    && (role == Operator || role == Admin) && s.comms == Healthy && s.panel == Auto
    && (verb == Start || verb == Exercise ==> s.engine == Stopped)
    && (verb == Stop ==> s.engine != Stopped && s.engine != Unsure)
    && (verb == Transfer ==> s.engine == Running)
    && (verb == Start || verb == Stop || verb == Exercise || verb == Transfer)
    && SourcesRecent(m, s, now)
  }

  predicate SourcesRecent(m: Map, s: Snapshot, now: real) {
    forall name :: name in m.sources
      ==> name in s.ages && now - s.ages[name] <= (if m.primePollMs > 1 then m.primePollMs else 1) as real / 500.0
  }

  /** At the switch every gate is open: the role, and a link; to assert, also authority, no fault,
      and for a forced transfer no healthy utility unless that is overridden. */
  predicate SwitchOpen(a: Action, role: Role, assert_: bool, override: bool, s: Switch) {
    && (a == Test || a == Inhibit || a == ForceTransfer || a == BypassDelay)
    && (role == Admin || (role == Operator && a != ForceTransfer)) && s.comms != Lost
    && (assert_ || a == Test || a == BypassDelay
        ==> s.authoritative && !s.blockingFault
            && (a == ForceTransfer ==> override || s.normalAvailable != Some(true)))
  }

  /** The command that the switch's map has for an action. */
  predicate IsCommandFor(m: SwitchMap, a: Action, assert_: bool, command: Command) {
    if assert_ || a == Test || a == BypassDelay then a in m.asserts && m.asserts[a] == command
    else a in m.releases && m.releases[a] == command
  }

  /** What a write goes by: at the generator, its verb's own command with every gate open; at the
      switch, the action's asserting or releasing command with every gate open. */
  predicate Gated(m: Map, sm: SwitchMap, e: Entry) {
    e.Spent?
    ==> match e.use
        case Acknowledgement => e.verb == Some(Ack)
        case Generator(verb, role, s, readAt, command) =>
          && e.verb == Some(verb) && verb in m.commands && m.commands[verb] == command
          && readAt <= e.at && GeneratorOpen(m, verb, role, s, readAt)
        case Transferer(a, role, assert_, override, s, command) =>
          && e.verb == Some(a) && SwitchOpen(a, role, assert_, override, s)
          && IsCommandFor(sm, a, assert_, command)
  }

  ghost predicate Sound(m: Map, sm: SwitchMap, log: seq<Entry>) {
    forall j :: 0 <= j < |log| ==> Justified(log, j) && Gated(m, sm, log[j])
  }

  lemma {:induction false} SoundStep(m: Map, sm: SwitchMap, log: seq<Entry>, e: Entry)
    requires Sound(m, sm, log) && Gated(m, sm, e) && Justified(log + [e], |log|)
    ensures Sound(m, sm, log + [e])
  {
    var log' := log + [e];
    forall j | 0 <= j < |log'|
      ensures Justified(log', j) && Gated(m, sm, log'[j])
    {
      if j < |log| {
        assert log'[..j] == log[..j] && Justified(log, j);
      }
    }
  }

  lemma {:induction false} IssueKeeps(m: Map, sm: SwitchMap, l: Ledger, clock: real, e: Event)
    requires AllBacked(l, clock) && Sound(m, sm, l.log) && e.Issuing? && Enabled(l, e) && clock <= e.now
    ensures var l' := Apply(m, sm, l, e); AllBacked(l', e.at) && Sound(m, sm, l'.log)
  {
    var entry := Issued(e.token, e.operator, e.verb, e.at);
    var l' := Apply(m, sm, l, e);
    SoundStep(m, sm, l.log, entry);
    forall token | token in l'.tokens
      ensures Backed(l'.log, token, l'.tokens[token], e.at)
    {
      SourceStep(l.log, entry, token);
      if token != e.token {
        assert Backed(l.log, token, l.tokens[token], clock);
      }
    }
  }

  lemma {:induction false} SpendKeeps(m: Map, sm: SwitchMap, l: Ledger, clock: real, token: string, operator: string,
                                      verb: Action, now: real, later: real, use: Use)
    requires AllBacked(l, clock) && Sound(m, sm, l.log) && clock <= later
    requires Gated(m, sm, Spent(token, operator, Some(verb), later, use))
    ensures var l' := Spend(l, token, operator, Some(verb), now, later, use).ledger;
            AllBacked(l', later) && Sound(m, sm, l'.log)
  {
    var entry := Spent(token, operator, Some(verb), later, use);
    var l' := Spend(l, token, operator, Some(verb), now, later, use).ledger;
    if l'.log != l.log {
      assert Backed(l.log, token, l.tokens[token], clock);
      assert (l.log + [entry])[..|l.log|] == l.log;
      SoundStep(m, sm, l.log, entry);
    }
    forall t | t in l'.tokens
      ensures Backed(l'.log, t, l'.tokens[t], later)
    {
      assert Backed(l.log, t, l.tokens[t], clock);
      SourceStep(l.log, entry, t);
    }
  }

  lemma {:induction false} Weaken(l: Ledger, clock: real, later: real)
    requires AllBacked(l, clock) && clock <= later
    ensures AllBacked(l, later)
  {
    forall t | t in l.tokens
      ensures Backed(l.log, t, l.tokens[t], later)
    {
      assert Backed(l.log, t, l.tokens[t], clock);
    }
  }

  lemma {:induction false} StepKeeps(m: Map, sm: SwitchMap, l: Ledger, clock: real, e: Event)
    requires AllBacked(l, clock) && Sound(m, sm, l.log) && Enabled(l, e) && clock <= Begin(e)
    ensures var l' := Apply(m, sm, l, e); AllBacked(l', End(e)) && Sound(m, sm, l'.log)
  {
    Weaken(l, clock, End(e));
    match e
    case Issuing(_, _, _, _, _) => IssueKeeps(m, sm, l, clock, e);
    case Acking(token, operator, now, later) =>
      SpendKeeps(m, sm, l, clock, token, operator, Ack, now, later, Acknowledgement);
    case Commanding(verb, token, operator, role, s, readAt, now, later) =>
      if Refusal(m, verb, role, s, readAt).None? {
        SpendKeeps(m, sm, l, clock, token, operator, verb, now, later,
                   Generator(verb, role, s, readAt, m.commands[verb]));
      }
    case Switching(a, token, operator, role, assert_, override, s, now, later) =>
      if SwitchRefusal(sm, a, role, assert_, override, s).None? {
        SpendKeeps(m, sm, l, clock, token, operator, a, now, later,
                   Transferer(a, role, assert_, override, s, sm.Lookup(a, assert_).value));
      }
  }

  lemma {:induction false} RunKeeps(m: Map, sm: SwitchMap, es: seq<Event>)
    requires IsRun(m, sm, es)
    ensures var l := After(m, sm, es); Sound(m, sm, l.log) && (es != [] ==> AllBacked(l, End(es[|es| - 1])))
    decreases |es|
  {
    if es != [] {
      var n := |es| - 1;
      RunKeeps(m, sm, es[..n]);
      StepKeeps(m, sm, After(m, sm, es[..n]), if n > 0 then End(es[n - 1]) else Begin(es[n]), es[n]);
    }
  }

  /** The entry that issued the token of a use. */
  function IssueOf(log: seq<Entry>, j: nat): Option<nat>
    requires j < |log|
  {
    Source(log[..j], log[j].token)
  }

  lemma {:induction false} UnspentSince(log: seq<Entry>, token: string, k: nat)
    requires Source(log, token).Some? && Source(log, token).value < k < |log|
    ensures !(log[k].Spent? && log[k].token == token)
    decreases |log|
  {
    if k < |log| - 1 {
      UnspentSince(log[..|log| - 1], token, k);
    }
  }

  /** Every write and every acknowledgement, over any interleaving of both services, maps to an
      issue of its own: by the same operator, at most 30 seconds before, unbound or bound to that
      action. */
  lemma UsesMapToIssues(m: Map, sm: SwitchMap, es: seq<Event>, j: nat)
    requires IsRun(m, sm, es)
    requires j < |After(m, sm, es).log| && After(m, sm, es).log[j].Spent?
    ensures var log := After(m, sm, es).log; var i := IssueOf(log, j);
            && i.Some? && i.value < j && log[i.value].Issued? && log[i.value].token == log[j].token
            && log[i.value].operator == log[j].operator
            && log[i.value].at <= log[j].at <= log[i.value].at + 30.0
            && (log[i.value].verb.None? || log[i.value].verb == log[j].verb)
  {
    RunKeeps(m, sm, es);
    var log := After(m, sm, es).log;
    assert Justified(log, j);
    var i := IssueOf(log, j).value;
    assert log[..j][i] == log[i];
  }

  /** No two uses map to the same issue: a token is good for one write, to either device. */
  lemma UsesMapToDistinctIssues(log: seq<Entry>, j: nat, k: nat)
    requires j < k < |log| && log[j].Spent? && log[k].Spent?
    requires IssueOf(log, j).Some? && IssueOf(log, k).Some?
    ensures IssueOf(log, j) != IssueOf(log, k)
  {
    var i := IssueOf(log, j).value;
    assert log[..j][i] == log[i];
    if IssueOf(log, k) == Some(i) {
      assert log[..k][i] == log[i] && log[..k][j] == log[j];
      UnspentSince(log[..k], log[k].token, j);
    }
  }

  /** Every write passed its gates. */
  lemma WritesWereGated(m: Map, sm: SwitchMap, es: seq<Event>, j: nat)
    requires IsRun(m, sm, es) && j < |After(m, sm, es).log|
    ensures Gated(m, sm, After(m, sm, es).log[j])
  {
    RunKeeps(m, sm, es);
  }

  /** The event shows the token, past the gates. */
  predicate Shows(m: Map, sm: SwitchMap, e: Event, token: string) {
    match e
    case Issuing(_, _, _, _, _) => false
    case Acking(t, _, _, _) => t == token
    case Commanding(verb, t, _, role, s, readAt, _, _) => t == token && Refusal(m, verb, role, s, readAt).None?
    case Switching(a, t, _, role, assert_, override, s, _, _) =>
      t == token && SwitchRefusal(sm, a, role, assert_, override, s).None?
  }

  /** No use of the token from entry `k` of the log on. */
  predicate UnusedFrom(log: seq<Entry>, k: nat, token: string) {
    forall i :: k <= i < |log| ==> !(log[i].Spent? && log[i].token == token)
  }

  lemma GoneStep(m: Map, sm: SwitchMap, l: Ledger, e: Event, token: string)
    requires token !in l.tokens && !(e.Issuing? && e.token == token)
    ensures var l' := Apply(m, sm, l, e);
            token !in l'.tokens && l.log <= l'.log && UnusedFrom(l'.log, |l.log|, token)
  {
  }

  lemma ShownIsGone(m: Map, sm: SwitchMap, l: Ledger, e: Event, token: string)
    requires Shows(m, sm, e, token)
    ensures token !in Apply(m, sm, l, e).tokens
  {
  }

  lemma AfterLast(m: Map, sm: SwitchMap, head: seq<Event>, tail: seq<Event>, e: Event)
    ensures After(m, sm, head + (tail + [e])) == Apply(m, sm, After(m, sm, head + tail), e)
    ensures IsRun(m, sm, head + (tail + [e]))
            ==> IsRun(m, sm, head + tail) && Enabled(After(m, sm, head + tail), e)
                && (head + tail != [] ==> End((head + tail)[|head + tail| - 1]) <= Begin(e))
  {
    var all := head + (tail + [e]);
    assert all[..|all| - 1] == head + tail && all[|all| - 1] == e;
  }

  /** A token is shown once. After it has been shown past the gates, whether it was accepted,
      expired, another operator's or meant for another action, nothing uses it in any continuation
      in which the same text is not issued anew. */
  lemma {:induction false} TokenIsShownOnce(m: Map, sm: SwitchMap, before: seq<Event>, e: Event, after: seq<Event>,
                                            token: string)
    requires Shows(m, sm, e, token)
    requires forall i :: 0 <= i < |after| ==> !(after[i].Issuing? && after[i].token == token)
    ensures var k := |After(m, sm, before + [e]).log|;
            var l := After(m, sm, before + [e] + after);
            token !in l.tokens && k <= |l.log| && UnusedFrom(l.log, k, token)
    decreases |after|
  {
    var head := before + [e];
    if after == [] {
      assert before + ([] + [e]) == head && before + [] == before && head + after == head;
      AfterLast(m, sm, before, [], e);
      ShownIsGone(m, sm, After(m, sm, before), e, token);
    } else {
      var front, last := after[..|after| - 1], after[|after| - 1];
      assert after == front + [last];
      TokenIsShownOnce(m, sm, before, e, front, token);
      AfterLast(m, sm, head, front, last);
      GoneStep(m, sm, After(m, sm, head + front), last, token);
    }
  }

  /** Until then it works. The token stays as it was issued while its 30 seconds last and nobody
      shows it past the gates. */
  lemma {:induction false} TokenStays(m: Map, sm: SwitchMap, before: seq<Event>, e: Event, after: seq<Event>)
    requires e.Issuing? && IsRun(m, sm, before + [e] + after)
    requires forall i :: 0 <= i < |after| ==> !Shows(m, sm, after[i], e.token) && End(after[i]) <= e.at + 30.0
    ensures var l := After(m, sm, before + [e] + after);
            e.token in l.tokens && l.tokens[e.token] == Token(e.operator, e.at + 30.0, e.verb)
    decreases |after|
  {
    var head := before + [e];
    if after == [] {
      assert before + ([] + [e]) == head && before + [] == before && head + after == head;
      AfterLast(m, sm, before, [], e);
    } else {
      var front, last := after[..|after| - 1], after[|after| - 1];
      assert after == front + [last];
      AfterLast(m, sm, head, front, last);
      TokenStays(m, sm, before, e, front);
      StaysStep(m, sm, After(m, sm, head + front), last, e.token);
    }
  }

  lemma StaysStep(m: Map, sm: SwitchMap, l: Ledger, e: Event, token: string)
    requires token in l.tokens && Enabled(l, e) && !Shows(m, sm, e, token) && End(e) <= l.tokens[token].expires
    ensures var l' := Apply(m, sm, l, e); token in l'.tokens && l'.tokens[token] == l.tokens[token]
  {
    match e
    case Issuing(t, _, _, now, _) => assert token in Live(l.tokens, now) && t != token;
    case Acking(t, _, now, _) => assert token in Live(l.tokens, now);
    case Commanding(_, t, _, _, _, readAt, now, _) => assert token in Live(l.tokens, now);
    case Switching(_, t, _, _, _, _, _, now, _) => assert token in Live(l.tokens, now);
  }

  /** What such a token answers to a wrong use: another operator's and another action's are named
      as such, and after 30 seconds it has expired or is gone. */
  lemma IssuedTokenErrors(m: Map, sm: SwitchMap, before: seq<Event>, e: Event, after: seq<Event>, operator: string,
                          verb: Action, now: real, later: real, use: Use)
    requires e.Issuing? && IsRun(m, sm, before + [e] + after) && now <= later
    requires forall i :: 0 <= i < |after| ==> !Shows(m, sm, after[i], e.token) && End(after[i]) <= e.at + 30.0
    ensures var r := Spend(After(m, sm, before + [e] + after), e.token, operator, Some(verb), now, later, use);
            r.error == if now > e.at + 30.0 then Some(TokenInvalid)
                       else if later > e.at + 30.0 then Some(TokenExpired)
                       else if operator != e.operator then Some(TokenMismatch)
                       else if e.verb.Some? && e.verb != Some(verb) then Some(ActionMismatch)
                       else None
  {
    TokenStays(m, sm, before, e, after);
  }

  /** A refusal before the token is looked at names a gate that is closed. */
  lemma RefusalIsTrue(m: Map, verb: Action, role: Role, s: Snapshot, now: real)
    ensures match Refusal(m, verb, role, s, now)
            case None => verb in m.commands && GeneratorOpen(m, verb, role, s, now)
            case Some(Forbidden) => role != Operator && role != Admin
            case Some(UnknownVerb) => verb != Start && verb != Stop && verb != Exercise && verb != Transfer
            case Some(NoRegister) => verb !in m.commands
            case Some(CommsLost) => s.comms != Healthy
            case Some(StaleData) => !SourcesRecent(m, s, now)
            case Some(PanelLocked) => s.panel != Auto
            case Some(InvalidState) => s.engine == Unsure || (if verb == Stop then s.engine == Stopped
                                       else if verb == Transfer then s.engine != Running else s.engine != Stopped)
            case Some(_) => false
  {
  }

  /** The same at the switch. */
  lemma SwitchRefusalIsTrue(m: SwitchMap, a: Action, role: Role, assert_: bool, override: bool, s: Switch)
    ensures var asserts := assert_ || a == Test || a == BypassDelay;
            match SwitchRefusal(m, a, role, assert_, override, s)
            case None => SwitchOpen(a, role, assert_, override, s) && exists c :: IsCommandFor(m, a, assert_, c)
            case Some(UnknownVerb) => a != Test && a != Inhibit && a != ForceTransfer && a != BypassDelay
            case Some(Forbidden) => role != Admin && (role != Operator || a == ForceTransfer)
            case Some(CommsLost) => s.comms == Lost
            case Some(NotAuthoritative) => asserts && !s.authoritative
            case Some(Faulted) => asserts && s.blockingFault
            case Some(OverrideRequired) => asserts && a == ForceTransfer && !override && s.normalAvailable == Some(true)
            case Some(NoRegister) => !exists c :: IsCommandFor(m, a, assert_, c)
            case Some(_) => false
  {
    var c := m.Lookup(a, assert_);
    if c.Some? {
      assert IsCommand(a) ==> IsCommandFor(m, a, assert_, c.value);
    }
  }

  // ------------------------------------------------------------------------ one command at a time

  /** The writes to the two devices, in order. */
  function Writes(log: seq<Entry>, toSwitch: bool): seq<Command> {
    if log == [] then []
    else
      var n := |log| - 1;
      Writes(log[..n], toSwitch)
      + if log[n].Spent? && (if toSwitch then log[n].use.Transferer? else log[n].use.Generator?)
        then [log[n].use.command] else []
  }

  lemma {:induction false} WritesStep(log: seq<Entry>, e: Entry, toSwitch: bool)
    ensures Writes(log + [e], toSwitch)
            == Writes(log, toSwitch)
               + if e.Spent? && (if toSwitch then e.use.Transferer? else e.use.Generator?) then [e.use.command] else []
  {
    assert (log + [e])[..|log|] == log;
  }

  /** A token that would be accepted. */
  predicate Good(l: Ledger, token: string, operator: string, verb: Action, now: real, later: real) {
    && token in l.tokens
    && var t := l.tokens[token];
       t.expires >= now && t.expires >= later && t.operator == operator && (t.verb.None? || t.verb == Some(verb))
  }

  /** A command is written exactly when every gate is open and the token is good. A closed gate
      leaves the tokens as they are; past the gates the token is gone either way, so a token that
      was refused cannot be tried again. */
  lemma CommandWritesExactlyWhen(m: Map, l: Ledger, verb: Action, token: string, operator: string, role: Role,
                                 s: Snapshot, readAt: real, now: real, later: real)
    requires now <= later
    ensures var r := Execute(m, l, verb, token, operator, role, s, readAt, now, later);
            var open := verb in m.commands && GeneratorOpen(m, verb, role, s, readAt);
            && (r.error.None? <==> open && Good(l, token, operator, verb, now, later))
            && Writes(r.ledger.log, true) == Writes(l.log, true)
            && Writes(r.ledger.log, false)
               == Writes(l.log, false) + (if r.error.None? then [m.commands[verb]] else [])
            && (!open ==> r.ledger == l)
            && (open ==> token !in r.ledger.tokens)
  {
    var r := Execute(m, l, verb, token, operator, role, s, readAt, now, later);
    if r.error.None? {
      var entry := Spent(token, operator, Some(verb), later, Generator(verb, role, s, readAt, m.commands[verb]));
      WritesStep(l.log, entry, false);
      WritesStep(l.log, entry, true);
    }
  }

  /** Backing a maintained command out needs the role, a link, a register and a good token, and
      nothing else: neither a fault nor lost authority nor a healthy utility can stop it. Asserting
      needs all of that too. */
  lemma ReleaseIsNeverBlocked(m: SwitchMap, l: Ledger, a: Action, token: string, operator: string, role: Role,
                              assert_: bool, override: bool, s: Switch, now: real, later: real)
    requires Maintained(a) && now <= later
    ensures var r := ExecuteSwitch(m, l, a, token, operator, role, assert_, override, s, now, later);
            var able := && (role == Admin || (role == Operator && a != ForceTransfer)) && s.comms != Lost
                        && m.Lookup(a, assert_).Some? && Good(l, token, operator, a, now, later);
            && (!assert_ ==> (r.error.None? <==> able))
            && (assert_ ==> (r.error.None?
                             <==> able && s.authoritative && !s.blockingFault
                                  && (a == ForceTransfer ==> override || s.normalAvailable != Some(true))))
            && Writes(r.ledger.log, true)
               == Writes(l.log, true) + (if r.error.None? then [m.Lookup(a, assert_).value] else [])
  {
    var r := ExecuteSwitch(m, l, a, token, operator, role, assert_, override, s, now, later);
    if r.error.None? {
      var use := Transferer(a, role, assert_, override, s, m.Lookup(a, assert_).value);
      WritesStep(l.log, Spent(token, operator, Some(a), later, use), true);
    }
  }

  /** A token that was issued, is not thirty seconds old and has not been shown since lets its
      operator through: the command is written if and only if the gates are open. */
  lemma {:induction false} IssuedTokenCommands(
      m: Map, sm: SwitchMap, before: seq<Event>, e: Event, after: seq<Event>, verb: Action, role: Role, s: Snapshot,
      readAt: real, now: real, later: real)
    requires e.Issuing? && IsRun(m, sm, before + [e] + after) && (e.verb.None? || e.verb == Some(verb))
    requires forall i :: 0 <= i < |after| ==> !Shows(m, sm, after[i], e.token) && End(after[i]) <= e.at + 30.0
    requires now <= later <= e.at + 30.0
    ensures var l := After(m, sm, before + [e] + after);
            var r := Execute(m, l, verb, e.token, e.operator, role, s, readAt, now, later);
            && (r.error.None? <==> verb in m.commands && GeneratorOpen(m, verb, role, s, readAt))
            && (r.error.None? ==> Writes(r.ledger.log, false) == Writes(l.log, false) + [m.commands[verb]])
  {
    TokenStays(m, sm, before, e, after);
    CommandWritesExactlyWhen(m, After(m, sm, before + [e] + after), verb, e.token, e.operator, role, s, readAt, now,
                             later);
  }

  /** With such a token a maintained command can be backed out whatever the switch reports, as long
      as there is a link, a register and the role. */
  lemma IssuedTokenReleases(m: Map, sm: SwitchMap, before: seq<Event>, e: Event, after: seq<Event>, a: Action,
                            role: Role, override: bool, s: Switch, now: real, later: real)
    requires e.Issuing? && IsRun(m, sm, before + [e] + after) && (e.verb.None? || e.verb == Some(a))
    requires forall i :: 0 <= i < |after| ==> !Shows(m, sm, after[i], e.token) && End(after[i]) <= e.at + 30.0
    requires now <= later <= e.at + 30.0 && Maintained(a)
    ensures var l := After(m, sm, before + [e] + after);
            var r := ExecuteSwitch(sm, l, a, e.token, e.operator, role, false, override, s, now, later);
            && (r.error.None? <==> && (role == Admin || (role == Operator && a == Inhibit))
                                   && s.comms != Lost && a in sm.releases)
            && (r.error.None? ==> Writes(r.ledger.log, true) == Writes(l.log, true) + [sm.releases[a]])
  {
    TokenStays(m, sm, before, e, after);
    ReleaseIsNeverBlocked(sm, After(m, sm, before + [e] + after), a, e.token, e.operator, role, false, override, s,
                          now, later);
  }
}
