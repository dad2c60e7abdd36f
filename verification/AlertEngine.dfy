/** The alert engine: alert rows, its in-memory timing maps, and the API calls that
    change rules and rows between evaluations. */
module AlertEngine {
  import opened Basics

  /** The rule name of the built-in alert for stalled collection. */
  const STALLED := "collection-stalled"

  datatype Config = Config(resolveAfter: int, repeatInterval: int)

  datatype Rule = Rule(name: string, enabled: bool)

  /** A row of the alerts table.  It is active while resolvedAt is NULL. */
  datatype AlertRow = AlertRow(id: nat, ts: int, rule: string, severity: string, acked: bool, resolvedAt: Option<int>)

  /** What evaluating a rule said. */
  datatype Verdict = Breach(severity: string) | Healthy | NoData | Failed

  datatype Kind = Fire | Reminder | Resolve

  /** The history of a run. */
  datatype Entry =
    | Evaluated(rule: string, at: int, breach: bool)
    | Notified(id: nat, rule: string, kind: Kind, at: int)
    | Acked(id: nat)
    | Changed(rule: string)   // created, toggled, renamed (either name) or deleted
    | Restarted

  datatype State = State(
    rules: seq<Rule>,
    alerts: seq<AlertRow>,
    nextId: nat,
    clearSince: map<string, int>,
    lastNotified: map<string, int>,
    clock: int,
    log: seq<Entry>)

  // ---- Rows

  datatype Edit =
    | Acknowledge(id: nat)
    | SetSeverity(id: nat, severity: string)
    | SetResolved(id: nat, at: int)
    | SetRule(old_: string, new_: string)

  function EditRow(e: Edit, r: AlertRow): AlertRow {
    match e
    case Acknowledge(id) => if r.id == id then r.(acked := true) else r
    case SetSeverity(id, sev) => if r.id == id then r.(severity := sev) else r
    case SetResolved(id, at) => if r.id == id then r.(resolvedAt := Some(at)) else r
    case SetRule(o, n) => if r.rule == o then r.(rule := n) else r
  }

  function EditAll(e: Edit, s: seq<AlertRow>): seq<AlertRow> {
    if s == [] then [] else [EditRow(e, s[0])] + EditAll(e, s[1..])
  }

  /** DELETE FROM alerts WHERE id = ? */
  function WithoutId(s: seq<AlertRow>, id: nat): seq<AlertRow> {
    if s == [] then [] else (if s[0].id == id then [] else [s[0]]) + WithoutId(s[1..], id)
  }

  /** DELETE FROM alerts WHERE rule_name = ? */
  function WithoutRule(s: seq<AlertRow>, rule: string): seq<AlertRow> {
    if s == [] then [] else (if s[0].rule == rule then [] else [s[0]]) + WithoutRule(s[1..], rule)
  }

  /** The newest active row of a rule. */
  function ActiveRow(s: seq<AlertRow>, rule: string): (r: Option<AlertRow>)
    ensures r.Some? ==> r.value in s && r.value.rule == rule && r.value.resolvedAt.None?
    ensures r.None? ==> forall q :: q in s && q.rule == rule ==> q.resolvedAt.Some?
    ensures r.Some? ==> forall q :: q in s && q.rule == rule && q.resolvedAt.None? ==> q.ts <= r.value.ts
  {
    if s == [] then None
    else
      var rest := ActiveRow(s[1..], rule);
      assert s == [s[0]] + s[1..];
      if s[0].rule == rule && s[0].resolvedAt.None? && (rest.None? || rest.value.ts < s[0].ts) then Some(s[0])
      else rest
  }

  // ---- The engine

  function Log(s: State, e: Entry): State { s.(log := s.log + [e]) }

  function FireAlert(s: State, rule: string, severity: string, now: int): State {
    Log(s.(alerts := s.alerts + [AlertRow(s.nextId, now, rule, severity, false, None)],
           nextId := s.nextId + 1,
           lastNotified := s.lastNotified[rule := now]),
        Notified(s.nextId, rule, Fire, now))
  }

  function ResolveAlert(s: State, rule: string, row: AlertRow, now: int): State {
    Log(s.(alerts := EditAll(SetResolved(row.id, now), s.alerts),
           clearSince := s.clearSince - {rule},
           lastNotified := s.lastNotified - {rule}),
        Notified(row.id, rule, Resolve, now))
  }

  /** Clearing: resolve only once the rule has stayed healthy for resolveAfter. */
  function Settle(cfg: Config, s: State, rule: string, row: AlertRow, now: int): State {
    if cfg.resolveAfter > 0 && rule !in s.clearSince then s.(clearSince := s.clearSince[rule := now])
    else if cfg.resolveAfter > 0 && now - s.clearSince[rule] < cfg.resolveAfter then s
    else ResolveAlert(s, rule, row, now)
  }

  function CarrySeverity(s: State, severity: string, row: AlertRow): State {
    if severity != row.severity then s.(alerts := EditAll(SetSeverity(row.id, severity), s.alerts)) else s
  }

  /** Still firing: remind every repeatInterval until acknowledged. */
  function Remind(cfg: Config, s: State, rule: string, row: AlertRow, now: int): State {
    var last := if rule in s.lastNotified then s.lastNotified[rule] else row.ts;
    if cfg.repeatInterval <= 0 || row.acked || now - last < cfg.repeatInterval then s
    else Log(s.(lastNotified := s.lastNotified[rule := now]), Notified(row.id, rule, Reminder, now))
  }

  /** One rule's firing lifecycle; severity is None when it is not breaching. */
  function Apply(cfg: Config, s: State, rule: string, severity: Option<string>, now: int): State {
    var active := ActiveRow(s.alerts, rule);
    var s1 := if severity.Some? || active.None? then s.(clearSince := s.clearSince - {rule}) else s;
    if severity.Some? && active.None? then FireAlert(s1, rule, severity.value, now)
    else if severity.None? && active.Some? then Settle(cfg, s1, rule, active.value, now)
    else if severity.Some? && active.Some? then
      Remind(cfg, CarrySeverity(s1, severity.value, active.value), rule, active.value, now)
    else s1
  }

  /** One evaluation in a cycle. */
  function Evaluate(cfg: Config, s: State, rule: string, v: Verdict, now: int): State {
    var t := s.(clock := now);
    match v
    case Breach(sev) => Apply(cfg, Log(t, Evaluated(rule, now, true)), rule, Some(sev), now)
    case Healthy => Apply(cfg, Log(t, Evaluated(rule, now, false)), rule, None, now)
    case NoData => t
    case Failed => t
  }

  function EnabledNames(rules: seq<Rule>): set<string> { set r | r in rules && r.enabled :: r.name }

  function Names(rules: seq<Rule>): set<string> { set r | r in rules :: r.name }

  /** Forget the timing of rules that were not evaluated, except the built-in one. */
  function Purge(s: State): State {
    var keep := EnabledNames(s.rules) + {STALLED};
    s.(clearSince := map n | n in s.clearSince && n in keep :: s.clearSince[n],
       lastNotified := map n | n in s.lastNotified && n in keep :: s.lastNotified[n])
  }

  // ---- API calls and the daemon's life

  function RenameRule(rules: seq<Rule>, o: string, n: string): seq<Rule> {
    if rules == [] then []
    else [if rules[0].name == o then rules[0].(name := n) else rules[0]] + RenameRule(rules[1..], o, n)
  }

  function ToggleRule(rules: seq<Rule>, n: string): seq<Rule> {
    if rules == [] then []
    else [if rules[0].name == n then rules[0].(enabled := !rules[0].enabled) else rules[0]] + ToggleRule(rules[1..], n)
  }

  function DropRule(rules: seq<Rule>, n: string): seq<Rule> {
    if rules == [] then []
    else (if rules[0].name == n then [] else [rules[0]]) + DropRule(rules[1..], n)
  }

  datatype Event =
    | Evaluation(rule: string, verdict: Verdict, now: int)
    | EndOfCycle
    | Ack(id: nat)
    | Clear(id: nat)
    | Create(name: string)
    | Rename(from: string, to: string)
    | Delete(name: string)
    | Toggle(name: string)
    | Restart

  /** One event; one that the code rejects or that cannot happen changes nothing. */
  function Step(cfg: Config, s: State, e: Event): State {
    match e
    case Evaluation(rule, v, now) =>
      if now >= s.clock && (rule == STALLED || rule in EnabledNames(s.rules)) then Evaluate(cfg, s, rule, v, now) else s
    case EndOfCycle => Purge(s)
    case Ack(id) =>
      if exists r :: r in s.alerts && r.id == id then
        Log(s.(alerts := EditAll(Acknowledge(id), s.alerts)), Acked(id))
      else s
    case Clear(id) => s.(alerts := WithoutId(s.alerts, id))
    case Create(n) =>
      if n !in Names(s.rules) then Log(s.(rules := s.rules + [Rule(n, true)]), Changed(n)) else s
    case Rename(o, n) =>
      if o in Names(s.rules) && n !in Names(s.rules) then
        Log(Log(s.(rules := RenameRule(s.rules, o, n), alerts := EditAll(SetRule(o, n), s.alerts)), Changed(o)), Changed(n))
      else s
    case Delete(n) =>
      if n in Names(s.rules) then
        Log(s.(rules := DropRule(s.rules, n), alerts := WithoutRule(s.alerts, n)), Changed(n))
      else s
    case Toggle(n) =>
      if n in Names(s.rules) then Log(s.(rules := ToggleRule(s.rules, n)), Changed(n)) else s
    case Restart => Log(s.(clearSince := map[], lastNotified := map[]), Restarted)
  }

  function Run(cfg: Config, s: State, es: seq<Event>): State
    decreases |es|
  {
    if es == [] then s else Run(cfg, Step(cfg, s, es[0]), es[1..])
  }

  // ---- The engine as it runs

  /** The events of one cycle: every loaded rule, the purge, then the built-in alert. */
  function CycleEvents(loaded: seq<string>, verdicts: seq<Verdict>, stalled: Verdict, now: int): seq<Event>
    requires |verdicts| == |loaded|
  {
    seq(|loaded|, i requires 0 <= i < |loaded| => Evaluation(loaded[i], verdicts[i], now)) +
    [EndOfCycle, Evaluation(STALLED, stalled, now)]
  }

  lemma {:induction false} RunAppend(cfg: Config, s: State, a: seq<Event>, b: seq<Event>)
    ensures Run(cfg, s, a + b) == Run(cfg, Run(cfg, s, a), b)
    decreases |a|
  {
    if a == [] {
      assert a + b == b;
    } else {
      assert (a + b)[1..] == a[1..] + b;
      RunAppend(cfg, Step(cfg, s, a[0]), a[1..], b);
    }
  }

  lemma RunNext(cfg: Config, s: State, es: seq<Event>, i: nat)
    requires i < |es|
    ensures Run(cfg, s, es[..i + 1]) == Step(cfg, Run(cfg, s, es[..i]), es[i])
  {
    assert es[..i + 1] == es[..i] + [es[i]];
    RunAppend(cfg, s, es[..i], [es[i]]);
    assert [es[i]][1..] == [];
  }

  lemma {:induction false} EvaluationsKeepRules(cfg: Config, s: State, rule: string, v: Verdict, now: int)
    ensures Evaluate(cfg, s, rule, v, now).rules == s.rules
    ensures Evaluate(cfg, s, rule, v, now).clock == now
  {
  }

  class Engine {
    const cfg: Config
    var rules: seq<Rule>
    var alerts: seq<AlertRow>
    var nextId: nat
    var clearSince: map<string, int>
    var lastNotified: map<string, int>
    ghost var clock: int
    ghost var log: seq<Entry>

    ghost function Now(): State
      reads this
    {
      State(rules, alerts, nextId, clearSince, lastNotified, clock, log)
    }

    constructor (cfg: Config, rules: seq<Rule>, alerts: seq<AlertRow>, nextId: nat)
      ensures this.cfg == cfg && this.rules == rules && this.alerts == alerts && this.nextId == nextId
      ensures clearSince == map[] && lastNotified == map[]
    {
      this.cfg := cfg;
      this.rules, this.alerts, this.nextId := rules, alerts, nextId;
      clearSince, lastNotified := map[], map[];
      clock, log := 0, [];
    }

    /** Drive one rule's lifecycle on the alerts table. */
    method ApplyAlertState(rule: string, severity: Option<string>, now: int)
      modifies this
      ensures Now() == Apply(cfg, old(Now()), rule, severity, now)
    {
      var active := ActiveRow(alerts, rule);
      if severity.Some? || active.None? {
        clearSince := clearSince - {rule};
      }
      match (severity, active) {
        case (Some(sev), None) =>
          alerts := alerts + [AlertRow(nextId, now, rule, sev, false, None)];
          log := log + [Notified(nextId, rule, Fire, now)];
          nextId := nextId + 1;
          lastNotified := lastNotified[rule := now];
        case (None, Some(row)) =>
          if cfg.resolveAfter > 0 {
            if rule !in clearSince {
              clearSince := clearSince[rule := now];
              return;
            }
            if now - clearSince[rule] < cfg.resolveAfter {
              return;
            }
          }
          clearSince := clearSince - {rule};
          lastNotified := lastNotified - {rule};
          alerts := EditAll(SetResolved(row.id, now), alerts);
          log := log + [Notified(row.id, rule, Resolve, now)];
        case (Some(sev), Some(row)) =>
          if sev != row.severity {
            alerts := EditAll(SetSeverity(row.id, sev), alerts);
          }
          if cfg.repeatInterval <= 0 || row.acked {
            return;
          }
          var last := if rule in lastNotified then lastNotified[rule] else row.ts;
          if now - last < cfg.repeatInterval {
            return;
          }
          lastNotified := lastNotified[rule := now];
          log := log + [Notified(row.id, rule, Reminder, now)];
        case (None, None) =>
      }
    }

    /** One evaluation: no data or an error holds the rule's state. */
    method EvaluateRule(rule: string, verdict: Verdict, now: int)
      modifies this
      ensures Now() == Evaluate(cfg, old(Now()), rule, verdict, now)
    {
      clock := now;
      match verdict {
        case NoData =>
        case Failed =>
        case Breach(sev) =>
          log := log + [Evaluated(rule, now, true)];
          ApplyAlertState(rule, Some(sev), now);
        case Healthy =>
          log := log + [Evaluated(rule, now, false)];
          ApplyAlertState(rule, None, now);
      }
    }

    /** One cycle over the loaded (enabled) rules performs exactly its events. */
    method EvaluateCycle(loaded: seq<string>, verdicts: seq<Verdict>, stalled: Verdict, now: int)
      requires |verdicts| == |loaded| && clock <= now
      requires forall i :: 0 <= i < |loaded| ==> loaded[i] in EnabledNames(rules)
      requires forall n :: n in EnabledNames(rules) ==> n in loaded
      modifies this
      ensures Now() == Run(cfg, old(Now()), CycleEvents(loaded, verdicts, stalled, now))
    {
      ghost var es := CycleEvents(loaded, verdicts, stalled, now);
      ghost var start := Now();
      var seen: set<string> := {};
      for i := 0 to |loaded|
        invariant rules == old(rules) && clock <= now
        invariant seen == set n | n in loaded[..i]
        invariant Now() == Run(cfg, start, es[..i])
      {
        RunNext(cfg, start, es, i);
        EvaluationsKeepRules(cfg, Now(), loaded[i], verdicts[i], now);
        assert loaded[..i + 1] == loaded[..i] + [loaded[i]];
        seen := seen + {loaded[i]};
        EvaluateRule(loaded[i], verdicts[i], now);
      }
      ghost var n := |loaded|;
      assert loaded[..n] == loaded;
      forall m: string ensures m in seen <==> m in EnabledNames(rules) { }
      assert seen + {STALLED} == EnabledNames(rules) + {STALLED};
      clearSince := map m | m in clearSince && m in seen + {STALLED} :: clearSince[m];
      lastNotified := map m | m in lastNotified && m in seen + {STALLED} :: lastNotified[m];
      RunNext(cfg, start, es, n);
      assert Now() == Run(cfg, start, es[..n + 1]);
      EvaluationsKeepRules(cfg, Now(), STALLED, stalled, now);
      RunNext(cfg, start, es, n + 1);
      EvaluateRule(STALLED, stalled, now);
      assert es[..n + 2] == es;
    }
  }
}
