/** What the alert engine does not omit: when a reminder or an all-clear is due, it is sent. */
module AlertProgress {
  import opened Basics
  import opened AlertEngine
  import opened AlertLifecycle

  // ---- What one event leaves

  /** The rule can be evaluated next. */
  predicate Evaluable(s: State, rule: string, now: int) {
    now >= s.clock && (rule == STALLED || rule in EnabledNames(s.rules))
  }

  /** A row that is active after an event was active before, or fired now. */
  lemma StepRows(cfg: Config, s: State, e: Event, r: AlertRow)
    requires r in Step(cfg, s, e).alerts && r.resolvedAt.None?
    ensures r.id == s.nextId || exists q :: q in s.alerts && q.id == r.id && q.resolvedAt.None?
  {
    match e
    case Evaluation(rule, v, now) => EvaluationRows(cfg, s, rule, v, now, r);
    case Ack(id) => EditMember(Acknowledge(id), s.alerts, r);
    case Clear(id) => WithoutIdMember(s.alerts, id, r);
    case Rename(o, n) => EditMember(SetRule(o, n), s.alerts, r);
    case Delete(n) => WithoutRuleMember(s.alerts, n, r);
    case _ =>
  }

  lemma EvaluationRows(cfg: Config, s: State, rule: string, v: Verdict, now: int, r: AlertRow)
    requires r in Step(cfg, s, Evaluation(rule, v, now)).alerts && r.resolvedAt.None?
    ensures r.id == s.nextId || exists q :: q in s.alerts && q.id == r.id && q.resolvedAt.None?
  {
    var a := ActiveRow(s.alerts, rule);
    if a.Some? {
      EditMember(SetResolved(a.value.id, now), s.alerts, r);
      if v.Breach? { EditMember(SetSeverity(a.value.id, v.severity), s.alerts, r); }
    }
  }

  /** Entries are only added. */
  lemma StepLogs(cfg: Config, s: State, e: Event)
    ensures s.log <= Step(cfg, s, e).log
  {
    if e.Evaluation? && (e.verdict.Breach? || e.verdict.Healthy?) {
      var t := Log(s.(clock := e.now), Evaluated(e.rule, e.now, e.verdict.Breach?));
      var told := ApplyLogs(cfg, t, e.rule, if e.verdict.Breach? then Some(e.verdict.severity) else None, e.now);
    }
  }

  lemma QuietBefore(log: seq<Entry>, log': seq<Entry>, j: nat, rule: string)
    requires log <= log' && j < |log| && Quiet(log', j, rule)
    ensures Quiet(log, j, rule)
  {
    forall m | j < m < |log| ensures log[m] != Restarted && log[m] != Changed(rule) { assert log[m] == log'[m]; }
  }

  lemma CalmBefore(log: seq<Entry>, log': seq<Entry>, j: nat, rule: string)
    requires log <= log' && j < |log| && Calm(log', j, rule)
    ensures Calm(log, j, rule)
  {
    forall m | j < m < |log|
      ensures log[m] != Restarted && !(log[m].Evaluated? && log[m].rule == rule && log[m].breach)
    {
      assert log[m] == log'[m];
    }
  }

  // ---- The engine recalls the last notification of a row

  /** Entry `e` tells that row `id` fires, or still fires, under the name `rule`. */
  predicate Tells(e: Entry, id: nat, rule: string) {
    e.Notified? && e.id == id && e.rule == rule && e.kind != Resolve
  }

  ghost predicate ToldAt(log: seq<Entry>, id: nat, rule: string, at: int) {
    exists i :: 0 <= i < |log| && Tells(log[i], id, rule) && log[i].at == at
  }

  ghost predicate IsActive(s: State, id: nat) { exists r :: r in s.alerts && r.id == id && r.resolvedAt.None? }

  /** The time remembered for the rule of an active row is that of a notification of the row. */
  ghost predicate RecalledAt(s: State, j: nat)
    requires j < |s.log|
  {
    var e := s.log[j];
    e.Notified? && e.kind != Resolve && Quiet(s.log, j, e.rule) && IsActive(s, e.id) ==>
      e.rule in s.lastNotified && ToldAt(s.log, e.id, e.rule, s.lastNotified[e.rule])
  }

  ghost predicate Recalls(s: State) { forall j: nat :: j < |s.log| ==> RecalledAt(s, j) }

  /** What an event says about a firing row it remembers as well. */
  lemma NewTold(cfg: Config, s: State, e: Event, j: nat)
    requires |s.log| <= j < |Step(cfg, s, e).log|
    requires Step(cfg, s, e).log[j].Notified? && Step(cfg, s, e).log[j].kind != Resolve
    ensures var s' := Step(cfg, s, e);
            s'.log[j].rule in s'.lastNotified && s'.lastNotified[s'.log[j].rule] == s'.log[j].at
  {
    if e.Evaluation? { EvaluationTold(cfg, s, e.rule, e.verdict, e.now, j); } else { OthersTellNothing(cfg, s, e); }
  }

  lemma OthersTellNothing(cfg: Config, s: State, e: Event)
    requires !e.Evaluation?
    ensures forall j :: |s.log| <= j < |Step(cfg, s, e).log| ==> !Step(cfg, s, e).log[j].Notified?
  {
  }

  lemma EvaluationTold(cfg: Config, s: State, rule: string, v: Verdict, now: int, j: nat)
    requires |s.log| <= j < |Step(cfg, s, Evaluation(rule, v, now)).log|
    requires var told := Step(cfg, s, Evaluation(rule, v, now)).log[j]; told.Notified? && told.kind != Resolve
    ensures var s' := Step(cfg, s, Evaluation(rule, v, now));
            s'.log[j].rule in s'.lastNotified && s'.lastNotified[s'.log[j].rule] == s'.log[j].at
  {
  }

  /** The remembered time of an active row's rule changes only with a new notification. */
  lemma RecallChanges(cfg: Config, s: State, e: Event, row: AlertRow)
    requires Tables(s) && row in s.alerts && row.resolvedAt.None?
    requires row.rule in s.lastNotified && row.rule in Step(cfg, s, e).lastNotified
    ensures var s' := Step(cfg, s, e);
            || s'.lastNotified[row.rule] == s.lastNotified[row.rule]
            || ToldAt(s'.log, row.id, row.rule, s'.lastNotified[row.rule])
  {
    if e.Evaluation? {
      if e.verdict.Breach? && e.rule == row.rule && Evaluable(s, row.rule, e.now) {
        BreachRecalls(cfg, s, row, e.verdict.severity, e.now);
      } else if e.verdict.Healthy? || e.rule != row.rule {
        OthersRecalled(cfg, s, e.rule, e.verdict, e.now, row.rule);
      }
    }
  }

  lemma OthersRecalled(cfg: Config, s: State, n: string, v: Verdict, now: int, rule: string)
    requires v.Healthy? || n != rule
    requires rule in s.lastNotified && rule in Step(cfg, s, Evaluation(n, v, now)).lastNotified
    ensures Step(cfg, s, Evaluation(n, v, now)).lastNotified[rule] == s.lastNotified[rule]
  {
  }

  lemma BreachRecalls(cfg: Config, s: State, row: AlertRow, severity: string, now: int)
    requires Tables(s) && row in s.alerts && row.resolvedAt.None? && Evaluable(s, row.rule, now)
    requires row.rule in s.lastNotified
    ensures var s' := Step(cfg, s, Evaluation(row.rule, Breach(severity), now));
            && row.rule in s'.lastNotified
            && (s'.lastNotified[row.rule] == s.lastNotified[row.rule]
                || ToldAt(s'.log, row.id, row.rule, s'.lastNotified[row.rule]))
  {
    var s' := Step(cfg, s, Evaluation(row.rule, Breach(severity), now));
    var a := ActiveRow(s.alerts, row.rule);
    OrderedMembers(s.alerts, a.value, row);
    var t := CarrySeverity(Log(s.(clock := now), Evaluated(row.rule, now, true)).(clearSince := s.clearSince - {row.rule}), severity, row);
    assert s' == Remind(cfg, t, row.rule, row, now);
    if s' != t { assert Tells(s'.log[|s'.log| - 1], row.id, row.rule); }
  }

  lemma RecallStep(cfg: Config, s: State, e: Event)
    requires Inv(cfg, s) && NotReserved(e) && Recalls(s)
    ensures Recalls(Step(cfg, s, e))
  {
    var s' := Step(cfg, s, e);
    TimingStep(cfg, s, e);
    StepLogs(cfg, s, e);
    forall j: nat | j < |s'.log| ensures RecalledAt(s', j) {
      var told := s'.log[j];
      if told.Notified? && told.kind != Resolve && Quiet(s'.log, j, told.rule) && IsActive(s', told.id) {
        assert Memory(s', j);
        if j < |s.log| { OldRecalled(cfg, s, e, j); } else { NewTold(cfg, s, e, j); }
      }
    }
  }

  lemma OldRecalled(cfg: Config, s: State, e: Event, j: nat)
    requires Inv(cfg, s) && Recalls(s) && s.log <= Step(cfg, s, e).log && j < |s.log|
    requires var s', told := Step(cfg, s, e), s.log[j];
             && told.Notified? && told.kind != Resolve && Quiet(s'.log, j, told.rule)
             && IsActive(s', told.id) && told.rule in s'.lastNotified
    ensures RecalledAt(Step(cfg, s, e), j)
  {
    var s', told := Step(cfg, s, e), s.log[j];
    var r :| r in s'.alerts && r.id == told.id && r.resolvedAt.None?;
    assert Memory(s, j);
    StepRows(cfg, s, e, r);
    QuietBefore(s.log, s'.log, j, told.rule);
    var q :| q in s.alerts && q.id == told.id && q.resolvedAt.None?;
    assert TrackedAt(s, j);
    assert RecalledAt(s, j);
    var i :| 0 <= i < |s.log| && Tells(s.log[i], told.id, told.rule) && s.log[i].at == s.lastNotified[told.rule];
    assert s'.log[i] == s.log[i];
    RecallChanges(cfg, s, e, q);
  }

  lemma {:induction false} RunRecalls(cfg: Config, s: State, es: seq<Event>)
    requires Inv(cfg, s) && NoneReserved(es) && Recalls(s)
    ensures Recalls(Run(cfg, s, es))
    decreases |es|
  {
    if es != [] {
      assert es[0] in es;
      TablesStep(cfg, s, es[0]);
      TimingStep(cfg, s, es[0]);
      RecallStep(cfg, s, es[0]);
      RunRecalls(cfg, Step(cfg, s, es[0]), es[1..]);
    }
  }

  // ---- Reminders

  /** Since the row was told of under its rule's present name, the rule has not been changed
      nor the engine restarted. */
  ghost predicate Steady(log: seq<Entry>, row: AlertRow) {
    exists f: nat :: f < |log| && Tells(log[f], row.id, row.rule) && Quiet(log, f, row.rule)
  }

  /** All that was told of the row under this name is at least `interval` old. */
  ghost predicate AllOld(log: seq<Entry>, row: AlertRow, now: int, interval: int) {
    forall j :: 0 <= j < |log| && Tells(log[j], row.id, row.rule) ==> now - log[j].at >= interval
  }

  lemma LastIsOld(cfg: Config, s: State, row: AlertRow, now: int)
    requires Inv(cfg, s) && Recalls(s) && Chronicle(s.log, s.clock) && Steady(s.log, row)
    requires row in s.alerts && row.resolvedAt.None?
    ensures row.rule in s.lastNotified
    ensures AllOld(s.log, row, now, cfg.repeatInterval) <==> now - s.lastNotified[row.rule] >= cfg.repeatInterval
  {
    var f: nat :| f < |s.log| && Tells(s.log[f], row.id, row.rule) && Quiet(s.log, f, row.rule);
    assert IsActive(s, row.id);
    assert RecalledAt(s, f);
    assert Memory(s, f) && TrackedAt(s, f);
    forall j | 0 <= j < |s.log| && Tells(s.log[j], row.id, row.rule) ensures s.log[j].at <= s.lastNotified[row.rule] {
      assert Memory(s, j);
      if j > f { assert TrackedAt(s, j); }
    }
  }

  /** What a breach of a rule with an active row adds to the log. */
  lemma BreachLogs(cfg: Config, s: State, row: AlertRow, severity: string, now: int)
    requires Tables(s) && row in s.alerts && row.resolvedAt.None? && Evaluable(s, row.rule, now)
    ensures var last := if row.rule in s.lastNotified then s.lastNotified[row.rule] else row.ts;
            Step(cfg, s, Evaluation(row.rule, Breach(severity), now)).log ==
            s.log + [Evaluated(row.rule, now, true)] +
            if cfg.repeatInterval > 0 && !row.acked && now - last >= cfg.repeatInterval
            then [Notified(row.id, row.rule, Reminder, now)] else []
  {
    var a := ActiveRow(s.alerts, row.rule);
    OrderedMembers(s.alerts, a.value, row);
    assert s.log + [Evaluated(row.rule, now, true)] + [] == s.log + [Evaluated(row.rule, now, true)];
  }

  /** In every run: when the rule of an active row breaches, a reminder is sent exactly if a
      repeat interval is set, the row is not acknowledged, and all that was told of it is at
      least that old; the rule being unchanged within one engine lifetime. */
  lemma ReminderIff(cfg: Config, s0: State, es: seq<Event>, row: AlertRow, severity: string, now: int)
    requires Init(s0) && NoneReserved(es)
    requires var s := Run(cfg, s0, es);
             row in s.alerts && row.resolvedAt.None? && Steady(s.log, row) && Evaluable(s, row.rule, now)
    ensures var s := Run(cfg, s0, es);
            Step(cfg, s, Evaluation(row.rule, Breach(severity), now)).log ==
            s.log + [Evaluated(row.rule, now, true)] +
            if cfg.repeatInterval > 0 && !row.acked && AllOld(s.log, row, now, cfg.repeatInterval)
            then [Notified(row.id, row.rule, Reminder, now)] else []
  {
    var s := Run(cfg, s0, es);
    RunKeeps(cfg, s0, es);
    RunRecalls(cfg, s0, es);
    RunIsChronicle(cfg, s0, es);
    LastIsOld(cfg, s, row, now);
    BreachLogs(cfg, s, row, severity, now);
  }

  /** Entry `j` tells of `rule`, and the engine has not restarted since. */
  ghost predicate ToldSince(log: seq<Entry>, j: int, rule: string)
    requires 0 <= j < |log|
  {
    && log[j].Notified? && log[j].rule == rule && log[j].kind != Resolve
    && forall m :: j < m < |log| ==> log[m] != Restarted
  }

  /** Only this life's notifications are remembered. */
  ghost predicate OnlyTold(s: State) {
    forall n :: n in s.lastNotified ==> exists j :: 0 <= j < |s.log| && ToldSince(s.log, j, n)
  }

  lemma OnlyToldStep(cfg: Config, s: State, e: Event)
    requires OnlyTold(s)
    ensures OnlyTold(Step(cfg, s, e))
  {
    var s' := Step(cfg, s, e);
    StepLogs(cfg, s, e);
    forall n | n in s'.lastNotified ensures exists j :: 0 <= j < |s'.log| && ToldSince(s'.log, j, n) {
      if n in s.lastNotified {
        var j :| 0 <= j < |s.log| && ToldSince(s.log, j, n);
        OnlyRestartRestarts(cfg, s, e);
        assert s'.log[j] == s.log[j];
        assert ToldSince(s'.log, j, n);
      } else {
        NewlyTold(cfg, s, e, n);
      }
    }
  }

  lemma OnlyRestartRestarts(cfg: Config, s: State, e: Event)
    requires !e.Restart?
    ensures forall m :: |s.log| <= m < |Step(cfg, s, e).log| ==> Step(cfg, s, e).log[m] != Restarted
  {
    if e.Evaluation? { EvaluationRestartsNothing(cfg, s, e.rule, e.verdict, e.now); }
  }

  lemma EvaluationRestartsNothing(cfg: Config, s: State, rule: string, v: Verdict, now: int)
    ensures var log := Step(cfg, s, Evaluation(rule, v, now)).log;
            forall m :: |s.log| <= m < |log| ==> log[m] != Restarted
  {
    if v.Breach? || v.Healthy? {
      var t := Log(s.(clock := now), Evaluated(rule, now, v.Breach?));
      var told := ApplyLogs(cfg, t, rule, if v.Breach? then Some(v.severity) else None, now);
      forall j | 0 <= j < |told| ensures told[j] != Restarted { assert told[j] in told; }
    }
  }

  lemma NewlyTold(cfg: Config, s: State, e: Event, n: string)
    requires n in Step(cfg, s, e).lastNotified && n !in s.lastNotified
    ensures var log := Step(cfg, s, e).log;
            log != [] && ToldSince(log, |log| - 1, n)
  {
    if e.Evaluation? { ApplyTold(cfg, s, e.rule, e.verdict, e.now, n); }
  }

  lemma ApplyTold(cfg: Config, s: State, rule: string, v: Verdict, now: int, n: string)
    requires n in Step(cfg, s, Evaluation(rule, v, now)).lastNotified && n !in s.lastNotified
    ensures var log := Step(cfg, s, Evaluation(rule, v, now)).log;
            log != [] && ToldSince(log, |log| - 1, n)
  {
  }

  lemma {:induction false} RunOnlyTold(cfg: Config, s: State, es: seq<Event>)
    requires OnlyTold(s)
    ensures OnlyTold(Run(cfg, s, es))
    decreases |es|
  {
    if es != [] {
      OnlyToldStep(cfg, s, es[0]);
      RunOnlyTold(cfg, Step(cfg, s, es[0]), es[1..]);
    }
  }

  /** While nothing has been told of the rule since the engine started, the first reminder is
      due repeatInterval after the row fired. */
  lemma ReminderAfterRestartIff(cfg: Config, s0: State, es: seq<Event>, row: AlertRow, severity: string, now: int)
    requires Init(s0) && NoneReserved(es)
    requires var s := Run(cfg, s0, es);
             && row in s.alerts && row.resolvedAt.None? && Evaluable(s, row.rule, now)
             && forall j :: 0 <= j < |s.log| ==> !ToldSince(s.log, j, row.rule)
    ensures var s := Run(cfg, s0, es);
            Step(cfg, s, Evaluation(row.rule, Breach(severity), now)).log ==
            s.log + [Evaluated(row.rule, now, true)] +
            if cfg.repeatInterval > 0 && !row.acked && now - row.ts >= cfg.repeatInterval
            then [Notified(row.id, row.rule, Reminder, now)] else []
  {
    RunKeeps(cfg, s0, es);
    RunOnlyTold(cfg, s0, es);
    BreachLogs(cfg, Run(cfg, s0, es), row, severity, now);
  }

  // ---- All-clears

  /** A rule with an active row that was healthy at entry `j` is clearing since then at the
      latest. */
  ghost predicate ClearingAt(cfg: Config, s: State, j: nat)
    requires j < |s.log|
  {
    var e := s.log[j];
    e.Evaluated? && Quiet(s.log, j, e.rule) ==>
      && (e.rule in EnabledNames(s.rules) || e.rule == STALLED)
      && (!e.breach && Calm(s.log, j, e.rule) && cfg.resolveAfter > 0 && Fires(s, e.rule) ==>
            e.rule in s.clearSince && s.clearSince[e.rule] <= e.at)
  }

  ghost predicate Fires(s: State, rule: string) { exists r :: r in s.alerts && r.rule == rule && r.resolvedAt.None? }

  ghost predicate Clearing(cfg: Config, s: State) { forall j: nat :: j < |s.log| ==> ClearingAt(cfg, s, j) }

  /** Unless a rule breaches or changes, it has an active row after an event only if it had one. */
  lemma StepFires(cfg: Config, s: State, e: Event, rule: string, j: nat)
    requires Fires(Step(cfg, s, e), rule) && j < |s.log|
    requires Quiet(Step(cfg, s, e).log, j, rule) && Calm(Step(cfg, s, e).log, j, rule)
    ensures Fires(s, rule)
  {
    var s' := Step(cfg, s, e);
    var r :| r in s'.alerts && r.rule == rule && r.resolvedAt.None?;
    match e
    case Evaluation(n, v, now) => EvaluationFires(cfg, s, n, v, now, r, j);
    case Ack(id) => EditMember(Acknowledge(id), s.alerts, r);
    case Clear(id) => WithoutIdMember(s.alerts, id, r);
    case Rename(o, n) =>
      EditMember(SetRule(o, n), s.alerts, r);
      if o in Names(s.rules) && n !in Names(s.rules) { assert s'.log[|s.log| + 1] == Changed(n); }
    case Delete(n) => WithoutRuleMember(s.alerts, n, r);
    case _ =>
  }

  lemma EvaluationFires(cfg: Config, s: State, n: string, v: Verdict, now: int, r: AlertRow, j: nat)
    requires var s' := Step(cfg, s, Evaluation(n, v, now));
             r in s'.alerts && r.resolvedAt.None? && j < |s.log| && Calm(s'.log, j, r.rule)
    ensures Fires(s, r.rule)
  {
    var s' := Step(cfg, s, Evaluation(n, v, now));
    var a := ActiveRow(s.alerts, n);
    if a.Some? {
      EditMember(SetResolved(a.value.id, now), s.alerts, r);
      if v.Breach? { EditMember(SetSeverity(a.value.id, v.severity), s.alerts, r); }
    } else if v.Breach? && Evaluable(s, n, now) {
      BreachIsLogged(cfg, s, n, v.severity, now);
    }
  }

  /** The rule keeps being evaluated. */
  lemma StaysEnabled(cfg: Config, s: State, e: Event, rule: string, j: nat)
    requires rule in EnabledNames(s.rules) && j < |s.log| && Quiet(Step(cfg, s, e).log, j, rule)
    ensures rule in EnabledNames(Step(cfg, s, e).rules)
  {
    var log := Step(cfg, s, e).log;
    match e
    case Evaluation(n, v, now) => EvaluationsKeepRules(cfg, s, n, v, now);
    case Rename(o, n) =>
      if o in Names(s.rules) && n !in Names(s.rules) {
        assert log[|s.log|] == Changed(o) && log[|s.log| + 1] == Changed(n);
        RenameRuleNames(s.rules, o, n, rule);
      }
    case Delete(n) =>
      if n in Names(s.rules) {
        assert log[|s.log|] == Changed(n);
        DropMembers(s.rules, n, rule);
      }
    case Toggle(n) =>
      if n in Names(s.rules) {
        assert log[|s.log|] == Changed(n);
        ToggleMembers(s.rules, n, rule);
      }
    case _ =>
  }

  /** A clear period is over. */
  predicate ClearedBy(cfg: Config, s: State, rule: string, now: int) {
    cfg.resolveAfter <= 0 || (rule in s.clearSince && now - s.clearSince[rule] >= cfg.resolveAfter)
  }

  /** What a healthy evaluation does to a rule with an active row. */
  lemma HealthyDoes(cfg: Config, s: State, row: AlertRow, now: int)
    requires Tables(s) && row in s.alerts && row.resolvedAt.None? && Evaluable(s, row.rule, now)
    ensures var s', over := Step(cfg, s, Evaluation(row.rule, Healthy, now)), ClearedBy(cfg, s, row.rule, now);
            && s'.log == s.log + [Evaluated(row.rule, now, false)] + (if over then [Notified(row.id, row.rule, Resolve, now)] else [])
            && s'.alerts == (if over then EditAll(SetResolved(row.id, now), s.alerts) else s.alerts)
            && (!over ==> s'.clearSince == if row.rule in s.clearSince then s.clearSince else s.clearSince[row.rule := now])
  {
    var a := ActiveRow(s.alerts, row.rule);
    OrderedMembers(s.alerts, a.value, row);
    var t := Log(s.(clock := now), Evaluated(row.rule, now, false));
    assert Step(cfg, s, Evaluation(row.rule, Healthy, now)) == Settle(cfg, t, row.rule, row, now);
    assert t.log + [] == t.log;
  }

  /** Once resolved, no row of the rule is active. */
  lemma ResolvedNoMore(s: State, row: AlertRow, now: int)
    requires Tables(s) && row in s.alerts && row.resolvedAt.None?
    ensures forall r :: r in EditAll(SetResolved(row.id, now), s.alerts) && r.rule == row.rule ==> r.resolvedAt.Some?
  {
    var edit := SetResolved(row.id, now);
    forall r | r in EditAll(edit, s.alerts) && r.rule == row.rule ensures r.resolvedAt.Some? {
      EditMember(edit, s.alerts, r);
      var q :| q in s.alerts && r == EditRow(edit, q);
      OrderedMembers(s.alerts, q, row);
    }
  }

  /** A healthy evaluation that leaves the row active keeps or starts the clear period. */
  lemma HealthyKeepsClearing(cfg: Config, s: State, rule: string, now: int)
    requires Tables(s) && Fires(s, rule) && Evaluable(s, rule, now)
    requires Fires(Step(cfg, s, Evaluation(rule, Healthy, now)), rule)
    ensures var s' := Step(cfg, s, Evaluation(rule, Healthy, now));
            rule in s'.clearSince && s'.clearSince[rule] == if rule in s.clearSince then s.clearSince[rule] else now
  {
    var row :| row in s.alerts && row.rule == rule && row.resolvedAt.None?;
    HealthyDoes(cfg, s, row, now);
    ResolvedNoMore(s, row, now);
  }

  /** An evaluation of another rule, or one without an outcome, leaves the clear period. */
  lemma OtherKeepsClearing(cfg: Config, s: State, n: string, v: Verdict, now: int, rule: string)
    requires n != rule || v.NoData? || v.Failed?
    ensures var s' := Step(cfg, s, Evaluation(n, v, now));
            && (rule in s'.clearSince <==> rule in s.clearSince)
            && (rule in s.clearSince ==> s'.clearSince[rule] == s.clearSince[rule])
  {
  }

  /** While its row stays active, a clearing rule keeps the start of its clear period. */
  lemma KeepsClearing(cfg: Config, s: State, e: Event, rule: string, j: nat)
    requires Tables(s) && rule in s.clearSince && Fires(s, rule) && Fires(Step(cfg, s, e), rule)
    requires rule in EnabledNames(s.rules) || rule == STALLED
    requires j < |s.log| && Calm(Step(cfg, s, e).log, j, rule)
    ensures var s' := Step(cfg, s, e);
            rule in s'.clearSince && s'.clearSince[rule] == s.clearSince[rule]
  {
    var s' := Step(cfg, s, e);
    RestartIsLogged(cfg, s);
    if e.Evaluation? {
      if e.rule == rule && e.now >= s.clock && e.verdict.Healthy? {
        HealthyKeepsClearing(cfg, s, rule, e.now);
      } else if e.rule == rule && e.now >= s.clock && e.verdict.Breach? {
        BreachIsLogged(cfg, s, rule, e.verdict.severity, e.now);
      } else {
        if e.now >= s.clock { OtherKeepsClearing(cfg, s, e.rule, e.verdict, e.now, rule); }
      }
    }
  }

  lemma RestartIsLogged(cfg: Config, s: State)
    ensures var log := Step(cfg, s, Restart).log;
            |log| > |s.log| && log[|s.log|] == Restarted
  {
  }

  lemma BreachIsLogged(cfg: Config, s: State, rule: string, severity: string, now: int)
    requires Evaluable(s, rule, now)
    ensures var log := Step(cfg, s, Evaluation(rule, Breach(severity), now)).log;
            |log| > |s.log| && log[|s.log|] == Evaluated(rule, now, true)
  {
  }

  lemma HealthyFires(cfg: Config, s: State, rule: string, now: int)
    requires Fires(Step(cfg, s, Evaluation(rule, Healthy, now)), rule)
    ensures Fires(s, rule)
  {
    if ActiveRow(s.alerts, rule).None? { HealthyIdle(cfg, s, rule, now); }
  }

  lemma HealthyIdle(cfg: Config, s: State, rule: string, now: int)
    requires ActiveRow(s.alerts, rule).None?
    ensures Step(cfg, s, Evaluation(rule, Healthy, now)).alerts == s.alerts
  {
  }

  /** Entries of evaluations are of the event's own. */
  lemma NewEvaluated(cfg: Config, s: State, e: Event, j: nat)
    requires |s.log| <= j < |Step(cfg, s, e).log| && Step(cfg, s, e).log[j].Evaluated?
    ensures e.Evaluation? && Evaluable(s, e.rule, e.now)
    ensures Step(cfg, s, e).log[j] == Evaluated(e.rule, e.now, e.verdict.Breach?) && !e.verdict.NoData? && !e.verdict.Failed?
  {
    if e.Evaluation? { LaterAreTold(cfg, s, e.rule, e.verdict, e.now); }
  }

  lemma LaterAreTold(cfg: Config, s: State, rule: string, v: Verdict, now: int)
    ensures var log := Step(cfg, s, Evaluation(rule, v, now)).log;
            forall j :: |s.log| < j < |log| ==> log[j].Notified?
  {
    if v.Breach? || v.Healthy? {
      var t := Log(s.(clock := now), Evaluated(rule, now, v.Breach?));
      var told := ApplyLogs(cfg, t, rule, if v.Breach? then Some(v.severity) else None, now);
      forall j | 0 <= j < |told| ensures told[j].Notified? { assert told[j] in told; }
    }
  }

  lemma OldClearing(cfg: Config, s: State, e: Event, j: nat)
    requires Tables(s) && Clearing(cfg, s) && s.log <= Step(cfg, s, e).log && j < |s.log|
    ensures ClearingAt(cfg, Step(cfg, s, e), j)
  {
    var s', seen := Step(cfg, s, e), s.log[j];
    assert s'.log[j] == seen;
    if seen.Evaluated? && Quiet(s'.log, j, seen.rule) {
      QuietBefore(s.log, s'.log, j, seen.rule);
      assert ClearingAt(cfg, s, j);
      if seen.rule in EnabledNames(s.rules) { StaysEnabled(cfg, s, e, seen.rule, j); }
      if !seen.breach && Calm(s'.log, j, seen.rule) && cfg.resolveAfter > 0 && Fires(s', seen.rule) {
        StepFires(cfg, s, e, seen.rule, j);
        CalmBefore(s.log, s'.log, j, seen.rule);
        KeepsClearing(cfg, s, e, seen.rule, j);
      }
    }
  }

  lemma NewClearing(cfg: Config, s: State, e: Event, j: nat)
    requires Inv(cfg, s) && Chronicle(s.log, s.clock)
    requires |s.log| <= j < |Step(cfg, s, e).log|
    ensures ClearingAt(cfg, Step(cfg, s, e), j)
  {
    var s' := Step(cfg, s, e);
    if s'.log[j].Evaluated? {
      NewEvaluated(cfg, s, e, j);
      EvaluationsKeepRules(cfg, s, e.rule, e.verdict, e.now);
      if e.verdict.Healthy? && Fires(s', e.rule) {
        HealthyFires(cfg, s, e.rule, e.now);
        HealthyKeepsClearing(cfg, s, e.rule, e.now);
        if e.rule in s.clearSince { assert HealthySince(s.log, e.rule, s.clearSince[e.rule]); }
      }
    }
  }

  lemma {:induction false} RunClearing(cfg: Config, s: State, es: seq<Event>)
    requires Inv(cfg, s) && NoneReserved(es) && Clearing(cfg, s) && Chronicle(s.log, s.clock)
    ensures Clearing(cfg, Run(cfg, s, es))
    decreases |es|
  {
    if es != [] {
      var e, s' := es[0], Step(cfg, s, es[0]);
      assert e in es;
      StepLogs(cfg, s, e);
      forall j: nat | j < |s'.log| ensures ClearingAt(cfg, s', j) {
        if j < |s.log| { OldClearing(cfg, s, e, j); } else { NewClearing(cfg, s, e, j); }
      }
      TablesStep(cfg, s, e);
      TimingStep(cfg, s, e);
      ChronicleStep(cfg, s, e);
      RunClearing(cfg, s', es[1..]);
    }
  }

  /** Some healthy evaluation, with no breach and no restart since, is `span` old. */
  ghost predicate HealthyFor(log: seq<Entry>, rule: string, now: int, span: int) {
    exists t :: HealthySince(log, rule, t) && now - t >= span
  }

  lemma ClearedIff(cfg: Config, s: State, row: AlertRow, now: int)
    requires Inv(cfg, s) && Clearing(cfg, s) && Chronicle(s.log, s.clock)
    requires row in s.alerts && row.resolvedAt.None? && Steady(s.log, row) && cfg.resolveAfter > 0
    ensures ClearedBy(cfg, s, row.rule, now) <==> HealthyFor(s.log, row.rule, now, cfg.resolveAfter)
  {
    var f: nat :| f < |s.log| && Tells(s.log[f], row.id, row.rule) && Quiet(s.log, f, row.rule);
    forall t | HealthySince(s.log, row.rule, t) ensures row.rule in s.clearSince && s.clearSince[row.rule] <= t {
      var i: nat :| i < |s.log| && s.log[i] == Evaluated(row.rule, t, false) && Calm(s.log, i, row.rule);
      assert FollowsBreach(s.log, f);
      assert i > f - 1;
      assert Quiet(s.log, i, row.rule);
      assert Fires(s, row.rule);
      assert ClearingAt(cfg, s, i);
    }
  }

  /** In every run: when the rule of an active row is healthy, the row is resolved and the
      all-clear sent exactly if there is no clear period or the rule has been healthy for as
      long, judged by its evaluations; the rule being unchanged within one engine lifetime. */
  lemma ResolveIff(cfg: Config, s0: State, es: seq<Event>, row: AlertRow, now: int)
    requires Init(s0) && NoneReserved(es)
    requires var s := Run(cfg, s0, es);
             row in s.alerts && row.resolvedAt.None? && Steady(s.log, row) && Evaluable(s, row.rule, now)
    ensures var s := Run(cfg, s0, es);
            var s' := Step(cfg, s, Evaluation(row.rule, Healthy, now));
            var over := cfg.resolveAfter <= 0 || HealthyFor(s.log, row.rule, now, cfg.resolveAfter);
            && s'.log == s.log + [Evaluated(row.rule, now, false)] + (if over then [Notified(row.id, row.rule, Resolve, now)] else [])
            && (if over then row.(resolvedAt := Some(now)) in s'.alerts && !Fires(s', row.rule) else s'.alerts == s.alerts)
  {
    var s := Run(cfg, s0, es);
    RunKeeps(cfg, s0, es);
    RunIsChronicle(cfg, s0, es);
    RunClearing(cfg, s0, es);
    if cfg.resolveAfter > 0 { ClearedIff(cfg, s, row, now); }
    HealthyDoes(cfg, s, row, now);
    ResolvedNoMore(s, row, now);
    EditMember(SetResolved(row.id, now), s.alerts, row);
  }

  // ---- Rows

  lemma {:induction false} EditAt(e: Edit, s: seq<AlertRow>, i: nat)
    requires i < |s|
    ensures |EditAll(e, s)| == |s| && EditAll(e, s)[i] == EditRow(e, s[i])
    decreases |s|
  {
    if i > 0 {
      EditAt(e, s[1..], i - 1);
    } else if |s| > 1 {
      EditAt(e, s[1..], 0);
    }
  }

  /** An edit by id changes the one row of that id. */
  lemma EditOne(e: Edit, s: seq<AlertRow>, i: nat)
    requires Ordered(s) && i < |s| && !e.SetRule? && e.id == s[i].id
    ensures EditAll(e, s) == s[i := EditRow(e, s[i])]
  {
    EditAt(e, s, i);
    forall k | 0 <= k < |s| ensures EditAll(e, s)[k] == s[i := EditRow(e, s[i])][k] {
      EditAt(e, s, k);
      if k < i { OrderedAt(s, k, i); } else if k > i { OrderedAt(s, i, k); }
    }
  }

  /** A breach without an active row fires: one row is added and told of, under a new id, and
      the spacing of reminders starts. */
  lemma BreachFires(cfg: Config, s0: State, es: seq<Event>, rule: string, severity: string, now: int)
    requires Init(s0) && NoneReserved(es)
    requires var s := Run(cfg, s0, es); !Fires(s, rule) && Evaluable(s, rule, now)
    ensures var s := Run(cfg, s0, es);
            var s' := Step(cfg, s, Evaluation(rule, Breach(severity), now));
            exists id: nat ::
              && (forall r :: r in s.alerts ==> r.id < id)
              && s'.alerts == s.alerts + [AlertRow(id, now, rule, severity, false, None)]
              && s'.log == s.log + [Evaluated(rule, now, true), Notified(id, rule, Fire, now)]
              && Steady(s'.log, AlertRow(id, now, rule, severity, false, None))
  {
    var s := Run(cfg, s0, es);
    RunKeeps(cfg, s0, es);
    forall r | r in s.alerts ensures r.id < s.nextId { assert RowOk(s, r); }
    FiresNow(cfg, s, rule, severity, now);
  }

  lemma FiresNow(cfg: Config, s: State, rule: string, severity: string, now: int)
    requires !Fires(s, rule) && Evaluable(s, rule, now)
    ensures var s', row := Step(cfg, s, Evaluation(rule, Breach(severity), now)), AlertRow(s.nextId, now, rule, severity, false, None);
            && s'.alerts == s.alerts + [row] && Steady(s'.log, row)
            && s'.log == s.log + [Evaluated(rule, now, true), Notified(s.nextId, rule, Fire, now)]
  {
    var s' := Step(cfg, s, Evaluation(rule, Breach(severity), now));
    assert s'.log == s.log + [Evaluated(rule, now, true), Notified(s.nextId, rule, Fire, now)];
    assert Tells(s'.log[|s.log| + 1], s.nextId, rule) && Quiet(s'.log, |s.log| + 1, rule);
  }

  lemma BreachAlerts(cfg: Config, s: State, row: AlertRow, severity: string, now: int)
    requires Tables(s) && row in s.alerts && row.resolvedAt.None? && Evaluable(s, row.rule, now)
    ensures Step(cfg, s, Evaluation(row.rule, Breach(severity), now)).alerts ==
            if severity != row.severity then EditAll(SetSeverity(row.id, severity), s.alerts) else s.alerts
  {
    var a := ActiveRow(s.alerts, row.rule);
    OrderedMembers(s.alerts, a.value, row);
  }

  /** A breach with an active row, whether or not it reminds, gives that row the breach's
      severity and leaves all else of the table as it was. */
  lemma BreachCarriesSeverity(cfg: Config, s0: State, es: seq<Event>, i: nat, severity: string, now: int)
    requires Init(s0) && NoneReserved(es)
    requires var s := Run(cfg, s0, es);
             i < |s.alerts| && s.alerts[i].resolvedAt.None? && Evaluable(s, s.alerts[i].rule, now)
    ensures var s := Run(cfg, s0, es);
            Step(cfg, s, Evaluation(s.alerts[i].rule, Breach(severity), now)).alerts ==
            s.alerts[i := s.alerts[i].(severity := severity)]
  {
    var s := Run(cfg, s0, es);
    RunKeeps(cfg, s0, es);
    CarriedAt(cfg, s, i, severity, now);
  }

  lemma CarriedAt(cfg: Config, s: State, i: nat, severity: string, now: int)
    requires Tables(s) && i < |s.alerts| && s.alerts[i].resolvedAt.None? && Evaluable(s, s.alerts[i].rule, now)
    ensures Step(cfg, s, Evaluation(s.alerts[i].rule, Breach(severity), now)).alerts ==
            s.alerts[i := s.alerts[i].(severity := severity)]
  {
    var row := s.alerts[i];
    BreachAlerts(cfg, s, row, severity, now);
    if severity == row.severity {
      assert s.alerts[i := row.(severity := severity)] == s.alerts;
    } else {
      EditOne(SetSeverity(row.id, severity), s.alerts, i);
    }
  }

  // ---- Forgetting

  ghost predicate TimesWithin(s: State, names: set<string>) {
    s.clearSince.Keys <= names && s.lastNotified.Keys <= names
  }

  lemma StalledWithin(cfg: Config, s: State, v: Verdict, now: int)
    requires TimesWithin(s, EnabledNames(s.rules) + {STALLED})
    ensures var s' := Step(cfg, s, Evaluation(STALLED, v, now));
            s'.rules == s.rules && TimesWithin(s', EnabledNames(s.rules) + {STALLED})
  {
    EvaluationsKeepRules(cfg, s, STALLED, v, now);
  }

  lemma {:induction false} EvaluationsKeepAllRules(cfg: Config, s: State, es: seq<Event>)
    requires forall e :: e in es ==> e.Evaluation?
    ensures Run(cfg, s, es).rules == s.rules
    decreases |es|
  {
    if es != [] {
      assert es[0] in es;
      EvaluationsKeepRules(cfg, s, es[0].rule, es[0].verdict, es[0].now);
      EvaluationsKeepAllRules(cfg, Step(cfg, s, es[0]), es[1..]);
    }
  }

  /** A cycle ends with times of enabled rules and the built-in one alone: a rule disabled or
      deleted and made again starts afresh. */
  lemma CycleForgets(cfg: Config, s: State, loaded: seq<string>, verdicts: seq<Verdict>, stalled: Verdict, now: int)
    requires |verdicts| == |loaded|
    ensures var s' := Run(cfg, s, CycleEvents(loaded, verdicts, stalled, now));
            s'.rules == s.rules && TimesWithin(s', EnabledNames(s.rules) + {STALLED})
  {
    var n, es := |loaded|, CycleEvents(loaded, verdicts, stalled, now);
    EvaluationsKeepAllRules(cfg, s, es[..n]);
    RunNext(cfg, s, es, n);
    RunNext(cfg, s, es, n + 1);
    assert es[..n + 2] == es;
    StalledWithin(cfg, Run(cfg, s, es[..n + 1]), stalled, now);
  }

  // ---- API calls

  /** Clearing an alert removes its row and no other. */
  lemma ClearIs(cfg: Config, s: State, id: nat, r: AlertRow)
    ensures r in Step(cfg, s, Clear(id)).alerts <==> r in s.alerts && r.id != id
  {
    WithoutIdMember(s.alerts, id, r);
  }

  /** Acknowledging marks the row of that id and no other. */
  lemma AckIs(cfg: Config, s: State, i: nat)
    requires Ordered(s.alerts) && i < |s.alerts|
    ensures Step(cfg, s, Ack(s.alerts[i].id)).alerts == s.alerts[i := s.alerts[i].(acked := true)]
  {
    EditOne(Acknowledge(s.alerts[i].id), s.alerts, i);
  }

  /** Toggling a rule flips its flag and no other's. */
  lemma {:induction false} ToggleIs(rules: seq<Rule>, n: string, m: string)
    requires DistinctRules(rules)
    ensures m in Names(rules) ==>
              (m in EnabledNames(ToggleRule(rules, n)) <==> (m in EnabledNames(rules)) != (m == n))
  {
    if rules != [] {
      var t := ToggleRule(rules, n);
      assert t[1..] == ToggleRule(rules[1..], n);
      HeadNames(rules, m);
      HeadNames(t, m);
      ToggleMembers(rules[1..], n, m);
      EnabledIsNamed(rules[1..], m);
      EnabledIsNamed(t[1..], m);
      ToggleIs(rules[1..], n, m);
    }
  }

  lemma EnabledIsNamed(rules: seq<Rule>, m: string)
    ensures m in EnabledNames(rules) ==> m in Names(rules)
  {
  }

  /** A breach ends a clear period; so does a healthy evaluation with nothing to resolve. */
  lemma EndsClearing(cfg: Config, s: State, rule: string, v: Verdict, now: int)
    requires Evaluable(s, rule, now) && (v.Breach? || (v.Healthy? && !Fires(s, rule)))
    ensures rule !in Step(cfg, s, Evaluation(rule, v, now)).clearSince
  {
  }
}
