/** What every run of the alert engine keeps: one active alert per rule, notifications
    in lifecycle order, justified all-clears and spaced reminders. */
module AlertLifecycle {
  import opened Basics
  import opened AlertEngine

  // ---- The alerts table

  /** Row `a` comes before row `b`: ids grow, and periods of one rule do not overlap. */
  ghost predicate Before(a: AlertRow, b: AlertRow) {
    && a.id < b.id
    && (a.rule == b.rule ==> a.resolvedAt.Some? && a.resolvedAt.value <= b.ts)
  }

  ghost predicate Ordered(s: seq<AlertRow>) {
    s == [] || ((forall b :: b in s[1..] ==> Before(s[0], b)) && Ordered(s[1..]))
  }

  lemma {:induction false} OrderedAt(s: seq<AlertRow>, i: nat, j: nat)
    requires Ordered(s) && i < j < |s|
    ensures Before(s[i], s[j])
  {
    if i == 0 {
      assert s[j] == s[1..][j - 1];
    } else {
      OrderedAt(s[1..], i - 1, j - 1);
    }
  }

  lemma OrderedMembers(s: seq<AlertRow>, a: AlertRow, b: AlertRow)
    requires Ordered(s) && a in s && b in s
    ensures a == b || Before(a, b) || Before(b, a)
  {
    var i :| 0 <= i < |s| && s[i] == a;
    var j :| 0 <= j < |s| && s[j] == b;
    if i < j { OrderedAt(s, i, j); } else if j < i { OrderedAt(s, j, i); }
  }

  lemma {:induction false} OrderedAppend(s: seq<AlertRow>, r: AlertRow)
    requires Ordered(s) && forall a :: a in s ==> Before(a, r)
    ensures Ordered(s + [r])
  {
    if s == [] {
      assert (s + [r])[1..] == [];
    } else {
      assert (s + [r])[1..] == s[1..] + [r] && (s + [r])[0] == s[0];
      forall a | a in s[1..] ensures a in s { }
      assert s[0] in s;
      OrderedAppend(s[1..], r);
    }
  }

  lemma {:induction false} EditMember(e: Edit, s: seq<AlertRow>, q: AlertRow)
    ensures q in EditAll(e, s) ==> exists r :: r in s && q == EditRow(e, r)
    ensures q in s ==> EditRow(e, q) in EditAll(e, s)
  {
    if s != [] {
      EditMember(e, s[1..], q);
      if q in EditAll(e, s[1..]) {
        var r :| r in s[1..] && q == EditRow(e, r);
        assert r in s;
      }
    }
  }

  lemma {:induction false} EditOrdered(e: Edit, s: seq<AlertRow>)
    requires Ordered(s)
    requires forall a, b :: a in s && b in s && Before(a, b) ==> Before(EditRow(e, a), EditRow(e, b))
    ensures Ordered(EditAll(e, s))
  {
    if s != [] {
      assert s[0] in s;
      forall a | a in s[1..] ensures a in s { }
      forall q | q in EditAll(e, s[1..]) ensures Before(EditRow(e, s[0]), q) {
        EditMember(e, s[1..], q);
      }
      EditOrdered(e, s[1..]);
    }
  }

  lemma {:induction false} WithoutIdMember(s: seq<AlertRow>, id: nat, q: AlertRow)
    ensures q in WithoutId(s, id) <==> q in s && q.id != id
  {
    if s != [] { WithoutIdMember(s[1..], id, q); }
  }

  lemma {:induction false} WithoutRuleMember(s: seq<AlertRow>, rule: string, q: AlertRow)
    ensures q in WithoutRule(s, rule) <==> q in s && q.rule != rule
  {
    if s != [] { WithoutRuleMember(s[1..], rule, q); }
  }

  lemma {:induction false} WithoutIdOrdered(s: seq<AlertRow>, id: nat)
    requires Ordered(s)
    ensures Ordered(WithoutId(s, id))
  {
    if s != [] {
      WithoutIdOrdered(s[1..], id);
      var t := WithoutId(s[1..], id);
      forall q | q in t ensures Before(s[0], q) { WithoutIdMember(s[1..], id, q); }
      assert ([s[0]] + t)[1..] == t && [] + t == t;
    }
  }

  lemma {:induction false} WithoutRuleOrdered(s: seq<AlertRow>, rule: string)
    requires Ordered(s)
    ensures Ordered(WithoutRule(s, rule))
  {
    if s != [] {
      WithoutRuleOrdered(s[1..], rule);
      var t := WithoutRule(s[1..], rule);
      forall q | q in t ensures Before(s[0], q) { WithoutRuleMember(s[1..], rule, q); }
      assert ([s[0]] + t)[1..] == t && [] + t == t;
    }
  }

  // ---- Rules

  ghost predicate DistinctRules(rules: seq<Rule>) {
    rules == [] || (rules[0].name !in Names(rules[1..]) && DistinctRules(rules[1..]))
  }

  lemma HeadNames(rules: seq<Rule>, n: string)
    requires rules != []
    ensures n in Names(rules) <==> n == rules[0].name || n in Names(rules[1..])
    ensures n in EnabledNames(rules) <==>
      (n == rules[0].name && rules[0].enabled) || n in EnabledNames(rules[1..])
  {
    assert rules == [rules[0]] + rules[1..];
  }

  lemma {:induction false} RenameRuleNames(rules: seq<Rule>, o: string, n: string, m: string)
    requires o in Names(rules) && n !in Names(rules)
    ensures m in Names(RenameRule(rules, o, n)) <==> m == n || (m in Names(rules) && m != o)
    ensures m != n && m != o ==> (m in EnabledNames(RenameRule(rules, o, n)) <==> m in EnabledNames(rules))
  {
    RenameRuleMembers(rules, o, n, m);
    RenameRuleMembers(rules, o, n, n);
  }

  lemma {:induction false} RenameRuleMembers(rules: seq<Rule>, o: string, n: string, m: string)
    ensures m in Names(RenameRule(rules, o, n)) <==>
      (m == n && o in Names(rules)) || (m in Names(rules) && m != o)
    ensures m != n && m != o ==> (m in EnabledNames(RenameRule(rules, o, n)) <==> m in EnabledNames(rules))
  {
    if rules != [] {
      var t := RenameRule(rules, o, n);
      assert t[1..] == RenameRule(rules[1..], o, n);
      HeadNames(rules, m);
      HeadNames(rules, o);
      HeadNames(t, m);
      RenameRuleMembers(rules[1..], o, n, m);
    }
  }

  lemma {:induction false} RenameDistinct(rules: seq<Rule>, o: string, n: string)
    requires DistinctRules(rules) && n !in Names(rules)
    ensures DistinctRules(RenameRule(rules, o, n))
  {
    if rules != [] {
      var t := RenameRule(rules, o, n);
      assert t[1..] == RenameRule(rules[1..], o, n);
      HeadNames(rules, n);
      HeadNames(rules, rules[0].name);
      RenameDistinct(rules[1..], o, n);
      RenameRuleMembers(rules[1..], o, n, t[0].name);
    }
  }

  lemma {:induction false} ToggleMembers(rules: seq<Rule>, n: string, m: string)
    ensures m in Names(ToggleRule(rules, n)) <==> m in Names(rules)
    ensures m != n ==> (m in EnabledNames(ToggleRule(rules, n)) <==> m in EnabledNames(rules))
  {
    if rules != [] {
      var t := ToggleRule(rules, n);
      assert t[1..] == ToggleRule(rules[1..], n);
      HeadNames(rules, m);
      HeadNames(t, m);
      ToggleMembers(rules[1..], n, m);
    }
  }

  lemma {:induction false} ToggleDistinct(rules: seq<Rule>, n: string)
    requires DistinctRules(rules)
    ensures DistinctRules(ToggleRule(rules, n))
  {
    if rules != [] {
      assert ToggleRule(rules, n)[1..] == ToggleRule(rules[1..], n);
      ToggleDistinct(rules[1..], n);
      ToggleMembers(rules[1..], n, rules[0].name);
    }
  }

  lemma {:induction false} DropMembers(rules: seq<Rule>, n: string, m: string)
    ensures m in Names(DropRule(rules, n)) <==> m in Names(rules) && m != n
    ensures m in EnabledNames(DropRule(rules, n)) <==> m in EnabledNames(rules) && m != n
  {
    if rules != [] {
      var t := DropRule(rules, n);
      HeadNames(rules, m);
      DropMembers(rules[1..], n, m);
      if rules[0].name != n {
        assert t[1..] == DropRule(rules[1..], n);
        HeadNames(t, m);
      } else {
        assert t == DropRule(rules[1..], n);
      }
    }
  }

  lemma {:induction false} DropDistinct(rules: seq<Rule>, n: string)
    requires DistinctRules(rules)
    ensures DistinctRules(DropRule(rules, n))
  {
    if rules != [] {
      var t := DropRule(rules, n);
      DropDistinct(rules[1..], n);
      DropMembers(rules[1..], n, rules[0].name);
      if rules[0].name != n {
        assert t[1..] == DropRule(rules[1..], n);
      } else {
        assert t == DropRule(rules[1..], n);
      }
    }
  }

  lemma {:induction false} AppendMembers(rules: seq<Rule>, r: Rule, m: string)
    ensures m in Names(rules + [r]) <==> m in Names(rules) || m == r.name
    ensures m != r.name ==> (m in EnabledNames(rules + [r]) <==> m in EnabledNames(rules))
  {
  }

  lemma {:induction false} AppendDistinct(rules: seq<Rule>, r: Rule)
    requires DistinctRules(rules) && r.name !in Names(rules)
    ensures DistinctRules(rules + [r])
  {
    if rules == [] {
      assert (rules + [r])[1..] == [];
    } else {
      assert (rules + [r])[1..] == rules[1..] + [r];
      HeadNames(rules, r.name);
      AppendMembers(rules[1..], r, rules[0].name);
      AppendDistinct(rules[1..], r);
    }
  }

  // ---- The lifecycle of one row's notifications

  datatype Phase = Unborn | Firing | Ended | Broken

  function Advance(p: Phase, k: Kind): Phase {
    match (p, k)
    case (Unborn, Fire) => Firing
    case (Firing, Reminder) => Firing
    case (Firing, Resolve) => Ended
    case _ => Broken
  }

  function PhaseOf(log: seq<Entry>, id: nat): Phase {
    if log == [] then Unborn
    else
      var p, e := PhaseOf(log[..|log| - 1], id), log[|log| - 1];
      if e.Notified? && e.id == id then Advance(p, e.kind) else p
  }

  /** The notifications of row `id`, in order. */
  function KindsOf(log: seq<Entry>, id: nat): seq<Kind> {
    if log == [] then []
    else
      var e := log[|log| - 1];
      KindsOf(log[..|log| - 1], id) + if e.Notified? && e.id == id then [e.kind] else []
  }

  function Lifecycle(reminders: nat): seq<Kind> {
    [Fire] + seq(reminders, _ => Reminder) + [Resolve]
  }

  lemma {:induction false} UnbrokenShape(log: seq<Entry>, id: nat)
    requires PhaseOf(log, id) != Broken
    ensures var ks := KindsOf(log, id);
            match PhaseOf(log, id)
            case Unborn => ks == []
            case Firing => |ks| > 0 && ks == Lifecycle(|ks| - 1)[..|ks|]
            case Ended => |ks| > 1 && ks == Lifecycle(|ks| - 2)
            case Broken => false
  {
    if log != [] {
      UnbrokenShape(log[..|log| - 1], id);
    }
  }

  /** A phase that is not broken means: a prefix of fire, reminders, resolve. */
  lemma UnbrokenIsPrefix(log: seq<Entry>, id: nat)
    requires PhaseOf(log, id) != Broken
    ensures exists n: nat :: KindsOf(log, id) <= Lifecycle(n)
  {
    UnbrokenShape(log, id);
    var ks := KindsOf(log, id);
    match PhaseOf(log, id)
    case Unborn => assert ks <= Lifecycle(0);
    case Firing => assert ks <= Lifecycle(|ks| - 1);
    case Ended => assert ks <= Lifecycle(|ks| - 2);
  }

  lemma PhaseAppend(log: seq<Entry>, e: Entry, id: nat)
    ensures PhaseOf(log + [e], id) ==
            if e.Notified? && e.id == id then Advance(PhaseOf(log, id), e.kind) else PhaseOf(log, id)
  {
    assert (log + [e])[..|log|] == log;
  }

  // ---- The tables: what every event keeps

  ghost predicate RulesOk(s: State) { DistinctRules(s.rules) && STALLED !in Names(s.rules) }

  ghost predicate RowOk(s: State, r: AlertRow) {
    && r.id < s.nextId && r.ts <= s.clock
    && (r.resolvedAt.Some? ==> r.ts <= r.resolvedAt.value <= s.clock)
    && (r.rule in Names(s.rules) || r.rule == STALLED)
    && PhaseOf(s.log, r.id) == if r.resolvedAt.None? then Firing else Ended
  }

  ghost predicate PhaseOk(s: State, id: nat) {
    PhaseOf(s.log, id) != Broken && (id >= s.nextId ==> PhaseOf(s.log, id) == Unborn)
  }

  ghost predicate Tables(s: State) {
    && RulesOk(s)
    && Ordered(s.alerts)
    && (forall r :: r in s.alerts ==> RowOk(s, r))
    && (forall id: nat :: PhaseOk(s, id))
  }

  /** No user rule takes the built-in alert's name. */
  ghost predicate NotReserved(e: Event) {
    (e.Create? ==> e.name != STALLED) && (e.Rename? ==> e.to != STALLED)
  }

  lemma TablesSame(s: State, s': State)
    requires Tables(s)
    requires s'.rules == s.rules && s'.alerts == s.alerts && s'.nextId == s.nextId && s'.log == s.log
    requires s'.clock >= s.clock
    ensures Tables(s')
  {
    forall r | r in s'.alerts ensures RowOk(s', r) { assert RowOk(s, r); }
    forall id: nat ensures PhaseOk(s', id) { assert PhaseOk(s, id); }
  }

  lemma TablesLog(s: State, e: Entry)
    requires Tables(s) && !e.Notified?
    ensures Tables(Log(s, e))
  {
    forall r | r in s.alerts ensures RowOk(Log(s, e), r) {
      assert RowOk(s, r);
      PhaseAppend(s.log, e, r.id);
    }
    forall id: nat ensures PhaseOk(Log(s, e), id) {
      assert PhaseOk(s, id);
      PhaseAppend(s.log, e, id);
    }
  }

  lemma TablesFire(s: State, rule: string, severity: string)
    requires Tables(s) && (rule in Names(s.rules) || rule == STALLED)
    requires ActiveRow(s.alerts, rule).None?
    ensures Tables(FireAlert(s, rule, severity, s.clock))
  {
    var s' := FireAlert(s, rule, severity, s.clock);
    var e := Notified(s.nextId, rule, Fire, s.clock);
    var row := AlertRow(s.nextId, s.clock, rule, severity, false, None);
    forall a | a in s.alerts ensures Before(a, row) { assert RowOk(s, a); }
    OrderedAppend(s.alerts, row);
    assert PhaseOk(s, s.nextId);
    forall r | r in s'.alerts ensures RowOk(s', r) {
      PhaseAppend(s.log, e, r.id);
      if r in s.alerts { assert RowOk(s, r); }
    }
    forall id: nat ensures PhaseOk(s', id) {
      assert PhaseOk(s, id);
      PhaseAppend(s.log, e, id);
    }
  }

  lemma TablesResolve(s: State, rule: string, row: AlertRow)
    requires Tables(s) && row in s.alerts && row.resolvedAt.None? && row.rule == rule
    ensures Tables(ResolveAlert(s, rule, row, s.clock))
  {
    var s' := ResolveAlert(s, rule, row, s.clock);
    var e, edit := Notified(row.id, rule, Resolve, s.clock), SetResolved(row.id, s.clock);
    forall a | a in s.alerts ensures a.id == row.id ==> a == row { OrderedMembers(s.alerts, a, row); }
    EditOrdered(edit, s.alerts);
    assert RowOk(s, row);
    forall r | r in s'.alerts ensures RowOk(s', r) {
      EditMember(edit, s.alerts, r);
      var q :| q in s.alerts && r == EditRow(edit, q);
      assert RowOk(s, q);
      PhaseAppend(s.log, e, q.id);
    }
    forall id: nat ensures PhaseOk(s', id) {
      assert PhaseOk(s, id);
      PhaseAppend(s.log, e, id);
    }
  }

  lemma TablesRemind(s: State, rule: string, row: AlertRow)
    requires Tables(s) && row.id < s.nextId && PhaseOf(s.log, row.id) == Firing
    requires forall r :: r in s.alerts && r.id == row.id ==> r.resolvedAt.None?
    ensures Tables(Log(s.(lastNotified := s.lastNotified[rule := s.clock]), Notified(row.id, rule, Reminder, s.clock)))
  {
    var e := Notified(row.id, rule, Reminder, s.clock);
    var s' := Log(s.(lastNotified := s.lastNotified[rule := s.clock]), e);
    forall r | r in s'.alerts ensures RowOk(s', r) {
      assert RowOk(s, r);
      PhaseAppend(s.log, e, r.id);
    }
    forall id: nat ensures PhaseOk(s', id) {
      assert PhaseOk(s, id);
      PhaseAppend(s.log, e, id);
    }
  }

  /** Edits that move no row between rules and resolve none. */
  lemma TablesEdit(s: State, e: Edit)
    requires Tables(s) && (e.Acknowledge? || e.SetSeverity?)
    ensures Tables(s.(alerts := EditAll(e, s.alerts)))
  {
    var s' := s.(alerts := EditAll(e, s.alerts));
    EditOrdered(e, s.alerts);
    forall r | r in s'.alerts ensures RowOk(s', r) {
      EditMember(e, s.alerts, r);
      var q :| q in s.alerts && r == EditRow(e, q);
      assert RowOk(s, q);
    }
    forall id: nat ensures PhaseOk(s', id) { assert PhaseOk(s, id); }
  }

  lemma TablesStillFiring(cfg: Config, s: State, rule: string, severity: string, row: AlertRow)
    requires Tables(s) && row in s.alerts && row.resolvedAt.None? && row.rule == rule
    ensures Tables(Remind(cfg, CarrySeverity(s, severity, row), rule, row, s.clock))
  {
    var s1 := CarrySeverity(s, severity, row);
    if severity != row.severity {
      TablesEdit(s, SetSeverity(row.id, severity));
    }
    assert RowOk(s, row);
    forall r | r in s1.alerts && r.id == row.id ensures r.resolvedAt.None? {
      if severity != row.severity {
        EditMember(SetSeverity(row.id, severity), s.alerts, r);
        var q :| q in s.alerts && r == EditRow(SetSeverity(row.id, severity), q);
        OrderedMembers(s.alerts, q, row);
      } else {
        OrderedMembers(s.alerts, r, row);
      }
    }
    TablesRemind(s1, rule, row);
  }

  lemma TablesApply(cfg: Config, s: State, rule: string, severity: Option<string>)
    requires Tables(s) && (rule in Names(s.rules) || rule == STALLED)
    ensures Tables(Apply(cfg, s, rule, severity, s.clock))
  {
    var active := ActiveRow(s.alerts, rule);
    var s1 := if severity.Some? || active.None? then s.(clearSince := s.clearSince - {rule}) else s;
    TablesSame(s, s1);
    if severity.Some? && active.None? {
      TablesFire(s1, rule, severity.value);
    } else if severity.None? && active.Some? {
      TablesResolve(s1, rule, active.value);
      TablesSame(s1, s1.(clearSince := s1.clearSince[rule := s.clock]));
    } else if severity.Some? && active.Some? {
      TablesStillFiring(cfg, s1, rule, severity.value, active.value);
    }
  }

  lemma TablesEvaluate(cfg: Config, s: State, rule: string, v: Verdict, now: int)
    requires Tables(s) && now >= s.clock && (rule in Names(s.rules) || rule == STALLED)
    ensures Tables(Evaluate(cfg, s, rule, v, now))
  {
    var t := s.(clock := now);
    TablesSame(s, t);
    match v
    case Breach(sev) =>
      TablesLog(t, Evaluated(rule, now, true));
      TablesApply(cfg, Log(t, Evaluated(rule, now, true)), rule, Some(sev));
    case Healthy =>
      TablesLog(t, Evaluated(rule, now, false));
      TablesApply(cfg, Log(t, Evaluated(rule, now, false)), rule, None);
    case _ =>
  }

  lemma TablesClear(s: State, id: nat)
    requires Tables(s)
    ensures Tables(s.(alerts := WithoutId(s.alerts, id)))
  {
    var s' := s.(alerts := WithoutId(s.alerts, id));
    WithoutIdOrdered(s.alerts, id);
    forall r | r in s'.alerts ensures RowOk(s', r) {
      WithoutIdMember(s.alerts, id, r);
      assert RowOk(s, r);
    }
    forall i: nat ensures PhaseOk(s', i) { assert PhaseOk(s, i); }
  }

  lemma TablesRename(s: State, o: string, n: string)
    requires Tables(s) && o in Names(s.rules) && n !in Names(s.rules) && n != STALLED
    ensures Tables(s.(rules := RenameRule(s.rules, o, n), alerts := EditAll(SetRule(o, n), s.alerts)))
  {
    var s' := s.(rules := RenameRule(s.rules, o, n), alerts := EditAll(SetRule(o, n), s.alerts));
    RenameDistinct(s.rules, o, n);
    RenameRuleNames(s.rules, o, n, STALLED);
    forall a | a in s.alerts ensures a.rule != n { assert RowOk(s, a); }
    EditOrdered(SetRule(o, n), s.alerts);
    forall r | r in s'.alerts ensures RowOk(s', r) {
      EditMember(SetRule(o, n), s.alerts, r);
      var q :| q in s.alerts && r == EditRow(SetRule(o, n), q);
      assert RowOk(s, q);
      RenameRuleNames(s.rules, o, n, r.rule);
    }
    forall id: nat ensures PhaseOk(s', id) { assert PhaseOk(s, id); }
  }

  lemma TablesDelete(s: State, n: string)
    requires Tables(s) && n in Names(s.rules)
    ensures Tables(s.(rules := DropRule(s.rules, n), alerts := WithoutRule(s.alerts, n)))
  {
    var s' := s.(rules := DropRule(s.rules, n), alerts := WithoutRule(s.alerts, n));
    DropDistinct(s.rules, n);
    DropMembers(s.rules, n, STALLED);
    WithoutRuleOrdered(s.alerts, n);
    forall r | r in s'.alerts ensures RowOk(s', r) {
      WithoutRuleMember(s.alerts, n, r);
      assert RowOk(s, r);
      DropMembers(s.rules, n, r.rule);
    }
    forall id: nat ensures PhaseOk(s', id) { assert PhaseOk(s, id); }
  }

  lemma TablesRules(s: State, rules: seq<Rule>)
    requires Tables(s) && DistinctRules(rules) && STALLED !in Names(rules) && Names(s.rules) <= Names(rules)
    ensures Tables(s.(rules := rules))
  {
    var s' := s.(rules := rules);
    forall r | r in s'.alerts ensures RowOk(s', r) { assert RowOk(s, r); }
    forall id: nat ensures PhaseOk(s', id) { assert PhaseOk(s, id); }
  }

  lemma TablesStep(cfg: Config, s: State, e: Event)
    requires Tables(s) && NotReserved(e)
    ensures Tables(Step(cfg, s, e))
  {
    match e
    case Evaluation(rule, v, now) =>
      if now >= s.clock && (rule == STALLED || rule in EnabledNames(s.rules)) {
        TablesEvaluate(cfg, s, rule, v, now);
      }
    case EndOfCycle => TablesSame(s, Purge(s));
    case Ack(id) =>
      TablesEdit(s, Acknowledge(id));
      TablesLog(s.(alerts := EditAll(Acknowledge(id), s.alerts)), Acked(id));
    case Clear(id) => TablesClear(s, id);
    case Create(n) =>
      if n !in Names(s.rules) {
        AppendDistinct(s.rules, Rule(n, true));
        TablesRules(s, s.rules + [Rule(n, true)]);
        TablesLog(s.(rules := s.rules + [Rule(n, true)]), Changed(n));
      }
    case Rename(o, n) =>
      if o in Names(s.rules) && n !in Names(s.rules) {
        TablesRename(s, o, n);
        var s1 := s.(rules := RenameRule(s.rules, o, n), alerts := EditAll(SetRule(o, n), s.alerts));
        TablesLog(s1, Changed(o));
        TablesLog(Log(s1, Changed(o)), Changed(n));
      }
    case Delete(n) =>
      if n in Names(s.rules) {
        TablesDelete(s, n);
        TablesLog(s.(rules := DropRule(s.rules, n), alerts := WithoutRule(s.alerts, n)), Changed(n));
      }
    case Toggle(n) =>
      ToggleDistinct(s.rules, n);
      forall m: string ensures m in Names(ToggleRule(s.rules, n)) <==> m in Names(s.rules) {
        ToggleMembers(s.rules, n, m);
      }
      TablesRules(s, ToggleRule(s.rules, n));
      TablesLog(s.(rules := ToggleRule(s.rules, n)), Changed(n));
    case Restart =>
      TablesSame(s, s.(clearSince := map[], lastNotified := map[]));
      TablesLog(s.(clearSince := map[], lastNotified := map[]), Restarted);
  }

  // ---- The timing: what every event keeps

  /** Entry `i` starts a stretch without restart or breach of `rule`. */
  ghost predicate Calm(log: seq<Entry>, i: nat, rule: string) {
    forall m :: i < m < |log| ==>
      log[m] != Restarted && !(log[m].Evaluated? && log[m].rule == rule && log[m].breach)
  }

  ghost predicate HealthySince(log: seq<Entry>, rule: string, t: int) {
    exists i :: 0 <= i < |log| && log[i] == Evaluated(rule, t, false) && Calm(log, i, rule)
  }

  /** After entry `j`, neither a restart nor an API change of `rule`. */
  ghost predicate Quiet(log: seq<Entry>, j: nat, rule: string) {
    forall m :: j < m < |log| ==> log[m] != Restarted && log[m] != Changed(rule)
  }

  /** The all-clear at `k` follows a healthy evaluation, and an earlier one at least
      resolveAfter before it in the same engine lifetime with no breach between. */
  ghost predicate JustifiedAt(cfg: Config, log: seq<Entry>, k: nat)
    requires k < |log| && log[k].Notified?
  {
    && k > 0 && log[k - 1] == Evaluated(log[k].rule, log[k].at, false)
    && exists t :: HealthySince(log[..k], log[k].rule, t) && log[k].at - t >= cfg.resolveAfter
  }

  /** Entry `j` told of the same row, under the same rule name, that it fires or still fires. */
  ghost predicate SameRowNotified(log: seq<Entry>, j: nat, k: nat)
    requires j < k < |log| && log[k].Notified?
  {
    log[j].Notified? && log[j].id == log[k].id && log[j].rule == log[k].rule && log[j].kind != Resolve
  }

  /** The reminder at `k` is repeatInterval after every notification of its row since the
      rule last changed or the engine last started, and its row was not acknowledged. */
  ghost predicate SpacedAt(cfg: Config, log: seq<Entry>, k: nat)
    requires k < |log| && log[k].Notified?
  {
    && (forall j: nat :: j < k && SameRowNotified(log, j, k) && Quiet(log[..k], j, log[k].rule) ==>
          log[k].at - log[j].at >= cfg.repeatInterval)
    && Acked(log[k].id) !in log[..k]
  }

  ghost predicate EntryOk(cfg: Config, log: seq<Entry>, k: nat)
    requires k < |log|
  {
    && (log[k].Notified? && log[k].kind == Resolve ==> JustifiedAt(cfg, log, k))
    && (log[k].Notified? && log[k].kind == Reminder ==> SpacedAt(cfg, log, k))
  }

  ghost predicate LogOk(cfg: Config, log: seq<Entry>) {
    forall k: nat :: k < |log| ==> EntryOk(cfg, log, k)
  }

  lemma LogAppend(cfg: Config, log: seq<Entry>, e: Entry)
    requires LogOk(cfg, log)
    requires e.Notified? && e.kind != Fire ==> EntryOk(cfg, log + [e], |log|)
    ensures LogOk(cfg, log + [e])
  {
    forall k: nat | k < |log + [e]| ensures EntryOk(cfg, log + [e], k) {
      if k < |log| {
        assert EntryOk(cfg, log, k);
        assert (log + [e])[..k] == log[..k];
      }
    }
  }

  /** The engine remembers when each active row was last notified. */
  ghost predicate TrackedAt(s: State, j: nat)
    requires j < |s.log| && s.log[j].Notified?
  {
    Quiet(s.log, j, s.log[j].rule) ==>
      forall r :: r in s.alerts && r.id == s.log[j].id && r.resolvedAt.None? ==>
        && r.rule == s.log[j].rule
        && s.log[j].rule in s.lastNotified && s.lastNotified[s.log[j].rule] >= s.log[j].at
        && (s.log[j].rule in EnabledNames(s.rules) || s.log[j].rule == STALLED)
  }

  ghost predicate AckedAt(s: State, j: nat)
    requires j < |s.log| && s.log[j].Acked?
  {
    s.log[j].id < s.nextId && forall r :: r in s.alerts && r.id == s.log[j].id ==> r.acked
  }

  ghost predicate Memory(s: State, j: nat)
    requires j < |s.log|
  {
    && (s.log[j].Notified? ==> s.log[j].id < s.nextId && s.log[j].at <= s.clock)
    && (s.log[j].Notified? && s.log[j].kind != Resolve ==> TrackedAt(s, j))
    && (s.log[j].Acked? ==> AckedAt(s, j))
  }

  ghost predicate Timing(cfg: Config, s: State) {
    && LogOk(cfg, s.log)
    && (forall n :: n in s.clearSince ==> HealthySince(s.log, n, s.clearSince[n]))
    && (forall n :: n in s.lastNotified ==> s.lastNotified[n] <= s.clock)
    && (forall j: nat :: j < |s.log| ==> Memory(s, j))
  }

  // ---- Appending to the log

  lemma HealthyAppend(log: seq<Entry>, rule: string, t: int, e: Entry)
    requires HealthySince(log, rule, t)
    requires e != Restarted && !(e.Evaluated? && e.rule == rule && e.breach)
    ensures HealthySince(log + [e], rule, t)
  {
    var i :| 0 <= i < |log| && log[i] == Evaluated(rule, t, false) && Calm(log, i, rule);
    assert (log + [e])[i] == log[i];
    assert Calm(log + [e], i, rule);
  }

  lemma HealthyNow(log: seq<Entry>, rule: string, t: int)
    requires log != [] && log[|log| - 1] == Evaluated(rule, t, false)
    ensures HealthySince(log, rule, t)
  {
    assert Calm(log, |log| - 1, rule);
  }

  lemma QuietPrefix(log: seq<Entry>, e: Entry, j: nat, rule: string)
    requires j < |log| && Quiet(log + [e], j, rule)
    ensures Quiet(log, j, rule) && e != Restarted && e != Changed(rule)
  {
    forall m | j < m < |log| ensures log[m] != Restarted && log[m] != Changed(rule) {
      assert (log + [e])[m] == log[m];
    }
    assert (log + [e])[|log|] == e;
  }

  /** Row `r` may be what row `q` is after the event logged as `e`. */
  ghost predicate Became(q: AlertRow, r: AlertRow, e: Entry) {
    && q.id == r.id
    && (r.resolvedAt.None? ==> q.resolvedAt.None?)
    && (q.acked ==> r.acked)
    && (e == Changed(q.rule) || r.rule == q.rule)
  }

  /** An old entry stays remembered when the log grows by `e` and, unless `e` ends its
      stretch, the rows and times it speaks of stay or grow. */
  lemma MemoryGrows(s: State, s': State, e: Entry, j: nat)
    requires j < |s.log| && Memory(s, j) && s'.log == s.log + [e]
    requires s'.nextId >= s.nextId && s'.clock >= s.clock
    requires forall r :: r in s'.alerts && r.id < s.nextId ==> exists q :: q in s.alerts && Became(q, r, e)
    requires s.log[j].Notified? && s.log[j].kind != Resolve && e != Restarted && e != Changed(s.log[j].rule) ==>
      var n := s.log[j].rule;
      && (n in s.lastNotified && (exists r :: r in s'.alerts && r.rule == n && r.resolvedAt.None?) ==>
            n in s'.lastNotified && s'.lastNotified[n] >= s.lastNotified[n])
      && (n in EnabledNames(s.rules) ==> n in EnabledNames(s'.rules))
    ensures Memory(s', j)
  {
    assert s'.log[j] == s.log[j];
    if s.log[j].Notified? && s.log[j].kind != Resolve && Quiet(s'.log, j, s.log[j].rule) {
      QuietPrefix(s.log, e, j, s.log[j].rule);
      assert TrackedAt(s, j);
    }
  }

  /** Rows and rules as they were: what `MemoryGrows` asks of an event that changes none. */
  lemma TimingLog(cfg: Config, s: State, e: Entry)
    requires Timing(cfg, s) && e != Restarted && !e.Notified?
    requires e.Acked? ==> e.id < s.nextId && forall r :: r in s.alerts && r.id == e.id ==> r.acked
    requires e.Evaluated? && e.breach ==> e.rule !in s.clearSince
    ensures Timing(cfg, Log(s, e))
  {
    var s' := Log(s, e);
    LogAppend(cfg, s.log, e);
    forall n | n in s'.clearSince ensures HealthySince(s'.log, n, s'.clearSince[n]) {
      HealthyAppend(s.log, n, s.clearSince[n], e);
    }
    forall j: nat | j < |s'.log| ensures Memory(s', j) {
      if j < |s.log| {
        assert Memory(s, j);
        MemoryGrows(s, s', e, j);
      }
    }
  }

  lemma TimingClock(cfg: Config, s: State, now: int)
    requires Timing(cfg, s) && now >= s.clock
    ensures Timing(cfg, s.(clock := now))
  {
    var s' := s.(clock := now);
    forall j: nat | j < |s'.log| ensures Memory(s', j) {
      assert Memory(s, j);
      if s.log[j].Notified? && s.log[j].kind != Resolve { assert TrackedAt(s, j); }
    }
  }

  lemma TimingForget(cfg: Config, s: State, rule: string)
    requires Timing(cfg, s)
    ensures Timing(cfg, s.(clearSince := s.clearSince - {rule}))
  {
    var s' := s.(clearSince := s.clearSince - {rule});
    forall j: nat | j < |s'.log| ensures Memory(s', j) {
      assert Memory(s, j);
      if s.log[j].Notified? && s.log[j].kind != Resolve { assert TrackedAt(s, j); }
    }
  }

  lemma TimingStartClearing(cfg: Config, s: State, rule: string, now: int)
    requires Timing(cfg, s) && HealthySince(s.log, rule, now)
    ensures Timing(cfg, s.(clearSince := s.clearSince[rule := now]))
  {
    var s' := s.(clearSince := s.clearSince[rule := now]);
    forall j: nat | j < |s'.log| ensures Memory(s', j) {
      assert Memory(s, j);
      if s.log[j].Notified? && s.log[j].kind != Resolve { assert TrackedAt(s, j); }
    }
  }

  lemma TimingPurge(cfg: Config, s: State)
    requires Timing(cfg, s)
    ensures Timing(cfg, Purge(s))
  {
    var s' := Purge(s);
    forall j: nat | j < |s'.log| ensures Memory(s', j) {
      assert Memory(s, j);
      if s.log[j].Notified? && s.log[j].kind != Resolve { assert TrackedAt(s, j); }
    }
  }

  lemma TimingFire(cfg: Config, s: State, rule: string, severity: string)
    requires Timing(cfg, s) && Tables(s) && (rule in EnabledNames(s.rules) || rule == STALLED)
    ensures Timing(cfg, FireAlert(s, rule, severity, s.clock))
  {
    var s' := FireAlert(s, rule, severity, s.clock);
    var e := Notified(s.nextId, rule, Fire, s.clock);
    LogAppend(cfg, s.log, e);
    forall n | n in s'.clearSince ensures HealthySince(s'.log, n, s'.clearSince[n]) {
      HealthyAppend(s.log, n, s.clearSince[n], e);
    }
    forall j: nat | j < |s'.log| ensures Memory(s', j) {
      if j < |s.log| {
        assert Memory(s, j);
        MemoryGrows(s, s', e, j);
      } else {
        forall r | r in s.alerts ensures r.id < s.nextId { assert RowOk(s, r); }
        NewestTracked(s', s.nextId, rule, Fire);
      }
    }
  }

  lemma NewestTracked(s: State, id: nat, rule: string, kind: Kind)
    requires s.log != [] && s.log[|s.log| - 1] == Notified(id, rule, kind, s.clock) && id < s.nextId
    requires rule in s.lastNotified && s.lastNotified[rule] >= s.clock
    requires rule in EnabledNames(s.rules) || rule == STALLED
    requires forall r :: r in s.alerts && r.id == id ==> r.rule == rule
    ensures Memory(s, |s.log| - 1)
  {
  }

  lemma Justifies(cfg: Config, log: seq<Entry>, e: Entry, t: int)
    requires e.Notified? && log != [] && log[|log| - 1] == Evaluated(e.rule, e.at, false)
    requires HealthySince(log, e.rule, t) && e.at - t >= cfg.resolveAfter
    ensures JustifiedAt(cfg, log + [e], |log|)
  {
    var all := log + [e];
    assert all[..|log|] == log && all[|log|] == e && all[|log| - 1] == log[|log| - 1];
    assert HealthySince(all[..|log|], all[|log|].rule, t);
  }

  lemma TimingResolve(cfg: Config, s: State, rule: string, row: AlertRow)
    requires Timing(cfg, s) && Tables(s)
    requires row in s.alerts && row.resolvedAt.None? && row.rule == rule
    requires s.log != [] && s.log[|s.log| - 1] == Evaluated(rule, s.clock, false)
    requires cfg.resolveAfter > 0 ==> rule in s.clearSince && s.clock - s.clearSince[rule] >= cfg.resolveAfter
    ensures Timing(cfg, ResolveAlert(s, rule, row, s.clock))
  {
    var s' := ResolveAlert(s, rule, row, s.clock);
    var e, edit := Notified(row.id, rule, Resolve, s.clock), SetResolved(row.id, s.clock);
    HealthyNow(s.log, rule, s.clock);
    Justifies(cfg, s.log, e, if cfg.resolveAfter > 0 then s.clearSince[rule] else s.clock);
    LogAppend(cfg, s.log, e);
    forall n | n in s'.clearSince ensures HealthySince(s'.log, n, s'.clearSince[n]) {
      HealthyAppend(s.log, n, s.clearSince[n], e);
    }
    assert RowOk(s, row);
    forall r | r in s'.alerts
      ensures exists q :: q in s.alerts && Became(q, r, e)
      ensures r.resolvedAt.None? ==> r.rule != rule
    {
      EditMember(edit, s.alerts, r);
      var q :| q in s.alerts && r == EditRow(edit, q);
      OrderedMembers(s.alerts, q, row);
      assert Became(q, r, e);
    }
    forall j: nat | j < |s'.log| ensures Memory(s', j) {
      if j < |s.log| {
        assert Memory(s, j);
        MemoryGrows(s, s', e, j);
      }
    }
  }

  /** Rows after an edit that keeps ids, rules, resolution and acknowledgements. */
  lemma EditedRow(s: State, e: Edit, r: AlertRow) returns (q: AlertRow)
    requires r in EditAll(e, s.alerts) && (e.Acknowledge? || e.SetSeverity?)
    ensures q in s.alerts && q.id == r.id && q.rule == r.rule && q.resolvedAt == r.resolvedAt
    ensures q.acked ==> r.acked
    ensures e.Acknowledge? && r.id == e.id ==> r.acked
  {
    EditMember(e, s.alerts, r);
    q :| q in s.alerts && r == EditRow(e, q);
  }

  lemma TimingEdit(cfg: Config, s: State, e: Edit)
    requires Timing(cfg, s) && (e.Acknowledge? || e.SetSeverity?)
    ensures Timing(cfg, s.(alerts := EditAll(e, s.alerts)))
  {
    var s' := s.(alerts := EditAll(e, s.alerts));
    forall j: nat | j < |s'.log| ensures Memory(s', j) {
      assert Memory(s, j);
      forall r | r in s'.alerts
        ensures exists q :: q in s.alerts && q.id == r.id && q.rule == r.rule && q.resolvedAt == r.resolvedAt && (q.acked ==> r.acked)
      {
        var q := EditedRow(s, e, r);
      }
      if s.log[j].Notified? && s.log[j].kind != Resolve { assert TrackedAt(s, j); }
      if s.log[j].Acked? { assert AckedAt(s, j); }
    }
  }

  /** Rows that stay as they are satisfy what MemoryGrows asks of them. */
  lemma RowsStay(rows: seq<AlertRow>, e: Entry)
    ensures forall r :: r in rows ==> exists q :: q in rows && Became(q, r, e)
  {
    forall r | r in rows ensures exists q :: q in rows && Became(q, r, e) { assert Became(r, r, e); }
  }

  /** A reminder leaves remembered what was. */
  lemma RemindKeepsMemory(s: State, rule: string, e: Entry, j: nat)
    requires j < |s.log| && Memory(s, j) && e.Notified?
    requires rule in s.lastNotified ==> s.lastNotified[rule] <= s.clock
    ensures Memory(Log(s.(lastNotified := s.lastNotified[rule := s.clock]), e), j)
  {
    RowsStay(s.alerts, e);
    MemoryGrows(s, Log(s.(lastNotified := s.lastNotified[rule := s.clock]), e), e, j);
  }

  lemma TimingRemind(cfg: Config, s: State, rule: string, here: AlertRow)
    requires Timing(cfg, s) && Tables(s) && (rule in EnabledNames(s.rules) || rule == STALLED)
    requires here in s.alerts && here.rule == rule && here.resolvedAt.None? && !here.acked
    requires rule in s.lastNotified ==> s.clock - s.lastNotified[rule] >= cfg.repeatInterval
    ensures Timing(cfg, Log(s.(lastNotified := s.lastNotified[rule := s.clock]), Notified(here.id, rule, Reminder, s.clock)))
  {
    var e := Notified(here.id, rule, Reminder, s.clock);
    var s' := Log(s.(lastNotified := s.lastNotified[rule := s.clock]), e);
    ReminderSpaced(cfg, s, here, e);
    LogAppend(cfg, s.log, e);
    forall n | n in s'.clearSince ensures HealthySince(s'.log, n, s'.clearSince[n]) {
      HealthyAppend(s.log, n, s.clearSince[n], e);
    }
    RemindIsRemembered(s, rule, here);
    forall j: nat | j < |s'.log| ensures Memory(s', j) {
      if j < |s.log| {
        assert Memory(s, j);
        RemindKeepsMemory(s, rule, e, j);
      }
    }
  }

  /** And the reminder itself. */
  lemma RemindIsRemembered(s: State, rule: string, here: AlertRow)
    requires Tables(s) && here in s.alerts && here.rule == rule && (rule in EnabledNames(s.rules) || rule == STALLED)
    ensures Memory(Log(s.(lastNotified := s.lastNotified[rule := s.clock]), Notified(here.id, rule, Reminder, s.clock)), |s.log|)
  {
    assert RowOk(s, here);
    forall r | r in s.alerts && r.id == here.id ensures r.rule == rule { OrderedMembers(s.alerts, r, here); }
    NewestTracked(Log(s.(lastNotified := s.lastNotified[rule := s.clock]), Notified(here.id, rule, Reminder, s.clock)), here.id, rule, Reminder);
  }

  lemma ReminderSpaced(cfg: Config, s: State, row: AlertRow, e: Entry)
    requires Timing(cfg, s) && row in s.alerts && row.resolvedAt.None? && !row.acked
    requires e == Notified(row.id, row.rule, Reminder, s.clock)
    requires row.rule in s.lastNotified ==> s.clock - s.lastNotified[row.rule] >= cfg.repeatInterval
    ensures SpacedAt(cfg, s.log + [e], |s.log|)
  {
    var log, k := s.log + [e], |s.log|;
    assert log[..k] == s.log;
    forall j: nat | j < k && SameRowNotified(log, j, k) && Quiet(log[..k], j, row.rule)
      ensures log[k].at - log[j].at >= cfg.repeatInterval
    {
      assert log[j] == s.log[j];
      assert Memory(s, j);
      assert TrackedAt(s, j);
    }
    forall j: nat | j < |s.log| ensures s.log[j] != Acked(row.id) {
      assert Memory(s, j);
    }
  }

  lemma TimingApply(cfg: Config, s: State, rule: string, severity: Option<string>)
    requires Timing(cfg, s) && Tables(s) && (rule in EnabledNames(s.rules) || rule == STALLED)
    requires s.log != [] && s.log[|s.log| - 1] == Evaluated(rule, s.clock, severity.Some?)
    ensures Timing(cfg, Apply(cfg, s, rule, severity, s.clock))
  {
    var active := ActiveRow(s.alerts, rule);
    var s1 := if severity.Some? || active.None? then s.(clearSince := s.clearSince - {rule}) else s;
    TimingForget(cfg, s, rule);
    TablesSame(s, s1);
    if severity.Some? && active.None? {
      TimingFire(cfg, s1, rule, severity.value);
    } else if severity.None? && active.Some? {
      TimingSettle(cfg, s1, rule, active.value);
    } else if severity.Some? && active.Some? {
      TimingStillFiring(cfg, s1, rule, severity.value, active.value);
    }
  }

  lemma TimingSettle(cfg: Config, s: State, rule: string, row: AlertRow)
    requires Timing(cfg, s) && Tables(s)
    requires row in s.alerts && row.resolvedAt.None? && row.rule == rule
    requires s.log != [] && s.log[|s.log| - 1] == Evaluated(rule, s.clock, false)
    ensures Timing(cfg, Settle(cfg, s, rule, row, s.clock))
  {
    if cfg.resolveAfter > 0 && rule !in s.clearSince {
      HealthyNow(s.log, rule, s.clock);
      TimingStartClearing(cfg, s, rule, s.clock);
    } else if cfg.resolveAfter > 0 && s.clock - s.clearSince[rule] < cfg.resolveAfter {
    } else {
      TimingResolve(cfg, s, rule, row);
    }
  }

  lemma TimingStillFiring(cfg: Config, s: State, rule: string, severity: string, row: AlertRow)
    requires Timing(cfg, s) && Tables(s) && (rule in EnabledNames(s.rules) || rule == STALLED)
    requires row in s.alerts && row.resolvedAt.None? && row.rule == rule
    ensures Timing(cfg, Remind(cfg, CarrySeverity(s, severity, row), rule, row, s.clock))
  {
    var s1 := CarrySeverity(s, severity, row);
    var edit := SetSeverity(row.id, severity);
    if severity != row.severity {
      TimingEdit(cfg, s, edit);
      TablesEdit(s, edit);
      EditMember(edit, s.alerts, row);
      assert EditRow(edit, row) in s1.alerts;
    } else {
      assert row in s1.alerts;
    }
    var last := if rule in s1.lastNotified then s1.lastNotified[rule] else row.ts;
    if !(cfg.repeatInterval <= 0 || row.acked || s.clock - last < cfg.repeatInterval) {
      TimingRemind(cfg, s1, rule, if severity != row.severity then EditRow(edit, row) else row);
    }
  }

  lemma ApplyForgets(cfg: Config, s: State, rule: string, severity: string, now: int)
    ensures Apply(cfg, s.(clearSince := s.clearSince - {rule}), rule, Some(severity), now) ==
            Apply(cfg, s, rule, Some(severity), now)
  {
    assert (s.clearSince - {rule}) - {rule} == s.clearSince - {rule};
  }

  lemma TimingBreach(cfg: Config, s: State, rule: string, severity: string)
    requires Timing(cfg, s) && Tables(s)
    requires rule in EnabledNames(s.rules) || rule == STALLED
    ensures Timing(cfg, Apply(cfg, Log(s, Evaluated(rule, s.clock, true)), rule, Some(severity), s.clock))
  {
    var e := Evaluated(rule, s.clock, true);
    var s1 := s.(clearSince := s.clearSince - {rule});
    TimingForget(cfg, s, rule);
    TablesSame(s, s1);
    TimingLog(cfg, s1, e);
    TablesLog(s1, e);
    TimingApply(cfg, Log(s1, e), rule, Some(severity));
    ApplyForgets(cfg, Log(s, e), rule, severity, s.clock);
    assert Log(s1, e) == Log(s, e).(clearSince := Log(s, e).clearSince - {rule});
  }

  lemma TimingHealthy(cfg: Config, s: State, rule: string)
    requires Timing(cfg, s) && Tables(s)
    requires rule in EnabledNames(s.rules) || rule == STALLED
    ensures Timing(cfg, Apply(cfg, Log(s, Evaluated(rule, s.clock, false)), rule, None, s.clock))
  {
    var e := Evaluated(rule, s.clock, false);
    TimingLog(cfg, s, e);
    TablesLog(s, e);
    TimingApply(cfg, Log(s, e), rule, None);
  }

  lemma TimingEvaluate(cfg: Config, s: State, rule: string, v: Verdict, now: int)
    requires Timing(cfg, s) && Tables(s) && now >= s.clock
    requires rule in EnabledNames(s.rules) || rule == STALLED
    ensures Timing(cfg, Evaluate(cfg, s, rule, v, now))
  {
    var t := s.(clock := now);
    TimingClock(cfg, s, now);
    TablesSame(s, t);
    match v
    case Breach(sev) => TimingBreach(cfg, t, rule, sev);
    case Healthy => TimingHealthy(cfg, t, rule);
    case _ =>
  }

  /** An API call that changes rule `n`: its rows may change, and the log says so. */
  lemma TimingChanged(cfg: Config, s: State, s': State, n: string)
    requires Timing(cfg, s)
    requires s'.log == s.log + [Changed(n)] && s'.nextId == s.nextId && s'.clock == s.clock
    requires s'.clearSince == s.clearSince && s'.lastNotified == s.lastNotified
    requires forall m :: m != n && m in EnabledNames(s.rules) ==> m in EnabledNames(s'.rules)
    requires forall r :: r in s'.alerts ==> exists q :: q in s.alerts && Became(q, r, Changed(n))
    ensures Timing(cfg, s')
  {
    var e := Changed(n);
    LogAppend(cfg, s.log, e);
    forall m | m in s'.clearSince ensures HealthySince(s'.log, m, s'.clearSince[m]) {
      HealthyAppend(s.log, m, s.clearSince[m], e);
    }
    forall j: nat | j < |s'.log| ensures Memory(s', j) {
      if j < |s.log| {
        assert Memory(s, j);
        MemoryGrows(s, s', e, j);
      }
    }
  }

  lemma TimingRestart(cfg: Config, s: State)
    requires Timing(cfg, s)
    ensures Timing(cfg, Log(s.(clearSince := map[], lastNotified := map[]), Restarted))
  {
    var s' := Log(s.(clearSince := map[], lastNotified := map[]), Restarted);
    LogAppend(cfg, s.log, Restarted);
    forall j: nat | j < |s'.log| ensures Memory(s', j) {
      if j < |s.log| {
        assert Memory(s, j);
        MemoryGrows(s, s', Restarted, j);
      }
    }
  }

  lemma TimingClearRow(cfg: Config, s: State, id: nat)
    requires Timing(cfg, s)
    ensures Timing(cfg, s.(alerts := WithoutId(s.alerts, id)))
  {
    var s' := s.(alerts := WithoutId(s.alerts, id));
    forall r | r in s'.alerts ensures r in s.alerts { WithoutIdMember(s.alerts, id, r); }
    forall j: nat | j < |s'.log| ensures Memory(s', j) {
      assert Memory(s, j);
      if s.log[j].Notified? && s.log[j].kind != Resolve { assert TrackedAt(s, j); }
      if s.log[j].Acked? { assert AckedAt(s, j); }
    }
  }

  lemma TimingAck(cfg: Config, s: State, id: nat)
    requires Timing(cfg, s) && id < s.nextId
    ensures Timing(cfg, Log(s.(alerts := EditAll(Acknowledge(id), s.alerts)), Acked(id)))
  {
    var s1 := s.(alerts := EditAll(Acknowledge(id), s.alerts));
    TimingEdit(cfg, s, Acknowledge(id));
    forall r | r in s1.alerts && r.id == id ensures r.acked {
      var q := EditedRow(s, Acknowledge(id), r);
    }
    TimingLog(cfg, s1, Acked(id));
  }

  lemma TimingRename(cfg: Config, s: State, o: string, n: string)
    requires Timing(cfg, s) && Tables(s) && o in Names(s.rules) && n !in Names(s.rules)
    ensures Timing(cfg, Step(cfg, s, Rename(o, n)))
  {
    var s1 := s.(rules := RenameRule(s.rules, o, n), alerts := EditAll(SetRule(o, n), s.alerts));
    forall r | r in s1.alerts ensures exists q :: q in s.alerts && Became(q, r, Changed(o)) {
      EditMember(SetRule(o, n), s.alerts, r);
      var q :| q in s.alerts && r == EditRow(SetRule(o, n), q);
      assert Became(q, r, Changed(o));
    }
    forall m | m != o && m in EnabledNames(s.rules) ensures m in EnabledNames(s1.rules) {
      assert m in Names(s.rules);
      RenameRuleNames(s.rules, o, n, m);
    }
    TimingChanged(cfg, s, Log(s1, Changed(o)), o);
    TimingLog(cfg, Log(s1, Changed(o)), Changed(n));
  }

  lemma TimingStep(cfg: Config, s: State, e: Event)
    requires Timing(cfg, s) && Tables(s)
    ensures Timing(cfg, Step(cfg, s, e))
  {
    match e
    case Evaluation(rule, v, now) =>
      if now >= s.clock && (rule == STALLED || rule in EnabledNames(s.rules)) {
        TimingEvaluate(cfg, s, rule, v, now);
      }
    case EndOfCycle => TimingPurge(cfg, s);
    case Ack(id) =>
      if r :| r in s.alerts && r.id == id {
        assert RowOk(s, r);
        TimingAck(cfg, s, id);
      }
    case Clear(id) => TimingClearRow(cfg, s, id);
    case Create(n) =>
      if n !in Names(s.rules) {
        var s' := Step(cfg, s, e);
        forall m | m != n && m in EnabledNames(s.rules) ensures m in EnabledNames(s'.rules) {
          AppendMembers(s.rules, Rule(n, true), m);
        }
        TimingChanged(cfg, s, s', n);
      }
    case Rename(o, n) => if o in Names(s.rules) && n !in Names(s.rules) { TimingRename(cfg, s, o, n); }
    case Delete(n) =>
      if n in Names(s.rules) {
        var s' := Step(cfg, s, e);
        forall m | m != n && m in EnabledNames(s.rules) ensures m in EnabledNames(s'.rules) {
          DropMembers(s.rules, n, m);
        }
        forall r | r in s'.alerts ensures r in s.alerts { WithoutRuleMember(s.alerts, n, r); }
        TimingChanged(cfg, s, s', n);
      }
    case Toggle(n) =>
      if n in Names(s.rules) {
        var s' := Step(cfg, s, e);
        forall m | m != n && m in EnabledNames(s.rules) ensures m in EnabledNames(s'.rules) {
          ToggleMembers(s.rules, n, m);
        }
        TimingChanged(cfg, s, s', n);
      }
    case Restart => TimingRestart(cfg, s);
  }

  // ---- Whole runs

  ghost predicate Inv(cfg: Config, s: State) { Tables(s) && Timing(cfg, s) }

  /** A daemon with rules and no alert yet. */
  ghost predicate Init(s: State) {
    && DistinctRules(s.rules) && STALLED !in Names(s.rules)
    && s.alerts == [] && s.log == [] && s.clearSince == map[] && s.lastNotified == map[]
  }

  ghost predicate NoneReserved(es: seq<Event>) { forall e :: e in es ==> NotReserved(e) }

  lemma {:induction false} RunKeeps(cfg: Config, s: State, es: seq<Event>)
    requires Inv(cfg, s) && NoneReserved(es)
    ensures Inv(cfg, Run(cfg, s, es))
    decreases |es|
  {
    if es != [] {
      assert es[0] in es;
      TablesStep(cfg, s, es[0]);
      TimingStep(cfg, s, es[0]);
      RunKeeps(cfg, Step(cfg, s, es[0]), es[1..]);
    }
  }

  /** In every run of evaluations, cycles, acks, clears, rule changes and restarts, a rule
      name has at most one active alert row. */
  lemma AtMostOneActive(cfg: Config, s: State, es: seq<Event>, a: AlertRow, b: AlertRow)
    requires Init(s) && NoneReserved(es)
    requires a in Run(cfg, s, es).alerts && b in Run(cfg, s, es).alerts
    requires a.rule == b.rule && a.resolvedAt.None? && b.resolvedAt.None?
    ensures a == b
  {
    RunKeeps(cfg, s, es);
    OrderedMembers(Run(cfg, s, es).alerts, a, b);
  }

  /** Active periods of one rule never overlap. */
  lemma PeriodsDisjoint(cfg: Config, s: State, es: seq<Event>, i: nat, j: nat)
    requires Init(s) && NoneReserved(es)
    requires i < j < |Run(cfg, s, es).alerts|
    requires Run(cfg, s, es).alerts[i].rule == Run(cfg, s, es).alerts[j].rule
    ensures var a, b := Run(cfg, s, es).alerts[i], Run(cfg, s, es).alerts[j];
            a.resolvedAt.Some? && a.ts <= a.resolvedAt.value <= b.ts
  {
    RunKeeps(cfg, s, es);
    OrderedAt(Run(cfg, s, es).alerts, i, j);
    assert RowOk(Run(cfg, s, es), Run(cfg, s, es).alerts[i]);
  }

  /** The notifications of every row form a prefix of fire, reminders, resolve. */
  lemma NotificationsInOrder(cfg: Config, s: State, es: seq<Event>, id: nat)
    requires Init(s) && NoneReserved(es)
    ensures exists n: nat :: KindsOf(Run(cfg, s, es).log, id) <= Lifecycle(n)
  {
    RunKeeps(cfg, s, es);
    assert PhaseOk(Run(cfg, s, es), id);
    UnbrokenIsPrefix(Run(cfg, s, es).log, id);
  }

  /** An alert resolves only on a healthy evaluation, at least resolveAfter after an
      earlier healthy one in the same engine lifetime, with no breach between. */
  lemma ResolvesOnlyAfterHealthySpan(cfg: Config, s: State, es: seq<Event>, k: nat)
    requires Init(s) && NoneReserved(es)
    requires k < |Run(cfg, s, es).log| && Run(cfg, s, es).log[k].Notified? && Run(cfg, s, es).log[k].kind == Resolve
    ensures JustifiedAt(cfg, Run(cfg, s, es).log, k)
  {
    RunKeeps(cfg, s, es);
    assert EntryOk(cfg, Run(cfg, s, es).log, k);
  }

  /** Reminders come at least repeatInterval after any earlier notification of the row
      while its rule is unchanged within one engine lifetime, and never after an ack. */
  lemma RemindersAreSpaced(cfg: Config, s: State, es: seq<Event>, k: nat)
    requires Init(s) && NoneReserved(es)
    requires k < |Run(cfg, s, es).log| && Run(cfg, s, es).log[k].Notified? && Run(cfg, s, es).log[k].kind == Reminder
    ensures SpacedAt(cfg, Run(cfg, s, es).log, k)
  {
    RunKeeps(cfg, s, es);
    assert EntryOk(cfg, Run(cfg, s, es).log, k);
  }

  // ---- When every later notification is spaced

  predicate Timed(e: Entry) { e.Evaluated? || e.Notified? }

  /** Log times rise up to the clock, and whatever says that a row fires follows its breach. */
  ghost predicate Chronicle(log: seq<Entry>, clock: int) {
    && (forall i :: 0 <= i < |log| && Timed(log[i]) ==> log[i].at <= clock)
    && (forall i, j :: 0 <= i < j < |log| && Timed(log[i]) && Timed(log[j]) ==> log[i].at <= log[j].at)
    && (forall j :: 0 <= j < |log| && log[j].Notified? && log[j].kind != Resolve ==> FollowsBreach(log, j))
  }

  ghost predicate FollowsBreach(log: seq<Entry>, j: int)
    requires 0 <= j < |log| && log[j].Notified?
  {
    j > 0 && log[j - 1] == Evaluated(log[j].rule, log[j].at, true)
  }

  lemma ChronicleAppend(log: seq<Entry>, clock: int, e: Entry)
    requires Chronicle(log, clock) && (Timed(e) ==> e.at == clock)
    requires e.Notified? && e.kind != Resolve ==> log != [] && log[|log| - 1] == Evaluated(e.rule, e.at, true)
    ensures Chronicle(log + [e], clock)
  {
    var all := log + [e];
    forall j | 0 <= j < |all| && all[j].Notified? && all[j].kind != Resolve ensures FollowsBreach(all, j) {
      if j < |log| { assert FollowsBreach(log, j); }
    }
  }

  /** An evaluation's outcome is told of at most once. */
  lemma ApplyLogs(cfg: Config, s: State, rule: string, severity: Option<string>, now: int) returns (told: seq<Entry>)
    ensures var s' := Apply(cfg, s, rule, severity, now); s'.log == s.log + told && s'.clock == s.clock
    ensures |told| <= 1 && forall e :: e in told ==>
              e.Notified? && e.rule == rule && e.at == now && (e.kind == Resolve <==> severity.None?)
  {
    var s' := Apply(cfg, s, rule, severity, now);
    told := s'.log[|s.log|..];
  }

  lemma ChronicleStep(cfg: Config, s: State, e: Event)
    requires Chronicle(s.log, s.clock)
    ensures Chronicle(Step(cfg, s, e).log, Step(cfg, s, e).clock)
  {
    match e
    case Evaluation(rule, v, now) =>
      if now >= s.clock && (rule == STALLED || rule in EnabledNames(s.rules)) && (v.Breach? || v.Healthy?) {
        var severity := if v.Breach? then Some(v.severity) else None;
        var seen := Evaluated(rule, now, v.Breach?);
        var t := Log(s.(clock := now), seen);
        ChronicleAppend(s.log, now, seen);
        var told := ApplyLogs(cfg, t, rule, severity, now);
        if told == [] {
          assert t.log + told == t.log;
        } else {
          assert told[0] in told && told == [told[0]];
          ChronicleAppend(t.log, now, told[0]);
        }
      }
    case Rename(o, n) =>
      ChronicleAppend(s.log, s.clock, Changed(o));
      ChronicleAppend(s.log + [Changed(o)], s.clock, Changed(n));
    case Ack(id) => ChronicleAppend(s.log, s.clock, Acked(id));
    case Create(n) => ChronicleAppend(s.log, s.clock, Changed(n));
    case Delete(n) => ChronicleAppend(s.log, s.clock, Changed(n));
    case Toggle(n) => ChronicleAppend(s.log, s.clock, Changed(n));
    case Restart => ChronicleAppend(s.log, s.clock, Restarted);
    case _ =>
  }

  lemma {:induction false} RunIsChronicle(cfg: Config, s: State, es: seq<Event>)
    requires Chronicle(s.log, s.clock)
    ensures Chronicle(Run(cfg, s, es).log, Run(cfg, s, es).clock)
    decreases |es|
  {
    if es != [] {
      ChronicleStep(cfg, s, es[0]);
      RunIsChronicle(cfg, Step(cfg, s, es[0]), es[1..]);
    }
  }

  /** The notification at `k`, reminder or all-clear, comes repeatInterval or more after the
      one at `j` of the same row, if the rule is unchanged within one engine lifetime. */
  ghost predicate SpacedFrom(cfg: Config, log: seq<Entry>, j: nat, k: nat)
    requires j < k < |log|
  {
    log[k].Notified? && log[k].kind != Fire && SameRowNotified(log, j, k) && Quiet(log[..k], j, log[k].rule) ==>
      log[k].at - log[j].at >= cfg.repeatInterval
  }

  ghost predicate AllSpaced(cfg: Config, log: seq<Entry>) {
    forall j: nat, k: nat :: j < k < |log| ==> SpacedFrom(cfg, log, j, k)
  }

  /** An all-clear comes resolveAfter or more after the row's last breach. */
  lemma ResolveIsLate(cfg: Config, log: seq<Entry>, clock: int, j: nat, k: nat)
    requires Chronicle(log, clock) && j < k < |log| && log[k].Notified? && JustifiedAt(cfg, log, k)
    requires SameRowNotified(log, j, k)
    ensures log[k].at - log[j].at >= cfg.resolveAfter
  {
    var t :| HealthySince(log[..k], log[k].rule, t) && log[k].at - t >= cfg.resolveAfter;
    var i :| 0 <= i < k && log[..k][i] == Evaluated(log[k].rule, t, false) && Calm(log[..k], i, log[k].rule);
    assert log[i] == Evaluated(log[k].rule, t, false);
    assert FollowsBreach(log, j);
    assert log[..k][j - 1] == log[j - 1];
    assert j - 1 <= i;
    assert log[j].at <= t;
  }

  lemma SpacedWhen(cfg: Config, s: State, es: seq<Event>)
    requires Init(s) && NoneReserved(es) && (cfg.repeatInterval <= 0 || cfg.resolveAfter >= cfg.repeatInterval)
    ensures AllSpaced(cfg, Run(cfg, s, es).log)
  {
    var s' := Run(cfg, s, es);
    RunKeeps(cfg, s, es);
    RunIsChronicle(cfg, s, es);
    forall j: nat, k: nat | j < k < |s'.log| ensures SpacedFrom(cfg, s'.log, j, k) {
      assert EntryOk(cfg, s'.log, k);
      if s'.log[k].Notified? && s'.log[k].kind == Resolve && SameRowNotified(s'.log, j, k) && cfg.repeatInterval > 0 {
        ResolveIsLate(cfg, s'.log, s'.clock, j, k);
      }
    }
  }

  /** A daemon without rules: only the built-in alert is evaluated. */
  const NoRules: State := State([], [], 0, map[], map[], 0, [])

  const StalledRow: AlertRow := AlertRow(0, 0, STALLED, "critical", false, None)

  const Fired: seq<Entry> := [Evaluated(STALLED, 0, true), Notified(0, STALLED, Fire, 0)]

  const AfterBreach: State := State([], [StalledRow], 1, map[], map[STALLED := 0], 0, Fired)

  lemma StalledFires(cfg: Config)
    ensures Step(cfg, NoRules, Evaluation(STALLED, Breach("critical"), 0)) == AfterBreach
  {
    assert NoRules.clearSince - {STALLED} == map[];
  }

  /** An unresolved stalled row, healthy at `now` for as long as it has to be. */
  lemma StalledResolves(cfg: Config, s: State, now: int)
    requires s.alerts == [StalledRow] && s.clock <= now
    requires cfg.resolveAfter > 0 ==> STALLED in s.clearSince && now - s.clearSince[STALLED] >= cfg.resolveAfter
    ensures Step(cfg, s, Evaluation(STALLED, Healthy, now)).log ==
            s.log + [Evaluated(STALLED, now, false)] + [Notified(0, STALLED, Resolve, now)]
  {
    assert ActiveRow(s.alerts, STALLED) == Some(StalledRow);
  }

  lemma StalledWaits(cfg: Config)
    requires cfg.resolveAfter > 0
    ensures var s := Step(cfg, AfterBreach, Evaluation(STALLED, Healthy, 0));
            s.alerts == [StalledRow] && s.clock == 0 && s.clearSince == map[STALLED := 0] &&
            s.log == Fired + [Evaluated(STALLED, 0, false)]
  {
    assert ActiveRow(AfterBreach.alerts, STALLED) == Some(StalledRow);
  }

  lemma TooEarly(cfg: Config, log: seq<Entry>, k: nat)
    requires k < |log| && k > 1 && log[1] == Notified(0, STALLED, Fire, 0)
    requires log[k].Notified? && log[k].id == 0 && log[k].rule == STALLED && log[k].kind == Resolve && log[k].at < cfg.repeatInterval
    requires forall m :: 1 < m < k ==> log[m] == Evaluated(STALLED, 0, false) || log[m] == Evaluated(STALLED, log[k].at, false)
    ensures !AllSpaced(cfg, log)
  {
    assert Quiet(log[..k], 1, STALLED);
    assert !SpacedFrom(cfg, log, 1, k);
  }

  const Stall: Event := Evaluation(STALLED, Breach("critical"), 0)

  lemma EarlyAtOnce(cfg: Config)
    requires cfg.repeatInterval > 0 && cfg.resolveAfter <= 0
    ensures !AllSpaced(cfg, Run(cfg, NoRules, [Stall, Evaluation(STALLED, Healthy, 0)]).log)
  {
    var second := Evaluation(STALLED, Healthy, 0);
    assert [Stall, second][1..] == [second] && [second][1..] == [];
    StalledFires(cfg);
    StalledResolves(cfg, AfterBreach, 0);
    assert Run(cfg, NoRules, [Stall, second]) == Run(cfg, AfterBreach, [second]) == Step(cfg, AfterBreach, second);
    TooEarly(cfg, Run(cfg, NoRules, [Stall, second]).log, 3);
  }

  lemma EarlyAfterWait(cfg: Config)
    requires 0 < cfg.resolveAfter < cfg.repeatInterval
    ensures !AllSpaced(cfg, Run(cfg, NoRules, [Stall, Evaluation(STALLED, Healthy, 0), Evaluation(STALLED, Healthy, cfg.resolveAfter)]).log)
  {
    var second, third := Evaluation(STALLED, Healthy, 0), Evaluation(STALLED, Healthy, cfg.resolveAfter);
    var es := [Stall, second, third];
    assert es[1..] == [second, third] && es[1..][1..] == [third] && es[1..][1..][1..] == [];
    StalledFires(cfg);
    StalledWaits(cfg);
    var s2 := Step(cfg, AfterBreach, second);
    StalledResolves(cfg, s2, cfg.resolveAfter);
    assert Run(cfg, NoRules, es) == Run(cfg, AfterBreach, es[1..]) == Run(cfg, s2, [third]) == Step(cfg, s2, third);
    TooEarly(cfg, Run(cfg, NoRules, es).log, 4);
  }

  /** With a shorter clear period, the all-clear comes sooner after the alert than a reminder
      may. */
  lemma RecoveryComesEarly(cfg: Config) returns (es: seq<Event>)
    requires cfg.repeatInterval > 0 && cfg.resolveAfter < cfg.repeatInterval
    ensures Init(NoRules) && NoneReserved(es) && !AllSpaced(cfg, Run(cfg, NoRules, es).log)
  {
    var second, third := Evaluation(STALLED, Healthy, 0), Evaluation(STALLED, Healthy, cfg.resolveAfter);
    if cfg.resolveAfter > 0 {
      es := [Stall, second, third];
      EarlyAfterWait(cfg);
    } else {
      es := [Stall, second];
      EarlyAtOnce(cfg);
    }
  }

  /** Every run spaces all later notifications of a row by repeatInterval exactly if there is
      no repeat interval or the clear period is at least as long. */
  lemma AllSpacedIff(cfg: Config)
    ensures (forall s, es :: Init(s) && NoneReserved(es) ==> AllSpaced(cfg, Run(cfg, s, es).log)) <==>
            cfg.repeatInterval <= 0 || cfg.resolveAfter >= cfg.repeatInterval
  {
    if cfg.repeatInterval <= 0 || cfg.resolveAfter >= cfg.repeatInterval {
      forall s, es | Init(s) && NoneReserved(es) ensures AllSpaced(cfg, Run(cfg, s, es).log) { SpacedWhen(cfg, s, es); }
    } else {
      var es := RecoveryComesEarly(cfg);
    }
  }

  // ---- No data holds a rule's state

  function RowsOf(s: seq<AlertRow>, rule: string): seq<AlertRow> {
    if s == [] then [] else (if s[0].rule == rule then [s[0]] else []) + RowsOf(s[1..], rule)
  }

  predicate Speaks(e: Entry, rule: string) { e.Notified? && e.rule == rule }

  function NotesOf(log: seq<Entry>, rule: string): seq<Entry> {
    if log == [] then []
    else NotesOf(log[..|log| - 1], rule) + if Speaks(log[|log| - 1], rule) then [log[|log| - 1]] else []
  }

  /** Everything the engine holds or has said about a rule. */
  ghost predicate SameFor(s: State, s': State, rule: string) {
    && RowsOf(s'.alerts, rule) == RowsOf(s.alerts, rule)
    && NotesOf(s'.log, rule) == NotesOf(s.log, rule)
    && (rule in s'.clearSince <==> rule in s.clearSince)
    && (rule in s.clearSince ==> s'.clearSince[rule] == s.clearSince[rule])
    && (rule in s'.lastNotified <==> rule in s.lastNotified)
    && (rule in s.lastNotified ==> s'.lastNotified[rule] == s.lastNotified[rule])
  }

  lemma {:induction false} RowsOfAppend(s: seq<AlertRow>, r: AlertRow, rule: string)
    requires r.rule != rule
    ensures RowsOf(s + [r], rule) == RowsOf(s, rule)
  {
    if s == [] {
      assert (s + [r])[1..] == [];
    } else {
      assert (s + [r])[1..] == s[1..] + [r] && (s + [r])[0] == s[0];
      RowsOfAppend(s[1..], r, rule);
    }
  }

  lemma {:induction false} RowsOfEdit(s: seq<AlertRow>, e: Edit, rule: string)
    requires forall r :: r in s && r.rule == rule ==> EditRow(e, r) == r
    requires forall r :: r in s && r.rule != rule ==> EditRow(e, r).rule != rule
    ensures RowsOf(EditAll(e, s), rule) == RowsOf(s, rule)
  {
    if s != [] {
      assert s[0] in s;
      forall r | r in s[1..] ensures r in s { }
      RowsOfEdit(s[1..], e, rule);
      assert EditAll(e, s)[1..] == EditAll(e, s[1..]);
    }
  }

  lemma NotesAppend(log: seq<Entry>, e: Entry, rule: string)
    ensures NotesOf(log + [e], rule) == NotesOf(log, rule) + if Speaks(e, rule) then [e] else []
  {
    assert (log + [e])[..|log|] == log;
  }

  lemma EditOther(s: State, row: AlertRow, e: Edit, rule: string)
    requires Tables(s) && row in s.alerts && row.rule != rule
    requires e.SetSeverity? || e.SetResolved?
    requires e.id == row.id
    ensures RowsOf(EditAll(e, s.alerts), rule) == RowsOf(s.alerts, rule)
  {
    forall r | r in s.alerts ensures r.id == row.id ==> r == row { OrderedMembers(s.alerts, r, row); }
    RowsOfEdit(s.alerts, e, rule);
  }

  lemma ResolveOther(s: State, m: string, row: AlertRow, now: int, rule: string)
    requires Tables(s) && m != rule && row in s.alerts && row.rule == m
    ensures SameFor(s, ResolveAlert(s, m, row, now), rule)
  {
    EditOther(s, row, SetResolved(row.id, now), rule);
    NotesAppend(s.log, Notified(row.id, m, Resolve, now), rule);
  }

  lemma RemindOther(cfg: Config, s: State, m: string, severity: string, row: AlertRow, now: int, rule: string)
    requires Tables(s) && m != rule && row in s.alerts && row.rule == m
    ensures SameFor(s, Remind(cfg, CarrySeverity(s, severity, row), m, row, now), rule)
  {
    EditOther(s, row, SetSeverity(row.id, severity), rule);
    NotesAppend(s.log, Notified(row.id, m, Reminder, now), rule);
  }

  lemma FireOther(s: State, m: string, severity: string, now: int, rule: string)
    requires m != rule
    ensures SameFor(s, FireAlert(s, m, severity, now), rule)
  {
    RowsOfAppend(s.alerts, AlertRow(s.nextId, now, m, severity, false, None), rule);
    NotesAppend(s.log, Notified(s.nextId, m, Fire, now), rule);
  }

  lemma ApplyOther(cfg: Config, s: State, m: string, severity: Option<string>, now: int, rule: string)
    requires Tables(s) && m != rule
    ensures SameFor(s, Apply(cfg, s, m, severity, now), rule)
  {
    var active := ActiveRow(s.alerts, m);
    var s1 := if severity.Some? || active.None? then s.(clearSince := s.clearSince - {m}) else s;
    TablesSame(s, s1.(clock := s.clock));
    if severity.Some? && active.None? {
      FireOther(s1, m, severity.value, now, rule);
    } else if severity.None? && active.Some? {
      ResolveOther(s1, m, active.value, now, rule);
    } else if severity.Some? && active.Some? {
      RemindOther(cfg, s1, m, severity.value, active.value, now, rule);
    }
  }

  lemma EvaluateOther(cfg: Config, s: State, m: string, v: Verdict, now: int, rule: string)
    requires Tables(s) && now >= s.clock && (m != rule || v.NoData? || v.Failed?)
    ensures SameFor(s, Evaluate(cfg, s, m, v, now), rule)
  {
    var t := s.(clock := now);
    TablesSame(s, t);
    match v
    case Breach(sev) =>
      NotesAppend(s.log, Evaluated(m, now, true), rule);
      TablesLog(t, Evaluated(m, now, true));
      ApplyOther(cfg, Log(t, Evaluated(m, now, true)), m, Some(sev), now, rule);
    case Healthy =>
      NotesAppend(s.log, Evaluated(m, now, false), rule);
      TablesLog(t, Evaluated(m, now, false));
      ApplyOther(cfg, Log(t, Evaluated(m, now, false)), m, None, now, rule);
    case _ =>
  }

  lemma {:induction false} EvaluationsOther(cfg: Config, s: State, es: seq<Event>, rule: string)
    requires Tables(s) && rule in EnabledNames(s.rules)
    requires forall e :: e in es ==> e.Evaluation? && (e.rule != rule || e.verdict.NoData? || e.verdict.Failed?)
    ensures SameFor(s, Run(cfg, s, es), rule) && Run(cfg, s, es).rules == s.rules && Tables(Run(cfg, s, es))
    decreases |es|
  {
    if es != [] {
      var e := es[0];
      assert e in es;
      var s1 := Step(cfg, s, e);
      TablesStep(cfg, s, e);
      EvaluationsKeepRules(cfg, s, e.rule, e.verdict, e.now);
      if e.now >= s.clock { EvaluateOther(cfg, s, e.rule, e.verdict, e.now, rule); }
      EvaluationsOther(cfg, s1, es[1..], rule);
    }
  }

  /** A cycle in which a rule evaluates to no data, or fails, changes no row of it, says
      nothing about it and keeps its timing. */
  lemma NoDataHoldsState(cfg: Config, s: State, loaded: seq<string>, verdicts: seq<Verdict>,
                         stalled: Verdict, now: int, rule: string)
    requires Tables(s) && rule in EnabledNames(s.rules)
    requires |verdicts| == |loaded|
    requires forall i :: 0 <= i < |loaded| && loaded[i] == rule ==> verdicts[i].NoData? || verdicts[i].Failed?
    ensures SameFor(s, Run(cfg, s, CycleEvents(loaded, verdicts, stalled, now)), rule)
  {
    var n := |loaded|;
    var es := CycleEvents(loaded, verdicts, stalled, now);
    var last := [Evaluation(STALLED, stalled, now)];
    assert es == es[..n] + ([EndOfCycle] + last);
    RunAppend(cfg, s, es[..n], [EndOfCycle] + last);
    EvaluationsOther(cfg, s, es[..n], rule);
    var s1 := Run(cfg, s, es[..n]);
    var s2 := Purge(s1);
    assert ([EndOfCycle] + last)[1..] == last;
    assert Run(cfg, s1, [EndOfCycle] + last) == Run(cfg, s2, last);
    TablesSame(s1, s2);
    assert rule in Names(s.rules);
    EvaluationsOther(cfg, s2, last, rule);
  }
}
