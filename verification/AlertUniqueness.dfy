/** One active alert per rule name, in runs that may use the reserved name as well. */
module AlertUniqueness {
  import opened Basics
  import opened AlertEngine
  import opened AlertLifecycle

  ghost predicate OneActiveEach(rows: seq<AlertRow>) {
    forall a, b | a in rows && b in rows && a.rule == b.rule && a.resolvedAt.None? && b.resolvedAt.None? :: a == b
  }

  ghost predicate IdsUnique(rows: seq<AlertRow>) { forall a, b :: a in rows && b in rows && a.id == b.id ==> a == b }

  /** Rows are told apart by id and belong to a rule or to the built-in alert. */
  ghost predicate Known(s: State) {
    && IdsUnique(s.alerts)
    && forall r :: r in s.alerts ==> r.id < s.nextId && (r.rule in Names(s.rules) || r.rule == STALLED)
  }

  // ---- Rows that stay, go or change

  /** Every row of `rows'` was a row of `rows`, of the same rule, and active if it is. */
  ghost predicate Come(rows': seq<AlertRow>, rows: seq<AlertRow>) {
    forall r' :: r' in rows' ==> exists r :: r in rows && Was(r', r)
  }

  ghost predicate Was(r': AlertRow, r: AlertRow) {
    r'.id == r.id && r'.rule == r.rule && (r'.resolvedAt.None? ==> r.resolvedAt.None?)
  }

  lemma ComeKeeps(rows': seq<AlertRow>, rows: seq<AlertRow>)
    requires Come(rows', rows) && IdsUnique(rows') && OneActiveEach(rows)
    ensures OneActiveEach(rows')
  {
    forall a, b | a in rows' && b in rows' && a.rule == b.rule && a.resolvedAt.None? && b.resolvedAt.None? ensures a == b {
      var p :| p in rows && Was(a, p);
      var q :| q in rows && Was(b, q);
      assert p == q;
    }
  }

  lemma EditedRowOf(e: Edit, rows: seq<AlertRow>, a: AlertRow) returns (p: AlertRow)
    requires a in EditAll(e, rows)
    ensures p in rows && a == EditRow(e, p) && a.id == p.id
  {
    EditMember(e, rows, a);
    p :| p in rows && a == EditRow(e, p);
  }

  lemma EditIds(e: Edit, rows: seq<AlertRow>)
    requires IdsUnique(rows)
    ensures IdsUnique(EditAll(e, rows))
  {
    forall a, b | a in EditAll(e, rows) && b in EditAll(e, rows) && a.id == b.id ensures a == b {
      var p := EditedRowOf(e, rows, a);
      var q := EditedRowOf(e, rows, b);
      assert p == q;
    }
  }

  lemma EditComes(e: Edit, rows: seq<AlertRow>)
    requires !e.SetRule?
    ensures Come(EditAll(e, rows), rows)
  {
    forall r' | r' in EditAll(e, rows) ensures exists r :: r in rows && Was(r', r) {
      EditMember(e, rows, r');
      var r :| r in rows && r' == EditRow(e, r);
      assert Was(r', r);
    }
  }

  lemma SubsetComes(rows': seq<AlertRow>, rows: seq<AlertRow>)
    requires forall r :: r in rows' ==> r in rows
    ensures Come(rows', rows)
    ensures IdsUnique(rows) ==> IdsUnique(rows')
  {
    forall r | r in rows' ensures exists q :: q in rows && Was(r, q) { assert Was(r, r); }
  }

  // ---- Every event

  ghost predicate Edited(rows': seq<AlertRow>, rows: seq<AlertRow>) {
    rows' == rows || exists e: Edit :: !e.SetRule? && rows' == EditAll(e, rows)
  }

  lemma SettleRows(cfg: Config, s: State, rule: string, row: AlertRow, now: int)
    ensures var s' := Settle(cfg, s, rule, row, now); s'.rules == s.rules && s'.nextId == s.nextId && Edited(s'.alerts, s.alerts)
  {
    var e := SetResolved(row.id, now);
    assert !e.SetRule? && ResolveAlert(s, rule, row, now).alerts == EditAll(e, s.alerts);
  }

  lemma RemindRows(cfg: Config, s: State, rule: string, severity: string, row: AlertRow, now: int)
    ensures var s' := Remind(cfg, CarrySeverity(s, severity, row), rule, row, now);
            s'.rules == s.rules && s'.nextId == s.nextId && Edited(s'.alerts, s.alerts)
  {
    var e := SetSeverity(row.id, severity);
    assert !e.SetRule? && (severity != row.severity ==> CarrySeverity(s, severity, row).alerts == EditAll(e, s.alerts));
  }

  /** What one verdict does to the rows: an edit of one, if anything, or a row added for a
      rule without an active one. */
  lemma ApplyRows(cfg: Config, s: State, rule: string, severity: Option<string>, now: int)
    ensures var s' := Apply(cfg, s, rule, severity, now);
            && s'.rules == s.rules && s'.nextId >= s.nextId
            && (|| Edited(s'.alerts, s.alerts)
                || (ActiveRow(s.alerts, rule).None? && s'.nextId == s.nextId + 1 && severity.Some? &&
                    s'.alerts == s.alerts + [AlertRow(s.nextId, now, rule, severity.value, false, None)]))
  {
    var active := ActiveRow(s.alerts, rule);
    var s1 := if severity.Some? || active.None? then s.(clearSince := s.clearSince - {rule}) else s;
    if active.Some? {
      if severity.Some? {
        RemindRows(cfg, s1, rule, severity.value, active.value, now);
      } else {
        SettleRows(cfg, s1, rule, active.value, now);
      }
    }
  }

  lemma EditedKeeps(rows': seq<AlertRow>, rows: seq<AlertRow>)
    requires Edited(rows', rows) && IdsUnique(rows) && OneActiveEach(rows)
    ensures IdsUnique(rows') && OneActiveEach(rows') && Come(rows', rows)
  {
    SubsetComes(rows, rows);
    if rows' != rows {
      var e: Edit :| !e.SetRule? && rows' == EditAll(e, rows);
      EditIds(e, rows);
      EditComes(e, rows);
      ComeKeeps(rows', rows);
    }
  }

  lemma FireKeeps(s: State, row: AlertRow)
    requires Known(s) && OneActiveEach(s.alerts) && row.id == s.nextId && row.resolvedAt.None?
    requires ActiveRow(s.alerts, row.rule).None?
    ensures IdsUnique(s.alerts + [row]) && OneActiveEach(s.alerts + [row])
  {
  }

  lemma EvaluationKeeps(cfg: Config, s: State, rule: string, v: Verdict, now: int)
    requires Known(s) && OneActiveEach(s.alerts) && (rule == STALLED || rule in EnabledNames(s.rules))
    ensures Known(Evaluate(cfg, s, rule, v, now)) && OneActiveEach(Evaluate(cfg, s, rule, v, now).alerts)
  {
    if v.Breach? || v.Healthy? {
      var severity := if v.Breach? then Some(v.severity) else None;
      var t := Log(s.(clock := now), Evaluated(rule, now, v.Breach?));
      ApplyRows(cfg, t, rule, severity, now);
      var s' := Apply(cfg, t, rule, severity, now);
      if Edited(s'.alerts, s.alerts) {
        EditedKeeps(s'.alerts, s.alerts);
      } else {
        FireKeeps(s, AlertRow(s.nextId, now, rule, severity.value, false, None));
      }
    }
  }

  /** The rename of a rule with an active row onto a name with an active row. */
  ghost predicate Joins(s: State, e: Event) {
    && e.Rename? && e.from in Names(s.rules) && e.to !in Names(s.rules)
    && ActiveRow(s.alerts, e.from).Some? && ActiveRow(s.alerts, e.to).Some?
  }

  lemma RenameKnown(s: State, o: string, n: string)
    requires Known(s) && o in Names(s.rules) && n !in Names(s.rules)
    ensures IdsUnique(EditAll(SetRule(o, n), s.alerts))
    ensures forall r :: r in EditAll(SetRule(o, n), s.alerts) ==>
              r.id < s.nextId && (r.rule in Names(RenameRule(s.rules, o, n)) || r.rule == STALLED)
  {
    var edit := SetRule(o, n);
    EditIds(edit, s.alerts);
    forall r | r in EditAll(edit, s.alerts)
      ensures r.id < s.nextId && (r.rule in Names(RenameRule(s.rules, o, n)) || r.rule == STALLED)
    {
      EditMember(edit, s.alerts, r);
      var q :| q in s.alerts && r == EditRow(edit, q);
      RenameRuleNames(s.rules, o, n, r.rule);
    }
  }

  lemma TwoActiveJoin(s: State, o: string, n: string, x: AlertRow, y: AlertRow)
    requires x in s.alerts && y in s.alerts && x.rule == o && y.rule == n && o != n
    requires x.resolvedAt.None? && y.resolvedAt.None? && x.id != y.id
    ensures !OneActiveEach(EditAll(SetRule(o, n), s.alerts))
  {
    EditMember(SetRule(o, n), s.alerts, x);
    EditMember(SetRule(o, n), s.alerts, y);
    assert x.(rule := n) in EditAll(SetRule(o, n), s.alerts) && y in EditAll(SetRule(o, n), s.alerts);
  }

  lemma OneActiveStays(s: State, o: string, n: string, gone: string)
    requires OneActiveEach(s.alerts) && (gone == o || gone == n)
    requires forall r :: r in s.alerts && r.rule == gone ==> r.resolvedAt.Some?
    ensures OneActiveEach(EditAll(SetRule(o, n), s.alerts))
  {
    var rows := EditAll(SetRule(o, n), s.alerts);
    forall a, b | a in rows && b in rows && a.rule == b.rule && a.resolvedAt.None? && b.resolvedAt.None? ensures a == b {
      EditMember(SetRule(o, n), s.alerts, a);
      EditMember(SetRule(o, n), s.alerts, b);
      var p :| p in s.alerts && a == EditRow(SetRule(o, n), p);
      var q :| q in s.alerts && b == EditRow(SetRule(o, n), q);
      assert p.rule != gone && q.rule != gone;
      assert p.rule == q.rule;
    }
  }

  /** Exactly when a rename keeps one active row per name: unless both names have one.  Rule
      names being unique, that takes the built-in alert's name as the target. */
  lemma RenameKeepsOneActiveIff(s: State, o: string, n: string)
    requires Known(s) && OneActiveEach(s.alerts) && o in Names(s.rules) && n !in Names(s.rules)
    ensures OneActiveEach(EditAll(SetRule(o, n), s.alerts)) <==>
            !(ActiveRow(s.alerts, o).Some? && ActiveRow(s.alerts, n).Some?)
    ensures n != STALLED ==> ActiveRow(s.alerts, n).None?
  {
    var x, y := ActiveRow(s.alerts, o), ActiveRow(s.alerts, n);
    if x.Some? && y.Some? {
      TwoActiveJoin(s, o, n, x.value, y.value);
    } else {
      OneActiveStays(s, o, n, if x.None? then o else n);
    }
  }

  lemma RowsKeep(s: State, s': State)
    requires Known(s) && OneActiveEach(s.alerts)
    requires forall r :: r in s'.alerts ==> r in s.alerts && (r.rule in Names(s'.rules) || r.rule == STALLED)
    requires s'.nextId == s.nextId
    ensures Known(s') && OneActiveEach(s'.alerts)
  {
    SubsetComes(s'.alerts, s.alerts);
    ComeKeeps(s'.alerts, s.alerts);
  }

  lemma StepKeeps(cfg: Config, s: State, e: Event)
    requires Known(s) && OneActiveEach(s.alerts)
    ensures Known(Step(cfg, s, e))
    ensures OneActiveEach(Step(cfg, s, e).alerts) <==> !Joins(s, e)
  {
    var s' := Step(cfg, s, e);
    match e
    case Evaluation(rule, v, now) =>
      if now >= s.clock && (rule == STALLED || rule in EnabledNames(s.rules)) { EvaluationKeeps(cfg, s, rule, v, now); }
    case Ack(id) =>
      if exists r :: r in s.alerts && r.id == id { AckKeeps(s, id); }
    case Clear(id) =>
      forall r | r in s'.alerts ensures r in s.alerts { WithoutIdMember(s.alerts, id, r); }
      RowsKeep(s, s');
    case Create(n) =>
      if n !in Names(s.rules) {
        forall m ensures m in Names(s.rules) ==> m in Names(s'.rules) { AppendMembers(s.rules, Rule(n, true), m); }
        RowsKeep(s, s');
      }
    case Rename(o, n) =>
      if o in Names(s.rules) && n !in Names(s.rules) {
        RenameKnown(s, o, n);
        RenameKeepsOneActiveIff(s, o, n);
      }
    case Delete(n) =>
      if n in Names(s.rules) {
        forall r | r in s'.alerts ensures r in s.alerts && (r.rule in Names(s'.rules) || r.rule == STALLED) {
          WithoutRuleMember(s.alerts, n, r);
          DropMembers(s.rules, n, r.rule);
        }
        RowsKeep(s, s');
      }
    case Toggle(n) =>
      if n in Names(s.rules) {
        forall m ensures m in Names(s.rules) ==> m in Names(s'.rules) { ToggleMembers(s.rules, n, m); }
        RowsKeep(s, s');
      }
    case _ =>
  }

  lemma AckKeeps(s: State, id: nat)
    requires Known(s) && OneActiveEach(s.alerts)
    ensures Known(s.(alerts := EditAll(Acknowledge(id), s.alerts))) && OneActiveEach(EditAll(Acknowledge(id), s.alerts))
  {
    var rows := EditAll(Acknowledge(id), s.alerts);
    EditIds(Acknowledge(id), s.alerts);
    EditComes(Acknowledge(id), s.alerts);
    ComeKeeps(rows, s.alerts);
  }

  // ---- Whole runs

  ghost predicate AlwaysOneActive(cfg: Config, s: State, es: seq<Event>)
    decreases |es|
  {
    OneActiveEach(s.alerts) && (es != [] ==> AlwaysOneActive(cfg, Step(cfg, s, es[0]), es[1..]))
  }

  /** Somewhere in the run a rule with an active row is renamed onto a name with one. */
  ghost predicate SomeJoin(cfg: Config, s: State, es: seq<Event>)
    decreases |es|
  {
    es != [] && (Joins(s, es[0]) || SomeJoin(cfg, Step(cfg, s, es[0]), es[1..]))
  }

  lemma {:induction false} OneActiveIffFrom(cfg: Config, s: State, es: seq<Event>)
    requires Known(s) && OneActiveEach(s.alerts)
    ensures AlwaysOneActive(cfg, s, es) <==> !SomeJoin(cfg, s, es)
    decreases |es|
  {
    if es != [] {
      StepKeeps(cfg, s, es[0]);
      if !Joins(s, es[0]) { OneActiveIffFrom(cfg, Step(cfg, s, es[0]), es[1..]); }
    }
  }

  /** The only name such a rename can be onto is the reserved one. */
  lemma JoinsOntoReserved(s: State, e: Event)
    requires Known(s) && Joins(s, e)
    ensures e.to == STALLED
  {
  }

  /** In every run of evaluations, acks, clears, rule changes and restarts, whatever names the
      rules take, a name has at most one active row at every moment, exactly if no rule with
      an active row is renamed onto a name with one; that name is the reserved one. */
  lemma OneActiveIff(cfg: Config, s: State, es: seq<Event>)
    requires DistinctRules(s.rules) && s.alerts == []
    ensures AlwaysOneActive(cfg, s, es) <==> !SomeJoin(cfg, s, es)
  {
    OneActiveIffFrom(cfg, s, es);
  }

  // ---- A run that joins two

  const UserRule: State := NoRules.(rules := [Rule("a", true)])
  const UserRow: AlertRow := AlertRow(0, 0, "a", "warning", false, None)
  const BuiltInRow: AlertRow := AlertRow(1, 0, STALLED, "critical", false, None)

  lemma UserRuleFires(cfg: Config)
    ensures var s := Step(cfg, UserRule, Evaluation("a", Breach("warning"), 0));
            s.alerts == [UserRow] && s.rules == UserRule.rules && s.clock == 0 && s.nextId == 1
  {
    assert UserRule.rules[0] in UserRule.rules;
    assert "a" in EnabledNames(UserRule.rules);
  }

  lemma BuiltInFires(cfg: Config, s: State)
    requires s.alerts == [UserRow] && s.clock == 0 && s.nextId == 1
    ensures var s' := Step(cfg, s, Evaluation(STALLED, Breach("critical"), 0));
            s'.alerts == [UserRow, BuiltInRow] && s'.rules == s.rules
  {
    assert |"a"| != |STALLED|;
    assert s.alerts[1..] == [];
    assert ActiveRow(s.alerts, STALLED) == None;
    assert [UserRow] + [BuiltInRow] == [UserRow, BuiltInRow];
  }

  /** Rule "a" breaches while collection stalls, and is renamed to the reserved name. */
  lemma ReservedRenameJoins(cfg: Config) returns (es: seq<Event>)
    ensures Init(UserRule) && SomeJoin(cfg, UserRule, es) && !AlwaysOneActive(cfg, UserRule, es)
  {
    var first, second, third := Evaluation("a", Breach("warning"), 0), Evaluation(STALLED, Breach("critical"), 0), Rename("a", STALLED);
    es := [first, second, third];
    assert es[1..] == [second, third] && es[1..][1..] == [third];
    UserRuleFires(cfg);
    var s1 := Step(cfg, UserRule, first);
    BuiltInFires(cfg, s1);
    var s2 := Step(cfg, s1, second);
    assert |"a"| != |STALLED|;
    assert s2.rules == [Rule("a", true)] && Rule("a", true) in s2.rules;
    assert UserRow in s2.alerts && BuiltInRow in s2.alerts;
    assert Joins(s2, third);
    assert SomeJoin(cfg, s2, [third]);
    assert SomeJoin(cfg, s1, es[1..]);
    OneActiveIff(cfg, UserRule, es);
  }
}
