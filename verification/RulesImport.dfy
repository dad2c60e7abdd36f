/** Alert rules on a daemon, and making them match a rules file. */
module RulesImport {
  import opened Basics

  /** A rule's type: one of the five the daemon knows, or any other text. */
  datatype Kind = Threshold | Predictive | Variance | ProcessDown | ProcessThrashing | Other(text: string)

  datatype Rule = Rule(
    id: int, name: string, kind: Kind, severity: string, enabled: bool,
    metric: string, operator: string, value: real, duration: string, aggregate: string,
    mount: string, interfaceName: string, sensor: string,
    predictHours: int, thresholdPct: real,
    deltaThreshold: real, minCount: int,
    processName: string, processPattern: string, minInstances: int,
    restartThreshold: int, restartWindow: string, checkDuration: string)

  /** A rule with no configuration. */
  function Bare(id: int, name: string, kind: Kind, severity: string, enabled: bool): Rule {
    Rule(id, name, kind, severity, enabled, "", "", 0.0, "", "", "", "", "", 0, 0.0, 0.0, 0, "", "", 0, 0, "", "")
  }

  predicate KnownKind(kind: Kind) { !kind.Other? }

  /** What is read back after `r` is written: the columns of its kind's table. */
  function Stored(r: Rule): Rule {
    var bare := Bare(r.id, r.name, r.kind, r.severity, r.enabled);
    match r.kind
    case Threshold =>
      bare.(metric := r.metric, operator := r.operator, value := r.value, duration := r.duration, mount := r.mount,
            interfaceName := r.interfaceName, sensor := r.sensor,
            aggregate := if r.aggregate == "" then "avg" else r.aggregate)
    case Predictive =>
      bare.(metric := r.metric, mount := r.mount, predictHours := r.predictHours, thresholdPct := r.thresholdPct)
    case Variance =>
      bare.(metric := r.metric, deltaThreshold := r.deltaThreshold, minCount := r.minCount, duration := r.duration)
    case ProcessDown =>
      bare.(processName := r.processName, processPattern := r.processPattern, minInstances := r.minInstances,
            checkDuration := r.checkDuration)
    case ProcessThrashing =>
      bare.(processName := r.processName, processPattern := r.processPattern, restartThreshold := r.restartThreshold,
            restartWindow := r.restartWindow)
    case Other(_) => bare
  }

  /** No field is set that the rule's kind does not have. */
  predicate CarriesOnlyItsFields(r: Rule) {
    var threshold, predictive := r.kind.Threshold?, r.kind.Predictive?;
    var variance, down, thrashing := r.kind.Variance?, r.kind.ProcessDown?, r.kind.ProcessThrashing?;
    && (r.metric != "" ==> threshold || predictive || variance)
    && (r.operator != "" ==> threshold)
    && (r.value != 0.0 ==> threshold)
    && (r.duration != "" ==> threshold || variance)
    && (r.aggregate != "" ==> threshold)
    && (r.mount != "" ==> threshold || predictive)
    && (r.interfaceName != "" ==> threshold)
    && (r.sensor != "" ==> threshold)
    && (r.predictHours != 0 ==> predictive)
    && (r.thresholdPct != 0.0 ==> predictive)
    && (r.deltaThreshold != 0.0 ==> variance)
    && (r.minCount != 0 ==> variance)
    && (r.processName != "" ==> down || thrashing)
    && (r.processPattern != "" ==> down || thrashing)
    && (r.minInstances != 0 ==> down)
    && (r.restartThreshold != 0 ==> thrashing)
    && (r.restartWindow != "" ==> thrashing)
    && (r.checkDuration != "" ==> down)
  }

  function Normalised(r: Rule): Rule {
    r.(id := 0, enabled := false, aggregate := if r.kind.Threshold? && r.aggregate == "" then "avg" else r.aggregate)
  }

  predicate SameRule(cur: Rule, want: Rule) { Normalised(cur) == Normalised(want) }

  /** Field by field `want` is `cur`, but for id and flag, and an aggregate left out means avg. */
  predicate ReadsLike(cur: Rule, want: Rule) {
    var there := want.(id := cur.id, enabled := cur.enabled);
    there == cur ||
    (cur.kind.Threshold? && cur.aggregate in ["", "avg"] && want.aggregate in ["", "avg"] &&
     there.(aggregate := cur.aggregate) == cur)
  }

  lemma SameRuleIff(cur: Rule, want: Rule)
    ensures SameRule(cur, want) <==> ReadsLike(cur, want)
  {
    var c, w := Normalised(cur), Normalised(want);
    var there := want.(id := cur.id, enabled := cur.enabled);
    if c == w {
      assert cur.aggregate == want.aggregate ==> there == cur;
      assert cur.aggregate != want.aggregate ==> there.(aggregate := cur.aggregate) == cur;
    }
  }

  /** A written rule reads back equal to what was asked for exactly when it carries only the
      fields of its kind. */
  lemma StoredIsSameIff(r: Rule, id: int, enabled: bool)
    requires KnownKind(r.kind)
    ensures SameRule(Stored(r.(id := id, enabled := enabled)), r) <==> CarriesOnlyItsFields(r)
  {
  }

  // ---- The daemon

  predicate ValidField(s: string) { forall c :: c in s ==> c >= 0x20 as char && c != 0x7f as char }

  predicate ValidAggregate(metric: string, aggregate: string) {
    aggregate in ["", "avg", "max", "min"] ||
    (aggregate == "increase" &&
     metric in ["smart.reallocated", "smart.pending", "smart.uncorrectable", "ecc.uncorrectable", "ecc.corrected"])
  }

  predicate Acceptable(r: Rule) {
    r.name != "" && ValidField(r.name) && ValidField(r.severity) && ValidAggregate(r.metric, r.aggregate)
  }

  datatype Host = Host(rules: seq<Rule>, nextId: int)
  datatype Reply = Reply(host: Host, ok: bool)

  /** The rule with a name: the last, if there are several. */
  function Lookup(rules: seq<Rule>, name: string): Option<Rule> {
    if rules == [] then None
    else if rules[|rules| - 1].name == name then Some(rules[|rules| - 1])
    else Lookup(rules[..|rules| - 1], name)
  }

  ghost predicate Valid(h: Host) {
    && (forall i, j :: 0 <= i < j < |h.rules| ==> h.rules[i].id != h.rules[j].id && h.rules[i].name != h.rules[j].name)
    && (forall i :: 0 <= i < |h.rules| ==> Proper(h.rules[i], h.nextId))
  }

  predicate Proper(r: Rule, nextId: int) { r.id < nextId && KnownKind(r.kind) && Stored(r) == r }

  predicate HasId(rules: seq<Rule>, id: int) { exists i :: 0 <= i < |rules| && rules[i].id == id }

  predicate NameTaken(rules: seq<Rule>, name: string) { exists i :: 0 <= i < |rules| && rules[i].name == name }

  /** A create request. */
  function Create(h: Host, r: Rule): Reply {
    if !Acceptable(r) || NameTaken(h.rules, r.name) then Reply(h, false)
    else if !KnownKind(r.kind) then Reply(h.(nextId := h.nextId + 1), false)
    else Reply(Host(h.rules + [Stored(r.(id := h.nextId, enabled := true))], h.nextId + 1), true)
  }

  function IndexOf(rules: seq<Rule>, id: int): (i: nat)
    requires HasId(rules, id)
    ensures i < |rules| && rules[i].id == id
  {
    if rules[0].id == id then 0
    else
      assert HasId(rules[1..], id) by {
        var k :| 0 <= k < |rules| && rules[k].id == id;
        assert rules[1..][k - 1].id == id;
      }
      IndexOf(rules[1..], id) + 1
  }

  /** The rule an update request leaves in place of `cur`. */
  function Merged(cur: Rule, r: Rule): Rule { Stored(r.(id := cur.id, kind := cur.kind, enabled := cur.enabled)) }

  /** An update request, for the rule with its id. */
  function Update(h: Host, r: Rule): Reply {
    if !Acceptable(r) || !HasId(h.rules, r.id) then Reply(h, false)
    else
      var i := IndexOf(h.rules, r.id);
      var cur := h.rules[i];
      if r.kind != Other("") && r.kind != cur.kind then Reply(h, false)
      else if r.name != cur.name && NameTaken(h.rules, r.name) then Reply(h, false)
      else Reply(h.(rules := h.rules[i := Merged(cur, r)]), true)
  }

  function Toggle(h: Host, id: int): Reply {
    if !HasId(h.rules, id) then Reply(h, false)
    else
      var i := IndexOf(h.rules, id);
      Reply(h.(rules := h.rules[i := h.rules[i].(enabled := !h.rules[i].enabled)]), true)
  }

  // ---- Looking rules up

  lemma {:induction false} LookupIff(rules: seq<Rule>, name: string)
    ensures Lookup(rules, name).None? <==> !NameTaken(rules, name)
    ensures Lookup(rules, name).Some? ==> Lookup(rules, name).value in rules && Lookup(rules, name).value.name == name
    decreases |rules|
  {
    if rules != [] {
      var n := |rules| - 1;
      LookupIff(rules[..n], name);
      if rules[n].name != name && NameTaken(rules, name) {
        var i :| 0 <= i < |rules| && rules[i].name == name;
        assert rules[..n][i].name == name;
      }
      if NameTaken(rules[..n], name) {
        var i :| 0 <= i < n && rules[..n][i].name == name;
        assert rules[i].name == name;
      }
    }
  }

  lemma LookupIs(h: Host, i: nat)
    requires Valid(h) && i < |h.rules|
    ensures Lookup(h.rules, h.rules[i].name) == Some(h.rules[i])
  {
    LookupIff(h.rules, h.rules[i].name);
    var c := Lookup(h.rules, h.rules[i].name).value;
    var k :| 0 <= k < |h.rules| && h.rules[k] == c;
    assert k == i;
  }

  /** Two hosts have the same rules but for one name. */
  ghost predicate SameElsewhere(h': Host, h: Host, name: string) {
    forall n :: n != name ==> Lookup(h'.rules, n) == Lookup(h.rules, n)
  }

  lemma WrittenIsProper(cur: Rule, r: Rule, nextId: int)
    requires Proper(cur, nextId)
    ensures Proper(Merged(cur, r), nextId) && Proper(cur.(enabled := !cur.enabled), nextId)
    ensures Merged(cur, r).id == cur.id && Merged(cur, r).name == r.name && Merged(cur, r).kind == cur.kind
    ensures Merged(cur, r).enabled == cur.enabled
  {
    StoredIsProper(r.(id := cur.id, kind := cur.kind, enabled := cur.enabled), nextId);
  }

  /** Replacing a rule by one with its name and id changes only that name. */
  lemma ReplaceView(h: Host, i: nat, c: Rule)
    requires Valid(h) && i < |h.rules| && Proper(c, h.nextId)
    requires c.id == h.rules[i].id && c.name == h.rules[i].name
    ensures var h' := h.(rules := h.rules[i := c]);
            && Valid(h') && Lookup(h'.rules, c.name) == Some(c)
            && SameElsewhere(h', h, c.name)
  {
    var h' := h.(rules := h.rules[i := c]);
    LookupIs(h', i);
    forall n | n != c.name ensures Lookup(h'.rules, n) == Lookup(h.rules, n) { ReplaceElsewhere(h.rules, i, c, n); }
  }

  lemma {:induction false} ReplaceElsewhere(rules: seq<Rule>, i: nat, c: Rule, name: string)
    requires i < |rules| && rules[i].name == c.name != name
    ensures Lookup(rules[i := c], name) == Lookup(rules, name)
    decreases |rules|
  {
    var n := |rules| - 1;
    if i == n {
      assert rules[i := c][..n] == rules[..n];
    } else {
      assert rules[i := c][..n] == rules[..n][i := c];
      ReplaceElsewhere(rules[..n], i, c, name);
    }
  }

  lemma CreateView(h: Host, r: Rule)
    requires Valid(h) && NewRuleAccepted(r) && Lookup(h.rules, r.name).None?
    ensures var h' := Create(h, r).host;
            && Create(h, r).ok && Valid(h') && h'.nextId == h.nextId + 1
            && Lookup(h'.rules, r.name) == Some(Stored(r.(id := h.nextId, enabled := true)))
            && SameElsewhere(h', h, r.name)
  {
    LookupIff(h.rules, r.name);
    var c := Stored(r.(id := h.nextId, enabled := true));
    StoredIsProper(r.(id := h.nextId, enabled := true), h.nextId + 1);
    AppendView(h, c);
  }

  lemma AppendView(h: Host, c: Rule)
    requires Valid(h) && Proper(c, h.nextId + 1) && c.id == h.nextId && !NameTaken(h.rules, c.name)
    ensures var h' := Host(h.rules + [c], h.nextId + 1);
            Valid(h') && Lookup(h'.rules, c.name) == Some(c) && SameElsewhere(h', h, c.name)
  {
    var h' := Host(h.rules + [c], h.nextId + 1);
    assert h'.rules[..|h.rules|] == h.rules;
    forall i | 0 <= i < |h.rules| ensures h.rules[i].name != c.name && h.rules[i].id != c.id && Proper(h.rules[i], h.nextId + 1) {
      assert Proper(h.rules[i], h.nextId);
    }
  }

  lemma StoredIsProper(r: Rule, nextId: int)
    requires r.id < nextId && KnownKind(r.kind)
    ensures Proper(Stored(r), nextId) && Stored(r).id == r.id && Stored(r).name == r.name
    ensures Stored(r).kind == r.kind && Stored(r).enabled == r.enabled
  {
  }

  predicate NewRuleAccepted(r: Rule) { Acceptable(r) && KnownKind(r.kind) }

  /** The position of a rule found by name. */
  lemma FoundAt(h: Host, name: string) returns (i: nat)
    requires Valid(h) && Lookup(h.rules, name).Some?
    ensures i < |h.rules| && h.rules[i] == Lookup(h.rules, name).value && h.rules[i].name == name
    ensures HasId(h.rules, h.rules[i].id) && IndexOf(h.rules, h.rules[i].id) == i
    ensures Proper(h.rules[i], h.nextId)
  {
    LookupIff(h.rules, name);
    i :| 0 <= i < |h.rules| && h.rules[i] == Lookup(h.rules, name).value;
    var k := IndexOf(h.rules, h.rules[i].id);
    assert k == i;
  }

  lemma UpdateAt(h: Host, r: Rule, i: nat)
    requires i < |h.rules| && HasId(h.rules, h.rules[i].id) && IndexOf(h.rules, h.rules[i].id) == i
    requires Acceptable(r) && h.rules[i].kind == r.kind && h.rules[i].name == r.name
    ensures Update(h, r.(id := h.rules[i].id)) == Reply(h.(rules := h.rules[i := Merged(h.rules[i], r)]), true)
  {
    var r' := r.(id := h.rules[i].id);
    assert Merged(h.rules[i], r') == Merged(h.rules[i], r);
  }

  lemma UpdateView(h: Host, r: Rule, cur: Rule)
    requires Valid(h) && Lookup(h.rules, r.name) == Some(cur) && cur.kind == r.kind
    ensures var reply := Update(h, r.(id := cur.id));
            && reply.ok == Acceptable(r) && Valid(reply.host) && reply.host.nextId == h.nextId
            && Lookup(reply.host.rules, r.name) == Some(if Acceptable(r) then Merged(cur, r) else cur)
            && SameElsewhere(reply.host, h, r.name)
  {
    var i := FoundAt(h, r.name);
    WrittenIsProper(cur, r, h.nextId);
    if Acceptable(r) {
      ReplaceView(h, i, Merged(cur, r));
      UpdateAt(h, r, i);
    }
  }

  lemma ToggleView(h: Host, name: string, cur: Rule)
    requires Valid(h) && Lookup(h.rules, name) == Some(cur)
    ensures var reply := Toggle(h, cur.id);
            && reply.ok && Valid(reply.host) && reply.host.nextId == h.nextId
            && Lookup(reply.host.rules, name) == Some(cur.(enabled := !cur.enabled))
            && SameElsewhere(reply.host, h, name)
  {
    var i := FoundAt(h, name);
    WrittenIsProper(cur, cur, h.nextId);
    ReplaceView(h, i, cur.(enabled := !cur.enabled));
  }

  // ---- What the API accepts

  /** No control character. */
  predicate Printable(s: string) { forall i :: 0 <= i < |s| ==> 32 <= s[i] as int && s[i] as int != 127 }

  /** What the daemon asks of a rule's texts: a name, no control characters, and an aggregate it
      knows, "increase" being for counters alone. */
  lemma AcceptableIff(r: Rule)
    ensures Acceptable(r) <==>
      && |r.name| > 0 && Printable(r.name) && Printable(r.severity)
      && (r.aggregate == "" || r.aggregate == "avg" || r.aggregate == "max" || r.aggregate == "min" || r.aggregate == "increase")
      && (r.aggregate == "increase" ==>
            || r.metric == "smart.reallocated" || r.metric == "smart.pending" || r.metric == "smart.uncorrectable"
            || r.metric == "ecc.uncorrectable" || r.metric == "ecc.corrected")
  {
    PrintableIff(r.name);
    PrintableIff(r.severity);
  }

  lemma PrintableIff(s: string)
    ensures ValidField(s) <==> Printable(s)
  {
    if ValidField(s) {
      forall i | 0 <= i < |s| ensures 32 <= s[i] as int && s[i] as int != 127 { assert s[i] in s; }
    }
    if Printable(s) {
      forall c | c in s ensures c >= 0x20 as char && c != 0x7f as char {
        var i :| 0 <= i < |s| && s[i] == c;
      }
    }
  }

  /** A new rule is made exactly if its texts are acceptable, its type is known and its name is
      free; it is enabled, has a new id and is what was asked for exactly if it carries only
      the fields of its type. */
  lemma CreateIs(h: Host, r: Rule)
    requires Valid(h)
    ensures var reply := Create(h, r);
            && (reply.ok <==> Acceptable(r) && KnownKind(r.kind) && forall i :: 0 <= i < |h.rules| ==> h.rules[i].name != r.name)
            && (!reply.ok ==> reply.host.rules == h.rules)
            && (reply.ok ==> exists c ::
                  && reply.host.rules == h.rules + [c] && c.enabled && c.name == r.name && c.kind == r.kind
                  && (forall i :: 0 <= i < |h.rules| ==> h.rules[i].id != c.id)
                  && (ReadsLike(c, r) <==> CarriesOnlyItsFields(r)))
  {
    var c := Stored(r.(id := h.nextId, enabled := true));
    if Create(h, r).ok {
      assert Create(h, r).host.rules == h.rules + [c];
      StoredIsSameIff(r, h.nextId, true);
      SameRuleIff(c, r);
      forall i | 0 <= i < |h.rules| ensures h.rules[i].id != c.id { assert Proper(h.rules[i], h.nextId); }
    }
  }

  /** An update is made exactly if its texts are acceptable, it does not change the type, and no
      other rule has its name; the rule keeps its place, id, type and flag, and is what was
      asked for exactly if that carries only the fields of the type. */
  lemma UpdateIs(h: Host, r: Rule, i: nat)
    requires Valid(h) && i < |h.rules| && h.rules[i].id == r.id
    ensures var reply, cur := Update(h, r), h.rules[i];
            var want := r.(kind := cur.kind);
            && (reply.ok <==> && Acceptable(r) && (r.kind == cur.kind || r.kind == Other(""))
                              && forall j :: 0 <= j < |h.rules| && j != i ==> h.rules[j].name != r.name)
            && (!reply.ok ==> reply.host == h)
            && (reply.ok ==> exists c ::
                  && reply.host == h.(rules := h.rules[i := c])
                  && c.id == cur.id && c.name == r.name && c.kind == cur.kind && c.enabled == cur.enabled
                  && (ReadsLike(c, want) <==> CarriesOnlyItsFields(want)))
  {
    var cur := h.rules[i];
    var want := r.(kind := cur.kind);
    assert HasId(h.rules, r.id);
    var k := IndexOf(h.rules, r.id);
    assert k == i;
    assert Proper(cur, h.nextId);
    if Update(h, r).ok {
      var c := Merged(cur, r);
      assert c == Stored(want.(id := cur.id, enabled := cur.enabled));
      WrittenIsProper(cur, r, h.nextId);
      StoredIsSameIff(want, cur.id, cur.enabled);
      SameRuleIff(c, want);
      assert Update(h, r).host == h.(rules := h.rules[i := c]);
    }
  }

  // ---- The import

  datatype Action = MakeNew | Change | Enable | Disable

  /** A line of the report. */
  datatype Line = Skip(name: string) | Unchanged(name: string) | Failed(action: Action, name: string)
                | Done(action: Action, name: string) | Would(action: Action, name: string)

  datatype Progress = Progress(host: Host, lines: seq<Line>, failed: nat, changed: nat)

  /** Creating or updating one rule, given the rules listed at the start. */
  function Reconcile(p: Progress, listed: seq<Rule>, r: Rule, dryRun: bool): Progress {
    var cur := Lookup(listed, r.name);
    if cur.Some? && cur.value.kind != r.kind then p.(lines := p.lines + [Skip(r.name)], failed := p.failed + 1)
    else if cur.Some? && SameRule(cur.value, r) then p.(lines := p.lines + [Unchanged(r.name)])
    else
      var action := if cur.None? then MakeNew else Change;
      var reply := if cur.None? then Create(p.host, r) else Update(p.host, r.(id := cur.value.id));
      if dryRun then p.(lines := p.lines + [Would(action, r.name)], changed := p.changed + 1)
      else if !reply.ok then
        Progress(reply.host, p.lines + [Failed(action, r.name)], p.failed + 1, p.changed + 1)
      else Progress(reply.host, p.lines + [Done(action, r.name)], p.failed, p.changed + 1)
  }

  function ReconcileAll(h: Host, rules: seq<Rule>, dryRun: bool): Progress {
    if rules == [] then Progress(h, [], 0, 0)
    else Reconcile(ReconcileAll(h, rules[..|rules| - 1], dryRun), h.rules, rules[|rules| - 1], dryRun)
  }

  /** Setting one rule's enabled flag, given the rules listed after the writes. */
  function Switch(p: Progress, listed: seq<Rule>, r: Rule, dryRun: bool): Progress {
    var found := Lookup(listed, r.name);
    if found.None? && !dryRun then p
    else
      var cur := if found.Some? then found.value else Bare(0, "", r.kind, "", true);
      if cur.kind != r.kind || cur.enabled == r.enabled then p
      else
        var action := if r.enabled then Enable else Disable;
        if dryRun then p.(lines := p.lines + [Would(action, r.name)])
        else
          var reply := Toggle(p.host, cur.id);
          if !reply.ok then p.(host := reply.host, lines := p.lines + [Failed(action, r.name)], failed := p.failed + 1)
          else p.(host := reply.host, lines := p.lines + [Done(action, r.name)])
  }

  function SwitchAll(p: Progress, listed: seq<Rule>, rules: seq<Rule>, dryRun: bool): Progress {
    if rules == [] then p
    else Switch(SwitchAll(p, listed, rules[..|rules| - 1], dryRun), listed, rules[|rules| - 1], dryRun)
  }

  /** A whole import. */
  function Import(h: Host, rules: seq<Rule>, dryRun: bool): Progress {
    var p := ReconcileAll(h, rules, dryRun);
    SwitchAll(p, p.host.rules, rules, dryRun)
  }

  class Daemon {
    var rules: seq<Rule>      // ordered by id
    var nextId: int

    function Contents(): Host
      reads this
    {
      Host(rules, nextId)
    }

    constructor (rules: seq<Rule>, nextId: int)
      ensures Contents() == Host(rules, nextId)
    {
      this.rules, this.nextId := rules, nextId;
    }

    method CreateAlertRule(r: Rule) returns (ok: bool)
      modifies this
      ensures Reply(Contents(), ok) == Create(old(Contents()), r)
    {
      if !Acceptable(r) || NameTaken(rules, r.name) {
        return false;
      }
      var id := nextId;
      nextId := nextId + 1;
      rules := rules + [Stored(r.(id := id, enabled := true))];
      if !KnownKind(r.kind) {
        rules := rules[..|rules| - 1];
        return false;
      }
      return true;
    }

    method UpdateAlertRule(r: Rule) returns (ok: bool)
      modifies this
      ensures Reply(Contents(), ok) == Update(old(Contents()), r)
    {
      if !Acceptable(r) || !HasId(rules, r.id) {
        return false;
      }
      var i := IndexOf(rules, r.id);
      if r.kind != Other("") && r.kind != rules[i].kind {
        return false;
      }
      if r.name != rules[i].name && NameTaken(rules, r.name) {
        return false;
      }
      rules := rules[i := Merged(rules[i], r)];
      return true;
    }

    method ToggleAlertRule(id: int) returns (ok: bool)
      modifies this
      ensures Reply(Contents(), ok) == Toggle(old(Contents()), id)
    {
      if !HasId(rules, id) {
        return false;
      }
      var i := IndexOf(rules, id);
      rules := rules[i := rules[i].(enabled := !rules[i].enabled)];
      return true;
    }
  }

  ghost predicate IsByName(byName: map<string, Rule>, rules: seq<Rule>) {
    forall n :: Lookup(rules, n) == if n in byName then Some(byName[n]) else None
  }

  /** The rules by name, later ones over earlier ones. */
  method ByName(rules: seq<Rule>) returns (byName: map<string, Rule>)
    ensures IsByName(byName, rules)
  {
    byName := map[];
    for i := 0 to |rules|
      invariant IsByName(byName, rules[..i])
    {
      assert rules[..i + 1][..i] == rules[..i];
      byName := byName[rules[i].name := rules[i]];
    }
    assert rules[..|rules|] == rules;
  }

  /** Creates or updates one rule. */
  method ReconcileRule(c: Daemon, byName: map<string, Rule>, ghost listed: seq<Rule>, r: Rule, dryRun: bool,
                       lines: seq<Line>, failed: nat, changed: nat)
    returns (lines': seq<Line>, failed': nat, changed': nat)
    requires IsByName(byName, listed)
    modifies c
    ensures Progress(c.Contents(), lines', failed', changed') ==
            Reconcile(Progress(old(c.Contents()), lines, failed, changed), listed, r, dryRun)
  {
    if r.name in byName && byName[r.name].kind != r.kind {
      return lines + [Skip(r.name)], failed + 1, changed;
    }
    if r.name in byName && SameRule(byName[r.name], r) {
      return lines + [Unchanged(r.name)], failed, changed;
    }
    var action := if r.name !in byName then MakeNew else Change;
    if dryRun {
      return lines + [Would(action, r.name)], failed, changed + 1;
    }
    var ok: bool;
    if r.name !in byName {
      ok := c.CreateAlertRule(r);
    } else {
      ok := c.UpdateAlertRule(r.(id := byName[r.name].id));
    }
    if !ok {
      return lines + [Failed(action, r.name)], failed + 1, changed + 1;
    }
    return lines + [Done(action, r.name)], failed, changed + 1;
  }

  /** Sets one rule's enabled flag. */
  method SwitchRule(c: Daemon, state: map<string, Rule>, ghost listed: seq<Rule>, r: Rule, dryRun: bool,
                    lines: seq<Line>, failed: nat, ghost changed: nat)
    returns (lines': seq<Line>, failed': nat)
    requires IsByName(state, listed)
    modifies c
    ensures Progress(c.Contents(), lines', failed', changed) ==
            Switch(Progress(old(c.Contents()), lines, failed, changed), listed, r, dryRun)
  {
    if r.name !in state && !dryRun {
      return lines, failed;
    }
    var cur := if r.name in state then state[r.name] else Bare(0, "", r.kind, "", true);
    if cur.kind != r.kind || cur.enabled == r.enabled {
      return lines, failed;
    }
    var action := if r.enabled then Enable else Disable;
    if dryRun {
      return lines + [Would(action, r.name)], failed;
    }
    var ok := c.ToggleAlertRule(cur.id);
    if !ok {
      return lines + [Failed(action, r.name)], failed + 1;
    }
    return lines + [Done(action, r.name)], failed;
  }

  method ImportRules(c: Daemon, rules: seq<Rule>, dryRun: bool) returns (lines: seq<Line>, failed: nat)
    modifies c
    ensures var p := Import(old(c.Contents()), rules, dryRun);
            c.Contents() == p.host && lines == p.lines && failed == p.failed
    ensures failed == 0 <==> forall line :: line in lines ==> !line.Skip? && !line.Failed?
  {
    ghost var h := c.Contents();
    var listed := c.rules;
    var byName := ByName(listed);
    var changed := 0;
    lines, failed := [], 0;
    for i := 0 to |rules|
      invariant Progress(c.Contents(), lines, failed, changed) == ReconcileAll(h, rules[..i], dryRun)
    {
      assert rules[..i + 1][..i] == rules[..i];
      lines, failed, changed := ReconcileRule(c, byName, listed, rules[i], dryRun, lines, failed, changed);
    }
    assert rules[..|rules|] == rules;
    ghost var p := ReconcileAll(h, rules, dryRun);
    QuietReconcile(h, rules, dryRun);
    if !dryRun && changed > 0 {
      listed := c.rules;
    }
    var state := ByName(listed);
    for i := 0 to |rules|
      invariant Progress(c.Contents(), lines, failed, changed) == SwitchAll(p, listed, rules[..i], dryRun)
    {
      assert rules[..i + 1][..i] == rules[..i];
      lines, failed := SwitchRule(c, state, listed, rules[i], dryRun, lines, failed, changed);
    }
    assert rules[..|rules|] == rules;
    FailedIsCounted(h, rules, dryRun);
    NoFailures(lines);
  }

  function Failures(lines: seq<Line>): nat {
    if lines == [] then 0
    else
      var last := lines[|lines| - 1];
      Failures(lines[..|lines| - 1]) + if last.Skip? || last.Failed? then 1 else 0
  }

  lemma {:induction false} NoFailures(lines: seq<Line>)
    ensures Failures(lines) == 0 <==> forall line :: line in lines ==> !line.Skip? && !line.Failed?
    decreases |lines|
  {
    if lines != [] {
      var k := |lines| - 1;
      NoFailures(lines[..k]);
      assert lines == lines[..k] + [lines[k]];
    }
  }

  lemma FailuresNext(lines: seq<Line>, line: Line)
    ensures Failures(lines + [line]) == Failures(lines) + if line.Skip? || line.Failed? then 1 else 0
  {
    assert (lines + [line])[..|lines|] == lines;
  }

  ghost predicate FailuresCounted(p: Progress) { p.failed == Failures(p.lines) }

  lemma ReconcileCounts(p: Progress, listed: seq<Rule>, r: Rule, dryRun: bool)
    requires FailuresCounted(p)
    ensures FailuresCounted(Reconcile(p, listed, r, dryRun))
  {
    FailuresNext(p.lines, Skip(r.name));
    FailuresNext(p.lines, Unchanged(r.name));
    var action := if Lookup(listed, r.name).None? then MakeNew else Change;
    FailuresNext(p.lines, Would(action, r.name));
    FailuresNext(p.lines, Failed(action, r.name));
    FailuresNext(p.lines, Done(action, r.name));
  }

  lemma {:induction false} WritesAreCounted(h: Host, rules: seq<Rule>, dryRun: bool)
    ensures FailuresCounted(ReconcileAll(h, rules, dryRun))
    decreases |rules|
  {
    if rules != [] {
      var k := |rules| - 1;
      WritesAreCounted(h, rules[..k], dryRun);
      ReconcileCounts(ReconcileAll(h, rules[..k], dryRun), h.rules, rules[k], dryRun);
    }
  }

  lemma {:induction false} SwitchesAreCounted(p: Progress, listed: seq<Rule>, rules: seq<Rule>, dryRun: bool)
    requires p.failed == Failures(p.lines)
    ensures var p' := SwitchAll(p, listed, rules, dryRun); p'.failed == Failures(p'.lines)
    decreases |rules|
  {
    if rules != [] {
      var k := |rules| - 1;
      var q, p' := SwitchAll(p, listed, rules[..k], dryRun), SwitchAll(p, listed, rules, dryRun);
      SwitchesAreCounted(p, listed, rules[..k], dryRun);
      if p'.lines != q.lines { FailuresNext(q.lines, p'.lines[|q.lines|]); }
    }
  }

  /** The failures counted are the lines that say so. */
  lemma FailedIsCounted(h: Host, rules: seq<Rule>, dryRun: bool)
    ensures var p := Import(h, rules, dryRun); p.failed == Failures(p.lines)
  {
    WritesAreCounted(h, rules, dryRun);
    SwitchesAreCounted(ReconcileAll(h, rules, dryRun), ReconcileAll(h, rules, dryRun).host.rules, rules, dryRun);
  }

  /** Without a write, and in a dry run, the daemon is as it was. */
  lemma {:induction false} QuietReconcile(h: Host, rules: seq<Rule>, dryRun: bool)
    ensures var p := ReconcileAll(h, rules, dryRun); dryRun || p.changed == 0 ==> p.host == h
    decreases |rules|
  {
    if rules != [] { QuietReconcile(h, rules[..|rules| - 1], dryRun); }
  }

  // ---- Reading the file

  datatype FileResult = Rules(rules: seq<Rule>) | Refused

  ghost predicate NamesDiffer(rules: seq<Rule>) {
    forall i, j :: 0 <= i < j < |rules| ==> rules[i].name != rules[j].name
  }

  function WithoutId(r: Rule): Rule { r.(id := 0) }

  function Exported(rules: seq<Rule>): (e: seq<Rule>)
    ensures |e| == |rules| && forall i :: 0 <= i < |rules| ==> e[i] == WithoutId(rules[i])
  {
    seq(|rules|, i requires 0 <= i < |rules| => WithoutId(rules[i]))
  }

  /** Accepts a decoded file exactly if its version is known and its names are given and differ. */
  method ReadRules(version: int, decoded: seq<Rule>) returns (result: FileResult)
    ensures result.Rules? <==> version == 1 && NamesDiffer(decoded) && forall r :: r in decoded ==> r.name != ""
    ensures result.Rules? ==> result.rules == Exported(decoded)
  {
    if version != 1 {
      return Refused;
    }
    var seen: set<string>, rules: seq<Rule> := {}, [];
    for i := 0 to |decoded|
      invariant seen == set j | 0 <= j < i :: decoded[j].name
      invariant NamesDiffer(decoded[..i]) && forall j :: 0 <= j < i ==> decoded[j].name != ""
      invariant rules == Exported(decoded[..i])
    {
      var r := decoded[i];
      if r.name == "" || r.name in seen {
        assert decoded[i] in decoded;
        return Refused;
      }
      assert decoded[..i + 1] == decoded[..i] + [r];
      seen := seen + {r.name};
      rules := rules + [WithoutId(r)];
    }
    assert decoded[..|decoded|] == decoded;
    return Rules(rules);
  }

  // ---- What an import does to each rule

  /** The daemon's rule by the name of `r` may be created or updated, or needs neither. */
  predicate Ready(h: Host, r: Rule) {
    var cur := Lookup(h.rules, r.name);
    if cur.None? then NewRuleAccepted(r) else cur.value.kind == r.kind && !SameRule(cur.value, r) ==> Acceptable(r)
  }

  predicate Conflict(h: Host, r: Rule) {
    var cur := Lookup(h.rules, r.name);
    cur.Some? && cur.value.kind != r.kind
  }

  /** What the name of `r` stands for after the writes. */
  ghost predicate Written(h: Host, r: Rule, after: Option<Rule>) {
    var cur := Lookup(h.rules, r.name);
    if cur.None? then
      if NewRuleAccepted(r) then after.Some? && after.value.id >= h.nextId && after.value == Stored(r.(id := after.value.id, enabled := true))
      else after == None
    else if cur.value.kind == r.kind && !SameRule(cur.value, r) && Acceptable(r) then after == Some(Merged(cur.value, r))
    else after == cur
  }

  /** The line reported for `r` by the writes. */
  function WriteLine(h: Host, r: Rule, dryRun: bool): Line {
    var cur := Lookup(h.rules, r.name);
    if Conflict(h, r) then Skip(r.name)
    else if cur.Some? && SameRule(cur.value, r) then Unchanged(r.name)
    else
      var action := if cur.None? then MakeNew else Change;
      if dryRun then Would(action, r.name) else if Ready(h, r) then Done(action, r.name) else Failed(action, r.name)
  }

  /** What writing one rule of the file leaves. */
  ghost predicate WritesOne(h: Host, p: Progress, r: Rule, p': Progress) {
    && Valid(p'.host) && p'.host.nextId >= h.nextId
    && Written(h, r, Lookup(p'.host.rules, r.name))
    && SameElsewhere(p'.host, p.host, r.name)
    && p'.lines == p.lines + [WriteLine(h, r, false)]
  }

  lemma ReconcileNew(h: Host, p: Progress, r: Rule)
    requires Valid(p.host) && p.host.nextId >= h.nextId
    requires Lookup(p.host.rules, r.name) == Lookup(h.rules, r.name) == None
    ensures WritesOne(h, p, r, Reconcile(p, h.rules, r, false))
  {
    LookupIff(p.host.rules, r.name);
    if NewRuleAccepted(r) { CreateView(p.host, r); }
  }

  lemma ReconcileKnown(h: Host, p: Progress, r: Rule, cur: Rule)
    requires Valid(p.host) && p.host.nextId >= h.nextId
    requires Lookup(p.host.rules, r.name) == Lookup(h.rules, r.name) == Some(cur)
    ensures WritesOne(h, p, r, Reconcile(p, h.rules, r, false))
  {
    if cur.kind == r.kind { UpdateView(p.host, r, cur); }
  }

  /** Writing one rule of the file, the earlier ones having left its name alone. */
  lemma ReconcileOne(h: Host, p: Progress, r: Rule)
    requires Valid(p.host) && p.host.nextId >= h.nextId
    requires Lookup(p.host.rules, r.name) == Lookup(h.rules, r.name)
    ensures WritesOne(h, p, r, Reconcile(p, h.rules, r, false))
  {
    var cur := Lookup(h.rules, r.name);
    if cur.None? { ReconcileNew(h, p, r); } else { ReconcileKnown(h, p, r, cur.value); }
  }

  ghost predicate UntouchedBy(h': Host, h: Host, rules: seq<Rule>) {
    forall n :: !NameTaken(rules, n) ==> Lookup(h'.rules, n) == Lookup(h.rules, n)
  }

  ghost predicate AllWritten(h: Host, rules: seq<Rule>, h': Host) {
    forall i :: 0 <= i < |rules| ==> Written(h, rules[i], Lookup(h'.rules, rules[i].name))
  }

  ghost predicate WriteLines(h: Host, rules: seq<Rule>, dryRun: bool, lines: seq<Line>) {
    |lines| == |rules| && forall i :: 0 <= i < |rules| ==> lines[i] == WriteLine(h, rules[i], dryRun)
  }

  lemma LastIsNew(rules: seq<Rule>)
    requires rules != [] && NamesDiffer(rules)
    ensures var k := |rules| - 1; NamesDiffer(rules[..k]) && !NameTaken(rules[..k], rules[k].name)
    ensures var k := |rules| - 1; forall n :: NameTaken(rules, n) <==> NameTaken(rules[..k], n) || rules[k].name == n
  {
    var k := |rules| - 1;
    forall n ensures NameTaken(rules, n) <==> NameTaken(rules[..k], n) || rules[k].name == n {
      if NameTaken(rules, n) {
        var i :| 0 <= i < |rules| && rules[i].name == n;
        assert i < k ==> rules[..k][i].name == n;
      }
      if NameTaken(rules[..k], n) {
        var i :| 0 <= i < k && rules[..k][i].name == n;
        assert rules[i].name == n;
      }
    }
  }

  /** Extending a prefix by a step that touches only the last rule's name. */
  lemma ExtendUntouched(h: Host, before: Host, after: Host, rules: seq<Rule>, k: nat)
    requires rules != [] && NamesDiffer(rules) && k == |rules| - 1
    requires UntouchedBy(before, h, rules[..k]) && SameElsewhere(after, before, rules[k].name)
    ensures UntouchedBy(after, h, rules)
  {
    LastIsNew(rules);
  }

  lemma ExtendWritten(h: Host, before: Host, after: Host, rules: seq<Rule>, k: nat)
    requires rules != [] && NamesDiffer(rules) && k == |rules| - 1
    requires AllWritten(h, rules[..k], before) && SameElsewhere(after, before, rules[k].name)
    requires Written(h, rules[k], Lookup(after.rules, rules[k].name))
    ensures AllWritten(h, rules, after)
  {
    forall i | 0 <= i < |rules| ensures Written(h, rules[i], Lookup(after.rules, rules[i].name)) {
      if i < k {
        assert rules[..k][i] == rules[i];
        assert Written(h, rules[..k][i], Lookup(before.rules, rules[..k][i].name));
      }
    }
  }

  lemma ExtendLines(h: Host, rules: seq<Rule>, k: nat, dryRun: bool, lines: seq<Line>)
    requires k + 1 == |rules| && WriteLines(h, rules[..k], dryRun, lines)
    ensures WriteLines(h, rules, dryRun, lines + [WriteLine(h, rules[k], dryRun)])
  {
    var all := lines + [WriteLine(h, rules[k], dryRun)];
    forall i | 0 <= i < |rules| ensures all[i] == WriteLine(h, rules[i], dryRun) {
      if i < k { assert rules[..k][i] == rules[i]; }
    }
  }

  lemma ExtendSwitched(h: Host, before: Host, after: Host, rules: seq<Rule>, k: nat)
    requires rules != [] && NamesDiffer(rules) && k == |rules| - 1
    requires AllSwitched(h, rules[..k], before) && SameElsewhere(after, before, rules[k].name)
    requires Lookup(after.rules, rules[k].name) == Switched(Lookup(h.rules, rules[k].name), rules[k])
    ensures AllSwitched(h, rules, after)
  {
    forall i | 0 <= i < |rules|
      ensures Lookup(after.rules, rules[i].name) == Switched(Lookup(h.rules, rules[i].name), rules[i])
    {
      if i < k { assert rules[..k][i] == rules[i]; }
    }
  }

  lemma {:induction false} WritesView(h: Host, rules: seq<Rule>)
    requires Valid(h) && NamesDiffer(rules)
    ensures var p := ReconcileAll(h, rules, false);
            && Valid(p.host) && p.host.nextId >= h.nextId
            && UntouchedBy(p.host, h, rules) && AllWritten(h, rules, p.host) && WriteLines(h, rules, false, p.lines)
    decreases |rules|
  {
    if rules != [] {
      var k := |rules| - 1;
      LastIsNew(rules);
      WritesView(h, rules[..k]);
      var q, p := ReconcileAll(h, rules[..k], false), ReconcileAll(h, rules, false);
      ReconcileOne(h, q, rules[k]);
      ExtendUntouched(h, q.host, p.host, rules, k);
      ExtendWritten(h, q.host, p.host, rules, k);
      ExtendLines(h, rules, k, false, q.lines);
    }
  }

  lemma {:induction false} DryWritesView(h: Host, rules: seq<Rule>)
    ensures var p := ReconcileAll(h, rules, true); p.host == h && WriteLines(h, rules, true, p.lines)
    decreases |rules|
  {
    if rules != [] {
      var k := |rules| - 1;
      DryWritesView(h, rules[..k]);
      ExtendLines(h, rules, k, true, ReconcileAll(h, rules[..k], true).lines);
    }
  }

  function Switched(cur: Option<Rule>, r: Rule): Option<Rule> {
    if cur.Some? && cur.value.kind == r.kind then Some(cur.value.(enabled := r.enabled)) else cur
  }

  ghost predicate AllSwitched(h: Host, rules: seq<Rule>, h': Host) {
    forall i :: 0 <= i < |rules| ==> Lookup(h'.rules, rules[i].name) == Switched(Lookup(h.rules, rules[i].name), rules[i])
  }

  /** The lines reported for `r` by setting the flag. */
  function SwitchLine(cur: Option<Rule>, r: Rule, dryRun: bool): seq<Line> {
    var rule := if cur.Some? then cur.value else Bare(0, "", r.kind, "", dryRun || r.enabled);
    if rule.kind != r.kind || rule.enabled == r.enabled then []
    else
      var action := if r.enabled then Enable else Disable;
      [if dryRun then Would(action, r.name) else Done(action, r.name)]
  }

  lemma SwitchOne(h: Host, p: Progress, r: Rule)
    requires Valid(h) && Valid(p.host) && Lookup(p.host.rules, r.name) == Lookup(h.rules, r.name)
    ensures var p' := Switch(p, h.rules, r, false);
            && Valid(p'.host) && Lookup(p'.host.rules, r.name) == Switched(Lookup(h.rules, r.name), r)
            && SameElsewhere(p'.host, p.host, r.name)
            && p'.lines == p.lines + SwitchLine(Lookup(h.rules, r.name), r, false)
  {
    var cur := Lookup(h.rules, r.name);
    if cur.Some? && cur.value.kind == r.kind && cur.value.enabled != r.enabled {
      ToggleView(p.host, r.name, cur.value);
    }
  }

  lemma {:induction false} SwitchesView(p: Progress, rules: seq<Rule>)
    requires Valid(p.host) && NamesDiffer(rules)
    ensures var p' := SwitchAll(p, p.host.rules, rules, false);
            Valid(p'.host) && UntouchedBy(p'.host, p.host, rules) && AllSwitched(p.host, rules, p'.host)
    decreases |rules|
  {
    if rules != [] {
      var k := |rules| - 1;
      LastIsNew(rules);
      SwitchesView(p, rules[..k]);
      var q, p' := SwitchAll(p, p.host.rules, rules[..k], false), SwitchAll(p, p.host.rules, rules, false);
      SwitchOne(p.host, q, rules[k]);
      ExtendUntouched(p.host, q.host, p'.host, rules, k);
      ExtendSwitched(p.host, q.host, p'.host, rules, k);
    }
  }

  // ---- Convergence

  lemma ProperCarries(r: Rule)
    requires Stored(r) == r
    ensures CarriesOnlyItsFields(r)
  {
  }

  lemma SameCarries(cur: Rule, r: Rule)
    requires SameRule(cur, r) && Stored(cur) == cur
    ensures CarriesOnlyItsFields(r)
  {
    ProperCarries(cur);
  }

  lemma EnabledIsIgnored(c: Rule, r: Rule, enabled: bool)
    ensures SameRule(c.(enabled := enabled), r) <==> SameRule(c, r)
  {
  }

  /** After an import, every rule of the file that the daemon accepts stands on the daemon,
      under its old id if it had one, with the file's enabled flag; and it equals the file's
      rule exactly if that carries only the fields of its kind. */
  lemma Converges(h: Host, rules: seq<Rule>, i: nat)
    requires Valid(h) && NamesDiffer(rules) && i < |rules|
    requires NewRuleAccepted(rules[i]) && !Conflict(h, rules[i])
    ensures var r, before := rules[i], Lookup(h.rules, rules[i].name);
            var after := Lookup(Import(h, rules, false).host.rules, r.name);
            && after.Some? && after.value.kind == r.kind && after.value.enabled == r.enabled
            && (if before.Some? then after.value.id == before.value.id else after.value.id >= h.nextId)
            && (ReadsLike(after.value, r) <==> CarriesOnlyItsFields(r))
  {
    var r, p := rules[i], ReconcileAll(h, rules, false);
    WritesView(h, rules);
    SwitchesView(p, rules);
    var cur, mid := Lookup(h.rules, r.name), Lookup(p.host.rules, r.name);
    assert Written(h, r, mid);
    if cur.None? {
      StoredIsProper(r.(id := mid.value.id, enabled := true), mid.value.id + 1);
      StoredIsSameIff(r, mid.value.id, true);
    } else {
      var k := FoundAt(h, r.name);
      WrittenIsProper(cur.value, r, h.nextId);
      if SameRule(cur.value, r) {
        SameCarries(cur.value, r);
      } else {
        MergedIsStored(cur.value, r);
        StoredIsSameIff(r, cur.value.id, cur.value.enabled);
      }
    }
    EnabledIsIgnored(mid.value, r, r.enabled);
    SameRuleIff(mid.value.(enabled := r.enabled), r);
  }

  /** A rule of the file that is refused, or is of another kind on the daemon, has at most its
      flag set there. */
  lemma RefusedIsLeft(h: Host, rules: seq<Rule>, i: nat)
    requires Valid(h) && NamesDiffer(rules) && i < |rules|
    requires !NewRuleAccepted(rules[i]) || Conflict(h, rules[i])
    ensures var r, before := rules[i], Lookup(h.rules, rules[i].name);
            Lookup(Import(h, rules, false).host.rules, r.name) ==
            if before.Some? && before.value.kind == r.kind then Some(before.value.(enabled := r.enabled)) else before
  {
    var r, p := rules[i], ReconcileAll(h, rules, false);
    WritesView(h, rules);
    SwitchesView(p, rules);
    assert Written(h, r, Lookup(p.host.rules, r.name));
    if Lookup(h.rules, r.name).Some? { var k := FoundAt(h, r.name); }
  }

  lemma MergedIsStored(cur: Rule, r: Rule)
    requires cur.kind == r.kind
    ensures Merged(cur, r) == Stored(r.(id := cur.id, enabled := cur.enabled))
  {
  }

  ghost predicate SameIdentity(before: Option<Rule>, after: Option<Rule>) {
    before.Some? ==> after.Some? && after.value.id == before.value.id && after.value.name == before.value.name
                     && after.value.kind == before.value.kind
  }

  /** Rules the file does not name stay exactly as they are, and no existing rule loses its
      id, its name or its kind. */
  lemma OthersUntouched(h: Host, rules: seq<Rule>, name: string)
    requires Valid(h) && NamesDiffer(rules)
    ensures !NameTaken(rules, name) ==> Lookup(Import(h, rules, false).host.rules, name) == Lookup(h.rules, name)
    ensures SameIdentity(Lookup(h.rules, name), Lookup(Import(h, rules, false).host.rules, name))
  {
    var p := ReconcileAll(h, rules, false);
    WritesView(h, rules);
    SwitchesView(p, rules);
    UntouchedFrom(h, p.host, Import(h, rules, false).host, rules, name);
  }

  lemma UntouchedFrom(h: Host, mid: Host, h': Host, rules: seq<Rule>, name: string)
    requires Valid(h) && UntouchedBy(mid, h, rules) && AllWritten(h, rules, mid)
    requires UntouchedBy(h', mid, rules) && AllSwitched(mid, rules, h')
    ensures !NameTaken(rules, name) ==> Lookup(h'.rules, name) == Lookup(h.rules, name)
    ensures SameIdentity(Lookup(h.rules, name), Lookup(h'.rules, name))
  {
    if NameTaken(rules, name) && Lookup(h.rules, name).Some? {
      var i :| 0 <= i < |rules| && rules[i].name == name;
      assert Written(h, rules[i], Lookup(mid.rules, name));
      WrittenKeepsIdentity(h, rules[i], Lookup(mid.rules, name));
    }
  }

  lemma WrittenKeepsIdentity(h: Host, r: Rule, after: Option<Rule>)
    requires Valid(h) && Lookup(h.rules, r.name).Some? && Written(h, r, after)
    ensures var cur := Lookup(h.rules, r.name).value;
            after.Some? && after.value.id == cur.id && after.value.name == cur.name == r.name && after.value.kind == cur.kind
  {
    var k := FoundAt(h, r.name);
    WrittenIsProper(h.rules[k], r, h.nextId);
  }

  /** The file's rule is on the daemon already. */
  predicate Settled(h: Host, r: Rule) {
    var cur := Lookup(h.rules, r.name);
    cur.Some? && SameRule(cur.value, r) && cur.value.enabled == r.enabled
  }

  function UnchangedLines(rules: seq<Rule>): seq<Line> {
    if rules == [] then [] else UnchangedLines(rules[..|rules| - 1]) + [Unchanged(rules[|rules| - 1].name)]
  }

  lemma {:induction false} SettledWrites(h: Host, rules: seq<Rule>, dryRun: bool)
    requires forall r :: r in rules ==> Settled(h, r)
    ensures ReconcileAll(h, rules, dryRun) == Progress(h, UnchangedLines(rules), 0, 0)
    decreases |rules|
  {
    if rules != [] {
      SettledWrites(h, rules[..|rules| - 1], dryRun);
      assert rules[|rules| - 1] in rules;
    }
  }

  lemma {:induction false} SettledSwitches(p: Progress, rules: seq<Rule>, dryRun: bool)
    requires forall r :: r in rules ==> Settled(p.host, r)
    ensures SwitchAll(p, p.host.rules, rules, dryRun) == p
    decreases |rules|
  {
    if rules != [] {
      SettledSwitches(p, rules[..|rules| - 1], dryRun);
      assert rules[|rules| - 1] in rules;
    }
  }

  /** Importing what is there already makes no call and changes nothing. */
  lemma SettledImport(h: Host, rules: seq<Rule>, dryRun: bool)
    requires forall r :: r in rules ==> Settled(h, r)
    ensures Import(h, rules, dryRun) == Progress(h, UnchangedLines(rules), 0, 0)
  {
    SettledWrites(h, rules, dryRun);
    SettledSwitches(Progress(h, UnchangedLines(rules), 0, 0), rules, dryRun);
  }

  ghost predicate Importable(h: Host, r: Rule) {
    NewRuleAccepted(r) && CarriesOnlyItsFields(r) && !Conflict(h, r)
  }

  /** A second import of a file of accepted rules, without conflicts or superfluous fields,
      makes no call at all and reports every rule unchanged. */
  lemma CleanFileTwice(h: Host, rules: seq<Rule>)
    requires Valid(h) && NamesDiffer(rules) && forall r :: r in rules ==> Importable(h, r)
    ensures var h' := Import(h, rules, false).host;
            Import(h', rules, false) == Progress(h', UnchangedLines(rules), 0, 0)
  {
    var h' := Import(h, rules, false).host;
    forall r | r in rules ensures Settled(h', r) {
      var i :| 0 <= i < |rules| && rules[i] == r;
      Converges(h, rules, i);
      SameRuleIff(Lookup(h'.rules, r.name).value, r);
    }
    SettledImport(h', rules, false);
  }

  // ---- Importing any file twice

  predicate Same(h: Host, r: Rule) {
    var cur := Lookup(h.rules, r.name);
    cur.Some? && SameRule(cur.value, r)
  }

  /** Importing `r` again writes nothing new: it is refused, skipped, the same, or written
      over itself, and its flag is set already. */
  ghost predicate Quiescent(h: Host, r: Rule) {
    var cur := Lookup(h.rules, r.name);
    && (cur.None? ==> !NewRuleAccepted(r))
    && (cur.Some? && cur.value.kind == r.kind ==> cur.value.enabled == r.enabled)
    && (cur.Some? && cur.value.kind == r.kind && !SameRule(cur.value, r) && Acceptable(r) ==> Merged(cur.value, r) == cur.value)
  }

  lemma StoredEnabled(r: Rule, enabled: bool)
    ensures Stored(r).(enabled := enabled) == Stored(r.(enabled := enabled))
    ensures Stored(r).kind == r.kind && Stored(r).id == r.id
  {
  }

  /** Writing the same rule once more, the flag set meanwhile, changes nothing. */
  lemma WrittenOver(r: Rule, id: int, enabled: bool)
    ensures var once := Stored(r.(id := id, enabled := enabled)).(enabled := r.enabled); Merged(once, r) == once
  {
    StoredEnabled(r.(id := id, enabled := enabled), r.enabled);
    assert r.(id := id, enabled := enabled).(enabled := r.enabled) == r.(id := id);
    assert r.(id := id, kind := r.kind, enabled := r.enabled) == r.(id := id);
  }

  /** What an import makes of the rule named by `r`. */
  ghost predicate Imported(h: Host, r: Rule, after: Option<Rule>) {
    exists mid :: Written(h, r, mid) && after == Switched(mid, r)
  }

  lemma ImportedRule(h: Host, rules: seq<Rule>, i: nat)
    requires Valid(h) && NamesDiffer(rules) && i < |rules|
    ensures Imported(h, rules[i], Lookup(Import(h, rules, false).host.rules, rules[i].name))
  {
    var p := ReconcileAll(h, rules, false);
    WritesView(h, rules);
    SwitchesView(p, rules);
    assert Written(h, rules[i], Lookup(p.host.rules, rules[i].name));
  }

  lemma ImportedIsQuiescent(h: Host, h': Host, r: Rule)
    requires Valid(h) && Imported(h, r, Lookup(h'.rules, r.name))
    ensures Quiescent(h', r)
  {
    var mid :| Written(h, r, mid) && Lookup(h'.rules, r.name) == Switched(mid, r);
    var cur := Lookup(h.rules, r.name);
    if cur.None? {
      if mid.Some? {
        StoredIsProper(r.(id := mid.value.id, enabled := true), mid.value.id + 1);
        WrittenOver(r, mid.value.id, true);
      }
    } else if cur.value.kind == r.kind {
      var k := FoundAt(h, r.name);
      WrittenIsProper(cur.value, r, h.nextId);
      if SameRule(cur.value, r) {
        EnabledIsIgnored(cur.value, r, r.enabled);
      } else if Acceptable(r) {
        MergedIsStored(cur.value, r);
        WrittenOver(r, cur.value.id, cur.value.enabled);
      }
    }
  }

  /** Where an import leaves a rule conflicting or the same. */
  lemma ImportedNeedsNothingIff(h: Host, h': Host, r: Rule)
    requires Valid(h) && Imported(h, r, Lookup(h'.rules, r.name))
    ensures Conflict(h', r) || Same(h', r) <==> Conflict(h, r) || Same(h, r) || (NewRuleAccepted(r) && CarriesOnlyItsFields(r))
  {
    var mid :| Written(h, r, mid) && Lookup(h'.rules, r.name) == Switched(mid, r);
    var cur := Lookup(h.rules, r.name);
    if cur.None? {
      if mid.Some? {
        StoredIsProper(r.(id := mid.value.id, enabled := true), mid.value.id + 1);
        StoredIsSameIff(r, mid.value.id, true);
        EnabledIsIgnored(mid.value, r, r.enabled);
      }
    } else if cur.value.kind == r.kind {
      var k := FoundAt(h, r.name);
      WrittenIsProper(cur.value, r, h.nextId);
      if !SameRule(cur.value, r) && Acceptable(r) {
        MergedIsStored(cur.value, r);
        StoredIsSameIff(r, cur.value.id, cur.value.enabled);
      }
      EnabledIsIgnored(mid.value, r, r.enabled);
    }
  }

  /** The daemon gives `r` an id and takes the rule back: its type is unknown. */
  predicate SpendsId(h: Host, r: Rule) {
    Acceptable(r) && !KnownKind(r.kind) && Lookup(h.rules, r.name).None?
  }

  lemma QuiescentStep(h: Host, p: Progress, r: Rule)
    requires Valid(h) && Quiescent(h, r) && p.host.rules == h.rules && p.host.nextId >= h.nextId
    ensures var p' := Reconcile(p, h.rules, r, false);
            p'.host == p.host.(nextId := p.host.nextId + if SpendsId(h, r) then 1 else 0)
  {
    LookupIff(h.rules, r.name);
    var cur := Lookup(h.rules, r.name);
    if cur.Some? && cur.value.kind == r.kind && !SameRule(cur.value, r) && Acceptable(r) {
      var i := FoundAt(h, r.name);
      UpdateAt(p.host, r, i);
      assert h.rules[i := h.rules[i]] == h.rules;
    }
  }

  lemma {:induction false} QuiescentWrites(h: Host, rules: seq<Rule>)
    requires Valid(h) && forall r :: r in rules ==> Quiescent(h, r)
    ensures var p := ReconcileAll(h, rules, false);
            && p.host.rules == h.rules && p.host.nextId >= h.nextId
            && (p.host.nextId == h.nextId <==> forall r :: r in rules ==> !SpendsId(h, r))
    decreases |rules|
  {
    if rules != [] {
      var k := |rules| - 1;
      assert rules == rules[..k] + [rules[k]];
      QuiescentWrites(h, rules[..k]);
      QuiescentStep(h, ReconcileAll(h, rules[..k], false), rules[k]);
    }
  }

  lemma {:induction false} QuiescentSwitches(p: Progress, listed: seq<Rule>, rules: seq<Rule>)
    requires forall r :: r in rules ==> SwitchIsQuiet(listed, r)
    ensures SwitchAll(p, listed, rules, false) == p
    decreases |rules|
  {
    if rules != [] {
      var k := |rules| - 1;
      assert rules[k] in rules;
      QuiescentSwitches(p, listed, rules[..k]);
    }
  }

  ghost predicate SwitchIsQuiet(listed: seq<Rule>, r: Rule) {
    var cur := Lookup(listed, r.name);
    cur.Some? && cur.value.kind == r.kind ==> cur.value.enabled == r.enabled
  }

  lemma {:induction false} NoWriteIff(h: Host, rules: seq<Rule>)
    ensures ReconcileAll(h, rules, false).changed == 0 <==> forall r :: r in rules ==> Conflict(h, r) || Same(h, r)
    decreases |rules|
  {
    if rules != [] {
      var k := |rules| - 1;
      NoWriteIff(h, rules[..k]);
      var p := ReconcileAll(h, rules[..k], false);
      var needless := Conflict(h, rules[k]) || Same(h, rules[k]);
      assert Reconcile(p, h.rules, rules[k], false).changed == p.changed + if needless then 0 else 1;
      assert rules[k] in rules;
      forall r | r in rules ensures r in rules[..k] || r == rules[k] { assert rules == rules[..k] + [rules[k]]; }
      forall r | r in rules[..k] ensures r in rules { }
    }
  }

  /** A second import of any file, with conflicts, refusals and superfluous fields, leaves
      every rule as it is and sets no flag; it leaves the daemon as it is exactly if no new
      rule of an unknown type spends an id.  It makes no create or update call exactly if
      each rule of the file conflicts in type, or was the same before the first import, or
      is accepted and carries only the fields of its type. */
  lemma ImportTwice(h: Host, rules: seq<Rule>)
    requires Valid(h) && NamesDiffer(rules)
    ensures var h' := Import(h, rules, false).host;
            var again := Import(h', rules, false);
            && again.host.rules == h'.rules
            && again == ReconcileAll(h', rules, false)
            && (again.host == h' <==> forall r :: r in rules ==> !SpendsId(h', r))
            && (again.changed == 0 <==> forall r :: r in rules ==>
                  Conflict(h, r) || Same(h, r) || (NewRuleAccepted(r) && CarriesOnlyItsFields(r)))
  {
    var h' := Import(h, rules, false).host;
    ImportKeepsValid(h, rules);
    forall r | r in rules
      ensures Quiescent(h', r)
      ensures Conflict(h', r) || Same(h', r) <==> Conflict(h, r) || Same(h, r) || (NewRuleAccepted(r) && CarriesOnlyItsFields(r))
    {
      var i :| 0 <= i < |rules| && rules[i] == r;
      ImportedRule(h, rules, i);
      ImportedIsQuiescent(h, h', r);
      ImportedNeedsNothingIff(h, h', r);
    }
    QuiescentWrites(h', rules);
    QuiescentSwitches(ReconcileAll(h', rules, false), h'.rules, rules);
    NoWriteIff(h', rules);
  }

  lemma ImportKeepsValid(h: Host, rules: seq<Rule>)
    requires Valid(h) && NamesDiffer(rules)
    ensures Valid(Import(h, rules, false).host)
  {
    WritesView(h, rules);
    SwitchesView(ReconcileAll(h, rules, false), rules);
  }

  /** Importing a daemon's own export into it makes no call and changes nothing. */
  lemma ExportThenImport(h: Host)
    requires Valid(h)
    ensures NamesDiffer(Exported(h.rules))
    ensures var rules := Exported(h.rules); Import(h, rules, false) == Progress(h, UnchangedLines(rules), 0, 0)
  {
    var rules := Exported(h.rules);
    forall r | r in rules ensures Settled(h, r) {
      var i :| 0 <= i < |rules| && rules[i] == r;
      LookupIs(h, i);
    }
    SettledImport(h, rules, false);
  }

  // ---- The dry run

  /** The dry run's line for a line of the real run. */
  function Planned(line: Line): Line { if line.Done? then Would(line.action, line.name) else line }

  function PlannedAll(lines: seq<Line>): (r: seq<Line>)
    ensures |r| == |lines| && forall i :: 0 <= i < |lines| ==> r[i] == Planned(lines[i])
  {
    seq(|lines|, i requires 0 <= i < |lines| => Planned(lines[i]))
  }

  lemma PlannedAppend(a: seq<Line>, b: seq<Line>)
    ensures PlannedAll(a + b) == PlannedAll(a) + PlannedAll(b)
  {
  }

  /** The flags are set alike in both runs, given what the writes did to one rule. */
  lemma SwitchLinesAgree(h: Host, r: Rule, mid: Option<Rule>)
    requires Valid(h) && Ready(h, r) && Written(h, r, mid)
    ensures PlannedAll(SwitchLine(mid, r, false)) == SwitchLine(Lookup(h.rules, r.name), r, true)
  {
    var cur := Lookup(h.rules, r.name);
    if cur.None? {
      StoredIsProper(r.(id := mid.value.id, enabled := true), mid.value.id + 1);
    } else {
      var k := FoundAt(h, r.name);
      WrittenIsProper(cur.value, r, h.nextId);
    }
  }

  lemma {:induction false} SwitchesAgree(h: Host, p: Progress, d: Progress, rules: seq<Rule>)
    requires Valid(h) && Valid(p.host) && NamesDiffer(rules)
    requires forall r :: r in rules ==> Ready(h, r) && Written(h, r, Lookup(p.host.rules, r.name))
    requires PlannedAll(p.lines) == d.lines
    ensures PlannedAll(SwitchAll(p, p.host.rules, rules, false).lines) == SwitchAll(d, h.rules, rules, true).lines
    decreases |rules|
  {
    if rules != [] {
      var k := |rules| - 1;
      var r := rules[k];
      LastIsNew(rules);
      SwitchesAgree(h, p, d, rules[..k]);
      SwitchesView(p, rules[..k]);
      var q := SwitchAll(p, p.host.rules, rules[..k], false);
      SwitchOne(p.host, q, r);
      var mid := Lookup(p.host.rules, r.name);
      SwitchLinesAgree(h, r, mid);
      PlannedAppend(q.lines, SwitchLine(mid, r, false));
      DrySwitchOne(SwitchAll(d, h.rules, rules[..k], true), h.rules, r);
    }
  }

  lemma DrySwitchOne(d: Progress, listed: seq<Rule>, r: Rule)
    ensures Switch(d, listed, r, true).lines == d.lines + SwitchLine(Lookup(listed, r.name), r, true)
  {
  }

  lemma {:induction false} SwitchesExtend(p: Progress, listed: seq<Rule>, rules: seq<Rule>, dryRun: bool)
    ensures p.lines <= SwitchAll(p, listed, rules, dryRun).lines
    decreases |rules|
  {
    if rules != [] { SwitchesExtend(p, listed, rules[..|rules| - 1], dryRun); }
  }

  lemma LinePlanned(h: Host, r: Rule)
    ensures Planned(WriteLine(h, r, false)) == WriteLine(h, r, true) <==> Ready(h, r)
  {
  }

  /** The dry run lists, line for line, what the real run then does, exactly when the daemon
      would refuse none of the writes. */
  lemma DryRunIsExactIff(h: Host, rules: seq<Rule>)
    requires Valid(h) && NamesDiffer(rules)
    ensures PlannedAll(Import(h, rules, false).lines) == Import(h, rules, true).lines <==>
            forall i :: 0 <= i < |rules| ==> Ready(h, rules[i])
  {
    var p, d := ReconcileAll(h, rules, false), ReconcileAll(h, rules, true);
    WritesView(h, rules);
    DryWritesView(h, rules);
    forall i | 0 <= i < |rules| ensures Planned(p.lines[i]) == d.lines[i] <==> Ready(h, rules[i]) {
      LinePlanned(h, rules[i]);
    }
    if forall i :: 0 <= i < |rules| ==> Ready(h, rules[i]) {
      assert PlannedAll(p.lines) == d.lines;
      SwitchesAgree(h, p, d, rules);
    } else {
      var i :| 0 <= i < |rules| && !Ready(h, rules[i]);
      SwitchesExtend(p, p.host.rules, rules, false);
      SwitchesExtend(d, d.host.rules, rules, true);
      assert PlannedAll(Import(h, rules, false).lines)[i] == Planned(p.lines[i]) != d.lines[i];
    }
  }

  /** A dry run changes nothing. */
  lemma {:induction false} DrySwitchesKeep(p: Progress, listed: seq<Rule>, rules: seq<Rule>)
    ensures SwitchAll(p, listed, rules, true).host == p.host
    decreases |rules|
  {
    if rules != [] { DrySwitchesKeep(p, listed, rules[..|rules| - 1]); }
  }

  lemma DryRunChangesNothing(h: Host, rules: seq<Rule>)
    ensures Import(h, rules, true).host == h
  {
    DryWritesView(h, rules);
    DrySwitchesKeep(ReconcileAll(h, rules, true), h.rules, rules);
  }
}
