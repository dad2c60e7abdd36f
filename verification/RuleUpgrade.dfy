/** Migration 2: copying rules from their old columns into tables of their own, then dropping
    the columns.  Which stops it absorbs, and which it does not. */
module RuleUpgrade {
  import opened Basics
  import opened Migrations

  /** `copied`: rule ids in the new tables, their key.  `cols`: old columns still there.
      `found`: what the running migration saw of the column `metric` when it began; once it
      has seen none it returns, and the statements left do nothing. */
  datatype Tables = Tables(copied: set<int>, cols: set<string>, found: bool)

  type Statement = Tables -> Option<Tables>

  const OldColumns: seq<string> :=
    ["metric", "operator", "value", "duration", "mount", "interface_name", "sensor", "predict_hours", "threshold_pct"]

  function Look(): Statement { (s: Tables) => Some(s.(found := "metric" in s.cols)) }

  function Copy(id: int): Statement {
    (s: Tables) => if !s.found then Some(s) else if id in s.copied then None else Some(s.(copied := s.copied + {id}))
  }

  function Drop(col: string): Statement { (s: Tables) => if !s.found then Some(s) else Some(s.(cols := s.cols - {col})) }

  function Copies(ids: seq<int>): seq<Statement> { seq(|ids|, i requires 0 <= i < |ids| => Copy(ids[i])) }

  function Drops(cols: seq<string>): seq<Statement> { seq(|cols|, i requires 0 <= i < |cols| => Drop(cols[i])) }

  function Body(ids: seq<int>): seq<Statement> { Copies(ids) + Drops(OldColumns) }

  function Upgrade(ids: seq<int>): Migration<Tables> { Migration(2, [Look()] + Body(ids)) }

  function Ids(ids: seq<int>): set<int> { set i | 0 <= i < |ids| :: ids[i] }

  function Cols(cols: seq<string>): set<string> { set i | 0 <= i < |cols| :: cols[i] }

  ghost predicate Distinct(ids: seq<int>) { forall i, j :: 0 <= i < j < |ids| ==> ids[i] != ids[j] }

  const Before: Tables := Tables({}, Cols(OldColumns), false)

  // ---- Runs of the statements

  lemma {:induction false} CopiesReach(ids: seq<int>, s: Tables)
    requires s.found && Distinct(ids) && forall i :: 0 <= i < |ids| ==> ids[i] !in s.copied
    ensures Succeeds(Copies(ids), s) && Reached(Copies(ids), s) == s.(copied := s.copied + Ids(ids))
    decreases |ids|
  {
    if ids == [] {
      assert s.copied + Ids(ids) == s.copied;
    } else {
      var next := s.(copied := s.copied + {ids[0]});
      assert Copies(ids)[0] == Copy(ids[0]) && Copies(ids)[1..] == Copies(ids[1..]);
      CopiesReach(ids[1..], next);
      assert s.copied + Ids(ids) == next.copied + Ids(ids[1..]) by { IdsHead(ids); }
    }
  }

  lemma IdsHead(ids: seq<int>)
    requires ids != []
    ensures Ids(ids) == {ids[0]} + Ids(ids[1..])
  {
    forall x | x in Ids(ids) ensures x == ids[0] || x in Ids(ids[1..]) {
      var i :| 0 <= i < |ids| && ids[i] == x;
      assert i > 0 ==> ids[1..][i - 1] == x;
    }
  }

  lemma ColsHead(cols: seq<string>)
    requires cols != []
    ensures Cols(cols) == {cols[0]} + Cols(cols[1..])
  {
    forall x | x in Cols(cols) ensures x == cols[0] || x in Cols(cols[1..]) {
      var i :| 0 <= i < |cols| && cols[i] == x;
      assert i > 0 ==> cols[1..][i - 1] == x;
    }
  }

  lemma {:induction false} DropsReach(cols: seq<string>, s: Tables)
    requires s.found
    ensures Succeeds(Drops(cols), s) && Reached(Drops(cols), s) == s.(cols := s.cols - Cols(cols))
    decreases |cols|
  {
    if cols == [] {
      assert s.cols - Cols(cols) == s.cols;
    } else {
      var next := s.(cols := s.cols - {cols[0]});
      assert Drops(cols)[0] == Drop(cols[0]) && Drops(cols)[1..] == Drops(cols[1..]);
      DropsReach(cols[1..], next);
      ColsHead(cols);
      assert s.cols - Cols(cols) == next.cols - Cols(cols[1..]);
    }
  }

  /** After a look that found no old column, nothing happens. */
  lemma {:induction false} NothingLeft(stmts: seq<Statement>, s: Tables)
    requires !s.found && forall i :: 0 <= i < |stmts| ==> stmts[i](s) == Some(s)
    ensures Succeeds(stmts, s) && Reached(stmts, s) == s
    decreases |stmts|
  {
    if stmts != [] {
      forall i | 0 <= i < |stmts[1..]| ensures stmts[1..][i](s) == Some(s) { assert stmts[1..][i] == stmts[i + 1]; }
      NothingLeft(stmts[1..], s);
    }
  }

  lemma AfterLook(rest: seq<Statement>, s: Tables)
    ensures var seen := s.(found := "metric" in s.cols);
            Reached([Look()] + rest, s) == Reached(rest, seen) && Succeeds([Look()] + rest, s) == Succeeds(rest, seen)
  {
    assert ([Look()] + rest)[0] == Look() && ([Look()] + rest)[1..] == rest;
  }

  // ---- Where the first start stops

  /** The first `k` statements after the look. */
  lemma BodyPrefix(ids: seq<int>, k: nat)
    requires k <= |ids| + |OldColumns|
    ensures Body(ids)[..k] ==
            if k <= |ids| then Copies(ids[..k]) else Copies(ids) + Drops(OldColumns[..k - |ids|])
  {
  }

  /** What the first start leaves when it stops after the look and `k` more statements. */
  function Left(ids: seq<int>, k: nat): Tables
    requires k <= |ids| + |OldColumns|
  {
    if k <= |ids| then Tables(Ids(ids[..k]), Cols(OldColumns), true)
    else Tables(Ids(ids), Cols(OldColumns) - Cols(OldColumns[..k - |ids|]), true)
  }

  lemma MetricIsOld()
    ensures "metric" in Cols(OldColumns)
  {
    assert OldColumns[0] == "metric";
  }

  lemma LeftIsReached(ids: seq<int>, k: nat)
    requires Distinct(ids) && k <= |ids| + |OldColumns|
    ensures Reached([Look()] + Body(ids)[..k], Before) == Left(ids, k)
    ensures Succeeds([Look()] + Body(ids)[..k], Before)
  {
    var seen := Before.(found := true);
    MetricIsOld();
    AfterLook(Body(ids)[..k], Before);
    BodyPrefix(ids, k);
    var some := if k <= |ids| then ids[..k] else ids;
    CopiesReach(some, seen);
    assert {} + Ids(some) == Ids(some);
    if k > |ids| {
      ReachedStops(Copies(ids), Drops(OldColumns[..k - |ids|]), seen);
      DropsReach(OldColumns[..k - |ids|], seen.(copied := Ids(ids)));
    }
  }

  // ---- What the next start makes of it

  lemma OneIsPending(m: Migration<Tables>, d: Disk<Tables>)
    requires m.version == 2 && (d.version == 1 || (d.dirty && d.version == 2))
    requires d.version == 1 ==> !d.dirty
    ensures Pending([m], Current(d)) == [m]
  {
    assert [m][1..] == [];
  }

  const Stamp: Disk<Tables> := Disk(Before, 1, false, [], [])

  /** The first start, stopped after the look and `k` more statements. */
  lemma FirstStart(ids: seq<int>, k: nat)
    requires Distinct(ids) && k <= |ids| + |OldColumns|
    ensures Start([Upgrade(ids)], Stamp, k + 2) == Disk(Left(ids, k), 2, true, [], [2])
  {
    var m := Upgrade(ids);
    OneIsPending(m, Stamp);
    assert Part(m, k + 1) == [Look()] + Body(ids)[..k];
    LeftIsReached(ids, k);
  }

  lemma FullStart(ids: seq<int>, d: Disk<Tables>, last: nat)
    requires d.dirty && d.version == 2 && last >= |Upgrade(ids).stmts| + 2
    ensures var m, d' := Upgrade(ids), Start([Upgrade(ids)], d, last);
            d'.schema == Reached(m.stmts, d.schema) && d'.dirty == !Succeeds(m.stmts, d.schema)
  {
    var m := Upgrade(ids);
    OneIsPending(m, d);
    assert m.stmts[..|m.stmts|] == m.stmts;
    assert RunFrom([], RunOne(m, d, last), last - (|m.stmts| + 2)) == RunOne(m, d, last);
    assert [m][1..] == [];
  }

  /** With a rule copied and the old columns there, the copying fails at once. */
  lemma CopyingFails(ids: seq<int>, s: Tables, k: nat)
    requires ids != [] && ids[0] in s.copied && "metric" in s.cols && k <= |Body(ids)|
    ensures Reached([Look()] + Body(ids)[..k], s) == s.(found := true)
    ensures k > 0 ==> !Succeeds([Look()] + Body(ids)[..k], s)
  {
    var seen := s.(found := true);
    AfterLook(Body(ids)[..k], s);
    if k > 0 { assert Body(ids)[..k][0] == Copy(ids[0]); }
  }

  /** Once a start has stopped with a rule copied and the columns there, no later start gets
      past it, whatever is let run. */
  lemma {:induction false} StaysStuck(ids: seq<int>, d: Disk<Tables>, fuels: seq<nat>)
    requires ids != [] && ids[0] in d.schema.copied && "metric" in d.schema.cols && d.dirty && d.version == 2
    ensures var d' := Starts([Upgrade(ids)], d, fuels);
            d'.dirty && d'.version == 2 && d'.schema.copied == d.schema.copied && d'.schema.cols == d.schema.cols
    decreases |fuels|
  {
    if fuels != [] {
      var m, f := Upgrade(ids), fuels[|fuels| - 1];
      StaysStuck(ids, d, fuels[..|fuels| - 1]);
      var d1 := Starts([m], d, fuels[..|fuels| - 1]);
      OneIsPending(m, d1);
      CopyingFails(ids, d1.schema, |Body(ids)|);
      assert Body(ids)[..|Body(ids)|] == Body(ids);
      if f > 1 {
        var k := Least(f - 1, |m.stmts|);
        assert m.stmts[..k] == [Look()] + Body(ids)[..k - 1];
        CopyingFails(ids, d1.schema, k - 1);
      }
    }
  }

  /** Without the column `metric` the migration returns at once. */
  lemma ReturnsAtOnce(ids: seq<int>, s: Tables)
    requires "metric" !in s.cols
    ensures Reached(Upgrade(ids).stmts, s) == s.(found := false) && Succeeds(Upgrade(ids).stmts, s)
  {
    var seen := s.(found := false);
    AfterLook(Body(ids), s);
    forall i | 0 <= i < |Body(ids)| ensures Body(ids)[i](seen) == Some(seen) {
      if i >= |ids| { assert Body(ids)[i] == Drop(OldColumns[i - |ids|]); } else { assert Body(ids)[i] == Copy(ids[i]); }
    }
    NothingLeft(Body(ids), seen);
  }

  lemma MetricIsFirstDropped(n: nat)
    requires 0 < n <= |OldColumns|
    ensures "metric" in Cols(OldColumns[..n])
    ensures n < |OldColumns| ==> OldColumns[n] !in Cols(OldColumns[..n])
  {
    assert OldColumns[..n][0] == "metric";
    forall i | 0 <= i < n && n < |OldColumns| ensures OldColumns[i] != OldColumns[n] { ColumnsDiffer(i, n); }
  }

  lemma ColumnsDiffer(i: nat, j: nat)
    requires i < j < |OldColumns|
    ensures OldColumns[i] != OldColumns[j]
  {
  }

  /** The rules copied and the old columns gone, with a clean record. */
  predicate Upgraded(ids: seq<int>, d: Disk<Tables>) {
    !d.dirty && d.schema.copied == Ids(ids) && d.schema.cols == {}
  }

  /** A stop of the first start after the look and `k` more statements: the next start, let
      run, completes the upgrade exactly if no rule was copied and no column dropped, or all
      were.  After a stop among the copies every later start fails; after a stop among the
      drops the next is marked clean, with the rest of the columns left. */
  lemma UpgradeAbsorbsIff(ids: seq<int>, k: nat, last: nat)
    requires Distinct(ids) && k <= |ids| + |OldColumns| && last >= |Upgrade(ids).stmts| + 2
    ensures var m := Upgrade(ids);
            var d := Start([m], Stamp, k + 2);
            var d' := Start([m], d, last);
            && (Upgraded(ids, d') <==> k == 0 || k == |ids| + |OldColumns|)
            && (0 < k <= |ids| ==> forall fuels :: Starts([m], d, fuels).dirty)
            && (|ids| < k ==> !d'.dirty && d'.schema.cols == Cols(OldColumns) - Cols(OldColumns[..k - |ids|]))
  {
    var m := Upgrade(ids);
    var d := Start([m], Stamp, k + 2);
    FirstStart(ids, k);
    FullStart(ids, d, last);
    MetricIsOld();
    if k == 0 {
      AllAtOnce(ids, d.schema);
    } else if k <= |ids| {
      assert ids[..k][0] == ids[0];
      forall fuels ensures Starts([m], d, fuels).dirty { StaysStuck(ids, d, fuels); }
      CopyingFails(ids, d.schema, |Body(ids)|);
      assert Body(ids)[..|Body(ids)|] == Body(ids);
    } else {
      var n := k - |ids|;
      MetricIsFirstDropped(n);
      ReturnsAtOnce(ids, d.schema);
      if n < |OldColumns| {
        assert OldColumns[n] in d.schema.cols;
      } else {
        assert OldColumns[..n] == OldColumns;
      }
    }
  }

  /** Nothing copied yet and all columns there: the migration does all of it. */
  lemma AllAtOnce(ids: seq<int>, s: Tables)
    requires Distinct(ids) && s.copied == {} && s.cols == Cols(OldColumns)
    ensures Succeeds(Upgrade(ids).stmts, s)
    ensures Reached(Upgrade(ids).stmts, s).copied == Ids(ids) && Reached(Upgrade(ids).stmts, s).cols == {}
  {
    var seen := s.(found := true);
    MetricIsOld();
    AfterLook(Body(ids), s);
    ReachedStops(Copies(ids), Drops(OldColumns), seen);
    CopiesReach(ids, seen);
    DropsReach(OldColumns, Reached(Copies(ids), seen));
  }
}
