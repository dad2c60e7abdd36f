/** Dropping bind mounts of directories inside a filesystem that is mounted already. */
module BindMounts {

  datatype Mount = Mount(device: string, mountPoint: string, devID: string, root: string, fstype: string)

  function TrimSlash(s: string): string {
    if s != [] && s[|s| - 1] == '/' then s[..|s| - 1] else s
  }

  predicate RootContains(parent: string, child: string) {
    parent == "/" || TrimSlash(parent) + "/" <= child
  }

  /** `o` shows the same filesystem as `m`, from a root strictly above. */
  predicate Above(o: Mount, m: Mount) {
    o.devID == m.devID && o.root != m.root && RootContains(o.root, m.root)
  }

  predicate Kept(mounts: seq<Mount>, m: Mount) {
    forall o :: o in mounts ==> !Above(o, m)
  }

  /** The mounts of `some`, in order, that nothing in `all` is above. */
  function Survivors(some: seq<Mount>, all: seq<Mount>): seq<Mount> {
    if some == [] then []
    else
      var m := some[|some| - 1];
      Survivors(some[..|some| - 1], all) + if Kept(all, m) then [m] else []
  }

  method DropBindDuplicates(mounts: seq<Mount>) returns (out: seq<Mount>)
    ensures out == Survivors(mounts, mounts)
    ensures (forall o :: o in mounts ==> Absolute(o)) ==>
              forall m :: m in out <==> m in mounts && forall o :: o in mounts ==> !ShowsFromAbove(o, m)
  {
    out := [];
    for i := 0 to |mounts|
      invariant out == Survivors(mounts[..i], mounts)
    {
      var m, dup, j := mounts[i], false, 0;
      while j < |mounts| && !dup
        invariant 0 <= j <= |mounts|
        invariant dup <==> !Kept(mounts[..j], m)
      {
        var o := mounts[j];
        KeptNext(mounts, m, j);
        if i != j && o.devID == m.devID && o.root != m.root && RootContains(o.root, m.root) {
          dup := true;
        }
        j := j + 1;
      }
      KeptUpTo(mounts, m, j);
      if !dup {
        out := out + [m];
      }
      assert mounts[..i + 1][..i] == mounts[..i];
    }
    assert mounts[..|mounts|] == mounts;
    if forall o :: o in mounts ==> Absolute(o) {
      forall m ensures m in out <==> m in mounts && forall o :: o in mounts ==> !ShowsFromAbove(o, m) {
        KeptByComponents(mounts, m);
      }
    }
  }

  lemma KeptNext(mounts: seq<Mount>, m: Mount, j: nat)
    requires j < |mounts|
    ensures Kept(mounts[..j + 1], m) <==> Kept(mounts[..j], m) && !Above(mounts[j], m)
  {
    assert mounts[..j + 1] == mounts[..j] + [mounts[j]];
    assert mounts[j] in mounts[..j + 1];
    forall o | o in mounts[..j] ensures o in mounts[..j + 1] { }
  }

  lemma KeptUpTo(mounts: seq<Mount>, m: Mount, j: nat)
    requires j <= |mounts|
    ensures !Kept(mounts[..j], m) ==> !Kept(mounts, m)
    ensures j == |mounts| ==> (Kept(mounts[..j], m) <==> Kept(mounts, m))
  {
    assert mounts[..|mounts|] == mounts;
    forall o | o in mounts[..j] ensures o in mounts { }
  }

  // ---- What is kept

  lemma {:induction false} SurvivorsAre(some: seq<Mount>, all: seq<Mount>, m: Mount)
    ensures m in Survivors(some, all) <==> m in some && Kept(all, m)
    decreases |some|
  {
    if some != [] {
      var k := |some| - 1;
      SurvivorsAre(some[..k], all, m);
      assert some == some[..k] + [some[k]];
    }
  }

  lemma {:induction false} AllSurvive(some: seq<Mount>, all: seq<Mount>)
    requires forall m :: m in some ==> Kept(all, m)
    ensures Survivors(some, all) == some
    decreases |some|
  {
    if some != [] {
      var k := |some| - 1;
      assert some == some[..k] + [some[k]];
      AllSurvive(some[..k], all);
    }
  }

  /** What is kept keeps its order: `at` are the places of the mounts that survive. */
  lemma {:induction false} SurvivorsInOrder(some: seq<Mount>, all: seq<Mount>) returns (at: seq<nat>)
    ensures |at| == |Survivors(some, all)|
    ensures forall k :: 0 <= k < |at| ==> at[k] < |some| && Survivors(some, all)[k] == some[at[k]]
    ensures forall j, k :: 0 <= j < k < |at| ==> at[j] < at[k]
    ensures forall i :: 0 <= i < |some| ==> (i in at <==> Kept(all, some[i]))
    decreases |some|
  {
    at := [];
    if some != [] {
      var last := |some| - 1;
      at := SurvivorsInOrder(some[..last], all);
      forall i | 0 <= i < last ensures i in at <==> Kept(all, some[i]) { assert some[..last][i] == some[i]; }
      if Kept(all, some[last]) { at := at + [last]; }
    }
  }

  /** Nothing more is dropped the second time. */
  lemma DropTwice(mounts: seq<Mount>)
    ensures var kept := Survivors(mounts, mounts); Survivors(kept, kept) == kept
  {
    var kept := Survivors(mounts, mounts);
    forall m | m in kept ensures Kept(kept, m) {
      SurvivorsAre(mounts, mounts, m);
      forall o | o in kept ensures !Above(o, m) { SurvivorsAre(mounts, mounts, o); }
    }
    AllSurvive(kept, kept);
  }

  // ---- Every dropped mount is still represented

  predicate Absolute(m: Mount) { m.root != [] && m.root[0] == '/' }

  /** Below any root but "/", roots get longer. */
  lemma AboveIsShorter(o: Mount, m: Mount)
    requires Above(o, m) && (o.root == "/" ==> Absolute(m))
    ensures |o.root| < |m.root|
  {
    if o.root != "/" {
      var t := TrimSlash(o.root);
      assert |t + "/"| >= |o.root|;
      assert |t + "/"| == |o.root| ==> t + "/" == o.root;
    }
  }

  lemma AboveTransitive(a: Mount, b: Mount, c: Mount)
    requires Above(a, b) && Above(b, c)
    requires b.root == "/" ==> Absolute(c)
    requires a.root == "/" ==> Absolute(b) && Absolute(c)
    ensures Above(a, c)
  {
    AboveIsShorter(a, b);
    AboveIsShorter(b, c);
    if a.root != "/" {
      assert TrimSlash(a.root) + "/" <= TrimSlash(b.root) + "/";
    }
  }

  /** Between absolute roots, strict containment is a strict partial order. */
  lemma {:induction false} AboveIsAnOrder(a: Mount, b: Mount, c: Mount)
    requires Absolute(a) && Absolute(b) && Absolute(c)
    ensures Above(a, b) && Above(b, c) ==> Above(a, c)
    ensures Above(a, b) ==> !Above(b, a) && |a.root| < |b.root|
  {
    if Above(a, b) { AboveIsShorter(a, b); }
    if Above(b, a) { AboveIsShorter(b, a); }
    if Above(a, b) && Above(b, c) { AboveTransitive(a, b, c); }
  }

  ghost predicate Represented(mounts: seq<Mount>, m: Mount) {
    Kept(mounts, m) || exists k :: k in mounts && Kept(mounts, k) && Above(k, m)
  }

  predicate Pair(a: Mount, b: Mount) { a.devID == b.devID && a.root == [] && b.root == "/" }

  /** Some device is mounted both from the empty root and from "/". */
  predicate HasPair(mounts: seq<Mount>) {
    exists a, b :: a in mounts && b in mounts && Pair(a, b)
  }

  lemma SlashIsKept(mounts: seq<Mount>, m: Mount)
    requires m in mounts && m.root == "/" && !HasPair(mounts)
    ensures Kept(mounts, m)
  {
    forall o | o in mounts ensures !Above(o, m) {
      assert !Pair(o, m);
      assert |o.root| >= 2 ==> |TrimSlash(o.root) + "/"| >= 2;
    }
  }

  /** However long the chain of dropped mounts above a mount is, a kept one ends it. */
  lemma {:induction false} RepresentedWithoutPair(mounts: seq<Mount>, m: Mount)
    requires m in mounts && !HasPair(mounts)
    ensures Represented(mounts, m)
    decreases |m.root|
  {
    if !Kept(mounts, m) {
      var o :| o in mounts && Above(o, m);
      if o.root == "/" {
        SlashIsKept(mounts, o);
      } else {
        AboveIsShorter(o, m);
        RepresentedWithoutPair(mounts, o);
        if !Kept(mounts, o) {
          var k :| k in mounts && Kept(mounts, k) && Above(k, o);
          if k.root == "/" {
            SlashAbove(mounts, k, m);
          } else {
            if m.root == "/" { SlashIsKept(mounts, m); }
            if o.root == "/" { SlashIsKept(mounts, o); }
            AboveTransitive(k, o, m);
          }
        }
      }
    }
  }

  lemma SlashAbove(mounts: seq<Mount>, k: Mount, m: Mount)
    requires m in mounts && k in mounts && k.root == "/" && k.devID == m.devID
    requires !Kept(mounts, m) && !HasPair(mounts)
    ensures Above(k, m)
  {
    if m.root == "/" { SlashIsKept(mounts, m); }
  }

  /** Every dropped mount lies below a kept one, unless a device is mounted both from ""
      and from "/": these two drop each other. */
  lemma DroppedAreRepresentedIff(mounts: seq<Mount>)
    ensures (forall m :: m in mounts ==> Represented(mounts, m)) <==> !HasPair(mounts)
  {
    if HasPair(mounts) {
      var a, b :| a in mounts && b in mounts && Pair(a, b);
      assert TrimSlash(a.root) + "/" == "/";
      assert Above(a, b) && Above(b, a);
      forall k | k in mounts && Above(k, a) ensures !Kept(mounts, k) {
        assert |TrimSlash(k.root) + "/"| > |a.root|;
        assert k.root == "/";
        assert Above(a, k);
      }
      assert !Represented(mounts, a);
    } else {
      forall m | m in mounts ensures Represented(mounts, m) { RepresentedWithoutPair(mounts, m); }
    }
  }

  /** Roots as the kernel reports them are absolute, so the filesystem of every dropped mount
      is still reported, by a mount in the result whose root contains the dropped one's. */
  lemma NoFilesystemLost(mounts: seq<Mount>, m: Mount)
    requires m in mounts && forall o :: o in mounts ==> Absolute(o)
    ensures var out := Survivors(mounts, mounts);
            m in out || exists k :: k in out && Above(k, m)
  {
    assert !HasPair(mounts);
    RepresentedWithoutPair(mounts, m);
    SurvivorsAre(mounts, mounts, m);
    if !Kept(mounts, m) {
      var k :| k in mounts && Kept(mounts, k) && Above(k, m);
      SurvivorsAre(mounts, mounts, k);
    }
  }

  /** Two mounts that leave nothing of their device. */
  lemma PairIsLost(device: string, fstype: string)
    ensures var mounts := [Mount(device, "/a", "8:1", "", fstype), Mount(device, "/b", "8:1", "/", fstype)];
            HasPair(mounts) && Survivors(mounts, mounts) == []
  {
    var a, b := Mount(device, "/a", "8:1", "", fstype), Mount(device, "/b", "8:1", "/", fstype);
    var mounts := [a, b];
    assert a in mounts && b in mounts && Pair(a, b);
    assert TrimSlash("") + "/" == "/";
    assert Above(a, b) && Above(b, a);
    assert mounts[..1] == [a] && mounts[..1][..0] == [];
    assert Survivors(mounts[..1], mounts) == [];
  }

  // ---- Containment is by whole path components

  /** The components of a path: what stands between its slashes. */
  function Split(path: string): (parts: seq<string>)
    ensures parts != []
  {
    if path == [] then [""]
    else if path[0] == '/' then [""] + Split(path[1..])
    else var rest := Split(path[1..]); [[path[0]] + rest[0]] + rest[1..]
  }

  function Join(parts: seq<string>): string
    requires parts != []
  {
    if |parts| == 1 then parts[0] else parts[0] + "/" + Join(parts[1..])
  }

  /** They hold no slash, and joined with slashes they are the path. */
  lemma {:induction false} JoinSplit(path: string)
    ensures Join(Split(path)) == path
    ensures forall k :: 0 <= k < |Split(path)| ==> '/' !in Split(path)[k]
    decreases |path|
  {
    if path != [] {
      var rest := Split(path[1..]);
      JoinSplit(path[1..]);
      if path[0] == '/' {
        assert ([""] + rest)[1..] == rest && "" + "/" + Join(rest) == path;
      } else {
        var parts := [[path[0]] + rest[0]] + rest[1..];
        assert parts[1..] == rest[1..];
        assert path == [path[0]] + path[1..];
        forall k | 0 <= k < |parts| ensures '/' !in parts[k] {
          if k > 0 { assert parts[k] == rest[k]; }
        }
      }
    }
  }

  /** The components of a root, one slash at its end aside. */
  function Parts(root: string): seq<string> {
    var parts := Split(root);
    if |parts| > 1 && parts[|parts| - 1] == "" then parts[..|parts| - 1] else parts
  }

  predicate ProperPrefix(a: seq<string>, b: seq<string>) { |a| < |b| && b[..|a|] == a }

  lemma {:induction false} SplitPrefixIff(a: string, c: string)
    ensures a + "/" <= c <==> ProperPrefix(Split(a), Split(c))
    decreases |a|
  {
    if c == [] {
    } else if a == [] {
      HeadIsEmptyIff(c);
    } else if a[0] == c[0] {
      SplitPrefixIff(a[1..], c[1..]);
      assert (a + "/")[1..] == a[1..] + "/" && (a + "/")[0] == a[0];
      assert a + "/" <= c <==> a[1..] + "/" <= c[1..];
      SameHeads(a, c);
    } else {
      assert (a + "/")[0] == a[0];
      DifferentHeads(a, c);
    }
  }

  lemma HeadIsEmptyIff(c: string)
    requires c != []
    ensures Split(c)[0] == "" <==> c[0] == '/'
    ensures c[0] == '/' ==> |Split(c)| > 1
  {
  }

  /** Prefixing both lists with one part. */
  lemma PrefixedParts(h: string, p: seq<string>, q: seq<string>)
    ensures ProperPrefix([h] + p, [h] + q) <==> ProperPrefix(p, q)
  {
    if |p| < |q| {
      assert ([h] + q)[..|p| + 1] == [h] + q[..|p|];
      assert ([h] + p)[1..] == p && ([h] + q[..|p|])[1..] == q[..|p|];
    }
  }

  /** Prefixing the first parts of both lists with one character. */
  lemma PrefixedHeads(h: char, p: seq<string>, q: seq<string>)
    requires p != [] && q != []
    ensures ProperPrefix([[h] + p[0]] + p[1..], [[h] + q[0]] + q[1..]) <==> ProperPrefix(p, q)
  {
    assert p == [p[0]] + p[1..] && q == [q[0]] + q[1..];
    if p[0] == q[0] {
      PrefixedParts(p[0], p[1..], q[1..]);
      PrefixedParts([h] + p[0], p[1..], q[1..]);
    } else {
      assert [h] + p[0] != [h] + q[0] by { assert ([h] + p[0])[1..] == p[0] && ([h] + q[0])[1..] == q[0]; }
      OtherHeads(p, q);
      OtherHeads([[h] + p[0]] + p[1..], [[h] + q[0]] + q[1..]);
    }
  }

  lemma OtherHeads(p: seq<string>, q: seq<string>)
    requires p != [] && q != [] && p[0] != q[0]
    ensures !ProperPrefix(p, q)
  {
    if |p| < |q| { assert q[..|p|][0] == q[0]; }
  }

  lemma SameHeads(a: string, c: string)
    requires a != [] && c != [] && a[0] == c[0]
    ensures ProperPrefix(Split(a), Split(c)) <==> ProperPrefix(Split(a[1..]), Split(c[1..]))
  {
    if a[0] == '/' {
      PrefixedParts("", Split(a[1..]), Split(c[1..]));
    } else {
      PrefixedHeads(a[0], Split(a[1..]), Split(c[1..]));
    }
  }

  lemma DifferentHeads(a: string, c: string)
    requires a != [] && c != [] && a[0] != c[0]
    ensures !ProperPrefix(Split(a), Split(c))
  {
    HeadIsEmptyIff(a);
    HeadIsEmptyIff(c);
    if a[0] != '/' && c[0] != '/' {
      assert Split(a)[0][0] == a[0] && Split(c)[0][0] == c[0];
    }
    OtherHeads(Split(a), Split(c));
  }

  lemma {:induction false} PartsAreTrimmed(root: string)
    ensures Parts(root) == Split(TrimSlash(root))
    decreases |root|
  {
    LastPart(root);
    if root != [] && root[|root| - 1] == '/' {
      SplitEndingInSlash(root[..|root| - 1]);
      assert root == root[..|root| - 1] + "/";
    }
  }

  lemma {:induction false} SplitEndingInSlash(a: string)
    ensures Split(a + "/") == Split(a) + [""]
    decreases |a|
  {
    if a == [] {
      assert a + "/" == "/" && "/"[1..] == "";
    } else {
      assert (a + "/")[1..] == a[1..] + "/" && (a + "/")[0] == a[0];
      SplitEndingInSlash(a[1..]);
      var p := Split(a[1..]);
      assert (p + [""])[0] == p[0] && (p + [""])[1..] == p[1..] + [""];
    }
  }

  lemma {:induction false} LastPart(path: string)
    ensures |Split(path)| > 1 && Split(path)[|Split(path)| - 1] == "" <==> path != [] && path[|path| - 1] == '/'
    decreases |path|
  {
    if path != [] {
      LastPart(path[1..]);
      var p := Split(path[1..]);
      if path[1..] != [] { assert path[1..][|path| - 2] == path[|path| - 1]; }
    }
  }

  /** One root contains an absolute one exactly if its components begin those of the other. */
  lemma ContainsByComponents(parent: string, child: string)
    requires child != [] && child[0] == '/'
    ensures RootContains(parent, child) <==> ProperPrefix(Parts(parent), Split(child))
  {
    PartsAreTrimmed(parent);
    SplitPrefixIff(TrimSlash(parent), child);
  }

  /** `o` shows the filesystem of `m` from a directory above. */
  predicate ShowsFromAbove(o: Mount, m: Mount) {
    o.devID == m.devID && o.root != m.root && ProperPrefix(Parts(o.root), Split(m.root))
  }

  /** A mount is kept exactly if no other of its device has a root whose components begin
      those of its own. */
  lemma KeptByComponents(mounts: seq<Mount>, m: Mount)
    requires forall o :: o in mounts ==> Absolute(o)
    ensures m in Survivors(mounts, mounts) <==> m in mounts && forall o :: o in mounts ==> !ShowsFromAbove(o, m)
  {
    SurvivorsAre(mounts, mounts, m);
    if m in mounts {
      forall o | o in mounts ensures Above(o, m) <==> ShowsFromAbove(o, m) { ContainsByComponents(o.root, m.root); }
    }
  }

  /** A root that only goes on where another ends, like /@home after /@, is not dropped on
      account of it. */
  lemma SiblingIsKept(o: Mount, m: Mount, tail: string)
    requires Absolute(o) && o.root[|o.root| - 1] != '/' && m.root == o.root + tail
    requires tail != [] && tail[0] != '/'
    ensures !Above(o, m) && !ShowsFromAbove(o, m)
  {
    ContainsByComponents(o.root, m.root);
    assert TrimSlash(o.root) == o.root;
    assert (o.root + "/")[|o.root|] == '/' && m.root[|o.root|] == tail[0];
  }

  /** "/" mounted from /@ and "/home" from /@home on one device are both kept. */
  lemma SubvolumesAreKept()
    ensures var mounts := [Mount("/dev/a", "/", "8:1", "/@", "btrfs"), Mount("/dev/a", "/home", "8:1", "/@home", "btrfs")];
            Survivors(mounts, mounts) == mounts
  {
    var a, b := Mount("/dev/a", "/", "8:1", "/@", "btrfs"), Mount("/dev/a", "/home", "8:1", "/@home", "btrfs");
    var mounts := [a, b];
    assert b.root == a.root + "home";
    SiblingIsKept(a, b, "home");
    AboveIsAnOrder(b, a, b);
    forall m | m in mounts ensures Kept(mounts, m) { }
    AllSurvive(mounts, mounts);
  }
}
