// Reconciling managed apps
// (app/src/main/java/com/xmdm/launcher/apps/ManagedAppInstallCoordinator.kt 93-168, 204-218):
// install what is not at its version, uninstall what is no longer wanted, stop at any failure.
module ManagedApps {
  import opened Wrappers

  datatype App = App(package: string, version: int)

  // Package name to installed version code.
  type Device = map<string, int>

  datatype Op = Install(app: App) | Uninstall(package: string)

  // --- launcherLast ------------------------------------------------------------------------

  function Keep(apps: seq<App>, launcher: string, wantLauncher: bool): seq<App> {
    if apps == [] then []
    else
      var n := |apps| - 1;
      Keep(apps[..n], launcher, wantLauncher) +
      (if (apps[n].package == launcher) == wantLauncher then [apps[n]] else [])
  }

  function LauncherLast(apps: seq<App>, launcher: string): seq<App> {
    Keep(apps, launcher, false) + Keep(apps, launcher, true)
  }

  lemma OneMore(a: seq<App>, b: seq<App>, c: seq<App>, x: App, all: seq<App>, inB: bool)
    requires multiset(a + b) == multiset(c) && all == c + [x]
    ensures multiset((a + (if inB then [] else [x])) + (b + (if inB then [x] else []))) == multiset(all)
  {
    assert multiset(all) == multiset(a) + multiset(b) + multiset([x]);
  }

  lemma {:induction false} KeepParts(apps: seq<App>, launcher: string)
    ensures multiset(Keep(apps, launcher, false) + Keep(apps, launcher, true)) == multiset(apps)
  {
    if apps != [] {
      var n := |apps| - 1;
      KeepParts(apps[..n], launcher);
      OneMore(Keep(apps[..n], launcher, false), Keep(apps[..n], launcher, true), apps[..n], apps[n], apps,
              apps[n].package == launcher);
    }
  }

  lemma {:induction false} KeepKind(apps: seq<App>, launcher: string, want: bool)
    ensures forall i :: 0 <= i < |Keep(apps, launcher, want)| ==>
      (Keep(apps, launcher, want)[i].package == launcher) == want
  {
    if apps != [] {
      KeepKind(apps[..|apps| - 1], launcher, want);
    }
  }

  // A permutation with the launcher's entries last, each half in its original order.
  lemma LauncherLastStable(apps: seq<App>, launcher: string)
    ensures multiset(LauncherLast(apps, launcher)) == multiset(apps)
    ensures var r := LauncherLast(apps, launcher);
            forall i, j :: 0 <= i < j < |r| && r[i].package == launcher ==> r[j].package == launcher
    ensures forall b :: Keep(LauncherLast(apps, launcher), launcher, b) == Keep(apps, launcher, b)
  {
    KeepParts(apps, launcher);
    KeepKind(apps, launcher, false);
    KeepKind(apps, launcher, true);
    var a, l := Keep(apps, launcher, false), Keep(apps, launcher, true);
    forall b ensures Keep(a + l, launcher, b) == Keep(apps, launcher, b) {
      KeepSplits(a, l, launcher, b);
      KeepUniform(a, launcher, false, b);
      KeepUniform(l, launcher, true, b);
    }
  }

  lemma {:induction false} KeepSplits(a: seq<App>, b: seq<App>, launcher: string, want: bool)
    ensures Keep(a + b, launcher, want) == Keep(a, launcher, want) + Keep(b, launcher, want)
  {
    if b == [] {
      assert a + b == a;
    } else {
      var n := |b| - 1;
      assert (a + b)[..|a + b| - 1] == a + b[..n];
      KeepSplits(a, b[..n], launcher, want);
    }
  }

  lemma {:induction false} KeepUniform(apps: seq<App>, launcher: string, kind: bool, want: bool)
    requires forall i :: 0 <= i < |apps| ==> (apps[i].package == launcher) == kind
    ensures Keep(apps, launcher, want) == if kind == want then apps else []
  {
    if apps != [] {
      var n := |apps| - 1;
      KeepUniform(apps[..n], launcher, kind, want);
      assert apps == apps[..n] + [apps[n]];
    }
  }

  // --- The plan ----------------------------------------------------------------------------

  // Installs decided on the versions listed at the start.
  function Installs(apps: seq<App>, listed: Device): seq<Op> {
    if apps == [] then []
    else
      var n := |apps| - 1;
      Installs(apps[..n], listed) +
      (if apps[n].package in listed && listed[apps[n].package] == apps[n].version then [] else [Install(apps[n])])
  }

  function Packages(apps: seq<App>): set<string> { set a | a in apps :: a.package }

  // previousPackages - desiredPackages, as an ordered set.
  function Removed(previous: seq<string>, desired: set<string>): seq<string> {
    if previous == [] then []
    else
      var n := |previous| - 1;
      var before := Removed(previous[..n], desired);
      if previous[n] in desired || previous[n] in before then before else before + [previous[n]]
  }

  function Uninstalls(packages: seq<string>): seq<Op> {
    seq(|packages|, i requires 0 <= i < |packages| => Uninstall(packages[i]))
  }

  // The places below n that pass a test, in order.
  ghost predicate Picks(ks: seq<nat>, n: nat, test: nat -> bool) {
    && (forall m :: 0 <= m < |ks| ==> ks[m] < n)
    && (forall m, l :: 0 <= m < l < |ks| ==> ks[m] < ks[l])
    && (forall k: nat :: k in ks <==> k < n && test(k))
  }

  // One more place, with a test that agrees on the places before it.
  lemma PicksNext(ks: seq<nat>, n: nat, before: nat -> bool, test: nat -> bool) returns (more: seq<nat>)
    requires Picks(ks, n, before) && forall k: nat :: k < n ==> before(k) == test(k)
    ensures more == (if test(n) then ks + [n] else ks) && Picks(more, n + 1, test)
  {
    more := if test(n) then ks + [n] else ks;
  }

  // Item ks[m] of the apps makes operation m.
  ghost predicate Made(ops: seq<Op>, apps: seq<App>, ks: seq<nat>) {
    |ks| == |ops| && forall m :: 0 <= m < |ks| ==> ks[m] < |apps| && ops[m] == Install(apps[ks[m]])
  }

  lemma MadeNext(ops: seq<Op>, apps: seq<App>, ks: seq<nat>)
    requires apps != [] && Made(ops, apps[..|apps| - 1], ks)
    ensures Made(ops, apps, ks) && Made(ops + [Install(apps[|apps| - 1])], apps, ks + [|apps| - 1])
  {
  }

  ghost function Missing(apps: seq<App>, listed: Device): nat -> bool {
    (k: nat) => k < |apps| && !(apps[k].package in listed && listed[apps[k].package] == apps[k].version)
  }

  // The installs are exactly the apps that are not there at their version, in their order.
  lemma {:induction false} InstallsExact(apps: seq<App>, listed: Device) returns (ks: seq<nat>)
    ensures Picks(ks, |apps|, Missing(apps, listed)) && Made(Installs(apps, listed), apps, ks)
  {
    if apps == [] {
      ks := [];
    } else {
      var n := |apps| - 1;
      var front := InstallsExact(apps[..n], listed);
      MadeNext(Installs(apps[..n], listed), apps, front);
      ks := PicksNext(front, n, Missing(apps[..n], listed), Missing(apps, listed));
    }
  }

  // So the launcher is installed after every other app.
  lemma LauncherInstalledLast(desired: seq<App>, launcher: string, listed: Device, i: nat, j: nat)
    requires var ops := Installs(LauncherLast(desired, launcher), listed);
             i < j < |ops| && ops[i].Install? && ops[i].app.package == launcher
    ensures var op := Installs(LauncherLast(desired, launcher), listed)[j]; op.Install? && op.app.package == launcher
  {
    LauncherLastStable(desired, launcher);
    var ks := InstallsExact(LauncherLast(desired, launcher), listed);
    assert ks[i] < ks[j];
  }

  // Wanted before and not any more, at its first place.
  ghost function Unwanted(previous: seq<string>, desired: set<string>): nat -> bool {
    (k: nat) => k < |previous| && previous[k] !in desired && previous[k] !in previous[..k]
  }

  lemma UnwantedFront(previous: seq<string>, desired: set<string>, k: nat)
    requires k < |previous| - 1
    ensures Unwanted(previous[..|previous| - 1], desired)(k) == Unwanted(previous, desired)(k)
  {
    assert previous[..|previous| - 1][..k] == previous[..k];
  }

  // Place ks[m] of the list has name m.
  ghost predicate Taken(names: seq<string>, previous: seq<string>, ks: seq<nat>) {
    |ks| == |names| && forall m :: 0 <= m < |ks| ==> ks[m] < |previous| && names[m] == previous[ks[m]]
  }

  lemma TakenNext(names: seq<string>, previous: seq<string>, ks: seq<nat>)
    requires previous != [] && Taken(names, previous[..|previous| - 1], ks)
    ensures Taken(names, previous, ks) && Taken(names + [previous[|previous| - 1]], previous, ks + [|previous| - 1])
  {
  }

  // The removed packages are exactly those, each once and in the order of their first places.
  lemma {:induction false} RemovedExact(previous: seq<string>, desired: set<string>) returns (ks: seq<nat>)
    ensures Picks(ks, |previous|, Unwanted(previous, desired)) && Taken(Removed(previous, desired), previous, ks)
  {
    if previous == [] {
      ks := [];
    } else {
      var n := |previous| - 1;
      var front := RemovedExact(previous[..n], desired);
      RemovedIs(previous[..n], desired, previous[n]);
      TakenNext(Removed(previous[..n], desired), previous, front);
      forall k: nat | k < n ensures Unwanted(previous[..n], desired)(k) == Unwanted(previous, desired)(k) {
        UnwantedFront(previous, desired, k);
      }
      ks := PicksNext(front, n, Unwanted(previous[..n], desired), Unwanted(previous, desired));
    }
  }

  function Plan(device: Device, desired: seq<App>, previous: seq<string>, launcher: string): seq<Op> {
    Installs(LauncherLast(desired, launcher), device) + Uninstalls(Removed(previous, Packages(desired)))
  }

  // Nothing is uninstalled before everything is installed.
  lemma InstallsFirst(device: Device, desired: seq<App>, previous: seq<string>, launcher: string, i: nat, j: nat)
    requires i < j < |Plan(device, desired, previous, launcher)| &&
      Plan(device, desired, previous, launcher)[j].Install?
    ensures Plan(device, desired, previous, launcher)[i].Install?
  {
    var ks := InstallsExact(LauncherLast(desired, launcher), device);
  }

  // Uninstalling a package that is not there does nothing.
  function Perform(device: Device, op: Op): Device {
    match op
    case Install(app) => device[app.package := app.version]
    case Uninstall(package) => device - {package}
  }

  function PerformAll(device: Device, ops: seq<Op>): Device {
    if ops == [] then device else Perform(PerformAll(device, ops[..|ops| - 1]), ops[|ops| - 1])
  }

  // --- What the plan is for ----------------------------------------------------------------

  // No package is wanted at two versions.
  predicate Consistent(desired: seq<App>) {
    forall i, j :: 0 <= i < |desired| && 0 <= j < |desired| && desired[i].package == desired[j].package ==>
      desired[i].version == desired[j].version
  }

  // Every desired package at its version, previous-minus-desired gone, the rest untouched.
  ghost predicate Reconciled(before: Device, after: Device, desired: seq<App>, previous: seq<string>) {
    && (forall i :: 0 <= i < |desired| ==>
          desired[i].package in after && after[desired[i].package] == desired[i].version)
    && (forall p :: p in previous && p !in Packages(desired) ==> p !in after)
    && (forall p :: p !in previous && p !in Packages(desired) ==>
          (p in after <==> p in before) && (p in before ==> after[p] == before[p]))
  }

  // The effect on one package, told without the order of the operations.
  function Wanted(desired: seq<App>, package: string): (r: Option<int>)
    ensures r.None? <==> forall i :: 0 <= i < |desired| ==> desired[i].package != package
    ensures r.Some? ==> exists i :: 0 <= i < |desired| && desired[i] == App(package, r.value)
  {
    if desired == [] then None
    else
      var n := |desired| - 1;
      if desired[n].package == package then Some(desired[n].version) else Wanted(desired[..n], package)
  }

  function At(device: Device, package: string): Option<int> {
    if package in device then Some(device[package]) else None
  }

  lemma {:induction false} PerformSplits(device: Device, a: seq<Op>, b: seq<Op>)
    ensures PerformAll(device, a + b) == PerformAll(PerformAll(device, a), b)
  {
    if b == [] {
      assert a + b == a;
    } else {
      var n := |b| - 1;
      assert (a + b)[..|a + b| - 1] == a + b[..n];
      PerformSplits(device, a, b[..n]);
    }
  }

  // After some installs a package is where it was, or at a version wanted for it.
  lemma {:induction false} InstallsAt(apps: seq<App>, listed: Device, start: Device, p: string, k: nat)
    requires Consistent(apps) && k <= |Installs(apps, listed)|
    ensures var end := PerformAll(start, Installs(apps, listed)[..k]);
            && (At(end, p) == At(start, p) || (Wanted(apps, p).Some? && At(end, p) == Wanted(apps, p)))
            && (k == |Installs(apps, listed)| && Wanted(apps, p).Some? && At(start, p) == At(listed, p) ==>
                At(end, p) == Wanted(apps, p))
  {
    if apps != [] {
      var n := |apps| - 1;
      var front := Installs(apps[..n], listed);
      var all := Installs(apps, listed);
      assert Consistent(apps[..n]);
      WantedExtends(apps, p);
      if k <= |front| {
        assert all[..k] == front[..k];
        InstallsAt(apps[..n], listed, start, p, k);
      } else {
        assert all == front + [Install(apps[n])];
        assert all[..k] == all;
        InstallsAt(apps[..n], listed, start, p, |front|);
        assert front[..|front|] == front;
        assert all[..|all| - 1] == front;
        WantedLast(apps);
      }
    }
  }

  lemma WantedLast(apps: seq<App>)
    requires apps != []
    ensures Wanted(apps, apps[|apps| - 1].package) == Some(apps[|apps| - 1].version)
  {
  }

  lemma WantedExtends(apps: seq<App>, p: string)
    requires apps != [] && Consistent(apps)
    ensures var n := |apps| - 1;
            && (Wanted(apps[..n], p).Some? ==> Wanted(apps, p) == Wanted(apps[..n], p))
            && (apps[n].package != p ==> Wanted(apps, p) == Wanted(apps[..n], p))
  {
    var n := |apps| - 1;
    if Wanted(apps[..n], p).Some? && apps[n].package == p {
      var i :| 0 <= i < n && apps[..n][i] == App(p, Wanted(apps[..n], p).value);
      assert apps[i] == apps[..n][i];
    }
  }

  lemma {:induction false} UninstallsAt(packages: seq<string>, start: Device, p: string, k: nat)
    requires k <= |packages|
    ensures At(PerformAll(start, Uninstalls(packages)[..k]), p) == if p in packages[..k] then None else At(start, p)
  {
    if k > 0 {
      UninstallsAt(packages, start, p, k - 1);
      assert Uninstalls(packages)[..k][..k - 1] == Uninstalls(packages)[..k - 1];
      assert packages[..k] == packages[..k - 1] + [packages[k - 1]];
    }
  }

  lemma {:induction false} RemovedIs(previous: seq<string>, desired: set<string>, p: string)
    ensures p in Removed(previous, desired) <==> p in previous && p !in desired
  {
    if previous != [] {
      var n := |previous| - 1;
      RemovedIs(previous[..n], desired, p);
      assert previous == previous[..n] + [previous[n]];
      if previous[n] == p && p !in desired { RemovedIs(previous[..n], desired, previous[n]); }
    }
  }

  lemma WantedPackages(desired: seq<App>, p: string)
    ensures p in Packages(desired) <==> Wanted(desired, p).Some?
  {
    if p in Packages(desired) {
      var a :| a in desired && a.package == p;
      var i :| 0 <= i < |desired| && desired[i] == a;
    }
  }

  // Reordering changes neither consistency nor what is wanted.
  lemma WantedPermuted(a: seq<App>, b: seq<App>, p: string)
    requires multiset(a) == multiset(b) && Consistent(a)
    ensures Consistent(b) && Wanted(a, p) == Wanted(b, p)
  {
    forall i | 0 <= i < |b| ensures b[i] in a { assert b[i] in multiset(b); }
    forall i | 0 <= i < |a| ensures a[i] in b { assert a[i] in multiset(a); }
  }

  // The state of one package after the first k operations of the plan.
  lemma PrefixAt(device: Device, desired: seq<App>, previous: seq<string>, launcher: string, p: string, k: nat)
    requires Consistent(desired) && k <= |Plan(device, desired, previous, launcher)|
    ensures var end := PerformAll(device, Plan(device, desired, previous, launcher)[..k]);
            var done := k == |Plan(device, desired, previous, launcher)|;
            match Wanted(desired, p)
            case Some(v) => At(end, p) == Some(v) || (!done && At(end, p) == At(device, p))
            case None =>
              if p in previous then At(end, p) == None || (!done && At(end, p) == At(device, p))
              else At(end, p) == At(device, p)
  {
    var ordered := LauncherLast(desired, launcher);
    var ins := Installs(ordered, device);
    var gone := Removed(previous, Packages(desired));
    if k < |ins| {
      assert Plan(device, desired, previous, launcher)[..k] == ins[..k];
      HeadAt(device, desired, launcher, p, k);
    } else {
      assert Plan(device, desired, previous, launcher)[..k] == ins + Uninstalls(gone)[..k - |ins|];
      GoneAt(device, desired, previous, launcher, p, k - |ins|);
    }
  }

  lemma HeadAt(device: Device, desired: seq<App>, launcher: string, p: string, k: nat)
    requires Consistent(desired) && k <= |Installs(LauncherLast(desired, launcher), device)|
    ensures var end := PerformAll(device, Installs(LauncherLast(desired, launcher), device)[..k]);
            At(end, p) == At(device, p) || (Wanted(desired, p).Some? && At(end, p) == Wanted(desired, p))
  {
    LauncherLastStable(desired, launcher);
    WantedPermuted(desired, LauncherLast(desired, launcher), p);
    InstallsAt(LauncherLast(desired, launcher), device, device, p, k);
  }

  lemma GoneAt(device: Device, desired: seq<App>, previous: seq<string>, launcher: string, p: string, k: nat)
    requires Consistent(desired) && k <= |Removed(previous, Packages(desired))|
    ensures var gone := Removed(previous, Packages(desired));
            var end := PerformAll(device, Installs(LauncherLast(desired, launcher), device) + Uninstalls(gone)[..k]);
            match Wanted(desired, p)
            case Some(v) => At(end, p) == Some(v)
            case None =>
              if p in previous then At(end, p) == None || (k < |gone| && At(end, p) == At(device, p))
              else At(end, p) == At(device, p)
  {
    var gone := Removed(previous, Packages(desired));
    LauncherLastStable(desired, launcher);
    WantedPermuted(desired, LauncherLast(desired, launcher), p);
    TailAt(device, LauncherLast(desired, launcher), gone, p, k);
    RemovedIs(previous, Packages(desired), p);
    WantedPackages(desired, p);
    assert gone[..|gone|] == gone;
    if p in gone[..k] { assert p in gone; }
  }

  // All the installs, then the first `k` of the uninstalls.
  lemma TailAt(device: Device, ordered: seq<App>, gone: seq<string>, p: string, k: nat)
    requires Consistent(ordered) && k <= |gone|
    ensures At(PerformAll(device, Installs(ordered, device) + Uninstalls(gone)[..k]), p) ==
            if p in gone[..k] then None else if Wanted(ordered, p).Some? then Wanted(ordered, p) else At(device, p)
  {
    AfterInstalls(device, ordered, p);
    PerformSplits(device, Installs(ordered, device), Uninstalls(gone)[..k]);
    UninstallsAt(gone, PerformAll(device, Installs(ordered, device)), p, k);
  }

  lemma AfterInstalls(device: Device, ordered: seq<App>, p: string)
    requires Consistent(ordered)
    ensures At(PerformAll(device, Installs(ordered, device)), p) ==
            if Wanted(ordered, p).Some? then Wanted(ordered, p) else At(device, p)
  {
    var ins := Installs(ordered, device);
    InstallsAt(ordered, device, device, p, |ins|);
    assert ins[..|ins|] == ins;
  }

  // A run to the end reconciles every device exactly when no package is wanted at two versions.
  lemma RunReconciles(desired: seq<App>, previous: seq<string>, launcher: string)
    ensures (forall device: Device ::
              Reconciled(device, PerformAll(device, Plan(device, desired, previous, launcher)), desired, previous)) <==>
            Consistent(desired)
  {
    if Consistent(desired) {
      forall device: Device
        ensures Reconciled(device, PerformAll(device, Plan(device, desired, previous, launcher)), desired, previous)
      {
        FullRunReconciles(device, desired, previous, launcher);
      }
    } else {
      var device: Device := map[];
      var after := PerformAll(device, Plan(device, desired, previous, launcher));
      assert !Reconciled(device, after, desired, previous);
    }
  }

  lemma FullRunReconciles(device: Device, desired: seq<App>, previous: seq<string>, launcher: string)
    requires Consistent(desired)
    ensures Reconciled(device, PerformAll(device, Plan(device, desired, previous, launcher)), desired, previous)
  {
    var plan := Plan(device, desired, previous, launcher);
    var after := PerformAll(device, plan);
    assert plan[..|plan|] == plan;
    forall i | 0 <= i < |desired|
      ensures desired[i].package in after && after[desired[i].package] == desired[i].version
    {
      PrefixAt(device, desired, previous, launcher, desired[i].package, |plan|);
    }
    forall p ensures (p in previous && p !in Packages(desired) ==> p !in after) &&
                     (p !in previous && p !in Packages(desired) ==>
                        (p in after <==> p in device) && (p in device ==> after[p] == device[p]))
    {
      PrefixAt(device, desired, previous, launcher, p, |plan|);
      WantedPackages(desired, p);
    }
  }

  // Reconciled states of one device are all the same state.
  lemma ReconciledUnique(before: Device, a: Device, b: Device, desired: seq<App>, previous: seq<string>)
    requires Reconciled(before, a, desired, previous) && Reconciled(before, b, desired, previous)
    ensures a == b
  {
    forall p ensures At(a, p) == At(b, p) {
      WantedPackages(desired, p);
      if Wanted(desired, p).Some? {
        var i :| 0 <= i < |desired| && desired[i] == App(p, Wanted(desired, p).value);
      }
    }
    forall p | p in a ensures p in b && a[p] == b[p] { assert At(a, p) == At(b, p); }
    forall p | p in b ensures p in a { assert At(a, p) == At(b, p); }
  }

  // --- Failures ----------------------------------------------------------------------------

  // Attempts that got through some number of operations of their own plan and then failed.
  function Attempts(device: Device, desired: seq<App>, previous: seq<string>, launcher: string, cuts: seq<nat>): Device
    decreases cuts
  {
    if cuts == [] then device
    else
      var plan := Plan(device, desired, previous, launcher);
      var k := if cuts[0] <= |plan| then cuts[0] else |plan|;
      Attempts(PerformAll(device, plan[..k]), desired, previous, launcher, cuts[1..])
  }

  // Between a device before and one during the reconciliation, every package is as it was or
  // as it should be.
  ghost predicate Between(before: Device, during: Device, desired: seq<App>, previous: seq<string>) {
    forall p :: BetweenAt(before, during, desired, previous, p)
  }

  ghost predicate BetweenAt(before: Device, during: Device, desired: seq<App>, previous: seq<string>, p: string) {
    At(during, p) == At(before, p) ||
    (match Wanted(desired, p)
     case Some(v) => At(during, p) == Some(v)
     case None => p in previous && At(during, p) == None)
  }

  lemma {:induction false} AttemptsBetween(before: Device, device: Device, desired: seq<App>, previous: seq<string>,
                                           launcher: string, cuts: seq<nat>)
    requires Consistent(desired) && Between(before, device, desired, previous)
    ensures Between(before, Attempts(device, desired, previous, launcher, cuts), desired, previous)
    decreases cuts
  {
    if cuts != [] {
      var plan := Plan(device, desired, previous, launcher);
      var k := if cuts[0] <= |plan| then cuts[0] else |plan|;
      var next := PerformAll(device, plan[..k]);
      forall p ensures BetweenAt(before, next, desired, previous, p) {
        PrefixAt(device, desired, previous, launcher, p, k);
        assert BetweenAt(before, device, desired, previous, p);
      }
      AttemptsBetween(before, next, desired, previous, launcher, cuts[1..]);
    }
  }

  // Whatever failed however often, one run to the end reaches the state that a single
  // undisturbed run would have reached.
  lemma RerunConverges(device: Device, desired: seq<App>, previous: seq<string>, launcher: string, cuts: seq<nat>)
    requires Consistent(desired)
    ensures var d := Attempts(device, desired, previous, launcher, cuts);
            PerformAll(d, Plan(d, desired, previous, launcher)) ==
            PerformAll(device, Plan(device, desired, previous, launcher))
  {
    var d := Attempts(device, desired, previous, launcher, cuts);
    AttemptsBetween(device, device, desired, previous, launcher, cuts);
    FullRunReconciles(d, desired, previous, launcher);
    FullRunReconciles(device, desired, previous, launcher);
    var end := PerformAll(d, Plan(d, desired, previous, launcher));
    forall p | p !in previous && p !in Packages(desired)
      ensures (p in end <==> p in device) && (p in device ==> end[p] == device[p])
    {
      WantedPackages(desired, p);
      assert BetweenAt(device, d, desired, previous, p);
    }
    ReconciledUnique(device, end, PerformAll(device, Plan(device, desired, previous, launcher)), desired, previous);
  }

  lemma {:induction false} NothingToInstall(apps: seq<App>, device: Device)
    requires forall i :: 0 <= i < |apps| ==> apps[i].package in device && device[apps[i].package] == apps[i].version
    ensures Installs(apps, device) == []
  {
    if apps != [] {
      NothingToInstall(apps[..|apps| - 1], device);
    }
  }

  // Once reconciled, a further run with previous equal to desired has nothing to do.
  lemma SecondRunIdle(before: Device, device: Device, desired: seq<App>, previous: seq<string>, launcher: string)
    requires Consistent(desired) && Reconciled(before, device, desired, previous)
    ensures Plan(device, desired, seq(|desired|, i requires 0 <= i < |desired| => desired[i].package), launcher) == []
  {
    var ordered := LauncherLast(desired, launcher);
    LauncherLastStable(desired, launcher);
    forall i | 0 <= i < |ordered|
      ensures ordered[i].package in device && device[ordered[i].package] == ordered[i].version
    {
      assert ordered[i] in multiset(ordered);
      assert ordered[i] in desired;
    }
    NothingToInstall(ordered, device);
    var again := seq(|desired|, i requires 0 <= i < |desired| => desired[i].package);
    var gone := Removed(again, Packages(desired));
    if gone != [] {
      RemovedIs(again, Packages(desired), gone[0]);
      assert false;
    }
  }

  // --- apply -------------------------------------------------------------------------------

  // What an installer call, or the download before it, does: succeed, or throw with the
  // operation done or not.
  datatype Attempt = Succeeds | Throws(done: bool)

  class Installer {
    var device: Device

    constructor (device: Device)
      ensures this.device == device
    {
      this.device := device;
    }

    method Do(op: Op, attempt: Attempt) returns (ok: bool)
      modifies this
      ensures ok == attempt.Succeeds?
      ensures device == if attempt.Throws? && !attempt.done then old(device) else Perform(old(device), op)
    {
      match op {
        case Install(app) => if !(attempt.Throws? && !attempt.done) { device := device[app.package := app.version]; }
        case Uninstall(package) => if !(attempt.Throws? && !attempt.done) { device := device - {package}; }
      }
      ok := attempt.Succeeds?;
    }
  }

  method OrderLauncherLast(apps: seq<App>, launcher: string) returns (r: seq<App>)
    ensures r == LauncherLast(apps, launcher)
    ensures multiset(r) == multiset(apps)
  {
    LauncherLastStable(apps, launcher);
    var launcherApps, otherApps := [], [];
    for i := 0 to |apps|
      invariant launcherApps == Keep(apps[..i], launcher, true)
      invariant otherApps == Keep(apps[..i], launcher, false)
    {
      assert apps[..i + 1][..i] == apps[..i];
      if apps[i].package == launcher {
        launcherApps := launcherApps + [apps[i]];
      } else {
        otherApps := otherApps + [apps[i]];
      }
    }
    assert apps[..|apps|] == apps;
    return otherApps + launcherApps;
  }

  lemma PerformNext(device: Device, ops: seq<Op>, k: nat)
    requires k < |ops|
    ensures PerformAll(device, ops[..k + 1]) == Perform(PerformAll(device, ops[..k]), ops[k])
  {
    assert ops[..k + 1][..k] == ops[..k];
  }

  predicate AllSucceed(attempts: nat -> Attempt, n: nat) {
    forall m :: 0 <= m < n ==> attempts(m).Succeeds?
  }

  // How many operations took effect when the n-th call threw.
  function Reached(attempt: Attempt, n: nat): nat {
    if attempt.Throws? && attempt.done then n + 1 else n
  }

  // The device after operations of which the n-th was the first to throw, with or without effect.
  ghost predicate StoppedAt(before: Device, after: Device, ops: seq<Op>, attempts: nat -> Attempt, n: nat) {
    && n < |ops| && AllSucceed(attempts, n) && attempts(n).Throws?
    && after == PerformAll(before, ops[..Reached(attempts(n), n)])
  }

  function Names(ops: seq<Op>): (r: seq<string>)
    ensures |r| == |ops|
  {
    seq(|ops|, i requires 0 <= i < |ops| =>
      match ops[i] case Install(app) => app.package case Uninstall(package) => package)
  }

  lemma NamesAre(ops: seq<Op>, i: nat)
    requires i < |ops|
    ensures Names(ops)[i] == if ops[i].Install? then ops[i].app.package else ops[i].package
  {
  }

  lemma NamesNext(ops: seq<Op>, app: App)
    ensures Names(ops + [Install(app)]) == Names(ops) + [app.package]
  {
  }

  // The first loop of apply (111-152).
  method InstallMissing(installer: Installer, ordered: seq<App>, attempts: nat -> Attempt)
    returns (installed: Option<seq<string>>, calls: nat)
    modifies installer
    ensures var ins := Installs(ordered, old(installer.device));
            && (installed.Some? ==> AllSucceed(attempts, |ins|) && calls == |ins|
                                    && installed.value == Names(ins) &&
                                       installer.device == PerformAll(old(installer.device), ins))
            && (installed.None? ==> StoppedAt(old(installer.device), installer.device, ins, attempts, calls))
  {
    var listed := installer.device;
    var done: seq<string> := [];
    ghost var ins := Installs(ordered, listed);
    calls := 0;
    assert ins[..0] == [];
    for i := 0 to |ordered|
      invariant calls <= |ins| && ins[..calls] == Installs(ordered[..i], listed)
      invariant done == Names(ins[..calls]) && AllSucceed(attempts, calls)
      invariant installer.device == PerformAll(listed, ins[..calls])
    {
      InstallsPrefix(ordered, listed, i);
      assert ordered[..i + 1][..i] == ordered[..i];
      var app := ordered[i];
      if app.package in listed && listed[app.package] == app.version { continue; }
      assert Installs(ordered[..i + 1], listed) == ins[..calls] + [Install(app)];
      assert ins[calls] == Install(app) && ins[..calls + 1] == ins[..calls] + [Install(app)];
      PerformNext(listed, ins, calls);
      NamesNext(ins[..calls], app);
      var ok := installer.Do(Install(app), attempts(calls));
      if !ok { return None, calls; }
      done := done + [app.package];
      calls := calls + 1;
    }
    assert ordered[..|ordered|] == ordered && ins[..|ins|] == ins;
    return Some(done), calls;
  }

  // The second loop of apply (158-162).
  method UninstallRemoved(installer: Installer, removed: seq<string>, attempts: nat -> Attempt)
    returns (uninstalled: Option<seq<string>>, calls: nat)
    modifies installer
    ensures var ops := Uninstalls(removed);
            && (uninstalled.Some? ==> AllSucceed(attempts, |ops|) && uninstalled.value == removed
                                      && installer.device == PerformAll(old(installer.device), ops))
            && (uninstalled.None? ==> StoppedAt(old(installer.device), installer.device, ops, attempts, calls))
  {
    ghost var start, ops := installer.device, Uninstalls(removed);
    var done: seq<string> := [];
    assert ops[..0] == [];
    for i := 0 to |removed|
      invariant done == removed[..i] && AllSucceed(attempts, i) && installer.device == PerformAll(start, ops[..i])
    {
      PerformNext(start, ops, i);
      var ok := installer.Do(Uninstall(removed[i]), attempts(i));
      if !ok { return None, i; }
      done := done + [removed[i]];
    }
    assert ops[..|removed|] == ops;
    return Some(done), |removed|;
  }

  function Shifted(attempts: nat -> Attempt, k: nat): nat -> Attempt {
    (n: nat) => attempts(k + n)
  }

  lemma StoppedInFirst(before: Device, after: Device, a: seq<Op>, b: seq<Op>, attempts: nat -> Attempt, n: nat)
    requires StoppedAt(before, after, a, attempts, n)
    ensures StoppedAt(before, after, a + b, attempts, n)
  {
    TakeInFront(a, b, Reached(attempts(n), n));
  }

  lemma TakeInFront<T>(a: seq<T>, b: seq<T>, k: nat)
    requires k <= |a|
    ensures (a + b)[..k] == a[..k]
  {
  }

  lemma SucceedTogether(attempts: nat -> Attempt, k: nat, n: nat)
    requires AllSucceed(attempts, k) && AllSucceed(Shifted(attempts, k), n)
    ensures AllSucceed(attempts, k + n)
  {
    forall m | 0 <= m < k + n ensures attempts(m).Succeeds? {
      if m >= k { assert Shifted(attempts, k)(m - k).Succeeds?; }
    }
  }

  lemma StoppedInSecond(before: Device, after: Device, a: seq<Op>, b: seq<Op>, ops: seq<Op>, attempts: nat -> Attempt,
                        n: nat)
    requires ops == a + b
    requires AllSucceed(attempts, |a|) && StoppedAt(PerformAll(before, a), after, b, Shifted(attempts, |a|), n)
    ensures StoppedAt(before, after, ops, attempts, |a| + n)
  {
    SucceedTogether(attempts, |a|, n);
    var attempt := attempts(|a| + n);
    assert Shifted(attempts, |a|)(n) == attempt;
    PerformBehind(before, after, a, b, ops, Reached(attempt, n));
    StoppedIs(before, after, ops, attempts, |a| + n, |a| + Reached(attempt, n));
  }

  lemma StoppedIs(before: Device, after: Device, ops: seq<Op>, attempts: nat -> Attempt, n: nat, k: nat)
    requires n < |ops| && AllSucceed(attempts, n) && attempts(n).Throws? && k == Reached(attempts(n), n)
    requires after == PerformAll(before, ops[..k])
    ensures StoppedAt(before, after, ops, attempts, n)
  {
  }

  lemma TakeBehind<T>(a: seq<T>, b: seq<T>, k: nat)
    requires k <= |b|
    ensures (a + b)[..|a| + k] == a + b[..k]
  {
  }

  lemma PerformBehind(before: Device, after: Device, a: seq<Op>, b: seq<Op>, ops: seq<Op>, k: nat)
    requires k <= |b| && ops == a + b && after == PerformAll(PerformAll(before, a), b[..k])
    ensures |a| + k <= |ops| && after == PerformAll(before, ops[..|a| + k])
  {
    TakeBehind(a, b, k);
    PerformSplits(before, a, b[..k]);
  }

  // apply (93-168): None when it threw, which it does exactly when some call of its plan does;
  // it has then done the plan up to that call.
  method Apply(installer: Installer, desired: seq<App>, previous: seq<string>, launcher: string,
               attempts: nat -> Attempt)
    returns (result: Option<(seq<string>, seq<string>)>, ghost calls: nat)
    modifies installer
    ensures var plan := Plan(old(installer.device), desired, previous, launcher);
            && (result.Some? ==>
                  AllSucceed(attempts, |plan|) && installer.device == PerformAll(old(installer.device), plan))
            && (result.None? ==> StoppedAt(old(installer.device), installer.device, plan, attempts, calls))
    ensures result.Some? ==> result.value.0 == Names(Installs(LauncherLast(desired, launcher), old(installer.device)))
    ensures result.Some? ==> result.value.1 == Removed(previous, Packages(desired))
    ensures result.Some? && Consistent(desired) ==>
      Reconciled(old(installer.device), installer.device, desired, previous)
  {
    ghost var before := installer.device;
    var ordered := OrderLauncherLast(desired, launcher);
    ghost var ins := Installs(ordered, before);
    var installed, first := InstallMissing(installer, ordered, attempts);
    var desiredPackages := set a | a in desired :: a.package;
    var removed := Removed(previous, desiredPackages);
    if installed.None? {
      StoppedInFirst(before, installer.device, ins, Uninstalls(removed), attempts, first);
      return None, first;
    }
    var uninstalled, second := UninstallRemoved(installer, removed, Shifted(attempts, first));
    if uninstalled.None? {
      StoppedInSecond(before, installer.device, ins, Uninstalls(removed), Plan(before, desired, previous, launcher),
                      attempts, second);
      return None, first + second;
    }
    SucceedTogether(attempts, |ins|, |removed|);
    PerformSplits(before, ins, Uninstalls(removed));
    if Consistent(desired) { FullRunReconciles(before, desired, previous, launcher); }
    return Some((installed.value, uninstalled.value)), first + second;
  }

  lemma {:induction false} InstallsPrefix(apps: seq<App>, listed: Device, i: nat)
    requires i < |apps|
    ensures Installs(apps[..i + 1], listed) <= Installs(apps, listed)
    decreases |apps| - i
  {
    if i + 1 == |apps| {
      assert apps[..i + 1] == apps;
    } else {
      InstallsPrefix(apps, listed, i + 1);
      assert apps[..i + 2][..i + 1] == apps[..i + 1];
    }
  }
}
