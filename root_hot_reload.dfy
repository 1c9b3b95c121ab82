/**
 * The file watcher of the tag variant (hotReload.go): the same loop as in
 * cmd/hotReload.go, with three differences in the if/else chain. ".DS_Store"
 * paths are ignored, a path that no longer exists rebuilds the pages the graph
 * lists under it instead of returning, and a renamed asset has its dist
 * mirror deleted like a removed one.
 */
module RootHotReload {
  import opened Utils
  import opened Site
  import opened Watch
  import CmdBuild
  import RootBuild

  /**
   * The operation bit that selects a branch, in the chain's order: Create, then
   * Remove, then Rename (which only assets react to), then Write.
   */
  function RootVerb(op: bv8, area: Area): Option<Verb>
  {
    if Has(op, CREATE) then Some(Create)
    else if Has(op, REMOVE) then Some(Remove)
    else if Has(op, RENAME) && area == Assets then Some(Rename)
    else if Has(op, WRITE) then Some(Write)
    else None
  }

  /**
   * The branch fileWatcher takes for an event (hotReload.go:45-247). The name is
   * stat'ed unless the Remove bit is set. The contract states the chain another
   * way: past the four leading branches, the branch is the path's area and the
   * first bit that area reacts to, and nothing matches when either is missing.
   */
  function Classify(ev: Event, fs: FileSystem): (b: Branch)
    ensures b == Ignored <==> HasSuffix(ev.name, ".DS_Store")
    ensures b == Vanished <==> !HasSuffix(ev.name, ".DS_Store") && !Has(ev.op, REMOVE) && !Exists(fs, ev.name)
    ensures b == NilFileInfo <==> !HasSuffix(ev.name, ".DS_Store") && Has(ev.op, CREATE) && Has(ev.op, REMOVE)
    ensures b == CreateDir <==>
      !HasSuffix(ev.name, ".DS_Store") && Has(ev.op, CREATE) && !Has(ev.op, REMOVE) && Exists(fs, ev.name) && fs[ev.name].Dir?
    ensures b != StatFailed
    ensures b != Ignored && b != Vanished && b != NilFileInfo && b != CreateDir ==>
      if AreaOf(ev.name).Some? && RootVerb(ev.op, AreaOf(ev.name).value).Some?
      then b == Act(RootVerb(ev.op, AreaOf(ev.name).value).value, AreaOf(ev.name).value)
      else b == NoMatch
  {
    var op := ev.op;
    var name := ev.name;
    var stat := StatOf(fs, name);
    if HasSuffix(name, ".DS_Store") then Ignored
    else if !Has(op, REMOVE) && stat == Absent then Vanished
    else if Has(op, CREATE) && Has(op, REMOVE) then NilFileInfo
    else if Has(op, CREATE) && stat.isDir then CreateDir
    else if Has(op, CREATE) && HasPrefix(name, "src/assets") && !HasSuffix(name, ".DS_Store") then Act(Create, Assets)
    else if Has(op, CREATE) && HasPrefix(name, "src/layouts") && !HasSuffix(name, ".DS_Store") then Act(Create, Layouts)
    else if Has(op, CREATE) && HasPrefix(name, "src/pages") && !HasSuffix(name, ".DS_Store") then Act(Create, Pages)
    else if Has(op, CREATE) && HasPrefix(name, "src/snippets") && !HasSuffix(name, ".DS_Store") then Act(Create, Snippets)
    else if Has(op, REMOVE) && HasPrefix(name, "src/assets") then Act(Remove, Assets)
    else if Has(op, RENAME) && HasPrefix(name, "src/assets") then Act(Rename, Assets)
    else if Has(op, REMOVE) && HasPrefix(name, "src/layouts") then Act(Remove, Layouts)
    else if Has(op, REMOVE) && HasPrefix(name, "src/pages") then Act(Remove, Pages)
    else if Has(op, REMOVE) && HasPrefix(name, "src/snippets") then Act(Remove, Snippets)
    else if Has(op, WRITE) && HasPrefix(name, "src/assets") then Act(Write, Assets)
    else if Has(op, WRITE) && HasPrefix(name, "src/layouts") then Act(Write, Layouts)
    else if Has(op, WRITE) && HasPrefix(name, "src/pages") then Act(Write, Pages)
    else if Has(op, WRITE) && HasPrefix(name, "src/snippets") then Act(Write, Snippets)
    else NoMatch
  }

  // ---------------------------------------------------------------------------
  // Registry refreshes as the watcher runs them
  // ---------------------------------------------------------------------------

  function RefreshDependencies(st: RegistryState, w: World): (Status, RegistryState)
  {
    var r := RootBuild.DependencyScan(w.walk(SRC), st.layouts, st.snippets, w.fs);
    (r.0, st.(dependencies := r.1))
  }

  function RefreshSnippets(st: RegistryState, w: World): (Status, RegistryState)
  {
    var r := RootBuild.SnippetScan(w.fs, w.walk(SRC + "/snippets"));
    (r.0, st.(snippets := r.1))
  }

  function RefreshLayouts(st: RegistryState, w: World): (Status, RegistryState)
  {
    var r := RootBuild.LayoutScan(w.fs, w.walk(SRC + "/layouts"));
    (r.0, st.(layouts := r.1))
  }

  // ---------------------------------------------------------------------------
  // One iteration
  // ---------------------------------------------------------------------------

  /** The effect of one Create, Remove, Rename or Write branch. A refresh that does not end normally ends the process. */
  function Perform(verb: Verb, area: Area, name: string, st: RegistryState, w: World): Outcome
  {
    match (verb, area)
    case (Create, Assets) => Outcome(st, {name}, {}, {}, Continue)
    case (Write, Assets) => Outcome(st, {name}, {}, {}, Continue)
    case (Remove, Assets) => Outcome(st, {}, Removed(w.fs, AssetDistPath(name)), {}, Continue)
    case (Rename, Assets) => Outcome(st, {}, Removed(w.fs, AssetDistPath(name)), {}, Continue)
    case (Create, Pages) =>
      var (s, st1) := RefreshDependencies(st, w);
      if s != Ok then Stop(st1, Crash) else Outcome(st1, {name}, {}, {}, Continue)
    case (Write, Pages) =>
      var (s, st1) := RefreshDependencies(st, w);
      if s != Ok then Stop(st1, Crash) else Outcome(st1, {name} + Dependents(st1, name), {}, {}, Continue)
    case (Remove, Pages) =>
      var (s, st1) := RefreshDependencies(st, w);
      if s != Ok then Stop(st1, Crash) else Outcome(st1, {}, Removed(w.fs, PageDistPath(name)), {}, Continue)
    case (Remove, Layouts) =>
      var (s, st1) := RefreshLayouts(st, w);
      if s != Ok then Stop(st1, Crash)
      else
        var (s2, st2) := RefreshDependencies(st1, w);
        if s2 != Ok then Stop(st2, Crash) else Outcome(st2, Dependents(st2, name), {}, {}, Continue)
    case (Remove, Snippets) =>
      var (s, st1) := RefreshSnippets(st, w);
      if s != Ok then Stop(st1, Crash)
      else
        var (s2, st2) := RefreshDependencies(st1, w);
        Outcome(st2, Dependents(st, name), {}, {}, if s2 != Ok then Crash else Continue)
    case (_, Snippets) =>
      var (s, st1) := RefreshSnippets(st, w);
      if s != Ok then Stop(st1, Crash)
      else
        var (s2, st2) := RefreshDependencies(st1, w);
        if s2 != Ok then Stop(st2, Crash) else Outcome(st2, Dependents(st2, name), {}, {}, Continue)
    case (_, Layouts) =>
      var (s, st1) := RefreshDependencies(st, w);
      if s != Ok then Stop(st1, Crash) else Outcome(st1, Dependents(st1, name), {}, {}, Continue)
    case _ => Nothing(st)
  }

  /** The effect of the branch `b` for the event name `name`. */
  function Dispatch(b: Branch, name: string, st: RegistryState, w: World): Outcome
  {
    match b
    case Vanished =>
      var (s, st1) := RefreshDependencies(st, w);
      if s != Ok then Stop(st1, Crash) else Outcome(st1, Dependents(st1, name), {}, {}, Continue)
    case NilFileInfo => Stop(st, Crash)
    case CreateDir =>
      var walk := w.walk(name);
      if walk.Missing? then Stop(st, Crash)
      else Outcome(st, {}, {}, CmdBuild.MirroredDirs(walk.entries, w.fs), Continue)
    case Act(verb, area) => Perform(verb, area, name, st, w)
    case _ => Nothing(st)
  }

  /** One received notification: an event goes through the chain, a watcher error is only logged. */
  function Step(st: RegistryState, n: Notification): Outcome
  {
    match n
    case WatchError => Nothing(st)
    case Change(ev, w) => Dispatch(Classify(ev, w.fs), ev.name, st, w)
  }

  /** The refreshes and page batch one branch performs, on the registry. */
  method PerformOn(reg: Registry, verb: Verb, area: Area, name: string, w: World) returns (o: Outcome)
    modifies reg
    ensures o == Perform(verb, area, name, old(reg.State()), w)
    ensures reg.State() == o.state
  {
    var s: Status, s2: Status;
    match (verb, area) {
      case (Create, Assets) =>
        o := Outcome(reg.State(), {name}, {}, {}, Continue);
      case (Write, Assets) =>
        o := Outcome(reg.State(), {name}, {}, {}, Continue);
      case (Remove, Assets) =>
        o := Outcome(reg.State(), {}, Removed(w.fs, AssetDistPath(name)), {}, Continue);
      case (Rename, Assets) =>
        o := Outcome(reg.State(), {}, Removed(w.fs, AssetDistPath(name)), {}, Continue);
      case (Create, Pages) =>
        s := RootBuild.InitializeDependencies(reg, w.walk(SRC), w.fs);
        if s != Ok { return Stop(reg.State(), Crash); }
        o := Outcome(reg.State(), {name}, {}, {}, Continue);
      case (Write, Pages) =>
        s := RootBuild.InitializeDependencies(reg, w.walk(SRC), w.fs);
        if s != Ok { return Stop(reg.State(), Crash); }
        o := Outcome(reg.State(), {name} + Dependents(reg.State(), name), {}, {}, Continue);
      case (Remove, Pages) =>
        s := RootBuild.InitializeDependencies(reg, w.walk(SRC), w.fs);
        if s != Ok { return Stop(reg.State(), Crash); }
        o := Outcome(reg.State(), {}, Removed(w.fs, PageDistPath(name)), {}, Continue);
      case (Remove, Layouts) =>
        s := RootBuild.InitializeLayouts(reg, w.fs, w.walk(SRC + "/layouts"));
        if s != Ok { return Stop(reg.State(), Crash); }
        s2 := RootBuild.InitializeDependencies(reg, w.walk(SRC), w.fs);
        if s2 != Ok { return Stop(reg.State(), Crash); }
        o := Outcome(reg.State(), Dependents(reg.State(), name), {}, {}, Continue);
      case (Remove, Snippets) =>
        s := RootBuild.InitializeSnippets(reg, w.fs, w.walk(SRC + "/snippets"));
        if s != Ok { return Stop(reg.State(), Crash); }
        var launched := Dependents(reg.State(), name);
        s2 := RootBuild.InitializeDependencies(reg, w.walk(SRC), w.fs);
        o := Outcome(reg.State(), launched, {}, {}, if s2 != Ok then Crash else Continue);
      case (_, Snippets) =>
        s := RootBuild.InitializeSnippets(reg, w.fs, w.walk(SRC + "/snippets"));
        if s != Ok { return Stop(reg.State(), Crash); }
        s2 := RootBuild.InitializeDependencies(reg, w.walk(SRC), w.fs);
        if s2 != Ok { return Stop(reg.State(), Crash); }
        o := Outcome(reg.State(), Dependents(reg.State(), name), {}, {}, Continue);
      case (_, Layouts) =>
        s := RootBuild.InitializeDependencies(reg, w.walk(SRC), w.fs);
        if s != Ok { return Stop(reg.State(), Crash); }
        o := Outcome(reg.State(), Dependents(reg.State(), name), {}, {}, Continue);
      case _ =>
        o := Nothing(reg.State());
    }
  }

  /**
   * `interestingEvent`: every branch body sets it, so it holds exactly when the
   * event reached one. The ignored, unmatched and nil-FileInfo events leave it false.
   */
  predicate Interesting(b: Branch)
  {
    b.Vanished? || b.CreateDir? || b.Act?
  }

  /** The body of the event case of fileWatcher's loop (hotReload.go:32-252), with its `interestingEvent` flag. */
  method HandleEvent(reg: Registry, ev: Event, w: World) returns (o: Outcome, interesting: bool)
    modifies reg
    ensures o == Dispatch(Classify(ev, w.fs), ev.name, old(reg.State()), w)
    ensures reg.State() == o.state
    ensures interesting <==> Interesting(Classify(ev, w.fs))
  {
    interesting := false;
    var b := Classify(ev, w.fs);
    if b.Vanished? {
      interesting := true;
      var s := RootBuild.InitializeDependencies(reg, w.walk(SRC), w.fs);
      if s != Ok { return Stop(reg.State(), Crash), interesting; }
      o := Outcome(reg.State(), Dependents(reg.State(), ev.name), {}, {}, Continue);
    } else if b.NilFileInfo? {
      o := Stop(reg.State(), Crash);
    } else if b.CreateDir? {
      interesting := true;
      var walk := w.walk(ev.name);
      if walk.Missing? {
        o := Stop(reg.State(), Crash);
      } else {
        o := Outcome(reg.State(), {}, {}, CmdBuild.MirroredDirs(walk.entries, w.fs), Continue);
      }
    } else if b.Act? {
      interesting := true;
      o := PerformOn(reg, b.verb, b.area, ev.name, w);
    } else {
      o := Nothing(reg.State());
    }
  }

  // ---------------------------------------------------------------------------
  // The loop
  // ---------------------------------------------------------------------------

  /**
   * `outcomes` are the iterations of fileWatcher over `stream` from the registry
   * `st`: each one is the step from the registry the previous one left, all but
   * the last go on to the next notification, and the run ends early only on an
   * iteration that stops the watcher.
   */
  predicate IsRun(st: RegistryState, stream: seq<Notification>, outcomes: seq<Outcome>)
  {
    && Follows(Step, st, stream, outcomes)
    && (forall i :: 0 <= i < |outcomes| - 1 ==> outcomes[i].control == Continue)
    && (|outcomes| < |stream| ==> outcomes != [] && outcomes[|outcomes| - 1].control != Continue)
  }

  /**
   * One pass of the select: an event is handled, a watcher error is logged.
   * `announced` is whether "Re-build complete" is printed: the flag was set and
   * the process is still running after the batch.
   */
  method Receive(reg: Registry, n: Notification) returns (o: Outcome, announced: bool)
    modifies reg
    ensures o == Step(old(reg.State()), n)
    ensures reg.State() == o.state
    ensures announced <==> n.Change? && Interesting(Classify(n.event, n.world.fs)) && o.control == Continue
  {
    match n {
      case WatchError =>
        o := Nothing(reg.State());
        announced := false;
      case Change(ev, w) =>
        var interesting;
        o, interesting := HandleEvent(reg, ev, w);
        announced := interesting && o.control == Continue;
    }
  }

  /** fileWatcher's loop (hotReload.go:30-260), with the number of reload broadcasts it sends. */
  method FileWatcher(reg: Registry, stream: seq<Notification>) returns (outcomes: seq<Outcome>, broadcasts: nat)
    modifies reg
    ensures IsRun(old(reg.State()), stream, outcomes)
    ensures reg.State() == StateBefore(old(reg.State()), outcomes, |outcomes|)
    ensures broadcasts == Reloads(outcomes)
  {
    ghost var st0 := reg.State();
    outcomes := [];
    broadcasts := 0;
    var i := 0;
    while i < |stream|
      invariant 0 <= i <= |stream| && |outcomes| == i
      invariant Follows(Step, st0, stream, outcomes)
      invariant forall k :: 0 <= k < i ==> outcomes[k].control == Continue
      invariant reg.State() == StateBefore(st0, outcomes, i)
      invariant broadcasts == Reloads(outcomes)
    {
      var o, _ := Receive(reg, stream[i]);
      FollowsExtend(Step, st0, stream, outcomes, o);
      assert (outcomes + [o])[..|outcomes|] == outcomes;
      outcomes := outcomes + [o];
      if o.control != Continue {
        return;
      }
      broadcasts := broadcasts + 1;
      i := i + 1;
    }
  }

  /** A run reloads once per iteration that goes on to the next notification: all of them, or all but the last. */
  lemma {:induction false} ReloadsPerRun(st: RegistryState, stream: seq<Notification>, outcomes: seq<Outcome>)
    requires IsRun(st, stream, outcomes)
    ensures |outcomes| < |stream| ==> Reloads(outcomes) == |outcomes| - 1
    ensures outcomes != [] && outcomes[|outcomes| - 1].control == Continue ==> Reloads(outcomes) == |stream|
  {
    ReloadsCount(outcomes);
  }

  /**
   * A stream of ".DS_Store" events and watcher errors leaves the registry as it
   * was, rebuilds nothing, and still reloads once per notification.
   */
  lemma {:induction false} IgnoredNotificationsOnlyReload(st: RegistryState, stream: seq<Notification>, outcomes: seq<Outcome>)
    requires IsRun(st, stream, outcomes)
    requires forall i :: 0 <= i < |stream| ==> stream[i].WatchError? || HasSuffix(stream[i].event.name, ".DS_Store")
    ensures |outcomes| == |stream|
    ensures forall i :: 0 <= i < |outcomes| ==> outcomes[i] == Nothing(st)
    ensures Reloads(outcomes) == |stream|
  {
    forall i | 0 <= i < |outcomes| ensures outcomes[i] == Nothing(st) {
      IgnoredPrefixIsIdle(st, stream, outcomes, i);
    }
    ReloadsCount(outcomes);
  }

  lemma {:induction false} IgnoredPrefixIsIdle(st: RegistryState, stream: seq<Notification>, outcomes: seq<Outcome>, i: nat)
    requires IsRun(st, stream, outcomes)
    requires forall i :: 0 <= i < |stream| ==> stream[i].WatchError? || HasSuffix(stream[i].event.name, ".DS_Store")
    requires i < |outcomes|
    ensures outcomes[i] == Nothing(st)
    decreases i
  {
    if i > 0 {
      IgnoredPrefixIsIdle(st, stream, outcomes, i - 1);
    }
    assert StateBefore(st, outcomes, i) == st;
  }

  /**
   * Unlike the cmd variant, no branch returns from fileWatcher: a path that is
   * gone is rebuilt instead, so an iteration that does not go on is a crash.
   */
  lemma {:induction false} StepNeverReturns(st: RegistryState, n: Notification)
    ensures Step(st, n).control != Return
  {
    if n.Change? {
      DispatchNeverReturns(Classify(n.event, n.world.fs), n.event.name, st, n.world);
    }
  }

  lemma {:induction false} DispatchNeverReturns(b: Branch, name: string, st: RegistryState, w: World)
    ensures Dispatch(b, name, st, w).control != Return
  {
    if b.Act? {
      PerformNeverReturns(b.verb, b.area, name, st, w);
    }
  }

  lemma {:induction false} PerformNeverReturns(verb: Verb, area: Area, name: string, st: RegistryState, w: World)
    ensures Perform(verb, area, name, st, w).control != Return
  {
  }

  // ---------------------------------------------------------------------------
  // Properties of single events
  // ---------------------------------------------------------------------------

  /** An event that reaches no branch body changes nothing and is not announced, unless it crashes on the nil FileInfo. */
  lemma {:induction false} UninterestingEventChangesNothing(st: RegistryState, ev: Event, w: World)
    requires !Interesting(Classify(ev, w.fs))
    ensures Classify(ev, w.fs) == NilFileInfo || Step(st, Change(ev, w)) == Nothing(st)
    ensures Classify(ev, w.fs) == NilFileInfo <==> Step(st, Change(ev, w)).control == Crash
  {
  }

  /** A ".DS_Store" path has no effect, whatever the operation and whether it still exists. */
  lemma {:induction false} DSStoreIsIgnored(st: RegistryState, ev: Event, w: World)
    requires HasSuffix(ev.name, ".DS_Store")
    ensures Step(st, Change(ev, w)) == Nothing(st)
  {
  }

  /**
   * A non-remove event for a path that is gone rebuilds the graph and the pages
   * it lists under that path; the watcher goes on.
   */
  lemma {:induction false} VanishedPathRebuildsItsDependents(st: RegistryState, ev: Event, w: World)
    requires !HasSuffix(ev.name, ".DS_Store") && !Has(ev.op, REMOVE) && !Exists(w.fs, ev.name)
    requires w.walk(SRC).Found?
    ensures var g := RootBuild.GraphFrom(map[], w.walk(SRC).entries, st.layouts, st.snippets, w.fs);
      Step(st, Change(ev, w)) == Outcome(st.(dependencies := g), Dependents(st.(dependencies := g), ev.name), {}, {}, Continue)
  {
  }

  /**
   * A vanished path is no reached page, so it is never rebuilt by its own
   * event; the pages rebuilt are those that name it as layout or snippet.
   */
  lemma {:induction false} VanishedPathIsNotRebuilt(st: RegistryState, ev: Event, w: World)
    requires !HasSuffix(ev.name, ".DS_Store") && !Has(ev.op, REMOVE) && !Exists(w.fs, ev.name)
    requires w.walk(SRC).Found?
    ensures ev.name !in Step(st, Change(ev, w)).rendered
  {
    var entries := w.walk(SRC).entries;
    RootBuild.GraphFromMembership(map[], entries, st.layouts, st.snippets, w.fs, ev.name, ev.name);
    CmdBuild.ReachedPages(entries, w.fs, RootBuild.IsTracked);
  }

  /**
   * A rename that moved an asset away is seen as a vanished path before the
   * Rename branch is reached: its dist mirror is not deleted.
   */
  lemma {:induction false} RenamedAwayAssetKeepsItsMirror(st: RegistryState, ev: Event, w: World)
    requires Has(ev.op, RENAME) && !Has(ev.op, REMOVE) && !Exists(w.fs, ev.name)
    requires HasPrefix(ev.name, "src/assets") && !HasSuffix(ev.name, ".DS_Store")
    ensures Step(st, Change(ev, w)).deleted == {}
  {
  }

  /** A rename of an asset path that exists deletes its dist mirror, as a removal does. */
  lemma {:induction false} RenamedAssetMirrorIsDeleted(st: RegistryState, ev: Event, w: World)
    requires Has(ev.op, RENAME) && !Has(ev.op, REMOVE) && !Has(ev.op, CREATE)
    requires Exists(w.fs, ev.name) && HasPrefix(ev.name, "src/assets") && !HasSuffix(ev.name, ".DS_Store")
    ensures Step(st, Change(ev, w)) == Outcome(st, {}, Removed(w.fs, ReplaceAll(ev.name, "src/", "dist/")), {}, Continue)
  {
    assert AreaOf(ev.name) == Some(Assets);
  }

  /** A removed asset has its dist mirror, "src/" read as "dist/", deleted when it exists. */
  lemma {:induction false} RemovedAssetMirrorIsDeleted(st: RegistryState, ev: Event, w: World)
    requires Has(ev.op, REMOVE) && !Has(ev.op, CREATE)
    requires HasPrefix(ev.name, "src/assets") && !HasSuffix(ev.name, ".DS_Store")
    ensures Step(st, Change(ev, w)) == Outcome(st, {}, Removed(w.fs, ReplaceAll(ev.name, "src/", "dist/")), {}, Continue)
  {
    assert AreaOf(ev.name) == Some(Assets);
  }

  /** An event carrying both Create and Remove dereferences the nil FileInfo. */
  lemma {:induction false} CreateWithRemoveCrashes(st: RegistryState, ev: Event, w: World)
    requires Has(ev.op, CREATE) && Has(ev.op, REMOVE) && !HasSuffix(ev.name, ".DS_Store")
    ensures Step(st, Change(ev, w)).control == Crash
  {
  }

  /** A removed layout with the layouts directory gone ends the process: initializeLayouts fails and log.Fatal follows. */
  lemma {:induction false} RemovedLayoutWithoutLayoutsDirCrashes(st: RegistryState, ev: Event, w: World)
    requires Has(ev.op, REMOVE) && !Has(ev.op, CREATE)
    requires HasPrefix(ev.name, "src/layouts") && !HasSuffix(ev.name, ".DS_Store")
    requires !Exists(w.fs, SRC + "/layouts")
    ensures var o := Step(st, Change(ev, w));
      o.control == Crash && o.rendered == {} && o.state.layouts == []
  {
    assert AreaOf(ev.name) == Some(Layouts);
  }

  /**
   * A removed layout with the layouts directory present refreshes the layout
   * table, then the graph, and rebuilds nothing: no layout left in the table
   * has the removed path, the fallback edges sit under
   * "./src/layouts/Default.html", and no snippet has that path either.
   */
  lemma {:induction false} RemovedLayoutRebuildsNothing(st: RegistryState, ev: Event, w: World)
    requires Has(ev.op, REMOVE) && !Has(ev.op, CREATE)
    requires HasPrefix(ev.name, "src/layouts") && !HasSuffix(ev.name, ".DS_Store")
    requires Exists(w.fs, SRC + "/layouts") && w.walk(SRC + "/layouts").Found? && w.walk(SRC).Found?
    requires forall l :: l in RootBuild.LayoutScan(w.fs, w.walk(SRC + "/layouts")).1 ==> l.path != ev.name
    requires forall s :: s in st.snippets ==> s.path != ev.name
    ensures var o := Step(st, Change(ev, w));
      var ls := RootBuild.LayoutScan(w.fs, w.walk(SRC + "/layouts")).1;
      && o.rendered == {} && o.deleted == {} && o.mirrored == {} && o.control == Continue
      && o.state == RegistryState(ls, st.snippets, RootBuild.GraphFrom(map[], w.walk(SRC).entries, ls, st.snippets, w.fs))
  {
    assert AreaOf(ev.name) == Some(Layouts);
    assert Classify(ev, w.fs) == Act(Remove, Layouts);
    WatcherNameIsNotTheDefaultKey(ev.name);
    var ls := RootBuild.LayoutScan(w.fs, w.walk(SRC + "/layouts")).1;
    var g := RootBuild.GraphFrom(map[], w.walk(SRC).entries, ls, st.snippets, w.fs);
    forall q ensures q !in CmdBuild.Get(g, ev.name) {
      RootBuild.GraphFromMembership(map[], w.walk(SRC).entries, ls, st.snippets, w.fs, ev.name, q);
    }
    assert Dependents(RegistryState(ls, st.snippets, g), ev.name) == {};
  }

  /**
   * A removed snippet refreshes the snippet table (emptied when the snippets
   * directory is gone), builds the pages the OLD graph listed under it, then
   * rebuilds the graph from the new table; a missing "./src" ends the process
   * only after those builds were started.
   */
  lemma {:induction false} RemovedSnippetRebuildsFormerDependents(st: RegistryState, ev: Event, w: World)
    requires Has(ev.op, REMOVE) && !Has(ev.op, CREATE)
    requires HasPrefix(ev.name, "src/snippets") && !HasSuffix(ev.name, ".DS_Store")
    requires Exists(w.fs, SRC + "/snippets") ==> w.walk(SRC + "/snippets").Found?
    ensures var o := Step(st, Change(ev, w));
      var ss := RootBuild.SnippetScan(w.fs, w.walk(SRC + "/snippets")).1;
      && (!Exists(w.fs, SRC + "/snippets") ==> ss == [])
      && o.rendered == Dependents(st, ev.name)
      && o.state == RegistryState(st.layouts, ss, RootBuild.DependencyScan(w.walk(SRC), st.layouts, ss, w.fs).1)
      && o.control == if w.walk(SRC).Found? then Continue else Crash
  {
    assert AreaOf(ev.name) == Some(Snippets);
    assert Classify(ev, w.fs) == Act(Remove, Snippets);
  }

  /**
   * A removed page refreshes the graph and deletes its dist page, the path
   * with "src/" read as "dist/", "pages/" dropped and ".md" read as ".html",
   * when that exists; no page is built.
   */
  lemma {:induction false} RemovedPageMirrorIsDeleted(st: RegistryState, ev: Event, w: World)
    requires Has(ev.op, REMOVE) && !Has(ev.op, CREATE)
    requires HasPrefix(ev.name, "src/pages") && !HasSuffix(ev.name, ".DS_Store")
    requires w.walk(SRC).Found?
    ensures var g := RootBuild.GraphFrom(map[], w.walk(SRC).entries, st.layouts, st.snippets, w.fs);
      var distPath := ReplaceAll(ReplaceAll(ReplaceAll(ev.name, "src/", "dist/"), "pages/", ""), ".md", ".html");
      Step(st, Change(ev, w)) == Outcome(st.(dependencies := g), {}, Removed(w.fs, distPath), {}, Continue)
  {
    assert AreaOf(ev.name) == Some(Pages);
    assert Classify(ev, w.fs) == Act(Remove, Pages);
  }

  /**
   * A created or written snippet refreshes the snippet table, then the graph,
   * and only then looks up what the new graph lists under it.
   */
  lemma {:induction false} WrittenSnippetRefreshesBothTables(st: RegistryState, ev: Event, w: World)
    requires Has(ev.op, CREATE) || Has(ev.op, WRITE)
    requires !Has(ev.op, REMOVE) && Exists(w.fs, ev.name)
    requires Has(ev.op, CREATE) ==> w.fs[ev.name].File?
    requires HasPrefix(ev.name, "src/snippets") && !HasSuffix(ev.name, ".DS_Store")
    requires Exists(w.fs, SRC + "/snippets") ==> w.walk(SRC + "/snippets").Found?
    requires w.walk(SRC).Found?
    ensures var ss := RootBuild.SnippetScan(w.fs, w.walk(SRC + "/snippets")).1;
      var st2 := RegistryState(st.layouts, ss, RootBuild.GraphFrom(map[], w.walk(SRC).entries, st.layouts, ss, w.fs));
      Step(st, Change(ev, w)) == Outcome(st2, Dependents(st2, ev.name), {}, {}, Continue)
  {
    var ss := RootBuild.SnippetScan(w.fs, w.walk(SRC + "/snippets")).1;
    var st1 := st.(snippets := ss);
    var st2 := st1.(dependencies := RootBuild.GraphFrom(map[], w.walk(SRC).entries, st.layouts, ss, w.fs));
    var verb := RootVerb(ev.op, Snippets).value;
    assert verb == Create || verb == Write;
    assert AreaOf(ev.name) == Some(Snippets);
    assert Classify(ev, w.fs) == Act(verb, Snippets);
    assert RefreshSnippets(st, w) == (Ok, st1);
    assert RefreshDependencies(st1, w) == (Ok, st2);
    assert Perform(verb, Snippets, ev.name, st, w) == Outcome(st2, Dependents(st2, ev.name), {}, {}, Continue);
  }

  /** A written layout refreshes only the graph and rebuilds what it lists under the layout's path. */
  lemma {:induction false} WrittenLayoutRefreshesTheGraph(st: RegistryState, ev: Event, w: World)
    requires Has(ev.op, WRITE) && !Has(ev.op, CREATE) && !Has(ev.op, REMOVE) && !Has(ev.op, RENAME)
    requires Exists(w.fs, ev.name) && HasPrefix(ev.name, "src/layouts") && !HasSuffix(ev.name, ".DS_Store")
    requires w.walk(SRC).Found?
    ensures var g := RootBuild.GraphFrom(map[], w.walk(SRC).entries, st.layouts, st.snippets, w.fs);
      Step(st, Change(ev, w)) == Outcome(st.(dependencies := g), Dependents(st.(dependencies := g), ev.name), {}, {}, Continue)
  {
    assert AreaOf(ev.name) == Some(Layouts);
    assert Classify(ev, w.fs) == Act(Write, Layouts);
  }

  /**
   * A written layout rebuilds exactly the reached pages wrapped in its tags:
   * here the layout table holds watcher-style paths, so the lookup hits.
   */
  lemma {:induction false} WrittenLayoutRebuildsThePagesItWraps(st: RegistryState, ev: Event, w: World, l: Layout)
    requires Has(ev.op, WRITE) && !Has(ev.op, CREATE) && !Has(ev.op, REMOVE) && !Has(ev.op, RENAME)
    requires Exists(w.fs, ev.name) && HasPrefix(ev.name, "src/layouts") && !HasSuffix(ev.name, ".DS_Store")
    requires w.walk(SRC).Found?
    requires l in st.layouts && l.path == ev.name
    requires forall m :: m in st.layouts && m.path == l.path ==> m.name == l.name
    requires forall s :: s in st.snippets ==> s.path != l.path
    ensures var o := Step(st, Change(ev, w));
      && o.control == Continue
      && forall q :: q in o.rendered <==>
           q in RootBuild.Tracked(w.walk(SRC).entries, w.fs) && RootBuild.Wraps(ReadFile(w.fs, q), l)
  {
    WrittenLayoutRefreshesTheGraph(st, ev, w);
    var entries := w.walk(SRC).entries;
    LayoutDependentsAreWrapped(entries, st.layouts, st.snippets, w.fs, l);
  }

  /** Under a watcher-style layout path the graph lists exactly the reached pages wrapped in that layout. */
  lemma {:induction false} LayoutDependentsAreWrapped(entries: seq<WalkEntry>, layouts: seq<Layout>, snippets: seq<Snippet>,
                                   fs: FileSystem, l: Layout)
    requires l in layouts && HasPrefix(l.path, "src/layouts")
    requires forall m :: m in layouts && m.path == l.path ==> m.name == l.name
    requires forall s :: s in snippets ==> s.path != l.path
    ensures forall q :: (q in CmdBuild.Get(RootBuild.GraphFrom(map[], entries, layouts, snippets, fs), l.path)
      <==> q in RootBuild.Tracked(entries, fs) && RootBuild.Wraps(ReadFile(fs, q), l))
  {
    assert l.path[0] == 's';
    assert l.path != DEFAULT_LAYOUT;
    forall q ensures q in CmdBuild.Get(RootBuild.GraphFrom(map[], entries, layouts, snippets, fs), l.path)
      <==> q in RootBuild.Tracked(entries, fs) && RootBuild.Wraps(ReadFile(fs, q), l) {
      RootBuild.LayoutEdgeIffWrapped(entries, layouts, snippets, fs, l, q);
    }
  }

  /**
   * Editing the default layout rebuilds nothing through the fallback edges:
   * they are filed under "./src/layouts/Default.html", which no watcher path
   * equals.
   */
  lemma {:induction false} WatcherNameIsNotTheDefaultKey(name: string)
    requires HasPrefix(name, "src/")
    ensures name != DEFAULT_LAYOUT
  {
    assert name[0] == 's';
  }

  /** A written page is rebuilt together with every page the rebuilt graph lists under its path. */
  lemma {:induction false} WrittenPageRebuildsItsDependents(st: RegistryState, ev: Event, w: World)
    requires Has(ev.op, WRITE) && !Has(ev.op, CREATE) && !Has(ev.op, REMOVE)
    requires Exists(w.fs, ev.name) && HasPrefix(ev.name, "src/pages") && !HasSuffix(ev.name, ".DS_Store")
    requires w.walk(SRC).Found?
    ensures var o := Step(st, Change(ev, w));
      var g := RootBuild.GraphFrom(map[], w.walk(SRC).entries, st.layouts, st.snippets, w.fs);
      && o.control == Continue
      && o.state == st.(dependencies := g)
      && (forall q :: q in o.rendered <==> q == ev.name || q in CmdBuild.Get(g, ev.name))
  {
    assert AreaOf(ev.name) == Some(Pages);
  }

  /** A created page refreshes the graph and is rebuilt on its own. */
  lemma {:induction false} CreatedPageIsBuilt(st: RegistryState, ev: Event, w: World)
    requires Has(ev.op, CREATE) && !Has(ev.op, REMOVE)
    requires Readable(w.fs, ev.name) && HasPrefix(ev.name, "src/pages") && !HasSuffix(ev.name, ".DS_Store")
    requires w.walk(SRC).Found?
    ensures var g := RootBuild.GraphFrom(map[], w.walk(SRC).entries, st.layouts, st.snippets, w.fs);
      Step(st, Change(ev, w)) == Outcome(st.(dependencies := g), {ev.name}, {}, {}, Continue)
  {
    assert AreaOf(ev.name) == Some(Pages);
  }
}
