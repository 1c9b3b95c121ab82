/**
 * The file watcher of the front-matter variant (cmd/hotReload.go): each fsnotify
 * event selects one branch of an if/else chain, which refreshes registry tables
 * and hands pages to buildPage; every iteration that does not stop the watcher
 * ends with a reload broadcast.
 */
module CmdHotReload {
  import opened Utils
  import opened Site
  import opened Watch
  import CmdBuild

  /** The first operation bit the chain tests, in its order: Create, then Remove, then Write. */
  function FirstVerb(op: bv8): Option<Verb>
  {
    if Has(op, CREATE) then Some(Create)
    else if Has(op, REMOVE) then Some(Remove)
    else if Has(op, WRITE) then Some(Write)
    else None
  }

  /**
   * The branch fileWatcher takes for an event (cmd/hotReload.go:43-210). The
   * name is stat'ed unless the Remove bit is set; a failed stat returns from
   * fileWatcher. The contract states the chain another way: past the three
   * stat-driven branches, the branch is the path's area and the first Create,
   * Remove or Write bit, and nothing matches when either is missing.
   */
  function Classify(ev: Event, fs: FileSystem): (b: Branch)
    ensures b == StatFailed <==> !Has(ev.op, REMOVE) && !Exists(fs, ev.name)
    ensures b == NilFileInfo <==> Has(ev.op, CREATE) && Has(ev.op, REMOVE)
    ensures b == CreateDir <==> Has(ev.op, CREATE) && !Has(ev.op, REMOVE) && Exists(fs, ev.name) && fs[ev.name].Dir?
    ensures b != StatFailed && b != NilFileInfo && b != CreateDir ==>
      if AreaOf(ev.name).Some? && FirstVerb(ev.op).Some? then b == Act(FirstVerb(ev.op).value, AreaOf(ev.name).value)
      else b == NoMatch
  {
    var op := ev.op;
    var name := ev.name;
    var stat := StatOf(fs, name);
    if !Has(op, REMOVE) && stat == Absent then StatFailed
    else if Has(op, CREATE) && Has(op, REMOVE) then NilFileInfo
    else if Has(op, CREATE) && stat.isDir then CreateDir
    else if Has(op, CREATE) && HasPrefix(name, "src/assets") then Act(Create, Assets)
    else if Has(op, CREATE) && HasPrefix(name, "src/layouts") then Act(Create, Layouts)
    else if Has(op, CREATE) && HasPrefix(name, "src/pages") then Act(Create, Pages)
    else if Has(op, CREATE) && HasPrefix(name, "src/snippets") then Act(Create, Snippets)
    else if Has(op, REMOVE) && HasPrefix(name, "src/assets") then Act(Remove, Assets)
    else if Has(op, REMOVE) && HasPrefix(name, "src/layouts") then Act(Remove, Layouts)
    else if Has(op, REMOVE) && HasPrefix(name, "src/pages") then Act(Remove, Pages)
    else if Has(op, REMOVE) && HasPrefix(name, "src/snippets") then Act(Remove, Snippets)
    else if Has(op, WRITE) && HasPrefix(name, "src/assets") then Act(Write, Assets)
    else if Has(op, WRITE) && HasPrefix(name, "src/layouts") then Act(Write, Layouts)
    else if Has(op, WRITE) && HasPrefix(name, "src/pages") then Act(Write, Pages)
    else if Has(op, WRITE) && HasPrefix(name, "src/snippets") then Act(Write, Snippets)
    else NoMatch
  }

  // ---------------------------------------------------------------------------
  // Registry refreshes as the watcher runs them
  // ---------------------------------------------------------------------------

  function RefreshDependencies(st: RegistryState, w: World, decode: string -> FrontMatter): (Status, RegistryState)
  {
    var r := CmdBuild.DependencyScan(w.walk(SRC), st.snippets, w.fs, decode);
    (r.0, st.(dependencies := r.1))
  }

  function RefreshSnippets(st: RegistryState, w: World): (Status, RegistryState)
  {
    var r := CmdBuild.Scan(w.walk(SRC + "/snippets"));
    (r.0, st.(snippets := r.1))
  }

  function RefreshLayouts(st: RegistryState, w: World): (Status, RegistryState)
  {
    var r := CmdBuild.Scan(w.walk(SRC + "/layouts"));
    (r.0, st.(layouts := r.1))
  }

  // ---------------------------------------------------------------------------
  // One iteration
  // ---------------------------------------------------------------------------

  /** The effect of one Create, Remove or Write branch. A refresh that does not end normally ends the process. */
  function Perform(verb: Verb, area: Area, name: string, st: RegistryState, w: World,
                   decode: string -> FrontMatter): Outcome
  {
    match (verb, area)
    case (Create, Assets) => Outcome(st, {name}, {}, {}, Continue)
    case (Write, Assets) => Outcome(st, {name}, {}, {}, Continue)
    case (Remove, Assets) => Outcome(st, {}, Removed(w.fs, AssetDistPath(name)), {}, Continue)
    case (Create, Pages) =>
      var (s, st1) := RefreshDependencies(st, w, decode);
      if s != Ok then Stop(st1, Crash) else Outcome(st1, {name}, {}, {}, Continue)
    case (Write, Pages) =>
      var (s, st1) := RefreshDependencies(st, w, decode);
      if s != Ok then Stop(st1, Crash) else Outcome(st1, {name} + Dependents(st1, name), {}, {}, Continue)
    case (Remove, Pages) =>
      var (s, st1) := RefreshDependencies(st, w, decode);
      if s != Ok then Stop(st1, Crash) else Outcome(st1, {}, Removed(w.fs, PageDistPath(name)), {}, Continue)
    case (Remove, Layouts) =>
      var (s, st1) := RefreshLayouts(st, w);
      if s != Ok then Stop(st1, Crash)
      else
        var (s2, st2) := RefreshDependencies(st1, w, decode);
        if s2 != Ok then Stop(st2, Crash) else Outcome(st2, Dependents(st2, name), {}, {}, Continue)
    case (Remove, Snippets) =>
      var (s, st1) := RefreshSnippets(st, w);
      if s != Ok then Stop(st1, Crash)
      else
        var (s2, st2) := RefreshDependencies(st1, w, decode);
        Outcome(st2, Dependents(st, name), {}, {}, if s2 != Ok then Crash else Continue)
    case (_, Snippets) =>
      var (s, st1) := RefreshSnippets(st, w);
      if s != Ok then Stop(st1, Crash)
      else
        var (s2, st2) := RefreshDependencies(st1, w, decode);
        if s2 != Ok then Stop(st2, Crash) else Outcome(st2, Dependents(st2, name), {}, {}, Continue)
    case (_, Layouts) =>
      var (s, st1) := RefreshDependencies(st, w, decode);
      if s != Ok then Stop(st1, Crash) else Outcome(st1, Dependents(st1, name), {}, {}, Continue)
    case _ => Nothing(st)
  }

  /** The effect of the branch `b` for the event name `name`. */
  function Dispatch(b: Branch, name: string, st: RegistryState, w: World, decode: string -> FrontMatter): Outcome
  {
    match b
    case StatFailed => Stop(st, Return)
    case NilFileInfo => Stop(st, Crash)
    case CreateDir =>
      var walk := w.walk(name);
      if walk.Missing? then Stop(st, Crash)
      else Outcome(st, {}, {}, CmdBuild.MirroredDirs(walk.entries, w.fs), Continue)
    case Act(verb, area) => Perform(verb, area, name, st, w, decode)
    case _ => Nothing(st)
  }

  /** One received notification: an event goes through the chain, a watcher error is only logged. */
  function Step(st: RegistryState, n: Notification, decode: string -> FrontMatter): Outcome
  {
    match n
    case WatchError => Nothing(st)
    case Change(ev, w) => Dispatch(Classify(ev, w.fs), ev.name, st, w, decode)
  }

  /** The refreshes and page batch one branch performs, on the registry. */
  method PerformOn(reg: Registry, verb: Verb, area: Area, name: string, w: World, decode: string -> FrontMatter)
    returns (o: Outcome)
    modifies reg
    ensures o == Perform(verb, area, name, old(reg.State()), w, decode)
    ensures reg.State() == o.state
  {
    var s: Status, s2: Status;
    match (verb, area) {
      case (Create, Assets) =>
        o := Outcome(reg.State(), {name}, {}, {}, Continue);
      case (Write, Assets) =>
        o := Outcome(reg.State(), {name}, {}, {}, Continue);
      case (Remove, Assets) =>
        o := Outcome(reg.State(), {}, Removed(w.fs, AssetDistPath(name)), {}, Continue);
      case (Create, Pages) =>
        s := CmdBuild.InitializeDependencies(reg, w.walk(SRC), w.fs, decode);
        if s != Ok { return Stop(reg.State(), Crash); }
        o := Outcome(reg.State(), {name}, {}, {}, Continue);
      case (Write, Pages) =>
        s := CmdBuild.InitializeDependencies(reg, w.walk(SRC), w.fs, decode);
        if s != Ok { return Stop(reg.State(), Crash); }
        o := Outcome(reg.State(), {name} + Dependents(reg.State(), name), {}, {}, Continue);
      case (Remove, Pages) =>
        s := CmdBuild.InitializeDependencies(reg, w.walk(SRC), w.fs, decode);
        if s != Ok { return Stop(reg.State(), Crash); }
        o := Outcome(reg.State(), {}, Removed(w.fs, PageDistPath(name)), {}, Continue);
      case (Remove, Layouts) =>
        s := CmdBuild.InitializeLayouts(reg, w.walk(SRC + "/layouts"));
        if s != Ok { return Stop(reg.State(), Crash); }
        s2 := CmdBuild.InitializeDependencies(reg, w.walk(SRC), w.fs, decode);
        if s2 != Ok { return Stop(reg.State(), Crash); }
        o := Outcome(reg.State(), Dependents(reg.State(), name), {}, {}, Continue);
      case (Remove, Snippets) =>
        s := CmdBuild.InitializeSnippets(reg, w.walk(SRC + "/snippets"));
        if s != Ok { return Stop(reg.State(), Crash); }
        var launched := Dependents(reg.State(), name);
        s2 := CmdBuild.InitializeDependencies(reg, w.walk(SRC), w.fs, decode);
        o := Outcome(reg.State(), launched, {}, {}, if s2 != Ok then Crash else Continue);
      case (_, Snippets) =>
        s := CmdBuild.InitializeSnippets(reg, w.walk(SRC + "/snippets"));
        if s != Ok { return Stop(reg.State(), Crash); }
        s2 := CmdBuild.InitializeDependencies(reg, w.walk(SRC), w.fs, decode);
        if s2 != Ok { return Stop(reg.State(), Crash); }
        o := Outcome(reg.State(), Dependents(reg.State(), name), {}, {}, Continue);
      case (_, Layouts) =>
        s := CmdBuild.InitializeDependencies(reg, w.walk(SRC), w.fs, decode);
        if s != Ok { return Stop(reg.State(), Crash); }
        o := Outcome(reg.State(), Dependents(reg.State(), name), {}, {}, Continue);
      case _ =>
        o := Nothing(reg.State());
    }
  }

  /** The body of the event case of fileWatcher's loop (cmd/hotReload.go:32-213). */
  method HandleEvent(reg: Registry, ev: Event, w: World, decode: string -> FrontMatter) returns (o: Outcome)
    modifies reg
    ensures o == Dispatch(Classify(ev, w.fs), ev.name, old(reg.State()), w, decode)
    ensures reg.State() == o.state
  {
    var b := Classify(ev, w.fs);
    match b {
      case StatFailed =>
        o := Stop(reg.State(), Return);
      case NilFileInfo =>
        o := Stop(reg.State(), Crash);
      case CreateDir =>
        var walk := w.walk(ev.name);
        if walk.Missing? {
          o := Stop(reg.State(), Crash);
        } else {
          o := Outcome(reg.State(), {}, {}, CmdBuild.MirroredDirs(walk.entries, w.fs), Continue);
        }
      case Act(verb, area) =>
        o := PerformOn(reg, verb, area, ev.name, w, decode);
      case _ =>
        o := Nothing(reg.State());
    }
  }

  // ---------------------------------------------------------------------------
  // The loop
  // ---------------------------------------------------------------------------

  /** One iteration of this watcher, as a function of the registry and the notification. */
  function Stepper(decode: string -> FrontMatter): (RegistryState, Notification) -> Outcome
  {
    (st, n) => Step(st, n, decode)
  }

  /**
   * `outcomes` are the iterations of fileWatcher over `stream` from the registry
   * `st`: each one is the step from the registry the previous one left, all but
   * the last go on to the next notification, and the run ends early only on an
   * iteration that stops the watcher.
   */
  predicate IsRun(st: RegistryState, stream: seq<Notification>, outcomes: seq<Outcome>, decode: string -> FrontMatter)
  {
    && Follows(Stepper(decode), st, stream, outcomes)
    && (forall i :: 0 <= i < |outcomes| - 1 ==> outcomes[i].control == Continue)
    && (|outcomes| < |stream| ==> outcomes != [] && outcomes[|outcomes| - 1].control != Continue)
  }

  /** One pass of the select: an event is handled, a watcher error is logged. */
  method Receive(reg: Registry, n: Notification, decode: string -> FrontMatter) returns (o: Outcome)
    modifies reg
    ensures o == Step(old(reg.State()), n, decode)
    ensures reg.State() == o.state
  {
    match n {
      case WatchError =>
        o := Nothing(reg.State());
      case Change(ev, w) =>
        o := HandleEvent(reg, ev, w, decode);
    }
  }

  /** fileWatcher's loop (cmd/hotReload.go:30-221), with the number of reload broadcasts it sends. */
  method FileWatcher(reg: Registry, stream: seq<Notification>, decode: string -> FrontMatter)
    returns (outcomes: seq<Outcome>, broadcasts: nat)
    modifies reg
    ensures IsRun(old(reg.State()), stream, outcomes, decode)
    ensures reg.State() == StateBefore(old(reg.State()), outcomes, |outcomes|)
    ensures broadcasts == Reloads(outcomes)
  {
    ghost var st0 := reg.State();
    outcomes := [];
    broadcasts := 0;
    var i := 0;
    while i < |stream|
      invariant 0 <= i <= |stream| && |outcomes| == i
      invariant Follows(Stepper(decode), st0, stream, outcomes)
      invariant forall k :: 0 <= k < i ==> outcomes[k].control == Continue
      invariant reg.State() == StateBefore(st0, outcomes, i)
      invariant broadcasts == Reloads(outcomes)
    {
      var o := Receive(reg, stream[i], decode);
      FollowsExtend(Stepper(decode), st0, stream, outcomes, o);
      assert (outcomes + [o])[..|outcomes|] == outcomes;
      outcomes := outcomes + [o];
      if o.control != Continue {
        return;
      }
      broadcasts := broadcasts + 1;
      i := i + 1;
    }
  }

  /** A run reloads once per iteration that goes on to the next notification: all of them, or all but the last. */
  lemma {:induction false} ReloadsPerRun(st: RegistryState, stream: seq<Notification>, outcomes: seq<Outcome>, decode: string -> FrontMatter)
    requires IsRun(st, stream, outcomes, decode)
    ensures |outcomes| < |stream| ==> Reloads(outcomes) == |outcomes| - 1
    ensures outcomes != [] && outcomes[|outcomes| - 1].control == Continue ==> Reloads(outcomes) == |stream|
  {
    ReloadsCount(outcomes);
  }

  /**
   * An event for a path that is gone, without the Remove bit, ends the run right
   * there: it is the last iteration and the only one that sends no reload.
   */
  lemma {:induction false} StatFailureEndsTheRun(st: RegistryState, stream: seq<Notification>, outcomes: seq<Outcome>,
                                                 decode: string -> FrontMatter, i: nat)
    requires IsRun(st, stream, outcomes, decode)
    requires i < |outcomes| && stream[i].Change?
    requires !Has(stream[i].event.op, REMOVE) && !Exists(stream[i].world.fs, stream[i].event.name)
    ensures |outcomes| == i + 1
    ensures outcomes[i] == Stop(StateBefore(st, outcomes, i), Return)
    ensures Reloads(outcomes) == i
  {
    assert outcomes[i] == Step(StateBefore(st, outcomes, i), stream[i], decode);
    MissingPathStopsTheWatcher(StateBefore(st, outcomes, i), stream[i].event, stream[i].world, decode);
    assert outcomes[i].control == Return;
    ReloadsCount(outcomes);
  }

  // ---------------------------------------------------------------------------
  // Properties of single events
  // ---------------------------------------------------------------------------

  /** A non-remove event for a path that is gone makes fileWatcher return: nothing else happens. */
  lemma {:induction false} MissingPathStopsTheWatcher(st: RegistryState, ev: Event, w: World, decode: string -> FrontMatter)
    requires !Has(ev.op, REMOVE) && !Exists(w.fs, ev.name)
    ensures Step(st, Change(ev, w), decode) == Outcome(st, {}, {}, {}, Return)
  {
  }

  /** An event carrying both Create and Remove dereferences the nil FileInfo. */
  lemma {:induction false} CreateWithRemoveCrashes(st: RegistryState, ev: Event, w: World, decode: string -> FrontMatter)
    requires Has(ev.op, CREATE) && Has(ev.op, REMOVE)
    ensures Step(st, Change(ev, w), decode).control == Crash
  {
  }

  /** A created page refreshes the graph and is rebuilt on its own, whatever other bits but Remove it carries. */
  lemma {:induction false} CreatedPageIsBuilt(st: RegistryState, ev: Event, w: World, decode: string -> FrontMatter)
    requires Has(ev.op, CREATE) && !Has(ev.op, REMOVE)
    requires Readable(w.fs, ev.name) && HasPrefix(ev.name, "src/pages") && w.walk(SRC).Found?
    ensures var g := CmdBuild.GraphFrom(map[], w.walk(SRC).entries, st.snippets, w.fs, decode);
      Step(st, Change(ev, w), decode) == Outcome(st.(dependencies := g), {ev.name}, {}, {}, Continue)
  {
    assert AreaOf(ev.name) == Some(Pages);
  }

  /**
   * The chain tests every Create branch before any Write branch: a page event
   * carrying both bits is handled as a created page, rebuilt on its own.
   */
  lemma {:induction false} CreateWinsOverWrite(st: RegistryState, ev: Event, w: World, decode: string -> FrontMatter)
    requires Has(ev.op, CREATE) && Has(ev.op, WRITE) && !Has(ev.op, REMOVE)
    requires Readable(w.fs, ev.name) && HasPrefix(ev.name, "src/pages") && w.walk(SRC).Found?
    ensures var g := CmdBuild.GraphFrom(map[], w.walk(SRC).entries, st.snippets, w.fs, decode);
      Step(st, Change(ev, w), decode) == Outcome(st.(dependencies := g), {ev.name}, {}, {}, Continue)
  {
    assert AreaOf(ev.name) == Some(Pages);
  }

  /** A created directory is mirrored into dist. */
  lemma {:induction false} CreatedDirectoryIsMirrored(st: RegistryState, ev: Event, w: World, decode: string -> FrontMatter)
    requires Has(ev.op, CREATE) && !Has(ev.op, REMOVE)
    requires ev.name in w.fs && w.fs[ev.name].Dir? && w.walk(ev.name).Found?
    ensures Step(st, Change(ev, w), decode)
         == Outcome(st, {}, {}, CmdBuild.MirroredDirs(w.walk(ev.name).entries, w.fs), Continue)
  {
  }

  /** A created or written asset file is rebuilt on its own and the registry is left alone. */
  lemma {:induction false} AssetChangeRebuildsOnlyTheAsset(st: RegistryState, ev: Event, w: World, decode: string -> FrontMatter)
    requires Has(ev.op, CREATE) || Has(ev.op, WRITE)
    requires !Has(ev.op, REMOVE)
    requires Readable(w.fs, ev.name) && HasPrefix(ev.name, "src/assets")
    ensures Step(st, Change(ev, w), decode) == Outcome(st, {ev.name}, {}, {}, Continue)
  {
    assert AreaOf(ev.name) == Some(Assets);
  }

  /** A removed asset has its dist mirror, "src/" read as "dist/", deleted when it exists. */
  lemma {:induction false} RemovedAssetMirrorIsDeleted(st: RegistryState, ev: Event, w: World, decode: string -> FrontMatter)
    requires Has(ev.op, REMOVE) && !Has(ev.op, CREATE) && HasPrefix(ev.name, "src/assets")
    ensures Step(st, Change(ev, w), decode)
         == Outcome(st, {}, Removed(w.fs, ReplaceAll(ev.name, "src/", "dist/")), {}, Continue)
  {
    assert AreaOf(ev.name) == Some(Assets);
  }

  /** A removed page has the graph rebuilt and its dist page deleted; nothing is rebuilt. */
  lemma {:induction false} RemovedPageMirrorIsDeleted(st: RegistryState, ev: Event, w: World, decode: string -> FrontMatter)
    requires Has(ev.op, REMOVE) && !Has(ev.op, CREATE) && HasPrefix(ev.name, "src/pages")
    requires w.walk(SRC).Found?
    ensures var o := Step(st, Change(ev, w), decode);
      && o.control == Continue && o.rendered == {}
      && o.deleted == Removed(w.fs, PageDistPath(ev.name))
      && o.state == st.(dependencies := CmdBuild.GraphFrom(map[], w.walk(SRC).entries, st.snippets, w.fs, decode))
  {
    assert AreaOf(ev.name) == Some(Pages);
  }

  /**
   * A written page is rebuilt together with every page the rebuilt graph lists
   * under its path.
   */
  lemma {:induction false} WrittenPageRebuildsItsDependents(st: RegistryState, ev: Event, w: World, decode: string -> FrontMatter)
    requires Has(ev.op, WRITE) && !Has(ev.op, CREATE) && !Has(ev.op, REMOVE)
    requires Exists(w.fs, ev.name) && HasPrefix(ev.name, "src/pages")
    requires w.walk(SRC).Found?
    ensures var o := Step(st, Change(ev, w), decode);
      var g := CmdBuild.GraphFrom(map[], w.walk(SRC).entries, st.snippets, w.fs, decode);
      && o.control == Continue
      && o.state == st.(dependencies := g)
      && (forall q :: q in o.rendered <==> q == ev.name || q in CmdBuild.Get(g, ev.name))
  {
    assert AreaOf(ev.name) == Some(Pages);
  }

  /** A watcher path never equals a graph layout key, which always starts with "./src/layouts/". */
  lemma {:induction false} WatcherNameIsNoLayoutKey(name: string, content: string, decode: string -> FrontMatter)
    requires HasPrefix(name, "src/")
    ensures name != CmdBuild.LayoutKey(content, decode)
  {
    var k := CmdBuild.LayoutKey(content, decode);
    assert k[0] == '.';
    assert name[0] == 's';
  }

  /**
   * A created or written layout rebuilds the graph and keeps the layout table;
   * it rebuilds no page: the graph files pages under "./src/layouts/<name>"
   * while the watcher reports "src/layouts/<name>", so the lookup only finds
   * pages when a snippet happens to have that path. A missing "./src" ends
   * the process on the nil FileInfo.
   */
  lemma {:induction false} LayoutChangeRebuildsNothing(st: RegistryState, ev: Event, w: World, decode: string -> FrontMatter)
    requires Has(ev.op, CREATE) || Has(ev.op, WRITE)
    requires !Has(ev.op, REMOVE) && Readable(w.fs, ev.name)
    requires HasPrefix(ev.name, "src/layouts")
    requires forall s :: s in st.snippets ==> s.path != ev.name
    ensures var o := Step(st, Change(ev, w), decode);
      && o.rendered == {} && o.deleted == {} && o.mirrored == {}
      && o.state == st.(dependencies := CmdBuild.DependencyScan(w.walk(SRC), st.snippets, w.fs, decode).1)
      && o.control == if w.walk(SRC).Found? then Continue else Crash
  {
    assert AreaOf(ev.name) == Some(Layouts);
    var b := Classify(ev, w.fs);
    assert b == Act(Create, Layouts) || b == Act(Write, Layouts);
    var walk := w.walk(SRC);
    if walk.Found? {
      assert ev.name[..4] == "src/";
      NoEdgesUnderWatcherName(walk.entries, st.snippets, w.fs, decode, ev.name);
      var st1 := st.(dependencies := CmdBuild.GraphFrom(map[], walk.entries, st.snippets, w.fs, decode));
      assert Dependents(st1, ev.name) == {};
    }
  }

  /**
   * A removed layout refreshes the layout table, then the graph, and rebuilds
   * nothing: the lookup under the watcher's "src/layouts/<name>" misses every
   * key the graph files pages under unless a snippet has that very path.
   */
  lemma {:induction false} RemovedLayoutRebuildsNothing(st: RegistryState, ev: Event, w: World, decode: string -> FrontMatter)
    requires Has(ev.op, REMOVE) && !Has(ev.op, CREATE) && HasPrefix(ev.name, "src/layouts")
    requires w.walk(SRC + "/layouts").Found? && w.walk(SRC).Found?
    requires forall s :: s in st.snippets ==> s.path != ev.name
    ensures var o := Step(st, Change(ev, w), decode);
      var ls := CmdBuild.Discovered(w.walk(SRC + "/layouts").entries);
      && o.rendered == {} && o.deleted == {} && o.mirrored == {} && o.control == Continue
      && o.state == RegistryState(ls, st.snippets, CmdBuild.GraphFrom(map[], w.walk(SRC).entries, st.snippets, w.fs, decode))
  {
    assert AreaOf(ev.name) == Some(Layouts);
    assert Classify(ev, w.fs) == Act(Remove, Layouts);
    assert ev.name[..4] == "src/";
    NoEdgesUnderWatcherName(w.walk(SRC).entries, st.snippets, w.fs, decode, ev.name);
  }

  /** The graph lists nothing under a watcher-style path that no snippet has. */
  lemma {:induction false} NoEdgesUnderWatcherName(entries: seq<WalkEntry>, snippets: seq<Snippet>, fs: FileSystem,
                                decode: string -> FrontMatter, name: string)
    requires HasPrefix(name, "src/")
    requires forall s :: s in snippets ==> s.path != name
    ensures forall q :: q !in CmdBuild.Get(CmdBuild.GraphFrom(map[], entries, snippets, fs, decode), name)
  {
    var g := CmdBuild.GraphFrom(map[], entries, snippets, fs, decode);
    forall q ensures q !in CmdBuild.Get(g, name) {
      CmdBuild.GraphFromMembership(map[], entries, snippets, fs, decode, name, q);
      WatcherNameIsNoLayoutKey(name, ReadFile(fs, q), decode);
    }
  }

  /**
   * A removed snippet rebuilds the pages the graph listed under it BEFORE the
   * refresh, then rebuilds the graph from the new snippet table.
   */
  lemma {:induction false} RemovedSnippetRebuildsFormerDependents(st: RegistryState, ev: Event, w: World, decode: string -> FrontMatter)
    requires Has(ev.op, REMOVE) && !Has(ev.op, CREATE) && HasPrefix(ev.name, "src/snippets")
    requires w.walk(SRC + "/snippets").Found? && w.walk(SRC).Found?
    ensures var o := Step(st, Change(ev, w), decode);
      var ss := CmdBuild.Discovered(w.walk(SRC + "/snippets").entries);
      && o.control == Continue
      && o.rendered == Dependents(st, ev.name)
      && o.state == RegistryState(st.layouts, ss, CmdBuild.GraphFrom(map[], w.walk(SRC).entries, ss, w.fs, decode))
  {
    assert AreaOf(ev.name) == Some(Snippets);
  }

  /**
   * A created or written snippet refreshes the snippet table, then the graph,
   * and only then looks up what the new graph lists under it.
   */
  lemma {:induction false} WrittenSnippetRefreshesBothTables(st: RegistryState, ev: Event, w: World, decode: string -> FrontMatter)
    requires Has(ev.op, CREATE) || Has(ev.op, WRITE)
    requires !Has(ev.op, REMOVE) && Exists(w.fs, ev.name) && HasPrefix(ev.name, "src/snippets")
    requires Has(ev.op, CREATE) ==> w.fs[ev.name].File?
    requires w.walk(SRC + "/snippets").Found? && w.walk(SRC).Found?
    ensures var ss := CmdBuild.Discovered(w.walk(SRC + "/snippets").entries);
      var st2 := RegistryState(st.layouts, ss, CmdBuild.GraphFrom(map[], w.walk(SRC).entries, ss, w.fs, decode));
      Step(st, Change(ev, w), decode) == Outcome(st2, Dependents(st2, ev.name), {}, {}, Continue)
  {
    var ss := CmdBuild.Discovered(w.walk(SRC + "/snippets").entries);
    var st1 := st.(snippets := ss);
    var st2 := st1.(dependencies := CmdBuild.GraphFrom(map[], w.walk(SRC).entries, ss, w.fs, decode));
    var verb := FirstVerb(ev.op).value;
    assert verb == Create || verb == Write;
    assert AreaOf(ev.name) == Some(Snippets);
    assert Classify(ev, w.fs) == Act(verb, Snippets);
    assert RefreshSnippets(st, w) == (Ok, st1);
    assert RefreshDependencies(st1, w, decode) == (Ok, st2);
    assert Perform(verb, Snippets, ev.name, st, w, decode) == Outcome(st2, Dependents(st2, ev.name), {}, {}, Continue);
  }

  /**
   * A written snippet rebuilds exactly the reached pages that contain its
   * marker, by the graph rebuilt from the new snippet table.
   */
  lemma {:induction false} WrittenSnippetRebuildsPagesWithItsMarker(st: RegistryState, ev: Event, w: World,
                                                decode: string -> FrontMatter, s: Snippet)
    requires Has(ev.op, WRITE) && !Has(ev.op, CREATE) && !Has(ev.op, REMOVE)
    requires Readable(w.fs, ev.name) && HasPrefix(ev.name, "src/snippets")
    requires w.walk(SRC + "/snippets").Found? && w.walk(SRC).Found?
    requires var ss := CmdBuild.Discovered(w.walk(SRC + "/snippets").entries);
      s in ss && s.path == ev.name && forall t :: t in ss && t.path == s.path ==> t.name == s.name
    ensures var o := Step(st, Change(ev, w), decode);
      && o.control == Continue
      && forall q :: q in o.rendered <==>
           q in CmdBuild.Tracked(w.walk(SRC).entries, w.fs) && Contains(ReadFile(w.fs, q), CmdBuild.Marker(s.name))
  {
    WrittenSnippetRefreshesBothTables(st, ev, w, decode);
    var ss := CmdBuild.Discovered(w.walk(SRC + "/snippets").entries);
    var entries := w.walk(SRC).entries;
    var g := CmdBuild.GraphFrom(map[], entries, ss, w.fs, decode);
    var o := Step(st, Change(ev, w), decode);
    assert o.rendered == Dependents(RegistryState(st.layouts, ss, g), s.path);
    SnippetDependentsCarryItsMarker(entries, ss, w.fs, decode, s);
    forall q ensures q in o.rendered <==> q in CmdBuild.Tracked(entries, w.fs) && Contains(ReadFile(w.fs, q), CmdBuild.Marker(s.name)) {
      assert q in o.rendered <==> q in CmdBuild.Get(g, s.path);
    }
  }

  /** Under a snippet's watcher-style path the graph lists exactly the reached pages carrying its marker. */
  lemma {:induction false} SnippetDependentsCarryItsMarker(entries: seq<WalkEntry>, ss: seq<Snippet>, fs: FileSystem,
                                        decode: string -> FrontMatter, s: Snippet)
    requires s in ss && HasPrefix(s.path, "src/snippets")
    requires forall t :: t in ss && t.path == s.path ==> t.name == s.name
    ensures forall q :: (q in CmdBuild.Get(CmdBuild.GraphFrom(map[], entries, ss, fs, decode), s.path)
      <==> q in CmdBuild.Tracked(entries, fs) && Contains(ReadFile(fs, q), CmdBuild.Marker(s.name)))
  {
    assert s.path[0] == 's';
    assert !HasPrefix(s.path, SRC + "/layouts/");
    forall q ensures q in CmdBuild.Get(CmdBuild.GraphFrom(map[], entries, ss, fs, decode), s.path)
      <==> q in CmdBuild.Tracked(entries, fs) && Contains(ReadFile(fs, q), CmdBuild.Marker(s.name)) {
      CmdBuild.SnippetEdgeIffMarker(entries, ss, fs, decode, s, q);
    }
  }
}
