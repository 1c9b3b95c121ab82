/**
 * What the two file watchers (cmd/hotReload.go and hotReload.go) have in
 * common: the branch an event selects, the source area a path belongs to, the
 * dist paths a removal deletes, and the reload count of a run.
 */
module Watch {
  import opened Utils
  import opened Site
  import CmdBuild

  /** The operation a branch of the watcher reacts to. */
  datatype Verb = Create | Remove | Rename | Write

  /** The source tree a path lies in, by prefix. */
  datatype Area = Assets | Layouts | Pages | Snippets

  function AreaPrefix(a: Area): string
  {
    match a
    case Assets => "src/assets"
    case Layouts => "src/layouts"
    case Pages => "src/pages"
    case Snippets => "src/snippets"
  }

  function VerbBit(v: Verb): bv8
  {
    match v
    case Create => CREATE
    case Remove => REMOVE
    case Rename => RENAME
    case Write => WRITE
  }

  /** The area of a path: the four prefixes differ at their fifth character, so at most one applies. */
  function AreaOf(name: string): (r: Option<Area>)
    ensures forall a :: HasPrefix(name, AreaPrefix(a)) <==> r == Some(a)
  {
    forall a | HasPrefix(name, AreaPrefix(a)) ensures name[4] == AreaPrefix(a)[4] {
      assert name[..|AreaPrefix(a)|][4] == name[4];
    }
    if HasPrefix(name, "src/assets") then Some(Assets)
    else if HasPrefix(name, "src/layouts") then Some(Layouts)
    else if HasPrefix(name, "src/pages") then Some(Pages)
    else if HasPrefix(name, "src/snippets") then Some(Snippets)
    else None
  }

  /**
   * The branch of the if/else chain an event takes. `Ignored` and `Vanished`
   * exist only in hotReload.go, `StatFailed` only in cmd/hotReload.go.
   */
  datatype Branch =
    | Ignored       // a ".DS_Store" path
    | Vanished      // os.Stat reports the path does not exist
    | StatFailed    // os.Stat failed: fileWatcher returns
    | NilFileInfo   // Create together with Remove: fileInfo.IsDir() on a nil FileInfo
    | CreateDir
    | Act(verb: Verb, area: Area)
    | NoMatch

  /** The source paths listed under `k` in the registry's dependency table. */
  function Dependents(st: RegistryState, k: string): (r: set<string>)
    ensures forall q :: q in r <==> q in CmdBuild.Get(st.dependencies, k)
  {
    set q | q in CmdBuild.Get(st.dependencies, k)
  }

  /** The dist path an asset removal deletes. */
  function AssetDistPath(name: string): string
  {
    ReplaceAll(name, "src/", "dist/")
  }

  /** The dist path a page removal deletes: no "pages/" segment and ".md" read as ".html". */
  function PageDistPath(name: string): string
  {
    ReplaceAll(ReplaceAll(ReplaceAll(name, "src/", "dist/"), "pages/", ""), ".md", ".html")
  }

  /** `os.Stat(distPath)` then `os.RemoveAll(distPath)`: only a path that exists is removed. */
  function Removed(fs: FileSystem, distPath: string): (r: set<string>)
    ensures r == {} <==> !Exists(fs, distPath)
    ensures r <= {distPath}
  {
    if Exists(fs, distPath) then {distPath} else {}
  }

  /** An iteration with no effect that goes on to the next event. */
  function Nothing(st: RegistryState): Outcome
  {
    Outcome(st, {}, {}, {}, Continue)
  }

  /** An iteration that stops the watcher before doing anything else. */
  function Stop(st: RegistryState, control: Control): Outcome
  {
    Outcome(st, {}, {}, {}, control)
  }

  /** The registry the iteration `i` of a run starts from. */
  function StateBefore(st: RegistryState, outcomes: seq<Outcome>, i: nat): RegistryState
    requires i <= |outcomes|
  {
    if i == 0 then st else outcomes[i - 1].state
  }

  /**
   * `outcomes` are iterations of a watcher loop whose one iteration is `step`:
   * each is the step from the registry the previous one left.
   */
  predicate Follows(step: (RegistryState, Notification) -> Outcome, st: RegistryState,
                    stream: seq<Notification>, outcomes: seq<Outcome>)
  {
    && |outcomes| <= |stream|
    && forall i :: 0 <= i < |outcomes| ==> outcomes[i] == step(StateBefore(st, outcomes, i), stream[i])
  }

  /** The next iteration, taken from where the run stands, extends the run. */
  lemma {:induction false} FollowsExtend(step: (RegistryState, Notification) -> Outcome, st: RegistryState,
                                         stream: seq<Notification>, outcomes: seq<Outcome>, o: Outcome)
    requires Follows(step, st, stream, outcomes) && |outcomes| < |stream|
    requires o == step(StateBefore(st, outcomes, |outcomes|), stream[|outcomes|])
    ensures Follows(step, st, stream, outcomes + [o])
  {
    var longer := outcomes + [o];
    forall i | 0 <= i < |longer| ensures longer[i] == step(StateBefore(st, longer, i), stream[i]) {
      assert StateBefore(st, longer, i) == StateBefore(st, outcomes, i);
    }
  }

  /** How many iterations reached `broadcast("RELOAD")`: those that went on to the next event. */
  function Reloads(outcomes: seq<Outcome>): nat
    decreases |outcomes|
  {
    if outcomes == [] then 0
    else Reloads(outcomes[..|outcomes| - 1]) + (if outcomes[|outcomes| - 1].control == Continue then 1 else 0)
  }

  /** A run where every iteration but possibly the last continues reloads once per continuing iteration. */
  lemma {:induction false} ReloadsCount(outcomes: seq<Outcome>)
    requires forall i :: 0 <= i < |outcomes| - 1 ==> outcomes[i].control == Continue
    ensures outcomes != [] && outcomes[|outcomes| - 1].control != Continue ==> Reloads(outcomes) == |outcomes| - 1
    ensures (outcomes == [] || outcomes[|outcomes| - 1].control == Continue) ==> Reloads(outcomes) == |outcomes|
    decreases |outcomes|
  {
    if outcomes != [] {
      var init := outcomes[..|outcomes| - 1];
      assert forall i :: 0 <= i < |init| ==> init[i] == outcomes[i];
      AllContinueReloadEach(init);
    }
  }

  lemma {:induction false} AllContinueReloadEach(outcomes: seq<Outcome>)
    requires forall i :: 0 <= i < |outcomes| ==> outcomes[i].control == Continue
    ensures Reloads(outcomes) == |outcomes|
    decreases |outcomes|
  {
    if outcomes != [] {
      var init := outcomes[..|outcomes| - 1];
      assert forall i :: 0 <= i < |init| ==> init[i] == outcomes[i];
      AllContinueReloadEach(init);
    }
  }
}
