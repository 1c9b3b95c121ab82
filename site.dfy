/**
 * The declarations the build and reload code share (cmd/main.go): the Layout,
 * Snippet and FrontMatter records, the SRC / DIST / DEFAULT_LAYOUT constants and
 * the process-wide registry tables; plus the abstract view of the outside world
 * the code reads: a filesystem map, directory walks and fsnotify events.
 */
module Site {
  import opened Utils

  const SRC: string := "./src"
  const DIST: string := "dist"
  const DEFAULT_LAYOUT: string := "./src/layouts/Default.html"

  /**
   * Layout and Snippet are two Go structs with the same two fields (a name and
   * the path the file was found at); one datatype stands for both.
   */
  datatype Named = Named(name: string, path: string)
  type Layout = Named
  type Snippet = Named

  /** The only front-matter field the code reads, `layout:`. */
  datatype FrontMatter = FrontMatter(layout: string)

  /** The filesystem, keyed by the path string exactly as the code passes it. */
  datatype Entry = Dir | File(data: string)
  type FileSystem = map<string, Entry>

  /** os.Stat succeeds. */
  predicate Exists(fs: FileSystem, path: string)
  {
    path in fs
  }

  /** os.ReadFile succeeds: the path is a regular file. */
  predicate Readable(fs: FileSystem, path: string)
  {
    path in fs && fs[path].File?
  }

  /**
   * The bytes os.ReadFile returns, as the code uses them: on failure Go returns
   * a nil slice, which the code turns into the empty string.
   */
  function ReadFile(fs: FileSystem, path: string): (r: string)
    ensures Readable(fs, path) ==> r == fs[path].data
    ensures !Readable(fs, path) ==> r == ""
  {
    if Readable(fs, path) then fs[path].data else ""
  }

  /**
   * One call of a filepath.Walk callback: the path handed to it and whether it
   * is a directory. Walk hands the root over as given and every path below it
   * cleaned ("./src" is followed by "src/pages", not "./src/pages").
   */
  datatype WalkEntry = WalkEntry(path: string, isDir: bool)

  /**
   * A walk of one root: Missing when the root cannot be stat'ed (Walk then calls
   * the callback once with a nil FileInfo), otherwise the entries in walk order.
   */
  datatype Walk = Missing | Found(entries: seq<WalkEntry>)

  /** How a registry refresh ends: normally, with a returned error, or in a panic. */
  datatype Status = Ok | Failed(message: string) | Panicked

  /** The dependency map: producer path to dependent page paths. */
  type Graph = map<string, seq<string>>

  /** The value of the three registry globals (cmd/main.go:64-66). */
  datatype RegistryState = RegistryState(layouts: seq<Layout>, snippets: seq<Snippet>, dependencies: Graph)

  /**
   * The process-wide `layouts`, `snippets` and `dependencies` variables
   * (cmd/main.go:64-66), which every refresh replaces.
   */
  class Registry {
    var layouts: seq<Layout>
    var snippets: seq<Snippet>
    var dependencies: Graph

    constructor ()
      ensures State() == RegistryState([], [], map[])
    {
      layouts := [];
      snippets := [];
      dependencies := map[];
    }

    function State(): RegistryState
      reads this
    {
      RegistryState(layouts, snippets, dependencies)
    }
  }

  /** fsnotify's Op bits. */
  const CREATE: bv8 := 1
  const WRITE: bv8 := 2
  const REMOVE: bv8 := 4
  const RENAME: bv8 := 8
  const CHMOD: bv8 := 16

  /** `event.Op&bit == bit` */
  predicate Has(op: bv8, bit: bv8)
  {
    op & bit == bit
  }

  datatype Event = Event(name: string, op: bv8)

  /** What os.Stat(event.Name) reports. */
  datatype StatResult = Present(isDir: bool) | Absent

  function StatOf(fs: FileSystem, path: string): (r: StatResult)
    ensures r.Present? <==> Exists(fs, path)
    ensures r == Absent <==> !Exists(fs, path)
  {
    if path in fs then Present(fs[path].Dir?) else Absent
  }

  /**
   * The world as one event sees it: the filesystem, and the entries
   * filepath.Walk would produce from each root.
   */
  datatype World = World(fs: FileSystem, walk: string -> Walk)

  /** What the watcher's select receives: an event with its world, or a watcher error. */
  datatype Notification = Change(event: Event, world: World) | WatchError

  /** How one loop iteration ends: next iteration, `return` from fileWatcher, or the process dies. */
  datatype Control = Continue | Return | Crash

  /**
   * The effect of one loop iteration: the registry afterwards, the source paths
   * handed to buildPage (the goroutine batch, as a set), the dist paths removed,
   * the dist directories created, and how the iteration ends.
   */
  datatype Outcome = Outcome(
    state: RegistryState,
    rendered: set<string>,
    deleted: set<string>,
    mirrored: set<string>,
    control: Control)
}
