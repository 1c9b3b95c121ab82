# ssg: a Dafny model of the incremental site builder

`ssg` is a small static-site generator written in Go. It reads a source tree
under `./src`:

- `pages` holds HTML or Markdown pages.
- `layouts` holds page templates with a `__CONTENT__` placeholder.
- `snippets` holds fragments inlined wherever a page contains `<Name></Name>`.
- `assets` holds files copied as they are.

It writes the site to `dist`. It keeps three process-wide tables: the layouts,
the snippets, and a dependency map from each layout or snippet path to the
pages that use it. A file watcher uses the map to rebuild only the pages an
edit affects, and a development server injects a reload script into every
HTML page it serves.

The repository has two variants of the same program, and the model keeps them
apart:

- `cmd/` picks a page's layout from a `layout:` field in YAML front matter.
- The root package picks it from tags wrapping the page: `<NameLayout>…</NameLayout>`.

The filesystem is a map from the path string, exactly as the code spells it,
to a directory or a file's bytes. Paths are not normalised, so `./src/x` and
`src/x` are different keys. `filepath.Walk` is a given sequence of
(path, is-directory) entries for each root, in walk order. Walk hands the
root over as written and cleans every path below it, so children of `./src`
arrive as `src/...`. The three globals are the fields of a `Registry` object.
Each `initialize*` function is a method that rebuilds one field wholesale, and
each such method is proved against a function of the walk. The goroutines a
watcher branch starts are modelled as the set of source paths it hands to
`buildPage`.

Modules follow the source files:

| module | source |
|---|---|
| `Utils` | `cmd/utils.go`, plus the Go `strings` / `filepath` calls the code relies on |
| `Site` | the declarations of `cmd/main.go`, and the abstract filesystem, walks and events |
| `CmdBuild` | `cmd/build.go`; its `processSnippets`, `buildDirs`, `buildPages` and path rewrite are the same code in `build.go`, defined once here |
| `RootBuild` | `build.go` |
| `Watch` | what the two file watchers share: areas, dist paths and reload counting |
| `CmdHotReload` | `fileWatcher` of `cmd/hotReload.go` |
| `RootHotReload` | `fileWatcher` of `hotReload.go` |
| `Serve` | `requestHandler`, the same code in both `hotReload.go` files |

Both watcher modules share one design:

- `Classify` is the first-match-wins if/else chain as a pure function to a `Branch`.
- `Dispatch` and `Step` give the effect of one iteration as an `Outcome`: the new registry, the pages rebuilt, the dist paths deleted, the dist directories created, and whether the loop goes on, returns, or the process dies.
- `HandleEvent` and `FileWatcher` are the imperative loop over a `Registry`. They are proved to follow `Step` at every iteration, and to send one reload broadcast per iteration that goes on.

## Model

| member | source | states |
|---|---|---|
| Utils.SliceContains | cmd/utils.go:7-14 | true exactly when some element of the slice equals the string; false on an empty slice |
| Utils.ReplaceAllAbsent | cmd/utils.go:16-18 | a replace-all of a pattern that does not occur returns the haystack unchanged |
| Utils.ReplaceAllSelf | cmd/utils.go:16-18 | replacing a pattern by itself returns the haystack unchanged |
| Utils.ReplaceAllLength | cmd/utils.go:16-18 | the result has length `len(h) + k*(len(B)-len(A))`, where `k` counts the non-overlapping occurrences found left to right |
| Utils.CountPositive | cmd/utils.go:16-18 | at least one occurrence is counted exactly when the pattern occurs |
| Utils.ReplaceAllAtFirst | cmd/utils.go:16-18 | the scan is left to right: everything before the first occurrence is kept, then `B`, then the rest of the haystack replaced on its own |
| Utils.ReplaceAllOnlyAt | cmd/utils.go:16-18 | a pattern occurring once is replaced at that place only, with the text on both sides kept |
| Utils.MarkdownSuffixBecomesHtml | cmd/build.go:133-136 | a path ending in ".md" ends in ".html" once every ".md" is replaced |
| Utils.SplitNPieces | cmd/build.go:262 | `strings.SplitN`: 1 to n pieces, which joined with the separator give back the input, and no piece but the last contains the separator |
| Utils.TrimSuffix | cmd/build.go:167 | removes the suffix when it is there, and otherwise returns the input |
| Utils.BaseShape | cmd/build.go:166 | `filepath.Base` is never empty and, for a path with more than slashes, contains no slash |
| Utils.ExtShape | cmd/build.go:197 | `filepath.Ext` is a suffix of the path; a non-empty one starts with its only dot and contains no slash |
| Utils.NameThenExtIsBase | cmd/build.go:166-167 | the name of a layout or snippet file followed by its extension is the file's base name |
| Site.ReadFile | cmd/build.go:124-127 | a readable file gives its bytes, and a failed read gives the empty string the code goes on with |
| Site.StatOf | cmd/hotReload.go:45-47 | `os.Stat` succeeds exactly when the path exists |
| Site.Registry.constructor | cmd/main.go:64-66 | the three tables start empty |
| CmdBuild.DestPath | cmd/build.go:120-143 | the destination is the three-step rewrite of the source path; a ".md" result is turned into a ".html" path and any other stays as it is |
| CmdBuild.FrontMatterSplit | cmd/build.go:260-271 | fewer than three "---" pieces give an empty front matter and the whole content; otherwise the content is piece, fence, piece, fence, body, the front matter is decoded from the middle piece, and the body is kept even when decoding fails |
| CmdBuild.NoFenceNoFrontMatter | cmd/build.go:262-266 | content without any "---" has no front matter and is its own body |
| CmdBuild.Marker | cmd/build.go:277 | the marker `<Name></Name>` is five characters longer than twice the name |
| CmdBuild.ProcessSnippets | cmd/build.go:273-288 | the loop returns the snippets applied to the content one after another, in table order |
| CmdBuild.SnippetsAppliedWithoutMarkers | cmd/build.go:276-286 | content without the marker of any known snippet comes back unchanged, unknown markers included |
| CmdBuild.SnippetsAppliedInOrder | cmd/build.go:276-286 | the last snippet of the table is one replace-all of its marker by its file's bytes, applied to what the earlier ones produced |
| CmdBuild.SnippetInlinedAt | cmd/build.go:277-284 | a marker occurring once is replaced by the snippet file's bytes at that place, and the text on both sides is kept |
| CmdBuild.WrapHtmlInLayout | cmd/build.go:290-325 | the output is the chosen template with each placeholder replaced by the body, so its length grows by the body's excess per placeholder; a template without a placeholder is returned as read |
| CmdBuild.LayoutChoice | cmd/build.go:292-319 | the template is "./src/layouts/" plus the declared layout when that is set and exists, and otherwise the doubled path "./src/layouts/./src/layouts/Default.html" |
| CmdBuild.DefaultFallbackNeedsDoubledPath | cmd/build.go:292 | a page that falls back to the default layout renders as the empty string unless a file sits at the doubled path |
| CmdBuild.WrapSplicesBody | cmd/build.go:321-322 | a template with a single placeholder gets the body spliced in at that place |
| CmdBuild.BuildPage | cmd/build.go:117-156 | a ".md" page goes through markdown, snippets and layout and lands at a ".html" path; an ".html" page goes through snippets and layout; any other file is copied byte for byte to its rewritten path |
| CmdBuild.MirrorsEveryOtherDirectory | cmd/build.go:74-93 | every walked directory outside the two skipped trees has its dist mirror present or created |
| CmdBuild.PagesToBuild | cmd/build.go:95-115 | a path is handed to buildPage exactly when it is a walked non-directory that the skip rule lets through |
| CmdBuild.CleanedPathsAreNeverSkipped | cmd/build.go:79-100 | walk paths below the root start with "src/", so the "./src/snippets" and "./src/layouts" skip rules never fire on them |
| CmdBuild.DiscoveredEntries | cmd/build.go:163-172 | one entry per walked non-directory, named after its base name without the extension and carrying its walked path; directories add nothing |
| CmdBuild.CollectNamed | cmd/build.go:163-172 | the walk callback appends one entry per non-directory, in walk order |
| CmdBuild.InitializeSnippets | cmd/build.go:158-179 | the snippet table is rebuilt from the walk of "./src/snippets"; a missing directory panics on the nil FileInfo |
| CmdBuild.InitializeLayouts | cmd/build.go:237-258 | the layout table is rebuilt from the walk of "./src/layouts"; a missing directory panics on the nil FileInfo |
| CmdBuild.AddEdge | cmd/build.go:215-217 | the guarded append adds exactly the one edge, keeps every other, and never creates a duplicate |
| CmdBuild.SnippetEdges | cmd/build.go:220-230 | a page gains an edge under a snippet path exactly when a snippet at that path has its marker in the page |
| CmdBuild.LayoutKey | cmd/build.go:206-214 | every layout key starts with "./src/layouts/" |
| CmdBuild.TrackedPages | cmd/build.go:186-204 | the pages reached are tracked, readable entries of the walk; when every tracked entry is readable, all of them are reached |
| CmdBuild.GraphFrom | cmd/build.go:186-233 | folding the walk callback over the entries never creates a duplicate edge |
| CmdBuild.GraphFromMembership | cmd/build.go:186-233 | a page is listed under a key exactly when it already was, or it is a reached page whose bytes call for that key |
| CmdBuild.RecordEdge | cmd/build.go:215-217 | the table becomes the guarded append of the edge |
| CmdBuild.RecordPage | cmd/build.go:206-230 | the table gains the page's layout edge and then its snippet edges |
| CmdBuild.InitializeDependencies | cmd/build.go:181-235 | the dependency table is rebuilt from the walk of "./src"; an unreadable page ends the walk and the refresh still reports success |
| CmdBuild.DependenciesHaveNoDuplicates | cmd/build.go:215-228 | after any refresh, no page is listed twice under a key |
| CmdBuild.OneLayoutEdgePerPage | cmd/build.go:206-218 | every reached page is listed under exactly one layout key: its declared layout, else the default one |
| CmdBuild.SnippetEdgeIffMarker | cmd/build.go:220-230 | a page is listed under a snippet's path exactly when it is reached and contains that snippet's marker |
| CmdBuild.OnlyTrackedPagesAreDependents | cmd/build.go:187-199 | only ".html" files outside the snippets and layouts trees appear as dependents |
| RootBuild.SnippetScan | build.go:157-183 | a missing snippets directory gives an empty table and no error; otherwise the table comes from the walk |
| RootBuild.LayoutScan | build.go:243-267 | a missing layouts directory gives an empty table and the error "./src/layouts not found"; otherwise the table comes from the walk |
| RootBuild.InitializeSnippets | build.go:157-183 | the snippet table and the result are those of the snippet scan |
| RootBuild.InitializeLayouts | build.go:243-267 | the layout table and the result are those of the layout scan |
| RootBuild.LayoutEdges | build.go:211-218 | a page gains an edge under a layout path exactly when a layout at that path wraps it, and never a duplicate |
| CmdBuild.ReachedPages | build.go:190-207 | for either variant's choice of tracked files: the pages reached are tracked, readable entries of the walk, and when every tracked entry is readable all of them are reached |
| RootBuild.GraphFrom | build.go:190-239 | folding the walk callback over the entries never creates a duplicate edge |
| RootBuild.GraphFromMembership | build.go:190-239 | a page is listed under a key exactly when it already was, or it is a reached page wrapped in a layout at that key, falling back to DEFAULT_LAYOUT, or marking a snippet there |
| RootBuild.RecordPage | build.go:209-236 | the table gains the page's layout edges, the default edge when no layout matched (the `foundLayout` flag), then its snippet edges |
| RootBuild.InitializeDependencies | build.go:185-241 | the dependency table is rebuilt from the walk of "./src" over the current layout and snippet tables |
| RootBuild.DependenciesHaveNoDuplicates | build.go:214-234 | after any refresh, no page is listed twice under a layout, default or snippet key |
| RootBuild.LayoutEdgeIffWrapped | build.go:211-218 | a page is listed under a layout's path exactly when it opens with `<NameLayout>` and ends with `</NameLayout>`, optionally followed by one newline |
| RootBuild.DefaultEdgeIffUnwrapped | build.go:220-224 | a page is listed under DEFAULT_LAYOUT exactly when no layout wraps it |
| RootBuild.EveryPageHasALayout | build.go:209-224 | every reached page has a layout edge: the default one or that of a layout wrapping it |
| RootBuild.DefaultSpellings | build.go:288 | this variant's default path is DEFAULT_LAYOUT itself and is not doubled |
| RootBuild.WrapHtmlInLayout | build.go:286-328 | the loop over the layouts and the fallback produce the tag-wrapped output |
| RootBuild.NoMatchLeavesLoopEmpty | build.go:298-313 | when no layout matches, the loop leaves both the template and the unwrapped page empty |
| RootBuild.NoMatchUsesDefault | build.go:315-327 | with no match, the output is the default template with the page, minus its Default tags, poured in |
| RootBuild.LastExistingMatchGivesTemplate | build.go:298-309 | the template comes from the last matching layout whose file exists |
| RootBuild.LastMatchGivesContent | build.go:310-311 | the page poured in is the page unwrapped from the last matching layout, whether or not that layout's file exists |
| RootBuild.LastReadableMatchWraps | build.go:298-327 | a page whose last matching layout has a readable, non-empty file is that file with the unwrapped page poured in, whatever layouts precede it |
| RootBuild.BuildPage | build.go:116-155 | the same three cases as the other variant, with the tag-based wrapping |
| Watch.AreaOf | cmd/hotReload.go:61-209 | a path lies in at most one of the four source areas, and its area is the one whose prefix it has |
| Watch.Dependents | cmd/hotReload.go:72-75 | the pages rebuilt are exactly those listed under the event name |
| Watch.Removed | cmd/hotReload.go:106-112 | a dist path is deleted exactly when it exists, and only that path |
| Watch.ReloadsCount | cmd/hotReload.go:212-220 | a run broadcasts once per iteration that goes on: all of them, or all but a last one that stops |
| CmdHotReload.Classify | cmd/hotReload.go:43-210 | a non-remove event for a missing path returns; Create and Remove together dereference the nil FileInfo; a created directory is mirrored; otherwise the branch is the path's area and the first of Create, Remove, Write set, or nothing |
| CmdHotReload.PerformOn | cmd/hotReload.go:61-209 | the branch's refreshes run on the registry in the source's order, and the outcome is that of the branch |
| CmdHotReload.HandleEvent | cmd/hotReload.go:32-213 | one event's effect on the registry and its outcome follow the chain |
| CmdHotReload.Receive | cmd/hotReload.go:31-219 | an event is handled and a watcher error changes nothing |
| CmdHotReload.FileWatcher | cmd/hotReload.go:30-221 | every iteration is the step from the registry the previous one left, the run stops at the first iteration that returns or crashes, and the broadcasts count the iterations that went on |
| CmdHotReload.ReloadsPerRun | cmd/hotReload.go:212-220 | a run cut short broadcasts one reload fewer than it has iterations; a full run broadcasts one per notification |
| CmdHotReload.StatFailureEndsTheRun | cmd/hotReload.go:45-51 | a non-remove event for a missing path is the run's last iteration, changes nothing, and sends no broadcast |
| CmdHotReload.MissingPathStopsTheWatcher | cmd/hotReload.go:49-51 | such an event returns from fileWatcher with no other effect |
| CmdHotReload.CreateWithRemoveCrashes | cmd/hotReload.go:45-52 | an event with both Create and Remove crashes on the nil FileInfo |
| CmdHotReload.CreatedPageIsBuilt | cmd/hotReload.go:76-84 | a created page, with any bits but Remove, rebuilds the graph and then builds that page alone |
| CmdHotReload.CreateWinsOverWrite | cmd/hotReload.go:76-84 | a page event with both Create and Write is handled as a created page: the graph is rebuilt and the page alone is built |
| CmdHotReload.CreatedDirectoryIsMirrored | cmd/hotReload.go:52-60 | a created directory rebuilds nothing and creates the dist mirrors of the directories under it |
| CmdHotReload.AssetChangeRebuildsOnlyTheAsset | cmd/hotReload.go:61-64 | a created or written asset is built on its own and the registry is untouched |
| CmdHotReload.RemovedAssetMirrorIsDeleted | cmd/hotReload.go:101-112 | a removed asset deletes the path with "src/" read as "dist/", when that exists |
| CmdHotReload.RemovedPageMirrorIsDeleted | cmd/hotReload.go:129-147 | a removed page rebuilds the graph and deletes its dist page, with "pages/" dropped and ".md" read as ".html"; nothing is built |
| CmdHotReload.WrittenPageRebuildsItsDependents | cmd/hotReload.go:179-193 | a written page rebuilds the graph first, then builds itself and every page the new graph lists under its path |
| CmdHotReload.WatcherNameIsNoLayoutKey | cmd/build.go:214 | a watcher path ("src/...") never equals a layout key ("./src/layouts/...") |
| CmdHotReload.LayoutChangeRebuildsNothing | cmd/hotReload.go:168-178 | a written layout (and a created one, lines 65-75) rebuilds the graph, keeps the layout table, builds no page because the graph files pages under keys that never equal the event name, and goes on; a missing "./src" ends the process |
| CmdHotReload.NoEdgesUnderWatcherName | cmd/build.go:213-228 | the graph lists nothing under a watcher-style path that no snippet has |
| CmdHotReload.RemovedLayoutRebuildsNothing | cmd/hotReload.go:113-128 | a removed layout refreshes the layout table, then the graph, builds no page (no key of the graph equals the event name unless a snippet has that path) and goes on |
| CmdHotReload.RemovedSnippetRebuildsFormerDependents | cmd/hotReload.go:148-163 | a removed snippet refreshes the snippet table, builds the pages the OLD graph listed under it, then rebuilds the graph |
| CmdHotReload.WrittenSnippetRefreshesBothTables | cmd/hotReload.go:194-209 | a written snippet (and a created one, lines 85-100) refreshes the snippet table, then the graph, then builds what the new graph lists under it |
| CmdHotReload.WrittenSnippetRebuildsPagesWithItsMarker | cmd/hotReload.go:194-209 | the pages built are exactly the reached pages that contain the snippet's marker |
| CmdHotReload.SnippetDependentsCarryItsMarker | cmd/build.go:220-230 | under a snippet's watcher-style path the graph lists exactly the reached pages carrying its marker |
| RootHotReload.Classify | hotReload.go:45-247 | ".DS_Store" paths are ignored first; a non-remove event for a missing path takes the not-exist branch; Create and Remove together crash; a created directory is mirrored; otherwise the branch is the path's area and the first of Create, Remove, Rename (assets only), Write set, or nothing |
| RootHotReload.PerformOn | hotReload.go:75-246 | the branch's refreshes run on the registry in the source's order, and the outcome is that of the branch |
| RootHotReload.HandleEvent | hotReload.go:32-252 | one event's effect and outcome follow the chain, and `interestingEvent` is set exactly when a branch body ran |
| RootHotReload.Receive | hotReload.go:31-258 | "Re-build complete" is printed exactly for an event that ran a branch body and did not end the process |
| RootHotReload.FileWatcher | hotReload.go:30-260 | every iteration is the step from the registry the previous one left, the run stops at the first iteration that does not go on, and the broadcasts count the iterations that went on |
| RootHotReload.StepNeverReturns | hotReload.go:45-64 | no iteration returns from the watcher, since a path that is gone is rebuilt rather than ending the loop, so a run that stops early stops at a crash |
| RootHotReload.ReloadsPerRun | hotReload.go:249-259 | a run cut short broadcasts one reload fewer than it has iterations; a full run broadcasts one per notification |
| RootHotReload.IgnoredNotificationsOnlyReload | hotReload.go:51-52 | a stream of ".DS_Store" events and watcher errors keeps the registry, builds nothing, and broadcasts once per notification |
| RootHotReload.IgnoredPrefixIsIdle | hotReload.go:51-52 | each iteration of such a stream has no effect |
| RootHotReload.UninterestingEventChangesNothing | hotReload.go:38-250 | an event that runs no branch body has no effect, unless it crashes on the nil FileInfo |
| RootHotReload.DSStoreIsIgnored | hotReload.go:51-52 | a ".DS_Store" path has no effect, whatever its operation and whether it exists |
| RootHotReload.VanishedPathRebuildsItsDependents | hotReload.go:53-64 | a non-remove event for a missing path rebuilds the graph, builds what the new graph lists under it, and the loop goes on |
| RootHotReload.VanishedPathIsNotRebuilt | hotReload.go:53-64 | the vanished path itself is never among the pages built |
| RootHotReload.RenamedAwayAssetKeepsItsMirror | hotReload.go:53-64 | an asset renamed away no longer exists, so the not-exist branch takes it before the Rename branch and its dist mirror is not deleted |
| RootHotReload.RenamedAssetMirrorIsDeleted | hotReload.go:131-142 | a renamed asset that still exists has its "src/" to "dist/" mirror deleted, as a removal does |
| RootHotReload.RemovedAssetMirrorIsDeleted | hotReload.go:119-130 | a removed asset deletes its mirror, when that exists |
| RootHotReload.CreateWithRemoveCrashes | hotReload.go:45-65 | an event with both Create and Remove crashes on the nil FileInfo |
| RootHotReload.RemovedLayoutWithoutLayoutsDirCrashes | hotReload.go:143-149 | removing a layout when the layouts directory is gone ends the process, with an empty layout table and nothing built |
| RootHotReload.RemovedLayoutRebuildsNothing | hotReload.go:143-159 | a removed layout, with the layouts directory present, refreshes the layout table, then the graph, builds no page (no remaining layout, no snippet and not the default key has the event name) and goes on |
| RootHotReload.RemovedSnippetRebuildsFormerDependents | hotReload.go:180-196 | a removed snippet refreshes the snippet table (empty when the snippets directory is gone), builds the pages the OLD graph listed under it, then rebuilds the graph from the new table; a missing "./src" ends the process after those builds were started |
| RootHotReload.RemovedPageMirrorIsDeleted | hotReload.go:160-179 | a removed page rebuilds the graph and deletes its dist path ("src/" read as "dist/", "pages/" dropped, ".md" read as ".html") only when that exists; no page is built |
| RootHotReload.WrittenSnippetRefreshesBothTables | hotReload.go:230-246 | a written snippet (and a created one, lines 102-118) refreshes the snippet table, then the graph from that table, and only then builds what the new graph lists under it |
| RootHotReload.WrittenLayoutRefreshesTheGraph | hotReload.go:202-213 | a written layout rebuilds the graph and the layout table is left as it was |
| RootHotReload.WrittenLayoutRebuildsThePagesItWraps | hotReload.go:202-213 | a written layout builds exactly the reached pages wrapped in its tags |
| RootHotReload.LayoutDependentsAreWrapped | build.go:211-218 | under a layout's watcher-style path the graph lists exactly the reached pages it wraps |
| RootHotReload.WatcherNameIsNotTheDefaultKey | build.go:220-224 | no watcher path equals DEFAULT_LAYOUT, so editing the default layout rebuilds none of the pages that only fall back to it |
| RootHotReload.WrittenPageRebuildsItsDependents | hotReload.go:214-229 | a written page rebuilds the graph, then builds itself and every page the new graph lists under it |
| RootHotReload.CreatedPageIsBuilt | hotReload.go:92-101 | a created page rebuilds the graph and builds that page alone |
| Serve.Error | cmd/hotReload.go:261 | `http.Error` answers 404 as plain text with the message and a newline |
| Serve.ServedPath | cmd/hotReload.go:267-273 | a path ending in "/" gets "index.html" appended exactly when dist has that file; otherwise the path is unchanged |
| Serve.RequestHandler | cmd/hotReload.go:259-316 | non-GET gives 404 "Method is not supported"; a file that cannot be read gives 404 "Not found"; status 200 exactly for a readable GET; css, js, svg and png are sent byte for byte with their types; anything else is text/html with the script injected (hotReload.go:298-355 is the same code) |
| Serve.NoBodyCloseNoScript | cmd/hotReload.go:301-311 | a page without "</body>" is sent unchanged |
| Serve.ScriptAddedPerBodyClose | cmd/hotReload.go:301-311 | the page grows by one copy of the script per "</body>", and grows exactly when it has one |
| Serve.ScriptPrecedesFirstBodyClose | cmd/hotReload.go:301-311 | the text before the first "</body>" is kept and the script comes right before that tag |
| Serve.SingleBodyCloseGetsScript | cmd/hotReload.go:301-311 | a page with one "</body>" gets the script inserted just before it and is otherwise unchanged |
| Serve.DirectoryUrlServesIndex | cmd/hotReload.go:267-311 | a directory URL with an index.html in dist is answered with that page, as HTML with the script |
| Serve.HtmlIsNoAsset | cmd/hotReload.go:287-300 | an ".html" path matches none of the four asset suffixes |
| Serve.DirectoryUrlWithoutIndexIsNotFound | cmd/hotReload.go:267-280 | a directory URL without an index.html is looked up as given, and the directory cannot be read, so the answer is 404 |

## Left out

- Concurrency: the goroutines started for `buildPage`, the `sync.WaitGroup` barrier, and the `defer wg.Done()` placed inside the loop, which would panic when fileWatcher returns. The pages a branch builds are modelled as a set, because the builds are independent of each other.
- `broadcast`, the `clients` map and `hotReloadHandler`'s server-sent events: the model counts broadcasts and does not model their delivery to the browsers.
- `watchPath` and the fsnotify watcher registration. The directory-create branch's new watch is not modelled, and neither is the end of the event or error channel, which is where the event stream ends.
- `blackfriday.Run` and `yaml.Unmarshal` are the parameters `markdown` and `decode`. A YAML error leaves the zero or partly filled front matter that `decode` returns.
- Writes are not applied to the filesystem map: `os.WriteFile`, `os.Mkdir` and `os.RemoveAll` are reported as the written bytes, the set of mirrored directories, and the set of deleted paths.
- `os.Stat` errors other than "does not exist", file permissions, and symbolic links.
- `build()`, which chains the three refreshes, `RemoveAll(dist)`, `Mkdir(dist)` and the two walks. Its parts are modelled one by one.
- The second `os.ReadFile` of each page inside the snippet loop of `initializeDependencies` is taken to return the same bytes as the first.
- `http.ServeContent` headers, conditional and range requests, and `http.Dir`'s path cleaning: the index lookup is a plain map lookup on "dist" + path + "index.html".
- Timing (`time.Now`, `time.Since`), all printing and logging, and `log.Fatal`'s exit, which is modelled as the control value `Crash`.
- `cmd/deploy.go`, `cmd/init.go` and the flag, `.env` and listener handling of `cmd/main.go`: network and filesystem plumbing outside the builder.
- Where walk entries live: a walk is given as a list of entries and is not tied to its root, so the model cannot show that real walks keep snippet paths out of "./src/layouts/", give one name per path, keep snippet and layout paths apart, or never produce `DEFAULT_LAYOUT` as a layout or snippet path. `CmdBuild.OneLayoutEdgePerPage`, `CmdBuild.SnippetEdgeIffMarker`, `RootBuild.LayoutEdgeIffWrapped`, `RootBuild.DefaultEdgeIffUnwrapped`, `RootHotReload.LayoutDependentsAreWrapped`, `RootHotReload.WrittenLayoutRebuildsThePagesItWraps`, `RootHotReload.RemovedLayoutRebuildsNothing`, `CmdHotReload.LayoutChangeRebuildsNothing` and `CmdHotReload.RemovedLayoutRebuildsNothing` take these facts as preconditions.
