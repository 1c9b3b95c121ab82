/**
 * The tag variant of the build (build.go): a page names its layout by wrapping
 * itself in `<NameLayout>...</NameLayout>`, Markdown pages join the dependency
 * graph, a missing snippets directory is tolerated and a missing layouts
 * directory is an error. The path rewrite, processSnippets, buildDirs and
 * buildPages are the same code as in cmd/build.go and are shared with CmdBuild.
 */
module RootBuild {
  import opened Utils
  import opened Site
  import opened CmdBuild

  // ---------------------------------------------------------------------------
  // Registry refreshes
  // ---------------------------------------------------------------------------

  /** initializeSnippets of this variant: no snippets directory means an empty table and no error. */
  function SnippetScan(fs: FileSystem, w: Walk): (r: (Status, seq<Snippet>))
    ensures !Exists(fs, SRC + "/snippets") ==> r == (Ok, [])
    ensures Exists(fs, SRC + "/snippets") ==> r == Scan(w)
  {
    if !Exists(fs, SRC + "/snippets") then (Ok, []) else Scan(w)
  }

  /** initializeLayouts of this variant: no layouts directory is the error "./src/layouts not found". */
  function LayoutScan(fs: FileSystem, w: Walk): (r: (Status, seq<Layout>))
    ensures !Exists(fs, SRC + "/layouts") ==> r == (Failed("./src/layouts not found"), [])
    ensures Exists(fs, SRC + "/layouts") ==> r == Scan(w)
  {
    if !Exists(fs, SRC + "/layouts") then (Failed("./src/layouts not found"), []) else Scan(w)
  }

  /** initializeSnippets (build.go:157-183). */
  method InitializeSnippets(reg: Registry, fs: FileSystem, w: Walk) returns (status: Status)
    modifies reg`snippets
    ensures (status, reg.snippets) == SnippetScan(fs, w)
  {
    reg.snippets := [];
    if !Exists(fs, SRC + "/snippets") {
      return Ok;
    }
    status, reg.snippets := CollectNamed(w);
  }

  /** initializeLayouts (build.go:243-267). */
  method InitializeLayouts(reg: Registry, fs: FileSystem, w: Walk) returns (status: Status)
    modifies reg`layouts
    ensures (status, reg.layouts) == LayoutScan(fs, w)
  {
    reg.layouts := [];
    if !Exists(fs, SRC + "/layouts") {
      return Failed("./src/layouts not found");
    }
    status, reg.layouts := CollectNamed(w);
  }

  // ---------------------------------------------------------------------------
  // The dependency graph
  // ---------------------------------------------------------------------------

  function OpenTag(name: string): string { "<" + name + "Layout>" }

  function CloseTag(name: string): string { "</" + name + "Layout>" }

  /** The graph's test for "this page uses layout `l`": it opens with the tag and ends with the closing tag, optionally followed by one newline. */
  predicate Wraps(content: string, l: Layout)
  {
    && HasPrefix(content, OpenTag(l.name))
    && (HasSuffix(content, CloseTag(l.name)) || HasSuffix(content, CloseTag(l.name) + "\n"))
  }

  /** Some layout at path `k` wraps the content. */
  predicate LayoutWraps(layouts: seq<Layout>, k: string, content: string)
  {
    exists i :: 0 <= i < |layouts| && layouts[i].path == k && Wraps(content, layouts[i])
  }

  /** `foundLayout` after the layout loop. */
  predicate AnyWraps(content: string, layouts: seq<Layout>)
  {
    exists i :: 0 <= i < |layouts| && Wraps(content, layouts[i])
  }

  lemma {:induction false} LayoutWrapsCons(layouts: seq<Layout>, k: string, content: string)
    requires layouts != []
    ensures LayoutWraps(layouts, k, content) <==>
      (layouts[0].path == k && Wraps(content, layouts[0])) || LayoutWraps(layouts[1..], k, content)
    ensures AnyWraps(content, layouts) <==> Wraps(content, layouts[0]) || AnyWraps(content, layouts[1..])
  {
    if LayoutWraps(layouts, k, content) {
      var i :| 0 <= i < |layouts| && layouts[i].path == k && Wraps(content, layouts[i]);
      if i > 0 { assert layouts[1..][i - 1] == layouts[i]; }
    }
    if LayoutWraps(layouts[1..], k, content) {
      var i :| 0 <= i < |layouts[1..]| && layouts[1..][i].path == k && Wraps(content, layouts[1..][i]);
      assert layouts[i + 1] == layouts[1..][i];
    }
    if AnyWraps(content, layouts) {
      var i :| 0 <= i < |layouts| && Wraps(content, layouts[i]);
      if i > 0 { assert layouts[1..][i - 1] == layouts[i]; }
    }
    if AnyWraps(content, layouts[1..]) {
      var i :| 0 <= i < |layouts[1..]| && Wraps(content, layouts[1..][i]);
      assert layouts[i + 1] == layouts[1..][i];
    }
  }

  /** The layout loop for one page: an edge from every layout that wraps it. */
  function LayoutEdges(g: Graph, page: string, content: string, layouts: seq<Layout>): (r: Graph)
    ensures forall k, q :: q in Get(r, k) <==> q in Get(g, k) || (q == page && LayoutWraps(layouts, k, content))
    ensures NoDuplicates(g) ==> NoDuplicates(r)
    decreases |layouts|
  {
    if layouts == [] then g
    else
      var l := layouts[0];
      var g1 := if Wraps(content, l) then AddEdge(g, l.path, page) else g;
      forall k ensures LayoutWraps(layouts, k, content) <==>
        (l.path == k && Wraps(content, l)) || LayoutWraps(layouts[1..], k, content) {
        LayoutWrapsCons(layouts, k, content);
      }
      LayoutEdges(g1, page, content, layouts[1..])
  }

  /** The edges of one page: wrapping layouts, DEFAULT_LAYOUT when none wraps it, then snippets. */
  function PageEdges(g: Graph, page: string, content: string, layouts: seq<Layout>, snippets: seq<Snippet>): Graph
  {
    var g1 := LayoutEdges(g, page, content, layouts);
    var g2 := if !AnyWraps(content, layouts) then AddEdge(g1, DEFAULT_LAYOUT, page) else g1;
    SnippetEdges(g2, page, content, snippets)
  }

  /** A walked file the graph covers: an ".html" or ".md" file outside the snippets and layouts trees. */
  predicate IsTracked(e: WalkEntry)
  {
    && !e.isDir
    && !(Contains(e.path, "src/snippets/") || Contains(e.path, "src/layouts/"))
    && IsPageFile(Base(e.path))
  }

  predicate IsPageFile(file: string)
  {
    Ext(file) == ".html" || Ext(file) == ".md"
  }

  /** The pages the walk reaches, up to the first one that cannot be read. */
  function Tracked(entries: seq<WalkEntry>, fs: FileSystem): seq<string>
  {
    Reached(entries, fs, IsTracked)
  }

  /** The edges a page's bytes call for. */
  predicate Edge(k: string, q: string, layouts: seq<Layout>, snippets: seq<Snippet>, fs: FileSystem)
  {
    var content := ReadFile(fs, q);
    || LayoutWraps(layouts, k, content)
    || (k == DEFAULT_LAYOUT && !AnyWraps(content, layouts))
    || SnippetRefers(snippets, k, content)
  }

  function GraphFrom(g: Graph, entries: seq<WalkEntry>, layouts: seq<Layout>, snippets: seq<Snippet>,
                     fs: FileSystem): (r: Graph)
    ensures NoDuplicates(g) ==> NoDuplicates(r)
    decreases |entries|
  {
    if entries == [] then g
    else
      var e := entries[0];
      if !IsTracked(e) then GraphFrom(g, entries[1..], layouts, snippets, fs)
      else if !Readable(fs, e.path) then g
      else GraphFrom(PageEdges(g, e.path, fs[e.path].data, layouts, snippets), entries[1..], layouts, snippets, fs)
  }

  /** `q` is listed under `k` exactly when it already was, or it is a reached page whose bytes call for `k`. */
  lemma {:induction false} GraphFromMembership(g: Graph, entries: seq<WalkEntry>, layouts: seq<Layout>,
                                               snippets: seq<Snippet>, fs: FileSystem, k: string, q: string)
    ensures q in Get(GraphFrom(g, entries, layouts, snippets, fs), k) <==>
      q in Get(g, k) || (q in Tracked(entries, fs) && Edge(k, q, layouts, snippets, fs))
    decreases |entries|
  {
    if entries != [] {
      var e := entries[0];
      if !IsTracked(e) {
        GraphFromMembership(g, entries[1..], layouts, snippets, fs, k, q);
      } else if Readable(fs, e.path) {
        var content := fs[e.path].data;
        var g1 := LayoutEdges(g, e.path, content, layouts);
        var g2 := if !AnyWraps(content, layouts) then AddEdge(g1, DEFAULT_LAYOUT, e.path) else g1;
        var g3 := SnippetEdges(g2, e.path, content, snippets);
        GraphFromMembership(g3, entries[1..], layouts, snippets, fs, k, q);
        assert Reached(entries, fs, IsTracked) == [e.path] + Reached(entries[1..], fs, IsTracked);
        assert q in Get(g1, k) <==> q in Get(g, k) || (q == e.path && LayoutWraps(layouts, k, content));
        assert q in Get(g2, k) <==> q in Get(g1, k) || (q == e.path && k == DEFAULT_LAYOUT && !AnyWraps(content, layouts));
        assert q in Get(g3, k) <==> q in Get(g2, k) || (q == e.path && SnippetRefers(snippets, k, content));
      }
    }
  }

  /** The dependency table after a refresh. The walk's own error is dropped, so a refresh that does not panic returns nil. */
  function DependencyScan(w: Walk, layouts: seq<Layout>, snippets: seq<Snippet>, fs: FileSystem): (Status, Graph)
  {
    if w.Missing? then (Panicked, map[]) else (Ok, GraphFrom(map[], w.entries, layouts, snippets, fs))
  }

  /** The body of the walk callback for one readable page (build.go:203-236). */
  method RecordPage(reg: Registry, page: string, content: string)
    modifies reg`dependencies
    ensures reg.dependencies == PageEdges(old(reg.dependencies), page, content, reg.layouts, reg.snippets)
  {
    var foundLayout := false;
    ghost var start := reg.dependencies;
    var i := 0;
    while i < |reg.layouts|
      invariant 0 <= i <= |reg.layouts|
      invariant LayoutEdges(reg.dependencies, page, content, reg.layouts[i..])
             == LayoutEdges(start, page, content, reg.layouts)
      invariant foundLayout <==> AnyWraps(content, reg.layouts[..i])
    {
      var layout := reg.layouts[i];
      assert reg.layouts[i..][1..] == reg.layouts[i + 1..];
      assert reg.layouts[..i + 1] == reg.layouts[..i] + [layout];
      assert AnyWraps(content, reg.layouts[..i + 1]) <==> AnyWraps(content, reg.layouts[..i]) || Wraps(content, layout) by {
        if AnyWraps(content, reg.layouts[..i + 1]) {
          var m :| 0 <= m < i + 1 && Wraps(content, reg.layouts[..i + 1][m]);
          if m < i { assert reg.layouts[..i][m] == reg.layouts[..i + 1][m]; }
        }
        if AnyWraps(content, reg.layouts[..i]) {
          var m :| 0 <= m < i && Wraps(content, reg.layouts[..i][m]);
          assert reg.layouts[..i + 1][m] == reg.layouts[..i][m];
        }
        if Wraps(content, layout) {
          assert reg.layouts[..i + 1][i] == layout;
        }
      }
      if HasPrefix(content, OpenTag(layout.name))
         && (HasSuffix(content, CloseTag(layout.name)) || HasSuffix(content, CloseTag(layout.name) + "\n")) {
        foundLayout := true;
        RecordEdge(reg, layout.path, page);
      }
      i := i + 1;
    }
    assert reg.layouts[..i] == reg.layouts;
    if foundLayout == false {
      RecordEdge(reg, DEFAULT_LAYOUT, page);
    }
    ghost var afterLayouts := reg.dependencies;
    var j := 0;
    while j < |reg.snippets|
      invariant 0 <= j <= |reg.snippets|
      invariant SnippetEdges(reg.dependencies, page, content, reg.snippets[j..])
             == SnippetEdges(afterLayouts, page, content, reg.snippets)
    {
      var snippet := reg.snippets[j];
      assert reg.snippets[j..][1..] == reg.snippets[j + 1..];
      if Contains(content, Marker(snippet.name)) {
        RecordEdge(reg, snippet.path, page);
      }
      j := j + 1;
    }
  }

  /** initializeDependencies (build.go:185-241). */
  method InitializeDependencies(reg: Registry, w: Walk, fs: FileSystem) returns (status: Status)
    modifies reg`dependencies
    ensures (status, reg.dependencies) == DependencyScan(w, reg.layouts, reg.snippets, fs)
  {
    reg.dependencies := map[];
    if w.Missing? {
      return Panicked;
    }
    var entries := w.entries;
    var i := 0;
    while i < |entries|
      invariant 0 <= i <= |entries|
      invariant GraphFrom(reg.dependencies, entries[i..], reg.layouts, reg.snippets, fs)
             == GraphFrom(map[], entries, reg.layouts, reg.snippets, fs)
    {
      var e := entries[i];
      assert entries[i..][0] == e && entries[i..][1..] == entries[i + 1..];
      if e.isDir || Contains(e.path, "src/snippets/") || Contains(e.path, "src/layouts/") {
        i := i + 1;
        continue;
      }
      var file := Base(e.path);
      var ext := Ext(file);
      if ext == ".html" || ext == ".md" {
        if !Readable(fs, e.path) {
          break;
        }
        RecordPage(reg, e.path, fs[e.path].data);
      }
      i := i + 1;
    }
    return Ok;
  }

  /** No page is listed twice under any key. */
  lemma {:induction false} DependenciesHaveNoDuplicates(w: Walk, layouts: seq<Layout>, snippets: seq<Snippet>, fs: FileSystem)
    ensures NoDuplicates(DependencyScan(w, layouts, snippets, fs).1)
  {
  }

  /**
   * A reached page is listed under a layout's path exactly when it is wrapped in
   * that layout's tags (for a layout path that no other layout, no snippet and
   * DEFAULT_LAYOUT share).
   */
  lemma {:induction false} LayoutEdgeIffWrapped(entries: seq<WalkEntry>, layouts: seq<Layout>, snippets: seq<Snippet>,
                             fs: FileSystem, l: Layout, q: string)
    requires l in layouts
    requires l.path != DEFAULT_LAYOUT
    requires forall m :: m in layouts && m.path == l.path ==> m.name == l.name
    requires forall s :: s in snippets ==> s.path != l.path
    ensures q in Get(GraphFrom(map[], entries, layouts, snippets, fs), l.path) <==>
      q in Tracked(entries, fs) && Wraps(ReadFile(fs, q), l)
  {
    GraphFromMembership(map[], entries, layouts, snippets, fs, l.path, q);
    var content := ReadFile(fs, q);
    if LayoutWraps(layouts, l.path, content) {
      var i :| 0 <= i < |layouts| && layouts[i].path == l.path && Wraps(content, layouts[i]);
      assert layouts[i] in layouts;
    }
    if Wraps(content, l) {
      var i :| 0 <= i < |layouts| && layouts[i] == l;
      assert LayoutWraps(layouts, l.path, content);
    }
  }

  /**
   * A reached page falls back to DEFAULT_LAYOUT exactly when no layout wraps it
   * (when no layout or snippet path is DEFAULT_LAYOUT itself).
   */
  lemma {:induction false} DefaultEdgeIffUnwrapped(entries: seq<WalkEntry>, layouts: seq<Layout>, snippets: seq<Snippet>,
                                fs: FileSystem, q: string)
    requires forall m :: m in layouts ==> m.path != DEFAULT_LAYOUT
    requires forall s :: s in snippets ==> s.path != DEFAULT_LAYOUT
    ensures q in Get(GraphFrom(map[], entries, layouts, snippets, fs), DEFAULT_LAYOUT) <==>
      q in Tracked(entries, fs) && !AnyWraps(ReadFile(fs, q), layouts)
  {
    GraphFromMembership(map[], entries, layouts, snippets, fs, DEFAULT_LAYOUT, q);
    var content := ReadFile(fs, q);
  }

  /** Every reached page has at least one layout edge: a wrapping layout's, or DEFAULT_LAYOUT's. */
  lemma {:induction false} EveryPageHasALayout(entries: seq<WalkEntry>, layouts: seq<Layout>, snippets: seq<Snippet>,
                            fs: FileSystem, q: string)
    requires q in Tracked(entries, fs)
    ensures var g := GraphFrom(map[], entries, layouts, snippets, fs);
      q in Get(g, DEFAULT_LAYOUT) || exists l :: l in layouts && Wraps(ReadFile(fs, q), l) && q in Get(g, l.path)
  {
    var content := ReadFile(fs, q);
    GraphFromMembership(map[], entries, layouts, snippets, fs, DEFAULT_LAYOUT, q);
    if AnyWraps(content, layouts) {
      var i :| 0 <= i < |layouts| && Wraps(content, layouts[i]);
      GraphFromMembership(map[], entries, layouts, snippets, fs, layouts[i].path, q);
      assert LayoutWraps(layouts, layouts[i].path, content);
      assert layouts[i] in layouts;
    }
  }

  // ---------------------------------------------------------------------------
  // Layout wrapping
  // ---------------------------------------------------------------------------

  /** The layout loop's test: the page opens with the tag and contains the closing tag anywhere. */
  predicate Matches(data: string, l: Layout)
  {
    HasPrefix(data, OpenTag(l.name)) && Contains(data, CloseTag(l.name))
  }

  /** Every opening and closing tag of `name` removed. */
  function Unwrap(data: string, name: string): string
  {
    ReplaceAll(ReplaceAll(data, OpenTag(name), ""), CloseTag(name), "")
  }

  /**
   * `(rawLayout, unwrappedData)` after the layout loop of wrapHtmlInLayout. Each
   * matching layout re-unwraps the page; only one whose file exists replaces the
   * template (with "" if it cannot be read), so a later match with no file
   * keeps an earlier template. Defined on the list's last element, the order
   * the loop visits.
   */
  function LoopResult(data: string, layouts: seq<Layout>, fs: FileSystem): (string, string)
    decreases |layouts|
  {
    if layouts == [] then ("", "")
    else
      var prev := LoopResult(data, layouts[..|layouts| - 1], fs);
      var l := layouts[|layouts| - 1];
      if Matches(data, l) then
        (if Exists(fs, l.path) then ReadFile(fs, l.path) else prev.0, Unwrap(data, l.name))
      else prev
  }

  /** The bytes wrapHtmlInLayout of this variant returns. */
  function TagWrapped(data: string, layouts: seq<Layout>, fs: FileSystem): string
  {
    var lr := LoopResult(data, layouts, fs);
    if |lr.0| == 0 then ReplaceAll(ReadFile(fs, DEFAULT_LAYOUT), PLACEHOLDER, Unwrap(data, "Default"))
    else ReplaceAll(lr.0, PLACEHOLDER, lr.1)
  }

  lemma {:induction false} DefaultSpellings()
    ensures SRC + "/layouts/Default.html" == DEFAULT_LAYOUT
    ensures OpenTag("Default") == "<DefaultLayout>" && CloseTag("Default") == "</DefaultLayout>"
  {
  }

  /** wrapHtmlInLayout (build.go:286-328). */
  method WrapHtmlInLayout(data: string, layouts: seq<Layout>, fs: FileSystem) returns (wrappedData: string)
    ensures wrappedData == TagWrapped(data, layouts, fs)
  {
    var defaultLayoutPath := SRC + "/layouts/Default.html";
    var unwrappedData := "";
    var rawLayout := "";
    for i := 0 to |layouts|
      invariant (rawLayout, unwrappedData) == LoopResult(data, layouts[..i], fs)
    {
      assert layouts[..i + 1][..i] == layouts[..i];
      var openTag := OpenTag(layouts[i].name);
      var closeTag := CloseTag(layouts[i].name);
      if HasPrefix(data, openTag) && Contains(data, closeTag) {
        var layoutPath := layouts[i].path;
        if Exists(fs, layoutPath) {
          rawLayout := ReadFile(fs, layoutPath);
        }
        unwrappedData := ReplaceAll(data, openTag, "");
        unwrappedData := ReplaceAll(unwrappedData, closeTag, "");
      }
    }
    assert layouts[..|layouts|] == layouts;
    if |rawLayout| == 0 {
      DefaultSpellings();
      unwrappedData := ReplaceAll(data, "<DefaultLayout>", "");
      unwrappedData := ReplaceAll(unwrappedData, "</DefaultLayout>", "");
      rawLayout := ReadFile(fs, defaultLayoutPath);
    }
    wrappedData := ReplaceAll(rawLayout, PLACEHOLDER, unwrappedData);
  }

  /** With no matching layout the template is the default one and only the Default tags are stripped. */
  lemma {:induction false} NoMatchLeavesLoopEmpty(data: string, layouts: seq<Layout>, fs: FileSystem)
    requires forall l :: l in layouts ==> !Matches(data, l)
    ensures LoopResult(data, layouts, fs) == ("", "")
    decreases |layouts|
  {
    if layouts != [] {
      assert layouts[|layouts| - 1] in layouts;
      NoMatchLeavesLoopEmpty(data, layouts[..|layouts| - 1], fs);
    }
  }

  lemma {:induction false} NoMatchUsesDefault(data: string, layouts: seq<Layout>, fs: FileSystem)
    requires forall l :: l in layouts ==> !Matches(data, l)
    ensures TagWrapped(data, layouts, fs)
         == ReplaceAll(ReadFile(fs, "./src/layouts/Default.html"), "__CONTENT__", Unwrap(data, "Default"))
  {
    NoMatchLeavesLoopEmpty(data, layouts, fs);
  }

  /** The template is the file of the last matching layout whose file exists. */
  lemma {:induction false} LastExistingMatchGivesTemplate(data: string, pre: seq<Layout>, l: Layout,
                                                         post: seq<Layout>, fs: FileSystem)
    requires Matches(data, l) && Exists(fs, l.path)
    requires forall m :: m in post ==> !(Matches(data, m) && Exists(fs, m.path))
    ensures LoopResult(data, pre + [l] + post, fs).0 == ReadFile(fs, l.path)
    decreases |post|
  {
    var ls := pre + [l] + post;
    if post == [] {
      assert ls[..|ls| - 1] == pre;
    } else {
      var init := post[..|post| - 1];
      var m := post[|post| - 1];
      assert m in post;
      assert ls[..|ls| - 1] == pre + [l] + init;
      assert forall x :: x in init ==> x in post;
      LastExistingMatchGivesTemplate(data, pre, l, init, fs);
    }
  }

  /** The content poured in is the page unwrapped from the last matching layout, whether or not its file exists. */
  lemma {:induction false} LastMatchGivesContent(data: string, pre: seq<Layout>, l: Layout,
                                                post: seq<Layout>, fs: FileSystem)
    requires Matches(data, l)
    requires forall m :: m in post ==> !Matches(data, m)
    ensures LoopResult(data, pre + [l] + post, fs).1 == Unwrap(data, l.name)
    decreases |post|
  {
    var ls := pre + [l] + post;
    if post == [] {
      assert ls[..|ls| - 1] == pre;
    } else {
      var init := post[..|post| - 1];
      assert post[|post| - 1] in post;
      assert ls[..|ls| - 1] == pre + [l] + init;
      assert forall x :: x in init ==> x in post;
      LastMatchGivesContent(data, pre, l, init, fs);
    }
  }

  /** A page whose last matching layout has a readable, non-empty file gets that file with the unwrapped page poured in, whatever layouts precede it. */
  lemma {:induction false} LastReadableMatchWraps(data: string, pre: seq<Layout>, l: Layout, post: seq<Layout>, fs: FileSystem)
    requires Matches(data, l) && Readable(fs, l.path) && |fs[l.path].data| > 0
    requires forall m :: m in post ==> !Matches(data, m)
    ensures TagWrapped(data, pre + [l] + post, fs) == ReplaceAll(fs[l.path].data, PLACEHOLDER, Unwrap(data, l.name))
  {
    LastExistingMatchGivesTemplate(data, pre, l, post, fs);
    LastMatchGivesContent(data, pre, l, post, fs);
  }

  // ---------------------------------------------------------------------------
  // buildPage
  // ---------------------------------------------------------------------------

  /** buildPage (build.go:116-155) without the write. */
  method BuildPage(srcPath: string, layouts: seq<Layout>, snippets: seq<Snippet>, fs: FileSystem,
                   markdown: string -> string)
    returns (destPath: string, wrappedData: string)
    ensures destPath == DestPath(srcPath)
    ensures HasSuffix(DistPath(srcPath), ".md") ==>
      && HasSuffix(destPath, ".html")
      && wrappedData == TagWrapped(SnippetsApplied(markdown(ReadFile(fs, srcPath)), snippets, fs), layouts, fs)
    ensures !HasSuffix(DistPath(srcPath), ".md") && HasSuffix(DistPath(srcPath), ".html") ==>
      wrappedData == TagWrapped(SnippetsApplied(ReadFile(fs, srcPath), snippets, fs), layouts, fs)
    ensures !HasSuffix(DistPath(srcPath), ".md") && !HasSuffix(DistPath(srcPath), ".html") ==>
      destPath == DistPath(srcPath) && wrappedData == ReadFile(fs, srcPath)
  {
    var distPath := DistPath(srcPath);
    var data := ReadFile(fs, srcPath);
    wrappedData := "";
    if HasSuffix(distPath, ".md") {
      data := markdown(data);
      destPath := ReplaceAll(distPath, ".md", ".html");
    } else if HasSuffix(distPath, ".html") {
      destPath := distPath;
    } else {
      wrappedData := data;
      destPath := distPath;
    }
    if HasSuffix(destPath, ".html") {
      var dataWithSnippets := ProcessSnippets(data, snippets, fs);
      wrappedData := WrapHtmlInLayout(dataWithSnippets, layouts, fs);
    }
  }
}
