/**
 * The front-matter variant of the build (cmd/build.go): the destination-path
 * rewrite, snippet substitution, layout wrapping chosen by a `layout:` field,
 * the full-build walk rules, and the registry refreshes that rebuild the
 * layout, snippet and dependency tables.
 */
module CmdBuild {
  import opened Utils
  import opened Site

  // ---------------------------------------------------------------------------
  // Destination paths
  // ---------------------------------------------------------------------------

  /** The three successive replace-alls of buildPage and buildDirs. */
  function DistPath(srcPath: string): string
  {
    ReplaceAll(ReplaceAll(ReplaceAll(srcPath, "src/", "dist/"), "src", "dist"), "/pages", "")
  }

  /** The path buildPage writes to: a ".md" destination has every ".md" turned into ".html". */
  function DestPath(srcPath: string): (r: string)
    ensures HasSuffix(DistPath(srcPath), ".md") ==> HasSuffix(r, ".html")
    ensures !HasSuffix(DistPath(srcPath), ".md") ==> r == DistPath(srcPath)
  {
    var d := DistPath(srcPath);
    if HasSuffix(d, ".md") then
      MarkdownSuffixBecomesHtml(d);
      ReplaceAll(d, ".md", ".html")
    else d
  }

  // ---------------------------------------------------------------------------
  // Front matter
  // ---------------------------------------------------------------------------

  const FENCE: string := "---"

  /**
   * parseFrontMatter: split on the first two "---". With fewer than three pieces
   * there is no front matter and the content is the body. Otherwise the body is
   * everything after the second fence and the front matter is whatever `decode`
   * (yaml.Unmarshal into a zero FrontMatter) leaves behind, error or not.
   */
  function ParseFrontMatter(content: string, decode: string -> FrontMatter): (FrontMatter, string)
  {
    var parts := SplitN(content, FENCE, 3);
    if |parts| != 3 then (FrontMatter(""), content)
    else (decode(parts[1]), parts[2])
  }

  /**
   * Fewer than three pieces leave no front matter and the whole content;
   * otherwise the content is piece, fence, piece, fence, body, with the front
   * matter decoded from the fence-free middle piece.
   */
  lemma {:induction false} FrontMatterSplit(content: string, decode: string -> FrontMatter)
    ensures var p := SplitN(content, FENCE, 3);
      var r := ParseFrontMatter(content, decode);
      if |p| < 3 then r == (FrontMatter(""), content)
      else
        && content == p[0] + FENCE + p[1] + FENCE + r.1
        && !Contains(p[0], FENCE) && !Contains(p[1], FENCE)
        && r.0 == decode(p[1])
  {
    var parts := SplitN(content, FENCE, 3);
    SplitNPieces(content, FENCE, 3);
    if |parts| == 3 {
      JoinThree(parts, FENCE);
      assert !Contains(parts[0], FENCE) && !Contains(parts[1], FENCE);
    }
  }

  /** Content with no fence at all has no front matter and is its own body. */
  lemma {:induction false} NoFenceNoFrontMatter(content: string, decode: string -> FrontMatter)
    requires !Contains(content, FENCE)
    ensures ParseFrontMatter(content, decode) == (FrontMatter(""), content)
  {
    assert Index(content, FENCE) == None;
  }

  // ---------------------------------------------------------------------------
  // Snippets
  // ---------------------------------------------------------------------------

  /** The inline marker of a snippet: `<Name></Name>`. */
  function Marker(name: string): (m: string)
    ensures |m| == 2 * |name| + 5
  {
    "<" + name + "></" + name + ">"
  }

  /** One iteration of processSnippets: replace every marker of `s` by the bytes of its file. */
  function ExpandSnippet(content: string, s: Snippet, fs: FileSystem): string
  {
    var m := Marker(s.name);
    if Contains(content, m) then ReplaceAll(content, m, ReadFile(fs, s.path)) else content
  }

  /** The bytes processSnippets returns: the snippets applied one after another, in list order. */
  function SnippetsApplied(content: string, snippets: seq<Snippet>, fs: FileSystem): string
    decreases |snippets|
  {
    if snippets == [] then content
    else SnippetsApplied(ExpandSnippet(content, snippets[0], fs), snippets[1..], fs)
  }

  /** processSnippets (cmd/build.go:273-288; build.go:269-284 is the same code). */
  method ProcessSnippets(data: string, snippets: seq<Snippet>, fs: FileSystem) returns (content: string)
    ensures content == SnippetsApplied(data, snippets, fs)
  {
    content := data;
    var i := 0;
    while i < |snippets|
      invariant 0 <= i <= |snippets|
      invariant SnippetsApplied(content, snippets[i..], fs) == SnippetsApplied(data, snippets, fs)
    {
      var snippetString := Marker(snippets[i].name);
      if Contains(content, snippetString) {
        var snippetContent := ReadFile(fs, snippets[i].path);
        content := ReplaceAll(content, snippetString, snippetContent);
      }
      assert snippets[i..][1..] == snippets[i + 1..];
      i := i + 1;
    }
  }

  /** With no marker of a known snippet in it, content passes through unchanged (unknown markers included). */
  lemma {:induction false} SnippetsAppliedWithoutMarkers(content: string, snippets: seq<Snippet>, fs: FileSystem)
    requires forall s :: s in snippets ==> !Contains(content, Marker(s.name))
    ensures SnippetsApplied(content, snippets, fs) == content
    decreases |snippets|
  {
    if snippets != [] {
      assert snippets[0] in snippets;
      SnippetsAppliedWithoutMarkers(content, snippets[1..], fs);
    }
  }

  /** The list is applied in order: the last snippet is one replace-all on what the others produced. */
  lemma {:induction false} SnippetsAppliedInOrder(content: string, snippets: seq<Snippet>, s: Snippet, fs: FileSystem)
    ensures SnippetsApplied(content, snippets + [s], fs) == ExpandSnippet(SnippetsApplied(content, snippets, fs), s, fs)
    decreases |snippets|
  {
    if snippets == [] {
      assert [s][1..] == [];
    } else {
      assert (snippets + [s])[1..] == snippets[1..] + [s];
      SnippetsAppliedInOrder(ExpandSnippet(content, snippets[0], fs), snippets[1..], s, fs);
    }
  }

  /** A single marker occurrence, at `k`, is replaced by the snippet's file bytes verbatim. */
  lemma {:induction false} SnippetInlinedAt(content: string, s: Snippet, fs: FileSystem, k: nat)
    requires IsAt(content, Marker(s.name), k)
    requires forall m :: IsAt(content, Marker(s.name), m) ==> m == k
    ensures SnippetsApplied(content, [s], fs)
         == content[..k] + ReadFile(fs, s.path) + content[k + |Marker(s.name)|..]
  {
    var m := Marker(s.name);
    assert Contains(content, m) by { assert k <= |content| - |m|; }
    ReplaceAllOnlyAt(content, m, ReadFile(fs, s.path), k);
  }

  // ---------------------------------------------------------------------------
  // Layout wrapping
  // ---------------------------------------------------------------------------

  const PLACEHOLDER: string := "__CONTENT__"

  /** `SRC + "/layouts/" + DEFAULT_LAYOUT`: DEFAULT_LAYOUT is already a full path, so it is doubled. */
  const DefaultLayoutPath: string := SRC + "/layouts/" + DEFAULT_LAYOUT

  /** The layout file wrapHtmlInLayout reads. */
  function LayoutPathFor(fm: FrontMatter, fs: FileSystem): string
  {
    if |fm.layout| > 0 && Exists(fs, SRC + "/layouts/" + fm.layout) then SRC + "/layouts/" + fm.layout
    else DefaultLayoutPath
  }

  /**
   * wrapHtmlInLayout: the chosen template with every placeholder replaced by the
   * body after the front matter. Read failures leave an empty template.
   */
  function WrapHtmlInLayout(data: string, fs: FileSystem, decode: string -> FrontMatter): (r: string)
    ensures var pf := ParseFrontMatter(data, decode);
      var t := ReadFile(fs, LayoutPathFor(pf.0, fs));
      && |r| == |t| + Count(t, PLACEHOLDER) * (|pf.1| - |PLACEHOLDER|)
      && (!Contains(t, PLACEHOLDER) ==> r == t)
  {
    var pf := ParseFrontMatter(data, decode);
    var rawLayout := ReadFile(fs, LayoutPathFor(pf.0, fs));
    ReplaceAllLength(rawLayout, PLACEHOLDER, pf.1);
    WrapWithoutPlaceholder(rawLayout, pf.1);
    ReplaceAll(rawLayout, PLACEHOLDER, pf.1)
  }

  lemma {:induction false} WrapWithoutPlaceholder(t: string, body: string)
    ensures !Contains(t, PLACEHOLDER) ==> ReplaceAll(t, PLACEHOLDER, body) == t
  {
    if !Contains(t, PLACEHOLDER) {
      ReplaceAllAbsent(t, PLACEHOLDER, body);
    }
  }

  /**
   * The template is the declared layout when the field is set and the file
   * exists, and otherwise the doubled default path.
   */
  lemma {:induction false} LayoutChoice(fm: FrontMatter, fs: FileSystem)
    ensures |fm.layout| > 0 && Exists(fs, SRC + "/layouts/" + fm.layout)
            ==> LayoutPathFor(fm, fs) == "./src/layouts/" + fm.layout
    ensures (|fm.layout| == 0 || !Exists(fs, SRC + "/layouts/" + fm.layout))
            ==> LayoutPathFor(fm, fs) == "./src/layouts/./src/layouts/Default.html"
  {
    DoubledDefault();
  }

  /** The default layout path spelled out: "./src/layouts/" twice. */
  lemma {:induction false} DoubledDefault()
    ensures DefaultLayoutPath == "./src/layouts/./src/layouts/Default.html"
  {
    assert SRC + "/layouts/" == "./src/layouts/";
  }

  /** A page that falls back to the default renders to nothing unless the doubled path holds a file. */
  lemma {:induction false} DefaultFallbackNeedsDoubledPath(data: string, fs: FileSystem, decode: string -> FrontMatter)
    requires LayoutPathFor(ParseFrontMatter(data, decode).0, fs) == DefaultLayoutPath
    requires !Readable(fs, DefaultLayoutPath)
    ensures WrapHtmlInLayout(data, fs, decode) == ""
  {
    var body := ParseFrontMatter(data, decode).1;
    assert ReadFile(fs, DefaultLayoutPath) == "";
    assert ReplaceAll("", PLACEHOLDER, body) == "";
  }

  /** A template with one placeholder, at `k`, gets the body spliced in at that point. */
  lemma {:induction false} WrapSplicesBody(data: string, fs: FileSystem, decode: string -> FrontMatter, k: nat)
    requires var t := ReadFile(fs, LayoutPathFor(ParseFrontMatter(data, decode).0, fs));
      IsAt(t, PLACEHOLDER, k) && forall m :: IsAt(t, PLACEHOLDER, m) ==> m == k
    ensures var t := ReadFile(fs, LayoutPathFor(ParseFrontMatter(data, decode).0, fs));
      WrapHtmlInLayout(data, fs, decode) == t[..k] + ParseFrontMatter(data, decode).1 + t[k + |PLACEHOLDER|..]
  {
    var pf := ParseFrontMatter(data, decode);
    var t := ReadFile(fs, LayoutPathFor(pf.0, fs));
    ReplaceAllOnlyAt(t, PLACEHOLDER, pf.1, k);
  }

  // ---------------------------------------------------------------------------
  // buildPage
  // ---------------------------------------------------------------------------

  /**
   * buildPage (cmd/build.go:117-156) without the write: the destination path and
   * the bytes written there. Markdown goes through `markdown` (blackfriday.Run).
   */
  method BuildPage(srcPath: string, snippets: seq<Snippet>, fs: FileSystem,
                   markdown: string -> string, decode: string -> FrontMatter)
    returns (destPath: string, wrappedData: string)
    ensures destPath == DestPath(srcPath)
    ensures HasSuffix(DistPath(srcPath), ".md") ==>
      && HasSuffix(destPath, ".html")
      && wrappedData == WrapHtmlInLayout(SnippetsApplied(markdown(ReadFile(fs, srcPath)), snippets, fs), fs, decode)
    ensures !HasSuffix(DistPath(srcPath), ".md") && HasSuffix(DistPath(srcPath), ".html") ==>
      wrappedData == WrapHtmlInLayout(SnippetsApplied(ReadFile(fs, srcPath), snippets, fs), fs, decode)
    ensures !HasSuffix(DistPath(srcPath), ".md") && !HasSuffix(DistPath(srcPath), ".html") ==>
      destPath == DistPath(srcPath) && wrappedData == ReadFile(fs, srcPath)
  {
    var distPath := DistPath(srcPath);
    var data := ReadFile(fs, srcPath);
    wrappedData := "";
    if HasSuffix(distPath, ".md") {
      data := markdown(data);
      destPath := ReplaceAll(distPath, ".md", ".html");
    } else if HasSuffix(distPath, ".html") {
      destPath := distPath;
    } else {
      wrappedData := data;
      destPath := distPath;
    }
    if HasSuffix(destPath, ".html") {
      var dataWithSnippets := ProcessSnippets(data, snippets, fs);
      wrappedData := WrapHtmlInLayout(dataWithSnippets, fs, decode);
    }
  }

  // ---------------------------------------------------------------------------
  // The full-build walk: buildDirs and buildPages
  // ---------------------------------------------------------------------------

  /** The directories buildDirs leaves alone. */
  predicate SkippedDir(srcPath: string)
  {
    HasPrefix(srcPath, SRC + "/snippets") || HasPrefix(srcPath, SRC + "/layouts")
  }

  /** The paths buildPages leaves alone. */
  predicate SkippedPage(srcPath: string)
  {
    HasPrefix(srcPath, SRC + "/snippets/") || HasPrefix(srcPath, SRC + "/layouts/")
  }

  /** The dist directories buildDirs creates over a walk: mirrors of the walked directories not yet there. */
  function MirroredDirs(entries: seq<WalkEntry>, fs: FileSystem): set<string>
  {
    set e | e in entries && e.isDir && !SkippedDir(e.path) && !Exists(fs, DistPath(e.path)) :: DistPath(e.path)
  }

  /** Every walked directory outside the two reserved trees ends up present in dist. */
  lemma {:induction false} MirrorsEveryOtherDirectory(entries: seq<WalkEntry>, fs: FileSystem, e: WalkEntry)
    requires e in entries && e.isDir && !SkippedDir(e.path)
    ensures Exists(fs, DistPath(e.path)) || DistPath(e.path) in MirroredDirs(entries, fs)
  {
  }

  /** The source paths buildPages hands to buildPage, in walk order. */
  function PagesToBuild(entries: seq<WalkEntry>): (r: seq<string>)
    ensures forall p :: p in r <==> exists e :: e in entries && !e.isDir && !SkippedPage(e.path) && e.path == p
    decreases |entries|
  {
    if entries == [] then []
    else
      var e := entries[0];
      var rest := PagesToBuild(entries[1..]);
      assert forall x :: x in entries <==> x == e || x in entries[1..];
      if !e.isDir && !SkippedPage(e.path) then [e.path] + rest else rest
  }

  /**
   * Walk hands out every path below "./src" cleaned to "src/...", and such paths
   * never carry the "./src/snippets" or "./src/layouts" prefixes the skip rules test.
   */
  lemma {:induction false} CleanedPathsAreNeverSkipped(p: string)
    requires HasPrefix(p, "src/")
    ensures !SkippedDir(p) && !SkippedPage(p)
  {
    assert p[0] == 's';
  }

  // ---------------------------------------------------------------------------
  // Registry refreshes: initializeSnippets and initializeLayouts
  // ---------------------------------------------------------------------------

  /** What a walk callback of initializeSnippets / initializeLayouts appends: one entry per non-directory. */
  function Discovered(entries: seq<WalkEntry>): (r: seq<Named>)
    ensures |r| <= |entries|
    decreases |entries|
  {
    if entries == [] then []
    else
      var r := Discovered(entries[..|entries| - 1]);
      var e := entries[|entries| - 1];
      if e.isDir then r else r + [Named(NameOf(e.path), e.path)]
  }

  /**
   * Each walked non-directory, and nothing else, is discovered, carrying its
   * walked path and named after it.
   */
  lemma {:induction false} DiscoveredEntries(entries: seq<WalkEntry>)
    ensures forall n :: n in Discovered(entries) <==>
      n.name == NameOf(n.path) && exists e :: e in entries && !e.isDir && e.path == n.path
  {
    forall n | true
      ensures n in Discovered(entries) <==>
        n.name == NameOf(n.path) && exists e :: e in entries && !e.isDir && e.path == n.path
    {
      if n in Discovered(entries) {
        var i := DiscoveredFrom(entries, n);
        assert entries[i] in entries;
      }
      if n.name == NameOf(n.path) && exists e :: e in entries && !e.isDir && e.path == n.path {
        var e :| e in entries && !e.isDir && e.path == n.path;
        var i :| 0 <= i < |entries| && entries[i] == e;
        DiscoveredAt(entries, i);
      }
    }
  }

  /** The position of the walked non-directory a discovered entry comes from. */
  lemma {:induction false} DiscoveredFrom(entries: seq<WalkEntry>, n: Named) returns (i: nat)
    requires n in Discovered(entries)
    ensures i < |entries| && !entries[i].isDir && entries[i].path == n.path && n.name == NameOf(n.path)
    decreases |entries|
  {
    var init := entries[..|entries| - 1];
    if n in Discovered(init) {
      i := DiscoveredFrom(init, n);
    } else {
      i := |entries| - 1;
    }
  }

  /** The walked non-directory at position `i` is discovered. */
  lemma {:induction false} DiscoveredAt(entries: seq<WalkEntry>, i: nat)
    requires i < |entries| && !entries[i].isDir
    ensures Named(NameOf(entries[i].path), entries[i].path) in Discovered(entries)
    decreases |entries|
  {
    if i < |entries| - 1 {
      var init := entries[..|entries| - 1];
      DiscoveredAt(init, i);
    }
  }

  /**
   * The table after a refresh of this variant: a missing root makes the walk
   * callback dereference a nil FileInfo, after the table was reset.
   */
  function Scan(w: Walk): (r: (Status, seq<Named>))
  {
    if w.Missing? then (Panicked, []) else (Ok, Discovered(w.entries))
  }

  lemma {:induction false} DiscoveredSnoc(entries: seq<WalkEntry>, i: nat)
    requires i < |entries|
    ensures Discovered(entries[..i + 1])
         == Discovered(entries[..i]) + if entries[i].isDir then [] else [Named(NameOf(entries[i].path), entries[i].path)]
  {
    assert entries[..i + 1][..i] == entries[..i];
  }

  /**
   * The walk of initializeSnippets / initializeLayouts, which is the same code in
   * both variants: the callback appends one entry per non-directory, in walk order.
   */
  method CollectNamed(w: Walk) returns (status: Status, found: seq<Named>)
    ensures (status, found) == Scan(w)
  {
    found := [];
    if w.Missing? {
      return Panicked, [];
    }
    var entries := w.entries;
    for i := 0 to |entries|
      invariant found == Discovered(entries[..i])
    {
      DiscoveredSnoc(entries, i);
      var e := entries[i];
      if !e.isDir {
        found := found + [Named(NameOf(e.path), e.path)];
      }
    }
    assert entries[..|entries|] == entries;
    status := Ok;
  }

  /** initializeSnippets (cmd/build.go:158-179). */
  method InitializeSnippets(reg: Registry, w: Walk) returns (status: Status)
    modifies reg`snippets
    ensures (status, reg.snippets) == Scan(w)
  {
    reg.snippets := [];
    status, reg.snippets := CollectNamed(w);
  }

  /** initializeLayouts (cmd/build.go:237-258). */
  method InitializeLayouts(reg: Registry, w: Walk) returns (status: Status)
    modifies reg`layouts
    ensures (status, reg.layouts) == Scan(w)
  {
    reg.layouts := [];
    status, reg.layouts := CollectNamed(w);
  }

  // ---------------------------------------------------------------------------
  // The dependency graph: initializeDependencies
  // ---------------------------------------------------------------------------

  /** `dependencies[k]`: a missing key reads as the empty (nil) slice. */
  function Get(g: Graph, k: string): seq<string>
  {
    if k in g then g[k] else []
  }

  predicate Distinct(s: seq<string>)
  {
    forall i, j :: 0 <= i < j < |s| ==> s[i] != s[j]
  }

  /** No producer lists a dependent twice. */
  predicate NoDuplicates(g: Graph)
  {
    forall k :: k in g ==> Distinct(g[k])
  }

  /** The guarded append `if !sliceContains(p, deps[k]) { deps[k] = append(deps[k], p) }`. */
  function AddEdge(g: Graph, k: string, p: string): (r: Graph)
    ensures forall k', q :: q in Get(r, k') <==> q in Get(g, k') || (k' == k && q == p)
    ensures r.Keys == g.Keys + {k}
    ensures NoDuplicates(g) ==> NoDuplicates(r)
  {
    if p in Get(g, k) then g else g[k := Get(g, k) + [p]]
  }

  /** Some snippet with path `k` has its marker in `content`. */
  predicate SnippetRefers(snippets: seq<Snippet>, k: string, content: string)
  {
    exists i :: 0 <= i < |snippets| && snippets[i].path == k && Contains(content, Marker(snippets[i].name))
  }

  lemma {:induction false} SnippetRefersCons(snippets: seq<Snippet>, k: string, content: string)
    requires snippets != []
    ensures SnippetRefers(snippets, k, content) <==>
      (snippets[0].path == k && Contains(content, Marker(snippets[0].name))) || SnippetRefers(snippets[1..], k, content)
  {
    if SnippetRefers(snippets, k, content) {
      var i :| 0 <= i < |snippets| && snippets[i].path == k && Contains(content, Marker(snippets[i].name));
      if i > 0 {
        assert snippets[1..][i - 1] == snippets[i];
      }
    }
    if SnippetRefers(snippets[1..], k, content) {
      var i :| 0 <= i < |snippets[1..]| && snippets[1..][i].path == k && Contains(content, Marker(snippets[1..][i].name));
      assert snippets[i + 1] == snippets[1..][i];
    }
  }

  /** The snippet loop for one page: an edge from every snippet whose marker the page contains. */
  function SnippetEdges(g: Graph, page: string, content: string, snippets: seq<Snippet>): (r: Graph)
    ensures forall k, q :: q in Get(r, k) <==> q in Get(g, k) || (q == page && SnippetRefers(snippets, k, content))
    ensures NoDuplicates(g) ==> NoDuplicates(r)
    decreases |snippets|
  {
    if snippets == [] then g
    else
      var s := snippets[0];
      var g1 := if Contains(content, Marker(s.name)) then AddEdge(g, s.path, page) else g;
      forall k ensures SnippetRefers(snippets, k, content) <==>
        (s.path == k && Contains(content, Marker(s.name))) || SnippetRefers(snippets[1..], k, content) {
        SnippetRefersCons(snippets, k, content);
      }
      SnippetEdges(g1, page, content, snippets[1..])
  }

  /** The layout key of a page: the declared layout, else DEFAULT_LAYOUT, appended to "./src/layouts/". */
  function LayoutKey(content: string, decode: string -> FrontMatter): (k: string)
    ensures HasPrefix(k, SRC + "/layouts/")
  {
    var fm := ParseFrontMatter(content, decode).0;
    var layout := if |fm.layout| > 0 then fm.layout else DEFAULT_LAYOUT;
    var k := SRC + "/layouts/" + layout;
    assert k[..|SRC + "/layouts/"|] == SRC + "/layouts/";
    k
  }

  /** A walked file the graph covers: an ".html" file outside the snippets and layouts trees. */
  predicate IsTracked(e: WalkEntry)
  {
    && !e.isDir
    && !(Contains(e.path, "src/snippets/") || Contains(e.path, "src/layouts/"))
    && Ext(Base(e.path)) == ".html"
  }

  /**
   * The pages a walk reaches, for a given choice of the files it looks at:
   * those entries, up to the first one that cannot be read (its error ends the
   * walk, and nobody looks at it).
   */
  function Reached(entries: seq<WalkEntry>, fs: FileSystem, tracked: WalkEntry -> bool): (r: seq<string>)
    ensures |r| <= |entries|
    decreases |entries|
  {
    if entries == [] then []
    else
      var e := entries[0];
      if !tracked(e) then Reached(entries[1..], fs, tracked)
      else if !Readable(fs, e.path) then []
      else [e.path] + Reached(entries[1..], fs, tracked)
  }

  /**
   * The pages reached are looked-at, readable entries of the walk; when every
   * looked-at entry is readable, all of them are reached.
   */
  lemma {:induction false} ReachedPages(entries: seq<WalkEntry>, fs: FileSystem, tracked: WalkEntry -> bool)
    ensures forall q :: q in Reached(entries, fs, tracked) ==>
      exists e :: e in entries && tracked(e) && e.path == q && Readable(fs, q)
    ensures (forall e :: e in entries && tracked(e) ==> Readable(fs, e.path)) ==>
      forall e :: e in entries && tracked(e) ==> e.path in Reached(entries, fs, tracked)
    decreases |entries|
  {
    if entries != [] {
      ReachedPages(entries[1..], fs, tracked);
      assert forall x :: x in entries <==> x == entries[0] || x in entries[1..];
    }
  }

  /** The pages initializeDependencies reaches. */
  function Tracked(entries: seq<WalkEntry>, fs: FileSystem): seq<string>
  {
    Reached(entries, fs, IsTracked)
  }

  /**
   * The pages reached are tracked, readable entries of the walk; when every
   * tracked entry is readable, all of them are reached.
   */
  lemma {:induction false} TrackedPages(entries: seq<WalkEntry>, fs: FileSystem)
    ensures forall q :: q in Tracked(entries, fs) ==> exists e :: e in entries && IsTracked(e) && e.path == q && Readable(fs, q)
    ensures (forall e :: e in entries && IsTracked(e) ==> Readable(fs, e.path)) ==>
      forall e :: e in entries && IsTracked(e) ==> e.path in Tracked(entries, fs)
  {
    ReachedPages(entries, fs, IsTracked);
  }

  /** The edges a page's bytes call for: its layout key and every snippet it marks. */
  predicate Edge(k: string, q: string, snippets: seq<Snippet>, fs: FileSystem, decode: string -> FrontMatter)
  {
    var content := ReadFile(fs, q);
    k == LayoutKey(content, decode) || SnippetRefers(snippets, k, content)
  }

  /** The edges of one page: its layout edge, then its snippet edges. */
  function PageEdges(g: Graph, page: string, content: string, snippets: seq<Snippet>,
                     decode: string -> FrontMatter): Graph
  {
    SnippetEdges(AddEdge(g, LayoutKey(content, decode), page), page, content, snippets)
  }

  /** The walk callback of initializeDependencies folded over the entries. */
  function GraphFrom(g: Graph, entries: seq<WalkEntry>, snippets: seq<Snippet>, fs: FileSystem,
                     decode: string -> FrontMatter): (r: Graph)
    ensures NoDuplicates(g) ==> NoDuplicates(r)
    decreases |entries|
  {
    if entries == [] then g
    else
      var e := entries[0];
      if !IsTracked(e) then GraphFrom(g, entries[1..], snippets, fs, decode)
      else if !Readable(fs, e.path) then g
      else GraphFrom(PageEdges(g, e.path, fs[e.path].data, snippets, decode), entries[1..], snippets, fs, decode)
  }

  /** One step of GraphFrom at position `i` of the walk, as the loop of initializeDependencies takes it. */
  lemma {:induction false} GraphFromAt(g: Graph, entries: seq<WalkEntry>, i: nat, snippets: seq<Snippet>, fs: FileSystem,
                                       decode: string -> FrontMatter)
    requires i < |entries|
    ensures GraphFrom(g, entries[i..], snippets, fs, decode)
         == if !IsTracked(entries[i]) then GraphFrom(g, entries[i + 1..], snippets, fs, decode)
            else if !Readable(fs, entries[i].path) then g
            else GraphFrom(PageEdges(g, entries[i].path, fs[entries[i].path].data, snippets, decode), entries[i + 1..], snippets, fs, decode)
  {
    assert entries[i..][0] == entries[i] && entries[i..][1..] == entries[i + 1..];
  }

  /**
   * The graph a walk builds: `q` is listed under `k` exactly when it already was,
   * or `q` is a page the walk reached whose bytes call for an edge to `k`.
   */
  lemma {:induction false} GraphFromMembership(g: Graph, entries: seq<WalkEntry>, snippets: seq<Snippet>,
                                               fs: FileSystem, decode: string -> FrontMatter, k: string, q: string)
    ensures q in Get(GraphFrom(g, entries, snippets, fs, decode), k) <==>
      q in Get(g, k) || (q in Tracked(entries, fs) && Edge(k, q, snippets, fs, decode))
    decreases |entries|
  {
    if entries != [] {
      var e := entries[0];
      if !IsTracked(e) {
        GraphFromMembership(g, entries[1..], snippets, fs, decode, k, q);
      } else if Readable(fs, e.path) {
        var content := fs[e.path].data;
        var g1 := PageEdges(g, e.path, content, snippets, decode);
        GraphFromMembership(g1, entries[1..], snippets, fs, decode, k, q);
        assert Reached(entries, fs, IsTracked) == [e.path] + Reached(entries[1..], fs, IsTracked);
        var g0 := AddEdge(g, LayoutKey(content, decode), e.path);
        assert q in Get(g0, k) <==> q in Get(g, k) || (k == LayoutKey(content, decode) && q == e.path);
        assert q in Get(g1, k) <==> q in Get(g0, k) || (q == e.path && SnippetRefers(snippets, k, content));
      }
    }
  }

  /** The dependency table after a refresh, with how the refresh ended. */
  function DependencyScan(w: Walk, snippets: seq<Snippet>, fs: FileSystem, decode: string -> FrontMatter): (Status, Graph)
  {
    if w.Missing? then (Panicked, map[]) else (Ok, GraphFrom(map[], w.entries, snippets, fs, decode))
  }

  /** `if !sliceContains(page, dependencies[k]) { dependencies[k] = append(dependencies[k], page) }` */
  method RecordEdge(reg: Registry, k: string, page: string)
    modifies reg`dependencies
    ensures reg.dependencies == AddEdge(old(reg.dependencies), k, page)
  {
    var present := SliceContains(page, Get(reg.dependencies, k));
    if !present {
      reg.dependencies := reg.dependencies[k := Get(reg.dependencies, k) + [page]];
    }
  }

  /** The body of the walk callback for one readable page (cmd/build.go:208-230). */
  method RecordPage(reg: Registry, page: string, content: string, decode: string -> FrontMatter)
    modifies reg`dependencies
    ensures reg.dependencies == PageEdges(old(reg.dependencies), page, content, reg.snippets, decode)
  {
    var layout := "";
    var frontMatter := ParseFrontMatter(content, decode).0;
    if |frontMatter.layout| > 0 {
      layout := frontMatter.layout;
    } else if layout == "" {
      layout := DEFAULT_LAYOUT;
    }
    if layout != "" {
      RecordEdge(reg, SRC + "/layouts/" + layout, page);
    }
    ghost var afterLayout := reg.dependencies;
    var j := 0;
    while j < |reg.snippets|
      invariant 0 <= j <= |reg.snippets|
      invariant SnippetEdges(reg.dependencies, page, content, reg.snippets[j..])
             == SnippetEdges(afterLayout, page, content, reg.snippets)
    {
      var snippet := reg.snippets[j];
      assert reg.snippets[j..][1..] == reg.snippets[j + 1..];
      if Contains(content, Marker(snippet.name)) {
        RecordEdge(reg, snippet.path, page);
      }
      j := j + 1;
    }
  }

  /** initializeDependencies (cmd/build.go:181-235). */
  method InitializeDependencies(reg: Registry, w: Walk, fs: FileSystem, decode: string -> FrontMatter)
    returns (status: Status)
    modifies reg`dependencies
    ensures (status, reg.dependencies) == DependencyScan(w, reg.snippets, fs, decode)
  {
    reg.dependencies := map[];
    if w.Missing? {
      return Panicked;
    }
    var entries := w.entries;
    var i := 0;
    while i < |entries|
      invariant 0 <= i <= |entries|
      invariant GraphFrom(reg.dependencies, entries[i..], reg.snippets, fs, decode)
             == GraphFrom(map[], entries, reg.snippets, fs, decode)
    {
      var e := entries[i];
      GraphFromAt(reg.dependencies, entries, i, reg.snippets, fs, decode);
      if e.isDir || Contains(e.path, "src/snippets/") || Contains(e.path, "src/layouts/") {
        i := i + 1;
        continue;
      }
      var file := Base(e.path);
      var ext := Ext(file);
      if ext == ".html" {
        if !Readable(fs, e.path) {
          break;
        }
        RecordPage(reg, e.path, fs[e.path].data, decode);
      }
      i := i + 1;
    }
    return Ok;
  }

  /** No page is listed twice under any key. */
  lemma {:induction false} DependenciesHaveNoDuplicates(w: Walk, snippets: seq<Snippet>, fs: FileSystem, decode: string -> FrontMatter)
    ensures NoDuplicates(DependencyScan(w, snippets, fs, decode).1)
  {
  }

  /**
   * Every page the walk reaches is listed under exactly one layout key, its own,
   * provided no snippet path looks like a layout key.
   */
  lemma {:induction false} OneLayoutEdgePerPage(entries: seq<WalkEntry>, snippets: seq<Snippet>, fs: FileSystem,
                             decode: string -> FrontMatter, q: string, k: string)
    requires q in Tracked(entries, fs)
    requires forall s :: s in snippets ==> !HasPrefix(s.path, SRC + "/layouts/")
    requires HasPrefix(k, SRC + "/layouts/")
    ensures q in Get(GraphFrom(map[], entries, snippets, fs, decode), k) <==> k == LayoutKey(ReadFile(fs, q), decode)
  {
    GraphFromMembership(map[], entries, snippets, fs, decode, k, q);
  }

  /**
   * A page is listed under a snippet's path exactly when its bytes contain that
   * snippet's marker (for a snippet path no layout key and no other snippet shares).
   */
  lemma {:induction false} SnippetEdgeIffMarker(entries: seq<WalkEntry>, snippets: seq<Snippet>, fs: FileSystem,
                             decode: string -> FrontMatter, s: Snippet, q: string)
    requires s in snippets
    requires !HasPrefix(s.path, SRC + "/layouts/")
    requires forall t :: t in snippets && t.path == s.path ==> t.name == s.name
    ensures q in Get(GraphFrom(map[], entries, snippets, fs, decode), s.path) <==>
      q in Tracked(entries, fs) && Contains(ReadFile(fs, q), Marker(s.name))
  {
    GraphFromMembership(map[], entries, snippets, fs, decode, s.path, q);
    var content := ReadFile(fs, q);
    assert s.path != LayoutKey(content, decode);
    if Contains(content, Marker(s.name)) {
      var i :| 0 <= i < |snippets| && snippets[i] == s;
      assert SnippetRefers(snippets, s.path, content);
    }
    if SnippetRefers(snippets, s.path, content) {
      var i :| 0 <= i < |snippets| && snippets[i].path == s.path && Contains(content, Marker(snippets[i].name));
      assert snippets[i] in snippets;
    }
  }

  /** Only pages the walk reached appear as dependents, and only ".html" files outside the reserved trees. */
  lemma {:induction false} OnlyTrackedPagesAreDependents(entries: seq<WalkEntry>, snippets: seq<Snippet>, fs: FileSystem,
                                      decode: string -> FrontMatter, k: string, q: string)
    requires q in Get(GraphFrom(map[], entries, snippets, fs, decode), k)
    ensures exists e :: e in entries && IsTracked(e) && e.path == q
  {
    GraphFromMembership(map[], entries, snippets, fs, decode, k, q);
    TrackedPages(entries, fs);
  }
}
