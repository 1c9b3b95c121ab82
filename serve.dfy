/**
 * The dev server's request handler (requestHandler, identical in
 * cmd/hotReload.go and hotReload.go): GET requests are answered from dist,
 * a directory URL falls back to its index.html, stylesheets, scripts and
 * images are sent as they are, and every other file is sent as HTML with the
 * hot-reload script placed before each closing body tag.
 */
module Serve {
  import opened Utils
  import opened Site

  /** The status, Content-Type and body the handler answers with. */
  datatype Response = Response(status: int, contentType: string, body: string)

  const OK: int := 200
  const NOT_FOUND: int := 404

  /** The Content-Type http.Error sets. */
  const PLAIN_TEXT: string := "text/plain; charset=utf-8"

  const BODY_CLOSE: string := "</body>"

  /** The script the handler splices into HTML: it reloads the page on every server-sent event. */
  const RELOAD_SCRIPT: string :=
    "\n"
    + "            <script>\n"
    + "                let eventSource = new EventSource(\"/sssg-hot-reload\");\n"
    + "                eventSource.onmessage = (event) => { window.location.reload() };\n"
    + "                eventSource.onerror = (event) => { console.log('ERROR', JSON.stringify(event, null, 2)) };\n"
    + "                eventSource.onopen = (event) => { console.log('OPEN', JSON.stringify(event, null, 2)) };\n"
    + "                eventSource.onclose = (event) => { console.log('CLOSED', JSON.stringify(event, null, 2)) };\n"
    + "            </script>\n"
    + "        "

  /** An answer of http.Error: status 404, plain text, the message and a newline. */
  function Error(message: string): (r: Response)
    ensures r.status == NOT_FOUND && r.contentType == PLAIN_TEXT
    ensures r.body == message + "\n"
  {
    Response(NOT_FOUND, PLAIN_TEXT, message + "\n")
  }

  /** The URL path read from dist: a path ending in "/" gets "index.html" when dist has one. */
  function ServedPath(urlPath: string, fs: FileSystem): (path: string)
    ensures path == urlPath + "index.html" <==> HasSuffix(urlPath, "/") && Exists(fs, DIST + urlPath + "index.html")
    ensures path != urlPath + "index.html" ==> path == urlPath
  {
    if HasSuffix(urlPath, "/") && Exists(fs, DIST + urlPath + "index.html") then urlPath + "index.html"
    else urlPath
  }

  /** The Content-Type of a static asset, by suffix in the handler's order; None for everything sent as HTML. */
  function AssetType(path: string): Option<string>
  {
    if HasSuffix(path, ".css") then Some("text/css")
    else if HasSuffix(path, ".js") then Some("text/javascript")
    else if HasSuffix(path, ".svg") then Some("image/svg+xml")
    else if HasSuffix(path, ".png") then Some("image/png")
    else None
  }

  /** An HTML file with the reload script placed before every "</body>". */
  function InjectReloadScript(content: string): string
  {
    ReplaceAll(content, BODY_CLOSE, RELOAD_SCRIPT + BODY_CLOSE)
  }

  /** requestHandler (cmd/hotReload.go:259-316). */
  function RequestHandler(requestMethod: string, urlPath: string, fs: FileSystem): (r: Response)
    ensures requestMethod != "GET" ==> r == Error("Method is not supported")
    ensures requestMethod == "GET" && !Readable(fs, DIST + ServedPath(urlPath, fs)) ==> r == Error("Not found")
    ensures r.status == OK <==> requestMethod == "GET" && Readable(fs, DIST + ServedPath(urlPath, fs))
    ensures r.status == OK ==>
      var path := ServedPath(urlPath, fs);
      var content := fs[DIST + path].data;
      if AssetType(path).Some? then r.contentType == AssetType(path).value && r.body == content
      else r.contentType == "text/html" && r.body == InjectReloadScript(content)
  {
    if requestMethod != "GET" then Error("Method is not supported")
    else
      var path := ServedPath(urlPath, fs);
      if !Readable(fs, DIST + path) then Error("Not found")
      else
        var content := fs[DIST + path].data;
        if HasSuffix(path, ".css") then Response(OK, "text/css", content)
        else if HasSuffix(path, ".js") then Response(OK, "text/javascript", content)
        else if HasSuffix(path, ".svg") then Response(OK, "image/svg+xml", content)
        else if HasSuffix(path, ".png") then Response(OK, "image/png", content)
        else Response(OK, "text/html", InjectReloadScript(content))
  }

  /** A page without a closing body tag is sent unchanged. */
  lemma {:induction false} NoBodyCloseNoScript(content: string)
    requires !Contains(content, BODY_CLOSE)
    ensures InjectReloadScript(content) == content
  {
    ReplaceAllAbsent(content, BODY_CLOSE, RELOAD_SCRIPT + BODY_CLOSE);
  }

  /** The script is added once per closing body tag, and the page grows exactly when it has one. */
  lemma {:induction false} ScriptAddedPerBodyClose(content: string)
    ensures |InjectReloadScript(content)| == |content| + Count(content, BODY_CLOSE) * |RELOAD_SCRIPT|
    ensures |InjectReloadScript(content)| > |content| <==> Contains(content, BODY_CLOSE)
  {
    var n := Count(content, BODY_CLOSE);
    var grow := |RELOAD_SCRIPT|;
    ReplaceAllLength(content, BODY_CLOSE, RELOAD_SCRIPT + BODY_CLOSE);
    assert |RELOAD_SCRIPT + BODY_CLOSE| - |BODY_CLOSE| == grow;
    CountPositive(content, BODY_CLOSE);
    assert grow > 0 by { assert RELOAD_SCRIPT[0] == '\n'; }
    assert n > 0 <==> n * grow > 0 by { PositiveProduct(n, grow); }
  }

  lemma {:induction false} PositiveProduct(n: nat, m: nat)
    requires m > 0
    ensures n > 0 <==> n * m > 0
  {
    if n > 0 {
      assert n * m >= m by { assert n * m == (n - 1) * m + m; }
    }
  }

  /** Everything up to the first closing body tag is kept, and the script comes right before that tag. */
  lemma {:induction false} ScriptPrecedesFirstBodyClose(content: string, k: nat)
    requires Index(content, BODY_CLOSE) == Some(k)
    ensures InjectReloadScript(content)
         == content[..k] + RELOAD_SCRIPT + BODY_CLOSE + InjectReloadScript(content[k + |BODY_CLOSE|..])
  {
    ReplaceAllAtFirst(content, BODY_CLOSE, RELOAD_SCRIPT + BODY_CLOSE, k);
  }

  /** With a single closing body tag the page is only the script inserted at that tag. */
  lemma {:induction false} SingleBodyCloseGetsScript(content: string, k: nat)
    requires IsAt(content, BODY_CLOSE, k)
    requires forall m :: IsAt(content, BODY_CLOSE, m) ==> m == k
    ensures InjectReloadScript(content) == content[..k] + RELOAD_SCRIPT + content[k..]
  {
    ReplaceAllOnlyAt(content, BODY_CLOSE, RELOAD_SCRIPT + BODY_CLOSE, k);
    assert content[k..] == BODY_CLOSE + content[k + |BODY_CLOSE|..];
  }

  /** A directory URL is answered with its index.html when dist has that file. */
  lemma {:induction false} DirectoryUrlServesIndex(urlPath: string, fs: FileSystem)
    requires HasSuffix(urlPath, "/") && Readable(fs, DIST + urlPath + "index.html")
    ensures RequestHandler("GET", urlPath, fs)
         == Response(OK, "text/html", InjectReloadScript(fs[DIST + urlPath + "index.html"].data))
  {
    var path := urlPath + "index.html";
    assert DIST + urlPath + "index.html" == DIST + path;
    assert ServedPath(urlPath, fs) == path;
    assert path[|path| - 5..] == ".html";
    HtmlIsNoAsset(path);
  }

  /** A ".html" path is sent as HTML: none of the four asset suffixes fits it. */
  lemma {:induction false} HtmlIsNoAsset(path: string)
    requires HasSuffix(path, ".html")
    ensures AssetType(path).None?
  {
    var last := path[|path| - 1];
    assert last == 'l';
    assert HasSuffix(path, ".css") ==> last == 's';
    assert HasSuffix(path, ".js") ==> last == 's';
    assert HasSuffix(path, ".svg") ==> last == 'g';
    assert HasSuffix(path, ".png") ==> last == 'g';
  }

  /** A directory URL without an index.html in dist is looked up as it is, which is not a file. */
  lemma {:induction false} DirectoryUrlWithoutIndexIsNotFound(urlPath: string, fs: FileSystem)
    requires HasSuffix(urlPath, "/") && !Exists(fs, DIST + urlPath + "index.html")
    requires !Readable(fs, DIST + urlPath)
    ensures RequestHandler("GET", urlPath, fs) == Error("Not found")
  {
  }
}
