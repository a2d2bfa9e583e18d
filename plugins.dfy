/** The decisions of the two esbuild plugins index.js defines for style mode:
    `copy`, which copies files no loader claims, and `http`, which fetches
    absolute http(s) references. */
module Plugins {

  import opened Wrappers
  import opened Strings
  import opened Buffers
  import opened NodePath
  import opened Host

  /** The esbuild loaders the model distinguishes. */
  datatype Loader = Js | Css | Copy

  /** `esOpts.loader`, the build's loader table (index.js:40-43). */
  const LoaderTable: map<string, Loader> := map[".js" := Js, ".css" := Css]

  /** What an error message carries as `detail`. */
  datatype Detail = Status(code: int) | ErrorOf(message: string)

  /** What an `onLoad` callback returns: nothing (esbuild goes on to the next
      callback or its own loading), contents with a loader, or errors. */
  datatype LoadResult =
    | Defer
    | Loaded(contents: Buffer, loader: Loader)
    | LoadError(text: string, detail: Detail)

  // ---------------------------------------------------------------------
  // copy (index.js:120-134)
  // ---------------------------------------------------------------------

  /** The `onLoad` callback of `copy` for a file `path`: a file whose
      extension is in the loader table is left to esbuild; any other is
      loaded with the "copy" loader from its bytes on disk. */
  function CopyOnLoad(fs: FileSystem, path: string): Result<LoadResult, Failure> {
    if Extname(path) in LoaderTable then Ok(Defer)
    else
      match ReadFile(fs, path)
      case Err(e) => Err(e)
      case Ok(bytes) => Ok(Loaded(bytes, Copy))
  }

  /** `copy` defers exactly the ".js" and ".css" files; every other file it
      copies byte for byte, or fails as reading it does. */
  lemma CopyDecision(fs: FileSystem, path: string)
    ensures CopyOnLoad(fs, path) == Ok(Defer) <==> Extname(path) == ".js" || Extname(path) == ".css"
    ensures Extname(path) != ".js" && Extname(path) != ".css" ==>
      match ReadFile(fs, path)
      case Ok(bytes) => CopyOnLoad(fs, path) == Ok(Loaded(bytes, Copy))
      case Err(e) => CopyOnLoad(fs, path) == Err(e)
    ensures CopyOnLoad(fs, path).Ok? && CopyOnLoad(fs, path).value.Loaded? ==>
      CopyOnLoad(fs, path).value.loader == Copy
  {
  }

  // ---------------------------------------------------------------------
  // http (index.js:136-191)
  // ---------------------------------------------------------------------

  const HttpNamespace: string := "http-url"

  /** What an `onResolve` callback returns: a path in a namespace, or
      nothing (esbuild resolves the path itself). */
  datatype ResolveResult = Unhandled | Resolved(path: string, namespace: string)

  /** The two `onResolve` callbacks of `http`, in registration order: an
      absolute http(s) URL is its own path, and any other path imported from
      a fetched module is resolved against the importer's URL
      (`new URL(path, importer)`, the parameter `resolveUrl`). */
  function HttpResolve(path: string, importerNamespace: string, importer: string,
                       resolveUrl: (string, string) -> string): ResolveResult
  {
    if IsHttpUrl(path) then Resolved(path, HttpNamespace)
    else if importerNamespace == HttpNamespace then Resolved(resolveUrl(path, importer), HttpNamespace)
    else Unhandled
  }

  /** URLs resolve to themselves; whatever `http` resolves lands in its own
      namespace; and it leaves alone exactly the non-URL paths of modules
      that were not fetched. */
  lemma HttpResolveRules(path: string, importerNamespace: string, importer: string,
                         resolveUrl: (string, string) -> string)
    ensures IsHttpUrl(path) ==> HttpResolve(path, importerNamespace, importer, resolveUrl) == Resolved(path, HttpNamespace)
    ensures HttpResolve(path, importerNamespace, importer, resolveUrl).Resolved? ==>
      HttpResolve(path, importerNamespace, importer, resolveUrl).namespace == HttpNamespace
    ensures HttpResolve(path, importerNamespace, importer, resolveUrl).Unhandled? <==>
      !IsHttpUrl(path) && importerNamespace != HttpNamespace
  {
  }

  /** The request `fetch(path, { headers: { 'User-Agent': userAgent } })`
      sends. An undefined User-Agent is converted to a header string, which
      is "undefined". */
  datatype Request = Request(url: string, userAgent: string)

  function RequestFor(path: string, userAgent: Option<string>): Request {
    Request(path, userAgent.GetOr("undefined"))
  }

  /** The part of a fetch `Response` the plugin looks at; `contentType` is
      `headers.get('content-type')`, `None` when the header is absent. */
  datatype Response = Response(status: int, statusText: string, contentType: Option<string>, body: Buffer)

  /** `response.ok`: a status in the range 200-299. */
  predicate IsOk(r: Response) {
    200 <= r.status <= 299
  }

  /** A JavaScript truthy string: present and not empty. */
  predicate Truthy(s: Option<string>) {
    s.Some? && s.value != ""
  }

  /** `initialOptions.loader[key] ?? 'copy'`. */
  function LoaderFor(key: string): Loader {
    if key in LoaderTable then LoaderTable[key] else Copy
  }

  /** The `onLoad` callback of `http` once the response has arrived; the MIME
      table `mime.getExtension` is the parameter `getExtension`. */
  function HttpLoad(path: string, response: Response, getExtension: string -> Option<string>): LoadResult {
    if !IsOk(response) then LoadError(response.statusText, Status(response.status))
    else if !Truthy(response.contentType) then LoadError("Missing content-type", ErrorOf(path))
    else
      var contentType := response.contentType.value;
      var ext := getExtension(contentType);
      if !Truthy(ext) then LoadError("Unknown content-type", ErrorOf(contentType))
      else Loaded(response.body, LoaderFor("." + ext.value))
  }

  /** The whole callback: fetch `path` with the User-Agent, then classify. */
  function HttpOnLoad(path: string, userAgent: Option<string>, fetch: Request -> Response,
                      getExtension: string -> Option<string>): LoadResult
  {
    HttpLoad(path, fetch(RequestFor(path, userAgent)), getExtension)
  }

  /** The callback answers from the response `fetch` gives for `path` with the
      derived User-Agent header: an error status becomes a load error, and a
      loaded resource carries that response's bytes. */
  lemma HttpOnLoadFetches(path: string, userAgent: Option<string>, fetch: Request -> Response,
                          getExtension: string -> Option<string>)
    ensures var response := fetch(Request(path, userAgent.GetOr("undefined")));
      var r := HttpOnLoad(path, userAgent, fetch, getExtension);
      && (r.Loaded? <==> IsOk(response) && Truthy(response.contentType) && Truthy(getExtension(response.contentType.value)))
      && (r.Loaded? ==> r.contents == response.body)
      && (!IsOk(response) ==> r == LoadError(response.statusText, Status(response.status)))
  {
  }

  /** The checks run in a fixed order: status, then the presence of a
      content-type, then its MIME extension; only a response that passes all
      three is loaded, with its bytes unchanged. */
  lemma HttpLoadOrder(path: string, response: Response, getExtension: string -> Option<string>)
    ensures !IsOk(response) ==>
      HttpLoad(path, response, getExtension) == LoadError(response.statusText, Status(response.status))
    ensures IsOk(response) && !Truthy(response.contentType) ==>
      HttpLoad(path, response, getExtension) == LoadError("Missing content-type", ErrorOf(path))
    ensures IsOk(response) && Truthy(response.contentType) && !Truthy(getExtension(response.contentType.value)) ==>
      HttpLoad(path, response, getExtension) == LoadError("Unknown content-type", ErrorOf(response.contentType.value))
    ensures HttpLoad(path, response, getExtension).Loaded? <==>
      IsOk(response) && Truthy(response.contentType) && Truthy(getExtension(response.contentType.value))
    ensures HttpLoad(path, response, getExtension).Loaded? ==>
      HttpLoad(path, response, getExtension).contents == response.body
    ensures !HttpLoad(path, response, getExtension).Defer?
  {
  }

  /** A fetched resource keeps the "js" or "css" loader when its MIME
      extension is "js" or "css"; everything else is copied. */
  lemma HttpLoaderChoice(path: string, response: Response, getExtension: string -> Option<string>)
    requires HttpLoad(path, response, getExtension).Loaded?
    ensures var ext := getExtension(response.contentType.value).value;
      var loader := HttpLoad(path, response, getExtension).loader;
      && (loader == Js <==> ext == "js")
      && (loader == Css <==> ext == "css")
      && (loader == Copy <==> ext != "js" && ext != "css")
  {
    var ext := getExtension(response.contentType.value).value;
    if "." + ext == ".js" {
      assert ext == ("." + ext)[1..];
    } else if "." + ext == ".css" {
      assert ext == ("." + ext)[1..];
    }
  }

  /** The request carries the derived User-Agent when there is one. */
  lemma RequestCarriesUserAgent(path: string, userAgent: Option<string>)
    ensures RequestFor(path, userAgent).url == path
    ensures userAgent.Some? ==> RequestFor(path, userAgent).userAgent == userAgent.value
    ensures userAgent.None? ==> RequestFor(path, userAgent).userAgent == "undefined"
  {
  }
}
