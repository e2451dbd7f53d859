/** The display-list loader: the two type guards over parsed JSON, the
    single-frame fetch with its `primitives` check, manifest resolution,
    and the decision between returning the document, assembling it from a
    manifest, or failing.  `fetch`, `res.json()`, `JSON.parse` and URL
    resolution are oracles passed in as functions. */
module Loader {
  import opened Wrappers

  /** A parsed JSON value. */
  datatype Json =
    | JNull
    | JBool(b: bool)
    | JNumber(n: real)
    | JString(s: string)
    | JArray(items: seq<Json>)
    | JObject(fields: map<string, Json>)

  /** Why a load rejects.  `TypeError` is the error JavaScript raises when a
      property of `null` is read. */
  datatype LoadError =
    | NetworkFailed(url: string)
    | FetchFailed(url: string, status: int)
    | FrameFetchFailed(url: string, status: int)
    | BadJson(url: string)
    | InvalidFrame(url: string)
    | TypeError
    | ManifestFromFile
    | NeitherAtUrl
    | NeitherInFile
    | FileNotJson

  /** JavaScript truthiness of a JSON value. */
  predicate Truthy(j: Json)
  {
    match j
    case JNull => false
    case JBool(b) => b
    case JNumber(n) => n != 0.0
    case JString(s) => s != ""
    case _ => true
  }

  /** Reading property `key` of a value other than `null`: an object's own
      member, `None` standing for `undefined`. */
  function Get(j: Json, key: string): (r: Option<Json>)
    ensures r.Some? ==> j.JObject? && key in j.fields && r.value == j.fields[key]
    ensures j.JObject? && key in j.fields ==> r.Some?
  {
    if j.JObject? && key in j.fields then Some(j.fields[key]) else None
  }

  /** `Array.isArray` of a property read. */
  predicate IsArray(o: Option<Json>)
  {
    o.Some? && o.value.JArray?
  }

  /** `obj.frames` when it is an array. */
  function Frames(obj: Json): Option<seq<Json>>
  {
    match Get(obj, "frames")
    case Some(JArray(fs)) => Some(fs)
    case _ => None
  }

  /** The shared prefix of both guards: `obj && Array.isArray(obj.frames) &&
      obj.frames.length > 0`, then the read of `obj.frames[0]`, which
      raises a `TypeError` when that element is `null`.  `Success(None)`
      means the guard is already false. */
  function FirstFrame(obj: Json): (r: Result<Option<Json>, LoadError>)
    ensures r.Failure? <==> Frames(obj).Some? && |Frames(obj).value| > 0 && Frames(obj).value[0] == JNull
    ensures r.Failure? ==> r.error == TypeError
    ensures r.Success? && r.value.Some? <==>
      Frames(obj).Some? && |Frames(obj).value| > 0 && Frames(obj).value[0] != JNull
    ensures r.Success? && r.value.Some? ==> r.value.value == Frames(obj).value[0]
  {
    if !Truthy(obj) then Success(None)
    else match Frames(obj)
      case None => Success(None)
      case Some(fs) =>
        if |fs| == 0 then Success(None)
        else if fs[0].JNull? then Failure(TypeError)
        else Success(Some(fs[0]))
  }

  /** `isDisplayList`. */
  function IsDisplayList(obj: Json): (r: Result<bool, LoadError>)
    ensures r == Success(true) <==>
      Frames(obj).Some? && |Frames(obj).value| > 0 && Frames(obj).value[0] != JNull
      && IsArray(Get(Frames(obj).value[0], "primitives"))
    ensures r.Failure? <==> FirstFrame(obj).Failure?
  {
    match FirstFrame(obj)
    case Failure(e) => Failure(e)
    case Success(None) => Success(false)
    case Success(Some(f)) => Success(IsArray(Get(f, "primitives")))
  }

  /** `isManifest`. */
  function IsManifest(obj: Json): (r: Result<bool, LoadError>)
    ensures r == Success(true) <==>
      Frames(obj).Some? && |Frames(obj).value| > 0 && Frames(obj).value[0] != JNull
      && Get(Frames(obj).value[0], "file").Some? && Get(Frames(obj).value[0], "file").value.JString?
    ensures r.Failure? <==> FirstFrame(obj).Failure?
  {
    match FirstFrame(obj)
    case Failure(e) => Failure(e)
    case Success(None) => Success(false)
    case Success(Some(f)) =>
      var file := Get(f, "file");
      Success(file.Some? && file.value.JString?)
  }

  /** Both guards look at the first element of `frames` only: documents
      that agree on it get the same answers, whatever their later frames. */
  lemma GuardsInspectOnlyFirst(a: Json, b: Json)
    requires Frames(a).Some? && Frames(b).Some?
    requires |Frames(a).value| > 0 && |Frames(b).value| > 0
    requires Frames(a).value[0] == Frames(b).value[0]
    ensures IsDisplayList(a) == IsDisplayList(b)
    ensures IsManifest(a) == IsManifest(b)
  {
  }

  /** An HTTP exchange as seen by the loader: the fetch fails outright, or
      a response arrives with its `ok` flag, status and parsed body
      (`None` when `res.json()` rejects). */
  datatype Response = NetworkError | Response(ok: bool, status: int, body: Option<Json>)

  /** `fetchFrame(frameUrl)`. */
  function FetchFrame(frameUrl: string, fetch: string -> Response): (r: Result<Json, LoadError>)
    ensures r.Success? <==>
      && fetch(frameUrl).Response? && fetch(frameUrl).ok && fetch(frameUrl).body.Some?
      && fetch(frameUrl).body.value != JNull && IsArray(Get(fetch(frameUrl).body.value, "primitives"))
    ensures r.Success? ==> r.value == fetch(frameUrl).body.value
    ensures fetch(frameUrl).Response? && !fetch(frameUrl).ok ==>
      r == Failure(FrameFetchFailed(frameUrl, fetch(frameUrl).status))
  {
    match fetch(frameUrl)
    case NetworkError => Failure(NetworkFailed(frameUrl))
    case Response(ok, status, body) =>
      if !ok then Failure(FrameFetchFailed(frameUrl, status))
      else if body.None? then Failure(BadJson(frameUrl))
      else if body.value.JNull? then Failure(TypeError)
      else if !IsArray(Get(body.value, "primitives")) then Failure(InvalidFrame(frameUrl))
      else Success(body.value)
  }

  /** One iteration of the manifest loop: read `entry.file` (a `TypeError`
      for a `null` entry), resolve it against the base URL, fetch it. */
  function FetchEntry(entry: Json, fetch: string -> Response, frameUrl: Option<Json> -> string): Result<Json, LoadError>
  {
    if entry.JNull? then Failure(TypeError) else FetchFrame(frameUrl(Get(entry, "file")), fetch)
  }

  /** The frames of a manifest, fetched one entry after another; the first
      failure aborts. */
  function FetchAll(entries: seq<Json>, fetch: string -> Response, frameUrl: Option<Json> -> string)
    : (r: Result<seq<Json>, LoadError>)
    ensures r.Success? ==> |r.value| == |entries|
  {
    if entries == [] then Success([])
    else match FetchAll(entries[..|entries| - 1], fetch, frameUrl)
      case Failure(e) => Failure(e)
      case Success(frames) =>
        match FetchEntry(entries[|entries| - 1], fetch, frameUrl)
        case Failure(e) => Failure(e)
        case Success(f) => Success(frames + [f])
  }

  /** A successful resolution has exactly one frame per entry, in entry
      order, each the one fetched for its entry. */
  lemma {:induction false} FetchAllOnePerEntry(entries: seq<Json>, fetch: string -> Response, frameUrl: Option<Json> -> string)
    requires FetchAll(entries, fetch, frameUrl).Success?
    ensures |FetchAll(entries, fetch, frameUrl).value| == |entries|
    ensures forall i :: 0 <= i < |entries| ==>
      FetchEntry(entries[i], fetch, frameUrl) == Success(FetchAll(entries, fetch, frameUrl).value[i])
  {
    if entries != [] {
      var init := entries[..|entries| - 1];
      FetchAllOnePerEntry(init, fetch, frameUrl);
      forall i | 0 <= i < |entries|
        ensures FetchEntry(entries[i], fetch, frameUrl) == Success(FetchAll(entries, fetch, frameUrl).value[i])
      {
        if i < |init| {
          assert entries[i] == init[i];
        }
      }
    }
  }

  /** Resolution fails exactly when some entry fails, and then with the
      error of the first failing entry. */
  lemma {:induction false} FetchAllFailsAtFirst(entries: seq<Json>, fetch: string -> Response, frameUrl: Option<Json> -> string)
    ensures FetchAll(entries, fetch, frameUrl).Failure? <==>
      exists i :: 0 <= i < |entries| && FetchEntry(entries[i], fetch, frameUrl).Failure?
    ensures forall i :: (0 <= i < |entries| && FetchEntry(entries[i], fetch, frameUrl).Failure?
      && (forall j :: 0 <= j < i ==> FetchEntry(entries[j], fetch, frameUrl).Success?)) ==>
      FetchAll(entries, fetch, frameUrl) == Failure(FetchEntry(entries[i], fetch, frameUrl).error)
  {
    if entries != [] {
      var init := entries[..|entries| - 1];
      var last := |entries| - 1;
      FetchAllFailsAtFirst(init, fetch, frameUrl);
      forall i | 0 <= i < |init| ensures init[i] == entries[i] {}
      if FetchAll(entries, fetch, frameUrl).Failure? {
        if FetchAll(init, fetch, frameUrl).Success? {
          assert FetchEntry(entries[last], fetch, frameUrl).Failure?;
        }
      }
      forall i | 0 <= i < |entries| && FetchEntry(entries[i], fetch, frameUrl).Failure?
          && (forall j :: 0 <= j < i ==> FetchEntry(entries[j], fetch, frameUrl).Success?)
        ensures FetchAll(entries, fetch, frameUrl) == Failure(FetchEntry(entries[i], fetch, frameUrl).error)
      {
      }
    }
  }

  /** The manifest loop of `loadDisplayListFromUrl`: push each fetched frame. */
  method ResolveManifest(entries: seq<Json>, fetch: string -> Response, frameUrl: Option<Json> -> string)
    returns (r: Result<seq<Json>, LoadError>)
    ensures r == FetchAll(entries, fetch, frameUrl)
  {
    var frames: seq<Json> := [];
    for i := 0 to |entries|
      invariant FetchAll(entries[..i], fetch, frameUrl) == Success(frames)
    {
      assert entries[..i + 1][..i] == entries[..i];
      var frame := FetchEntry(entries[i], fetch, frameUrl);
      if frame.Failure? {
        FetchAllPropagates(entries, i + 1, fetch, frameUrl);
        return Failure(frame.error);
      }
      frames := frames + [frame.value];
    }
    assert entries[..|entries|] == entries;
    return Success(frames);
  }

  /** A failure within a prefix is the failure of the whole. */
  lemma {:induction false} FetchAllPropagates(entries: seq<Json>, n: nat, fetch: string -> Response, frameUrl: Option<Json> -> string)
    requires n <= |entries|
    requires FetchAll(entries[..n], fetch, frameUrl).Failure?
    ensures FetchAll(entries, fetch, frameUrl) == FetchAll(entries[..n], fetch, frameUrl)
    decreases |entries| - n
  {
    if n < |entries| {
      assert entries[..n + 1][..n] == entries[..n];
      FetchAllPropagates(entries, n + 1, fetch, frameUrl);
    } else {
      assert entries[..n] == entries;
    }
  }

  /** What a load produces: the parsed document itself, or a display list
      assembled from a manifest's `groups` and fetched frames. */
  datatype Loaded = AsIs(doc: Json) | Assembled(groups: Option<Json>, frames: seq<Json>)

  /** `loadDisplayListFromUrl(url)`, as a function of its oracles: `fetch`
      and `frameUrl(url, file)`, which resolves a manifest entry's `file`
      against `url` (itself resolved against the page location). */
  function LoadUrl(url: string, fetch: string -> Response, frameUrl: string -> Option<Json> -> string)
    : (r: Result<Loaded, LoadError>)
    ensures fetch(url).NetworkError? ==> r == Failure(NetworkFailed(url))
    ensures r.Success? ==> fetch(url).Response? && fetch(url).ok && fetch(url).body.Some?
    ensures r.Success? && r.value.AsIs? ==>
      r.value.doc == fetch(url).body.value && IsDisplayList(r.value.doc) == Success(true)
    ensures r.Success? && r.value.Assembled? ==>
      var obj := fetch(url).body.value;
      && IsDisplayList(obj) == Success(false) && IsManifest(obj) == Success(true)
      && r.value.groups == Get(obj, "groups") && |r.value.frames| == |Frames(obj).value|
  {
    match fetch(url)
    case NetworkError => Failure(NetworkFailed(url))
    case Response(ok, status, body) =>
      if !ok then Failure(FetchFailed(url, status))
      else if body.None? then Failure(BadJson(url))
      else
        var obj := body.value;
        match IsDisplayList(obj)
        case Failure(e) => Failure(e)
        case Success(true) => Success(AsIs(obj))
        case Success(false) =>
          match IsManifest(obj)
          case Failure(e) => Failure(e)
          case Success(true) =>
            (match FetchAll(Frames(obj).value, fetch, frameUrl(url))
             case Failure(e) => Failure(e)
             case Success(frames) => Success(Assembled(Get(obj, "groups"), frames)))
          case Success(false) => Failure(NeitherAtUrl)
  }

  /** `loadDisplayListFromUrl`, running the manifest loop. */
  method LoadFromUrl(url: string, fetch: string -> Response, frameUrl: string -> Option<Json> -> string)
    returns (r: Result<Loaded, LoadError>)
    ensures r == LoadUrl(url, fetch, frameUrl)
  {
    var res := fetch(url);
    if res.NetworkError? {
      return Failure(NetworkFailed(url));
    }
    if !res.ok {
      return Failure(FetchFailed(url, res.status));
    }
    if res.body.None? {
      return Failure(BadJson(url));
    }
    var obj := res.body.value;
    var dl := IsDisplayList(obj);
    if dl.Failure? {
      return Failure(dl.error);
    }
    if dl.value {
      return Success(AsIs(obj));
    }
    // `isManifest` raises only where `isDisplayList` already has.
    var mf := IsManifest(obj);
    if mf == Success(true) {
      var frames := ResolveManifest(Frames(obj).value, fetch, frameUrl(url));
      if frames.Failure? {
        return Failure(frames.error);
      }
      return Success(Assembled(Get(obj, "groups"), frames.value));
    }
    return Failure(NeitherAtUrl);
  }

  /** `loadDisplayListFromFile`, given the outcome of `JSON.parse` on the
      file's text (`None` when it throws). */
  function LoadFile(parsed: Option<Json>): (r: Result<Loaded, LoadError>)
    ensures parsed.None? ==> r == Failure(FileNotJson)
    ensures r.Success? <==> parsed.Some? && IsDisplayList(parsed.value) == Success(true)
    ensures r.Success? ==> r.value == AsIs(parsed.value)
  {
    match parsed
    case None => Failure(FileNotJson)
    case Some(obj) =>
      match IsDisplayList(obj)
      case Failure(e) => Failure(e)
      case Success(true) => Success(AsIs(obj))
      case Success(false) =>
        match IsManifest(obj)
        case Failure(e) => Failure(e)
        case Success(true) => Failure(ManifestFromFile)
        case Success(false) => Failure(NeitherInFile)
  }

  /** A document that passes `isDisplayList` is returned unchanged by both
      loaders, even when it also passes `isManifest`: that guard runs first. */
  lemma DisplayListWins(url: string, fetch: string -> Response, frameUrl: string -> Option<Json> -> string, obj: Json)
    requires IsDisplayList(obj) == Success(true)
    requires fetch(url).Response? && fetch(url).ok && fetch(url).body == Some(obj)
    ensures LoadUrl(url, fetch, frameUrl) == Success(AsIs(obj))
    ensures LoadFile(Some(obj)) == Success(AsIs(obj))
  {
  }

  /** A file load succeeds exactly on display lists; a manifest that is not
      also a display list is refused. */
  lemma FileAcceptsOnlyDisplayLists(obj: Json)
    ensures LoadFile(Some(obj)).Success? <==> IsDisplayList(obj) == Success(true)
    ensures LoadFile(Some(obj)).Success? ==> LoadFile(Some(obj)).value == AsIs(obj)
    ensures IsDisplayList(obj) == Success(false) && IsManifest(obj) == Success(true) ==>
      LoadFile(Some(obj)) == Failure(ManifestFromFile)
  {
  }

  /** A document that passes neither guard is refused on both paths. */
  lemma NeitherIsRefused(url: string, fetch: string -> Response, frameUrl: string -> Option<Json> -> string, obj: Json)
    requires IsDisplayList(obj) == Success(false) && IsManifest(obj) == Success(false)
    requires fetch(url).Response? && fetch(url).ok && fetch(url).body == Some(obj)
    ensures LoadUrl(url, fetch, frameUrl) == Failure(NeitherAtUrl)
    ensures LoadFile(Some(obj)) == Failure(NeitherInFile)
  {
  }

  /** A manifest load yields one frame per entry, in entry order, with the
      manifest's `groups`; it fails exactly when some entry's fetch fails. */
  lemma ManifestAssembly(url: string, fetch: string -> Response, frameUrl: string -> Option<Json> -> string, obj: Json)
    requires IsDisplayList(obj) == Success(false) && IsManifest(obj) == Success(true)
    requires fetch(url).Response? && fetch(url).ok && fetch(url).body == Some(obj)
    ensures var entries := Frames(obj).value;
      && (LoadUrl(url, fetch, frameUrl).Failure? <==>
            exists i :: 0 <= i < |entries| && FetchEntry(entries[i], fetch, frameUrl(url)).Failure?)
      && (LoadUrl(url, fetch, frameUrl).Success? ==>
            var loaded := LoadUrl(url, fetch, frameUrl).value;
            && loaded == Assembled(Get(obj, "groups"), loaded.frames)
            && |loaded.frames| == |entries|
            && forall i :: 0 <= i < |entries| ==>
                 FetchEntry(entries[i], fetch, frameUrl(url)) == Success(loaded.frames[i]))
  {
    var entries := Frames(obj).value;
    FetchAllFailsAtFirst(entries, fetch, frameUrl(url));
    if FetchAll(entries, fetch, frameUrl(url)).Success? {
      FetchAllOnePerEntry(entries, fetch, frameUrl(url));
    }
  }

  /** A non-ok response to the document request aborts with its status. */
  lemma NotOkAborts(url: string, fetch: string -> Response, frameUrl: string -> Option<Json> -> string)
    requires fetch(url).Response? && !fetch(url).ok
    ensures LoadUrl(url, fetch, frameUrl) == Failure(FetchFailed(url, fetch(url).status))
  {
  }

  /** A document whose `frames` is an array with `null` first makes both
      guards raise a `TypeError`, which both loaders pass on. */
  lemma NullFirstFrameRaises(url: string, fetch: string -> Response, frameUrl: string -> Option<Json> -> string, obj: Json)
    requires Frames(obj).Some? && |Frames(obj).value| > 0 && Frames(obj).value[0] == JNull
    requires fetch(url).Response? && fetch(url).ok && fetch(url).body == Some(obj)
    ensures LoadUrl(url, fetch, frameUrl) == Failure(TypeError)
    ensures LoadFile(Some(obj)) == Failure(TypeError)
  {
  }
}
