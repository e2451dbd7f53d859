/** The `/public-list` development endpoint: normalise the requested
    relative path, refuse paths that leave the public directory, refuse
    non-directories, and answer with the current path, its parent and the
    directory's entries, directories first.  Path resolution, joining and
    `dirname`, the file system and `localeCompare` are oracles gathered in
    a `Host`. */
module PublicList {
  import opened Wrappers

  /** One entry returned by `fs.readdir(..., { withFileTypes: true })`. */
  datatype Dirent = Dirent(name: string, isDirectory: bool)

  /** The environment the middleware calls into: `path.resolve`,
      `path.posix.join`, `path.posix.dirname`, `fs.stat` (`None` when it
      fails, else whether the path is a directory), `fs.readdir` (`None`
      when it throws), `String.prototype.localeCompare`, and the `path`
      query parameter of a request URL (`None` when absent). */
  datatype Host = Host(
    resolve: (string, string) -> string,
    join: (string, string) -> string,
    dirname: string -> string,
    stat: string -> Option<bool>,
    readdir: string -> Option<seq<Dirent>>,
    localeCompare: (string, string) -> int,
    pathParam: string -> Option<string>)

  datatype EntryType = Dir | File

  /** One listed entry. */
  datatype Entry = Entry(name: string, path: string, kind: EntryType)

  /** What the middleware does with a request: hand it on, answer with an
      error status and message, or answer with a listing. */
  datatype Reply =
    | PassToNext
    | Refused(status: int, message: string)
    | Listing(cwd: string, parent: Option<string>, entries: seq<Entry>)

  predicate EndsWithSlash(s: string)
  {
    |s| > 0 && s[|s| - 1] == '/'
  }

  /** `url.searchParams.get('path') || '/'`, then a leading `/` forced. */
  function NormaliseRelPath(param: Option<string>): (r: string)
    ensures |r| > 0 && r[0] == '/'
    ensures param.None? || param.value == "" ==> r == "/"
    ensures param.Some? && param.value != "" ==> r == param.value || r == "/" + param.value
  {
    var relPath := if param.None? || param.value == "" then "/" else param.value;
    if relPath[0] != '/' then "/" + relPath else relPath
  }

  /** Normalising an already normalised path changes nothing. */
  lemma NormaliseIdempotent(param: Option<string>)
    ensures NormaliseRelPath(Some(NormaliseRelPath(param))) == NormaliseRelPath(param)
  {
  }

  /** The prefix test of the source: `fsPath.startsWith(publicDir)`. */
  predicate StartsWithDir(fsPath: string, publicDir: string)
  {
    publicDir <= fsPath
  }

  /** The intended test: `fsPath` is the public directory itself or lies
      below it, i.e. the prefix ends at a path separator. */
  predicate WithinDir(fsPath: string, publicDir: string)
  {
    fsPath == publicDir || publicDir + "/" <= fsPath
  }

  /** Lying within the directory is the string-prefix test plus a
      separator (or the end) right after the prefix. */
  lemma WithinDirIff(fsPath: string, publicDir: string)
    ensures WithinDir(fsPath, publicDir) <==>
      StartsWithDir(fsPath, publicDir) && (|fsPath| == |publicDir| || fsPath[|publicDir|] == '/')
  {
    if StartsWithDir(fsPath, publicDir) && |fsPath| > |publicDir| && fsPath[|publicDir|] == '/' {
      assert fsPath[..|publicDir| + 1] == fsPath[..|publicDir|] + [fsPath[|publicDir|]];
    }
    if publicDir + "/" <= fsPath {
      assert fsPath[..|publicDir|] == (publicDir + "/")[..|publicDir|];
    }
    if StartsWithDir(fsPath, publicDir) && |fsPath| == |publicDir| {
      assert fsPath == fsPath[..|publicDir|];
    }
  }

  /** The string-prefix test admits a sibling directory whose name extends
      the public directory's name. */
  lemma StartsWithAdmitsSibling()
    ensures StartsWithDir("/srv/app/public-secret", "/srv/app/public")
    ensures !WithinDir("/srv/app/public-secret", "/srv/app/public")
  {
    WithinDirIff("/srv/app/public-secret", "/srv/app/public");
    assert "/srv/app/public-secret"[..|"/srv/app/public"|] == "/srv/app/public";
  }

  /** One mapped entry: directories get a trailing `/` on both name and
      path; files keep the bare name and the joined path. */
  function ShapeEntry(relPath: string, d: Dirent, join: (string, string) -> string): (e: Entry)
    ensures d.isDirectory <==> e.kind == Dir
    ensures e.kind == Dir ==>
      && e.name == d.name + "/" && EndsWithSlash(e.path)
      && (e.path == join(relPath, d.name) || e.path == join(relPath, d.name) + "/")
    ensures e.kind == File ==> e.name == d.name && e.path == join(relPath, d.name)
  {
    var childRel := join(relPath, d.name);
    if d.isDirectory then
      Entry(d.name + "/", if EndsWithSlash(childRel) then childRel else childRel + "/", Dir)
    else
      Entry(d.name, childRel, File)
  }

  /** `dirents.map(...)`. */
  function ShapeEntries(relPath: string, ds: seq<Dirent>, join: (string, string) -> string): (es: seq<Entry>)
    ensures |es| == |ds|
    ensures forall i :: 0 <= i < |ds| ==> es[i] == ShapeEntry(relPath, ds[i], join)
  {
    seq(|ds|, i requires 0 <= i < |ds| => ShapeEntry(relPath, ds[i], join))
  }

  /** The sort comparator: a directory before a file, otherwise the names'
      `localeCompare`. */
  function CompareEntries(a: Entry, b: Entry, localeCompare: (string, string) -> int): (r: int)
    ensures a.kind == Dir && b.kind == File ==> r < 0
    ensures a.kind == File && b.kind == Dir ==> r > 0
    ensures a.kind == b.kind ==> r == localeCompare(a.name, b.name)
  {
    if a.kind != b.kind then (if a.kind == Dir then -1 else 1) else localeCompare(a.name, b.name)
  }

  /** `a` may stay before `b`. */
  predicate InOrder(a: Entry, b: Entry, localeCompare: (string, string) -> int)
  {
    CompareEntries(a, b, localeCompare) <= 0
  }

  predicate Sorted(s: seq<Entry>, localeCompare: (string, string) -> int)
  {
    forall i, j :: 0 <= i < j < |s| ==> InOrder(s[i], s[j], localeCompare)
  }

  /** Every directory entry precedes every file entry. */
  predicate DirsFirst(s: seq<Entry>)
  {
    forall i, j :: 0 <= i < j < |s| && s[j].kind == Dir ==> s[i].kind == Dir
  }

  /** `localeCompare` behaves as a comparator: any two names can be
      ordered, and "not after" is transitive. */
  ghost predicate Consistent(localeCompare: (string, string) -> int)
  {
    && (forall a, b :: localeCompare(a, b) <= 0 || localeCompare(b, a) <= 0)
    && (forall a, b, c :: localeCompare(a, b) <= 0 && localeCompare(b, c) <= 0 ==> localeCompare(a, c) <= 0)
  }

  /** Insert `e` before the first element it does not come after. */
  function Insert(e: Entry, s: seq<Entry>, localeCompare: (string, string) -> int): (r: seq<Entry>)
    ensures multiset(r) == multiset(s) + multiset{e}
    ensures |r| == |s| + 1
  {
    if s == [] || InOrder(e, s[0], localeCompare) then [e] + s
    else
      assert s == [s[0]] + s[1..];
      [s[0]] + Insert(e, s[1..], localeCompare)
  }

  /** `.sort(comparator)`, as a stable insertion sort. */
  function SortEntries(s: seq<Entry>, localeCompare: (string, string) -> int): (r: seq<Entry>)
    ensures multiset(r) == multiset(s)
    ensures |r| == |s|
  {
    if s == [] then []
    else
      assert s == [s[0]] + s[1..];
      Insert(s[0], SortEntries(s[1..], localeCompare), localeCompare)
  }

  lemma {:induction false} InsertDirsFirst(e: Entry, s: seq<Entry>, localeCompare: (string, string) -> int)
    requires DirsFirst(s)
    ensures DirsFirst(Insert(e, s, localeCompare))
  {
    if s == [] || InOrder(e, s[0], localeCompare) {
      var r := [e] + s;
      forall i, j | 0 <= i < j < |r| && r[j].kind == Dir ensures r[i].kind == Dir {
        if i > 0 {
          assert r[i] == s[i - 1] && r[j] == s[j - 1];
        }
      }
    } else {
      InsertDirsFirst(e, s[1..], localeCompare);
      var t := Insert(e, s[1..], localeCompare);
      var r := [s[0]] + t;
      assert e.kind == File || s[0].kind == Dir;
      forall i, j | 0 <= i < j < |r| && r[j].kind == Dir ensures r[i].kind == Dir {
        if i > 0 {
          assert r[i] == t[i - 1] && r[j] == t[j - 1];
        } else {
          assert r[j] == t[j - 1];
          assert r[j] in multiset(s[1..]) + multiset{e};
          if r[j] != e {
            var k :| 0 <= k < |s[1..]| && s[1..][k] == r[j];
            assert s[k + 1] == r[j];
          }
        }
      }
    }
  }

  /** The sorted listing puts every directory before every file, whatever
      `localeCompare` answers. */
  lemma {:induction false} SortedDirsFirst(s: seq<Entry>, localeCompare: (string, string) -> int)
    ensures DirsFirst(SortEntries(s, localeCompare))
  {
    if s != [] {
      SortedDirsFirst(s[1..], localeCompare);
      InsertDirsFirst(s[0], SortEntries(s[1..], localeCompare), localeCompare);
    }
  }

  /** An entry that may stay before every element of a sorted listing can
      head it. */
  lemma PrependSorted(x: Entry, t: seq<Entry>, localeCompare: (string, string) -> int)
    requires Sorted(t, localeCompare)
    requires forall k :: 0 <= k < |t| ==> InOrder(x, t[k], localeCompare)
    ensures Sorted([x] + t, localeCompare)
  {
    var r := [x] + t;
    forall i, j | 0 <= i < j < |r| ensures InOrder(r[i], r[j], localeCompare) {
      assert r[j] == t[j - 1];
      if i > 0 {
        assert r[i] == t[i - 1];
      }
    }
  }

  /** Every element of an insertion result is the inserted entry or came
      from the listing. */
  lemma InsertMember(e: Entry, s: seq<Entry>, localeCompare: (string, string) -> int, k: nat)
    requires k < |Insert(e, s, localeCompare)|
    ensures Insert(e, s, localeCompare)[k] == e
      || exists m :: 0 <= m < |s| && s[m] == Insert(e, s, localeCompare)[k]
  {
    var x := Insert(e, s, localeCompare)[k];
    assert x in multiset(Insert(e, s, localeCompare));
    assert x in multiset(s) + multiset{e};
    if x != e {
      assert x in s;
    }
  }

  lemma {:induction false} InsertSorted(e: Entry, s: seq<Entry>, localeCompare: (string, string) -> int)
    requires Consistent(localeCompare)
    requires Sorted(s, localeCompare)
    ensures Sorted(Insert(e, s, localeCompare), localeCompare)
  {
    if s == [] || InOrder(e, s[0], localeCompare) {
      forall k | 0 <= k < |s| ensures InOrder(e, s[k], localeCompare) {
        if k > 0 {
          InOrderTransitive(e, s[0], s[k], localeCompare);
        }
      }
      PrependSorted(e, s, localeCompare);
    } else {
      var rest := s[1..];
      assert Sorted(rest, localeCompare) by {
        forall i, j | 0 <= i < j < |rest| ensures InOrder(rest[i], rest[j], localeCompare) {
          assert rest[i] == s[i + 1] && rest[j] == s[j + 1];
        }
      }
      InsertSorted(e, rest, localeCompare);
      var t := Insert(e, rest, localeCompare);
      InOrderTotal(e, s[0], localeCompare);
      forall k | 0 <= k < |t| ensures InOrder(s[0], t[k], localeCompare) {
        InsertMember(e, rest, localeCompare, k);
        if t[k] != e {
          var m :| 0 <= m < |rest| && rest[m] == t[k];
          assert s[m + 1] == t[k];
        }
      }
      PrependSorted(s[0], t, localeCompare);
    }
  }

  lemma InOrderTotal(a: Entry, b: Entry, localeCompare: (string, string) -> int)
    requires Consistent(localeCompare)
    ensures InOrder(a, b, localeCompare) || InOrder(b, a, localeCompare)
  {
    if a.kind == b.kind {
      assert localeCompare(a.name, b.name) <= 0 || localeCompare(b.name, a.name) <= 0;
    }
  }

  lemma InOrderTransitive(a: Entry, b: Entry, c: Entry, localeCompare: (string, string) -> int)
    requires Consistent(localeCompare)
    requires InOrder(a, b, localeCompare) && InOrder(b, c, localeCompare)
    ensures InOrder(a, c, localeCompare)
  {
    if a.kind == b.kind && b.kind == c.kind {
      assert localeCompare(a.name, b.name) <= 0 && localeCompare(b.name, c.name) <= 0;
    }
  }

  /** With a consistent `localeCompare`, the listing is ordered by the
      comparator: directories first, and names of the same type in
      `localeCompare` order. */
  lemma {:induction false} SortedByComparator(s: seq<Entry>, localeCompare: (string, string) -> int)
    requires Consistent(localeCompare)
    ensures Sorted(SortEntries(s, localeCompare), localeCompare)
    ensures forall i, j :: 0 <= i < j < |s| && SortEntries(s, localeCompare)[i].kind == SortEntries(s, localeCompare)[j].kind ==>
      localeCompare(SortEntries(s, localeCompare)[i].name, SortEntries(s, localeCompare)[j].name) <= 0
  {
    if s != [] {
      SortedByComparator(s[1..], localeCompare);
      InsertSorted(s[0], SortEntries(s[1..], localeCompare), localeCompare);
    }
    var r := SortEntries(s, localeCompare);
    forall i, j | 0 <= i < j < |s| && r[i].kind == r[j].kind
      ensures localeCompare(r[i].name, r[j].name) <= 0
    {
      assert InOrder(r[i], r[j], localeCompare);
    }
  }

  /** `relPath` with one trailing `/` removed. */
  function StripTrailingSlash(relPath: string): string
  {
    if EndsWithSlash(relPath) then relPath[..|relPath| - 1] else relPath
  }

  /** The `parent` field: none for the root; otherwise the `dirname` of the
      path without its trailing slash, `.` read as `/`, with a `/` added. */
  function Parent(relPath: string, dirname: string -> string): (r: Option<string>)
    ensures r.Some? ==> EndsWithSlash(r.value)
  {
    var relNoSlash := StripTrailingSlash(relPath);
    if relNoSlash == "" || relNoSlash == "/" then None
    else
      var dirName := dirname(relNoSlash);
      Some(if dirName == "." then "/" else dirName + "/")
  }

  /** For a normalised path, there is no parent exactly for `/` and `//`. */
  lemma ParentNoneIff(relPath: string, dirname: string -> string)
    requires |relPath| > 0 && relPath[0] == '/'
    ensures Parent(relPath, dirname).None? <==> relPath == "/" || relPath == "//"
  {
    var r := StripTrailingSlash(relPath);
    if r == "/" && EndsWithSlash(relPath) {
      assert relPath == r + "/";
    }
    if r == "" {
      assert |relPath| == 1;
    }
  }

  /** The middleware with a given gate on the resolved path. */
  function Respond(h: Host, publicDir: string, reqUrl: Option<string>, gate: (string, string) -> bool): (r: Reply)
    ensures r.PassToNext? <==> reqUrl.None? || reqUrl.value == ""
    ensures r.Listing? ==>
      && |r.cwd| > 0 && r.cwd[0] == '/'
      && gate(h.resolve(publicDir, "." + r.cwd), publicDir)
      && h.stat(h.resolve(publicDir, "." + r.cwd)) == Some(true)
    ensures r.Refused? ==> r.status == 400 || r == Refused(500, "Internal error")
  {
    if reqUrl.None? || reqUrl.value == "" then PassToNext
    else
      var relPath := NormaliseRelPath(h.pathParam(reqUrl.value));
      var fsPath := h.resolve(publicDir, "." + relPath);
      if !gate(fsPath, publicDir) then Refused(400, "Invalid path")
      else if h.stat(fsPath) != Some(true) then Refused(400, "Not a directory")
      else match h.readdir(fsPath)
        case None => Refused(500, "Internal error")
        case Some(ds) =>
          Listing(relPath, Parent(relPath, h.dirname),
                  SortEntries(ShapeEntries(relPath, ds, h.join), h.localeCompare))
  }

  /** The middleware as written, gated by the plain prefix test. */
  function ListPublicAsWritten(h: Host, publicDir: string, reqUrl: Option<string>): (r: Reply)
    ensures r.Listing? ==> StartsWithDir(h.resolve(publicDir, "." + r.cwd), publicDir)
  {
    Respond(h, publicDir, reqUrl, StartsWithDir)
  }

  /** The middleware with the prefix test ending at a separator. */
  function ListPublic(h: Host, publicDir: string, reqUrl: Option<string>): (r: Reply)
    ensures r.Listing? ==> WithinDir(h.resolve(publicDir, "." + r.cwd), publicDir)
  {
    Respond(h, publicDir, reqUrl, WithinDir)
  }

  /** As written, the middleware lists any directory the request resolves
      to that passes the prefix test without lying within the public
      directory, such as the sibling `/srv/app/public-secret` of
      `/srv/app/public` (`StartsWithAdmitsSibling`), reached by POSIX
      resolution of `path=../public-secret`.  The separator-aware test
      refuses the same request. */
  lemma AsWrittenListsSibling(h: Host, publicDir: string, url: string, sibling: string)
    requires url != ""
    requires StartsWithDir(sibling, publicDir) && !WithinDir(sibling, publicDir)
    requires h.resolve(publicDir, "." + NormaliseRelPath(h.pathParam(url))) == sibling
    requires h.stat(sibling) == Some(true) && h.readdir(sibling).Some?
    ensures ListPublicAsWritten(h, publicDir, Some(url)).Listing?
    ensures ListPublic(h, publicDir, Some(url)) == Refused(400, "Invalid path")
  {
  }

  /** Under any gate, a listing has a normalised `cwd`, a parent ending in
      `/`, its directories first, and directory names and paths ending in
      `/`. */
  lemma RespondListingShape(h: Host, publicDir: string, reqUrl: Option<string>, gate: (string, string) -> bool)
    requires Respond(h, publicDir, reqUrl, gate).Listing?
    ensures var r := Respond(h, publicDir, reqUrl, gate);
      && r.cwd == NormaliseRelPath(h.pathParam(reqUrl.value))
      && (r.parent.Some? ==> EndsWithSlash(r.parent.value))
      && DirsFirst(r.entries)
      && (forall i :: 0 <= i < |r.entries| && r.entries[i].kind == Dir ==>
            EndsWithSlash(r.entries[i].name) && EndsWithSlash(r.entries[i].path))
  {
    var relPath := NormaliseRelPath(h.pathParam(reqUrl.value));
    var fsPath := h.resolve(publicDir, "." + relPath);
    var ds := h.readdir(fsPath).value;
    var shaped := ShapeEntries(relPath, ds, h.join);
    SortedDirsFirst(shaped, h.localeCompare);
    var sorted := SortEntries(shaped, h.localeCompare);
    forall i | 0 <= i < |sorted| && sorted[i].kind == Dir
      ensures EndsWithSlash(sorted[i].name) && EndsWithSlash(sorted[i].path)
    {
      assert sorted[i] in multiset(shaped);
      var k :| 0 <= k < |shaped| && shaped[k] == sorted[i];
    }
  }

  /** Every listing of the corrected handler is of a directory inside the
      public directory and has the shape of `RespondListingShape`. */
  lemma ListingIsWithin(h: Host, publicDir: string, reqUrl: Option<string>)
    requires ListPublic(h, publicDir, reqUrl).Listing?
    ensures var r := ListPublic(h, publicDir, reqUrl);
      && |r.cwd| > 0 && r.cwd[0] == '/'
      && WithinDir(h.resolve(publicDir, "." + r.cwd), publicDir)
      && h.stat(h.resolve(publicDir, "." + r.cwd)) == Some(true)
      && (r.parent.Some? ==> EndsWithSlash(r.parent.value))
      && DirsFirst(r.entries)
      && (forall i :: 0 <= i < |r.entries| && r.entries[i].kind == Dir ==>
            EndsWithSlash(r.entries[i].name) && EndsWithSlash(r.entries[i].path))
  {
    RespondListingShape(h, publicDir, reqUrl, WithinDir);
  }

  /** Every listing of the handler as written is of a directory that passes
      the plain prefix test, and has the shape of `RespondListingShape`. */
  lemma AsWrittenListingShape(h: Host, publicDir: string, reqUrl: Option<string>)
    requires ListPublicAsWritten(h, publicDir, reqUrl).Listing?
    ensures var r := ListPublicAsWritten(h, publicDir, reqUrl);
      && |r.cwd| > 0 && r.cwd[0] == '/'
      && StartsWithDir(h.resolve(publicDir, "." + r.cwd), publicDir)
      && h.stat(h.resolve(publicDir, "." + r.cwd)) == Some(true)
      && (r.parent.Some? ==> EndsWithSlash(r.parent.value))
      && DirsFirst(r.entries)
      && (forall i :: 0 <= i < |r.entries| && r.entries[i].kind == Dir ==>
            EndsWithSlash(r.entries[i].name) && EndsWithSlash(r.entries[i].path))
  {
    RespondListingShape(h, publicDir, reqUrl, StartsWithDir);
  }

  /** Under any gate, a path that fails it is refused with "Invalid path"
      before the file system is consulted: the reply does not depend on
      `stat` or `readdir`. */
  lemma RespondInvalidBeforeFilesystem(h: Host, h2: Host, publicDir: string, reqUrl: Option<string>,
                                       gate: (string, string) -> bool)
    requires h.resolve == h2.resolve && h.pathParam == h2.pathParam
    requires reqUrl.Some? && reqUrl.value != ""
    requires !gate(h.resolve(publicDir, "." + NormaliseRelPath(h.pathParam(reqUrl.value))), publicDir)
    ensures Respond(h, publicDir, reqUrl, gate) == Refused(400, "Invalid path")
    ensures Respond(h2, publicDir, reqUrl, gate) == Refused(400, "Invalid path")
  {
  }

  /** Under any gate, a path that passes it but is missing or not a
      directory gets "Not a directory"; one that is a directory the host
      cannot read gets "Internal error". */
  lemma RespondNotADirectory(h: Host, publicDir: string, reqUrl: Option<string>, gate: (string, string) -> bool)
    requires reqUrl.Some? && reqUrl.value != ""
    requires gate(h.resolve(publicDir, "." + NormaliseRelPath(h.pathParam(reqUrl.value))), publicDir)
    ensures var fsPath := h.resolve(publicDir, "." + NormaliseRelPath(h.pathParam(reqUrl.value)));
      && (h.stat(fsPath) != Some(true) ==> Respond(h, publicDir, reqUrl, gate) == Refused(400, "Not a directory"))
      && (h.stat(fsPath) == Some(true) && h.readdir(fsPath).None? ==>
            Respond(h, publicDir, reqUrl, gate) == Refused(500, "Internal error"))
  {
  }

  /** As written, a path that fails the plain prefix test is refused before
      the file system is consulted. */
  lemma AsWrittenInvalidBeforeFilesystem(h: Host, h2: Host, publicDir: string, reqUrl: Option<string>)
    requires h.resolve == h2.resolve && h.pathParam == h2.pathParam
    requires reqUrl.Some? && reqUrl.value != ""
    requires !StartsWithDir(h.resolve(publicDir, "." + NormaliseRelPath(h.pathParam(reqUrl.value))), publicDir)
    ensures ListPublicAsWritten(h, publicDir, reqUrl) == Refused(400, "Invalid path")
    ensures ListPublicAsWritten(h2, publicDir, reqUrl) == Refused(400, "Invalid path")
  {
    RespondInvalidBeforeFilesystem(h, h2, publicDir, reqUrl, StartsWithDir);
  }

  /** As written, a path that passes the plain prefix test but is missing
      or not a directory gets "Not a directory". */
  lemma AsWrittenNotADirectory(h: Host, publicDir: string, reqUrl: Option<string>)
    requires reqUrl.Some? && reqUrl.value != ""
    requires var fsPath := h.resolve(publicDir, "." + NormaliseRelPath(h.pathParam(reqUrl.value)));
      StartsWithDir(fsPath, publicDir) && h.stat(fsPath) != Some(true)
    ensures ListPublicAsWritten(h, publicDir, reqUrl) == Refused(400, "Not a directory")
  {
    RespondNotADirectory(h, publicDir, reqUrl, StartsWithDir);
  }

  /** A path that fails the corrected gate is refused before the file
      system is consulted. */
  lemma InvalidBeforeFilesystem(h: Host, h2: Host, publicDir: string, reqUrl: Option<string>)
    requires h.resolve == h2.resolve && h.pathParam == h2.pathParam
    requires reqUrl.Some? && reqUrl.value != ""
    requires !WithinDir(h.resolve(publicDir, "." + NormaliseRelPath(h.pathParam(reqUrl.value))), publicDir)
    ensures ListPublic(h, publicDir, reqUrl) == Refused(400, "Invalid path")
    ensures ListPublic(h2, publicDir, reqUrl) == Refused(400, "Invalid path")
  {
    RespondInvalidBeforeFilesystem(h, h2, publicDir, reqUrl, WithinDir);
  }

  /** A path that passes the gate but is missing or not a directory gets
      "Not a directory". */
  lemma NotADirectory(h: Host, publicDir: string, reqUrl: Option<string>)
    requires reqUrl.Some? && reqUrl.value != ""
    requires var fsPath := h.resolve(publicDir, "." + NormaliseRelPath(h.pathParam(reqUrl.value)));
      WithinDir(fsPath, publicDir) && h.stat(fsPath) != Some(true)
    ensures ListPublic(h, publicDir, reqUrl) == Refused(400, "Not a directory")
  {
    RespondNotADirectory(h, publicDir, reqUrl, WithinDir);
  }
}
