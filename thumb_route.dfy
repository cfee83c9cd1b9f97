/**
 * The thumbnail routes of src/app.js: `GET /thumbs/output/:rest(*)` on the
 * admin app, and the same route in the stand-alone test factory
 * `buildThumbnailTestApp`. Both normalise the requested path, strip a
 * leading run of dots and leading separators, join it to the output
 * directory and hand it to the thumbnail service; only the admin route
 * rejects a path whose position relative to the output directory climbs
 * out of it.
 */
module ThumbRoute {
  import opened Wrappers
  import opened JsValues
  import opened PosixPath
  import opened FileStore
  import opened Thumbnails

  /**
   * resolveOutputDir: `OUTPUT_DIR` from the environment when it is set and
   * non-empty, otherwise `output` inside the workspace root; always resolved.
   */
  function ResolveOutputDir(envDir: Option<string>, cwd: string, workspaceRoot: string): (r: string)
    ensures IsAbsolute(r)
  {
    if envDir.Some? && envDir.value != "" then Resolve(cwd, envDir.value)
    else Resolve(cwd, Join(workspaceRoot, "output"))
  }

  /** Where the output directory is: the environment's choice, or `<workspace>/output`. */
  lemma OutputDirLocation(envDir: Option<string>, cwd: string, workspaceRoot: string)
    ensures envDir.Some? && envDir.value != "" ==>
      ResolveSegs(cwd, ResolveOutputDir(envDir, cwd, workspaceRoot)) == ResolveSegs(cwd, envDir.value)
    ensures envDir.None? || envDir.value == "" ==>
      ResolveSegs(cwd, ResolveOutputDir(envDir, cwd, workspaceRoot)) == ResolveSegs(cwd, workspaceRoot) + ["output"]
  {
    if envDir.Some? && envDir.value != "" {
      ResolveResolved(cwd, cwd, envDir.value);
    } else {
      ResolveResolved(cwd, cwd, Join(workspaceRoot, "output"));
      assert IsName("output") by { assert Sep !in "output"; }
      ResolveJoinName(cwd, workspaceRoot, "output");
    }
  }

  /** The separator class of the admin route's expressions, `[/]`. */
  const RouteSeps: set<char> := {'/'}

  /** The separator class of the test factory's expressions, `[\\/]`. */
  const FactorySeps: set<char> := {'/', '\\'}

  /** The longest prefix made of characters of `cs` removed. */
  function DropLeading(s: string, cs: set<char>): string
  {
    if s != [] && s[0] in cs then DropLeading(s[1..], cs) else s
  }

  /** DropLeading leaves a suffix of its input that does not start with a character of `cs`. */
  lemma {:induction false} DropLeadingSuffix(s: string, cs: set<char>)
    ensures var r := DropLeading(s, cs);
      |r| <= |s| && r == s[|s| - |r|..] && (r != [] ==> r[0] !in cs)
  {
    if s != [] && s[0] in cs {
      DropLeadingSuffix(s[1..], cs);
      assert s[1..][|s| - 1 - |DropLeading(s[1..], cs)|..] == s[|s| - |DropLeading(s[1..], cs)|..];
    }
  }

  /** Every character DropLeading removes is one of `cs`. */
  lemma {:induction false} DropLeadingRemoved(s: string, cs: set<char>)
    ensures |DropLeading(s, cs)| <= |s|
    ensures forall i :: 0 <= i < |s| - |DropLeading(s, cs)| ==> s[i] in cs
  {
    if s != [] && s[0] in cs {
      var t := s[1..];
      DropLeadingRemoved(t, cs);
      forall i | 0 <= i < |s| - |DropLeading(s, cs)| ensures s[i] in cs {
        if i > 0 { assert s[i] == t[i - 1]; }
      }
    }
  }

  /** DropLeading leaves a suffix, removes only characters of `cs`, and stops at the first other one. */
  lemma DropLeadingEffect(s: string, cs: set<char>)
    ensures var r := DropLeading(s, cs);
      && |r| <= |s| && r == s[|s| - |r|..]
      && (forall i :: 0 <= i < |s| - |r| ==> s[i] in cs)
      && (r != [] ==> r[0] !in cs)
  {
    DropLeadingSuffix(s, cs);
    DropLeadingRemoved(s, cs);
  }

  /** `.replace(/^\.+[seps]?/, '')`: a leading run of dots and at most one separator after it. */
  function StripDotRun(s: string, seps: set<char>): string
  {
    if s == [] || s[0] != '.' then s
    else
      var t := DropLeading(s, {'.'});
      if t != [] && t[0] in seps then t[1..] else t
  }

  /**
   * The sanitising chain after path.normalize: strip a leading run of dots
   * with one optional separator, then any leading separators.
   */
  function Sanitize(s: string, seps: set<char>): string
  {
    DropLeading(StripDotRun(s, seps), seps)
  }

  /**
   * Sanitising removes a prefix made of dots followed by separators (never
   * a dot after a separator), leaves a result that does not start with a
   * separator, and leaves alone a path that starts with neither.
   */
  lemma SanitizeEffect(s: string, seps: set<char>)
    requires '.' !in seps
    ensures var r := Sanitize(s, seps);
      && |r| <= |s| && r == s[|s| - |r|..]
      && (forall i :: 0 <= i < |s| - |r| ==> s[i] == '.' || s[i] in seps)
      && (forall i, j :: 0 <= i < j < |s| - |r| && s[i] in seps ==> s[j] in seps)
      && (r != [] ==> r[0] !in seps)
      && (s == [] || (s[0] != '.' && s[0] !in seps) ==> r == s)
  {
    var a := StripDotRun(s, seps);
    DropLeadingEffect(a, seps);
    if s != [] && s[0] == '.' {
      var t := DropLeading(s, {'.'});
      DropLeadingEffect(s, {'.'});
      if t != [] && t[0] in seps {
        assert a == s[|s| - |t| + 1..];
        assert s[|s| - |t|] in seps;
      }
    }
  }

  /** What either route hands to the service: the sanitised, normalised request path. */
  function Normalized(rest: string, seps: set<char>): string
  {
    Sanitize(Normalize(rest), seps)
  }

  /** A name-like request comes through untouched: internal dots are kept. */
  lemma NormalizedPlainName(name: string, seps: set<char>)
    requires '.' !in seps && IsName(name) && name[0] != '.' && name[0] !in seps
    ensures Normalized(name, seps) == name
  {
    NormalizeName(name);
    SanitizeEffect(name, seps);
  }

  /** The outcome of the admin route's path checks. */
  datatype Decision = InvalidPath | Candidate(normalized: string, abs: string)

  /** Sanitise, join to the output directory, and reject what path.relative says lies outside it. */
  function Decide(cwd: string, outputDir: string, rest: string, seps: set<char>): Decision
  {
    var normalized := Normalized(rest, seps);
    var abs := Join(outputDir, normalized);
    var rel := Relative(cwd, outputDir, abs);
    if StartsWith(rel, "..") || IsAbsolute(rel) then InvalidPath else Candidate(normalized, abs)
  }

  /** Whatever passes the traversal check names the output directory or something below it. */
  lemma CandidateInsideOutputDir(cwd: string, outputDir: string, rest: string, seps: set<char>)
    ensures var d := Decide(cwd, outputDir, rest, seps);
      d.Candidate? ==>
        ResolveSegs(cwd, outputDir) <= ResolveSegs(cwd, Join(outputDir, d.normalized)) && d.abs == Join(outputDir, d.normalized)
  {
    var normalized := Normalized(rest, seps);
    var abs := Join(outputDir, normalized);
    if outputDir != abs {
      RelativeInside(ResolveSegs(cwd, outputDir), ResolveSegs(cwd, abs));
    }
  }

  /** path.relative(dir, path.join(dir, name)) is `name`, so a plain file name always passes. */
  lemma RelativeOfChild(cwd: string, dir: string, name: string)
    requires IsName(name)
    ensures Relative(cwd, dir, Join(dir, name)) == name
  {
    ResolveJoinName(cwd, dir, name);
    RelativeSegsOfChild(ResolveSegs(cwd, dir), name);
  }

  /** From a directory to a child directly inside it, the relative path is the child's name. */
  lemma RelativeSegsOfChild(k: seq<string>, name: string)
    ensures RelativeSegs(k, k + [name]) == name
  {
    var n := CommonPrefix(k, k + [name]);
    assert (k + [name])[..|k|] == k;
    assert forall i :: 0 <= i < |k| ==> k[i] == (k + [name])[i];
    assert (k + [name])[|k|..] == [name];
  }

  /** A plain file name such as `sample.png` passes the check and names the file inside the output directory. */
  lemma PlainNamePasses(cwd: string, outputDir: string, name: string, seps: set<char>)
    requires '.' !in seps && IsName(name) && name[0] != '.' && name[0] !in seps
    ensures Decide(cwd, outputDir, name, seps) == Candidate(name, Join(outputDir, name))
    ensures ResolveSegs(cwd, Join(outputDir, name)) == ResolveSegs(cwd, outputDir) + [name]
  {
    assert Normalized(name, seps) == name by { NormalizedPlainName(name, seps); }
    assert Relative(cwd, outputDir, Join(outputDir, name)) == name by { RelativeOfChild(cwd, outputDir, name); }
    assert !StartsWith(name, "..") by {
      if |name| >= 2 { assert name[..2][0] == name[0]; }
    }
    ResolveJoinName(cwd, outputDir, name);
  }

  /** `Number(x) || undefined`: zero and NaN become undefined. */
  function QueryNumber(n: JsNumber): (r: Option<JsNumber>)
    ensures r.Some? <==> Truthy(n)
    ensures r.Some? ==> r.value == n
  {
    if Truthy(n) then Some(n) else None
  }

  /**
   * A text reply with a status; a file sent with its Cache-Control and
   * Content-Type; or an error with a status that `res.sendFile` hands to
   * `next`, for Express's final handler to answer.
   */
  datatype Response =
    | Text(status: int, body: string)
    | SendFile(path: string, cacheControl: string, contentType: string)
    | Forwarded(status: int)

  /**
   * A file `res.sendFile` refuses when it is given no `dotfiles` option:
   * Express's `send` answers 404 for a path whose last part starts with
   * '.', whatever the directories above it are called. For a cache file
   * that part is the last segment of its key.
   */
  predicate HiddenFile(k: Key)
  {
    k != [] && k[|k| - 1] != "" && k[|k| - 1][0] == '.'
  }

  /**
   * The cache file is named after `path.parse(filename).name`, so `send`
   * refuses it exactly when that name is empty (the cache file `.jpg`, as
   * for the output directory itself) or starts with '.'.
   */
  lemma HiddenCacheFile(cwd: string, outputDir: string, filename: string)
    ensures HiddenFile(PlanOf(cwd, outputDir, filename).cacheKey)
      <==> ParseName(filename) == "" || ParseName(filename)[0] == '.'
  {
    var n := ParseName(filename);
    var c := CacheName(filename);
    assert PlanOf(cwd, outputDir, filename).cacheKey[|PlanOf(cwd, outputDir, filename).cacheKey| - 1] == c;
    assert c == n + ".jpg";
    assert c[0] == if n == "" then '.' else n[0];
  }

  /** An empty path, which names the output directory itself, is cached as `.jpg`, which `send` refuses. */
  lemma EmptyNameIsHidden(cwd: string, outputDir: string)
    ensures HiddenFile(PlanOf(cwd, outputDir, "").cacheKey)
  {
    assert ParseName("") == "" by { assert Base("") == ""; }
    HiddenCacheFile(cwd, outputDir, "");
  }

  /** `sub/.hidden.png` is cached as `.hidden.jpg`, which `send` refuses. */
  lemma HiddenStemIsHidden(cwd: string, outputDir: string, dir: string, stem: string, ext: string)
    requires stem != "" && stem[0] == '.' && Sep !in stem && Sep !in ext && '.' !in ext
    requires stem + "." + ext != ".."
    ensures HiddenFile(PlanOf(cwd, outputDir, dir + [Sep] + stem + "." + ext).cacheKey)
  {
    var name := stem + "." + ext;
    assert Sep !in name by {
      forall i | 0 <= i < |name| ensures name[i] != Sep {
        if i < |stem| { assert name[i] in stem; } else if i > |stem| { assert name[i] in ext; }
      }
    }
    assert dir + [Sep] + stem + "." + ext == dir + [Sep] + name;
    ParseNameIgnoresDirectory(dir, name);
    ParseNameDropsExtension(stem, ext);
    HiddenCacheFile(cwd, outputDir, dir + [Sep] + name);
  }

  /** The reply and the filesystem after the request. */
  datatype Served = Served(response: Response, entries: Entries)

  /** The options both routes pass: w and h from the query; quality is never set. */
  function QueryOptions(qw: JsNumber, qh: JsNumber): ThumbOptions
  {
    ThumbOptions(QueryNumber(qw), QueryNumber(qh), None)
  }

  /**
   * What a route answers for a path that passed its checks, given whether
   * the original exists and the service's cache paths: 404 "Not found"
   * before any work for a missing original, 404 "Thumbnail not available"
   * when the service fails (never a 500), and the cached JPEG with
   * `cacheControl` when it succeeds, unless `send` refuses the cache file
   * as a dotfile and passes a 404 on.
   */
  function Answer(e: Entries, found: bool, p: Plan, codec: Codec, opts: ThumbOptions, now: int,
                  cacheControl: string): Served
  {
    if !found then Served(Text(404, "Not found"), e)
    else
      var run := RunPlan(e, p, codec, opts, now);
      match run.result
      case Failure(_) => Served(Text(404, "Thumbnail not available"), run.entries)
      case Success(file) =>
        if HiddenFile(p.cacheKey) then Served(Forwarded(404), run.entries)
        else Served(SendFile(file, cacheControl, "image/jpeg"), run.entries)
  }

  /**
   * Every answer is a 404, passed on or not, or the cache file; the
   * filesystem changes only through the service.
   */
  lemma AnswerOutcomes(e: Entries, found: bool, p: Plan, codec: Codec, opts: ThumbOptions, now: int,
                       cacheControl: string)
    ensures var served := Answer(e, found, p, codec, opts, now, cacheControl);
      var run := RunPlan(e, p, codec, opts, now);
      && (served.response.Text? ==> served.response.status == 404)
      && (!found ==> served == Served(Text(404, "Not found"), e))
      && (found ==> served.entries == run.entries)
      && (found && run.result.Failure? ==> served.response == Text(404, "Thumbnail not available"))
      && (found && run.result.Success? && !HiddenFile(p.cacheKey) ==>
            served.response == SendFile(p.cacheFile, cacheControl, "image/jpeg"))
      && (found && run.result.Success? && HiddenFile(p.cacheKey) ==> served.response == Forwarded(404))
      && (served.response.Forwarded? ==> found && run.result.Success? && HiddenFile(p.cacheKey))
  {
    SuccessIsCachePath(e, p, codec, opts, now);
  }

  /**
   * A route with the traversal check: sanitise with `seps`, reject with 400
   * what lies outside the output directory, 404 a missing original, then
   * answer from the service.
   */
  function CheckedRoute(e: Entries, cwd: string, codec: Codec, outputDir: string, rest: string, seps: set<char>,
                        opts: ThumbOptions, now: int, cacheControl: string): Served
  {
    match Decide(cwd, outputDir, rest, seps)
    case InvalidPath => Served(Text(400, "Invalid path"), e)
    case Candidate(normalized, abs) =>
      Answer(e, ExistsSync(e, cwd, abs), PlanOf(cwd, outputDir, normalized), codec, opts, now, cacheControl)
  }

  /**
   * The outcomes of a checked route: 400 exactly for a rejected path, with
   * the filesystem untouched; an original that fs.existsSync does not find
   * (missing, or a file named with a trailing `/`) is a 404 "Not found"
   * with nothing touched; every other reply is a 404 or the file; and the
   * filesystem changes only when the service ran on an original inside the
   * output directory.
   */
  lemma CheckedRouteOutcomes(e: Entries, cwd: string, codec: Codec, outputDir: string, rest: string, seps: set<char>,
                             opts: ThumbOptions, now: int, cacheControl: string)
    ensures var served := CheckedRoute(e, cwd, codec, outputDir, rest, seps, opts, now, cacheControl);
      var d := Decide(cwd, outputDir, rest, seps);
      && (served.response.Text? ==> served.response.status in {400, 404})
      && (served.response == Text(400, "Invalid path") <==> d.InvalidPath?)
      && (d.InvalidPath? ==> served.entries == e)
      && (d.Candidate? && !ExistsSync(e, cwd, d.abs) ==> served == Served(Text(404, "Not found"), e))
      && (served.entries != e ==>
            && d.Candidate? && ExistsSync(e, cwd, d.abs)
            && ResolveSegs(cwd, outputDir) <= PlanOf(cwd, outputDir, d.normalized).origKey)
      && (served.response.SendFile? ==>
            && d.Candidate? && served.response.path == PlanOf(cwd, outputDir, d.normalized).cacheFile
            && !HiddenFile(PlanOf(cwd, outputDir, d.normalized).cacheKey))
      && (served.response.Forwarded? ==>
            served.response == Forwarded(404) && d.Candidate? && HiddenFile(PlanOf(cwd, outputDir, d.normalized).cacheKey))
  {
    var d := Decide(cwd, outputDir, rest, seps);
    CandidateInsideOutputDir(cwd, outputDir, rest, seps);
    if d.Candidate? {
      AnswerOutcomes(e, ExistsSync(e, cwd, d.abs), PlanOf(cwd, outputDir, d.normalized), codec, opts, now, cacheControl);
    }
  }

  /** The admin route's Cache-Control. */
  const AdminCacheControl := "public, max-age=86400"

  /** The test factory's Cache-Control. */
  const TestCacheControl := "public, max-age=60"

  /** The admin route `/thumbs/output/:rest(*)` as a function of the filesystem before the request. */
  function RouteRun(e: Entries, cwd: string, codec: Codec, outputDir: string, rest: string,
                    qw: JsNumber, qh: JsNumber, now: int): Served
  {
    CheckedRoute(e, cwd, codec, outputDir, rest, RouteSeps, QueryOptions(qw, qh), now, AdminCacheControl)
  }

  /**
   * The test factory's handler as written. It has no traversal check, and it
   * sends `result.filePath`, which is undefined on the string the service
   * returns; sendFile(undefined) throws, so a successful generation is also
   * answered with a 404.
   */
  function TestRouteRun(e: Entries, cwd: string, codec: Codec, outputDir: string, rest: string,
                        qw: JsNumber, qh: JsNumber, now: int): Served
  {
    var normalized := Normalized(rest, FactorySeps);
    var served := Answer(e, ExistsSync(e, cwd, Join(outputDir, normalized)), PlanOf(cwd, outputDir, normalized),
                         codec, QueryOptions(qw, qh), now, TestCacheControl);
    if !served.response.Text? then Served(Text(404, "Thumbnail not available"), served.entries) else served
  }

  /**
   * The test factory never sends a thumbnail, even after the service has
   * written one to the cache.
   */
  lemma TestFactoryNeverServes(e: Entries, cwd: string, codec: Codec, outputDir: string, rest: string,
                               qw: JsNumber, qh: JsNumber, now: int)
    ensures var served := TestRouteRun(e, cwd, codec, outputDir, rest, qw, qh, now);
      var normalized := Normalized(rest, FactorySeps);
      var run := ThumbnailRun(e, cwd, codec, outputDir, normalized, QueryOptions(qw, qh), now);
      && (!ExistsSync(e, cwd, Join(outputDir, normalized)) ==> served == Served(Text(404, "Not found"), e))
      && (ExistsSync(e, cwd, Join(outputDir, normalized)) ==>
            served == Served(Text(404, "Thumbnail not available"), run.entries))
  {
    var normalized := Normalized(rest, FactorySeps);
    AnswerOutcomes(e, ExistsSync(e, cwd, Join(outputDir, normalized)), PlanOf(cwd, outputDir, normalized),
                   codec, QueryOptions(qw, qh), now, TestCacheControl);
  }

  /**
   * `GET /thumbs/output/sample.png/` for an existing file `sample.png`: the
   * path passes both routes' checks unchanged, but fs.existsSync rejects a
   * file named with a trailing '/', so both answer 404 "Not found" and
   * touch nothing.
   */
  lemma TrailingSlashOnFileIsNotFound(e: Entries, cwd: string, codec: Codec, outputDir: string, name: string,
                                      qw: JsNumber, qh: JsNumber, now: int)
    requires outputDir != "" && IsName(name) && name[0] != '.' && name[0] !in FactorySeps
    requires ResolveSegs(cwd, outputDir) + [name] in e && e[ResolveSegs(cwd, outputDir) + [name]].File?
    ensures RouteRun(e, cwd, codec, outputDir, name + "/", qw, qh, now) == Served(Text(404, "Not found"), e)
    ensures TestRouteRun(e, cwd, codec, outputDir, name + "/", qw, qh, now) == Served(Text(404, "Not found"), e)
  {
    NormalizedTrailingName(name, RouteSeps);
    NormalizedTrailingName(name, FactorySeps);
    JoinTrailingName(cwd, outputDir, name);
    DecideTrailingName(cwd, outputDir, name);
  }

  /** `name/` passes sanitising unchanged. */
  lemma NormalizedTrailingName(name: string, seps: set<char>)
    requires IsName(name) && name[0] != '.' && name[0] !in seps && '.' !in seps
    ensures Normalized(name + "/", seps) == name + "/"
  {
    var t := name + "/";
    assert t[0] == name[0] && t[|t| - 1] == Sep;
    ComponentsTrail(name);
    NameFolds(name);
    NormalizeTrailing(t, [name]);
    SanitizeEffect(t, seps);
  }

  /** `join(outputDir, name + '/')` resolves to the entry `name` inside the output directory, and keeps the '/'. */
  lemma JoinTrailingName(cwd: string, outputDir: string, name: string)
    requires outputDir != "" && IsName(name)
    ensures var abs := Join(outputDir, name + "/");
      && ResolveSegs(cwd, abs) == ResolveSegs(cwd, outputDir) + [name]
      && abs != [] && abs[|abs| - 1] == Sep
  {
    var t := name + "/";
    ResolveJoin(cwd, outputDir, t);
    ComponentsTrail(name);
    ComponentsOfSegment(name);
    FoldNames(ResolveSegs(cwd, outputDir), [name], false);
    NormalizeTrailingSep(outputDir + [Sep] + t);
  }

  /** The admin route's check lets `name/` through. */
  lemma DecideTrailingName(cwd: string, outputDir: string, name: string)
    requires outputDir != "" && IsName(name) && name[0] != '.'
    requires Normalized(name + "/", RouteSeps) == name + "/"
    requires ResolveSegs(cwd, Join(outputDir, name + "/")) == ResolveSegs(cwd, outputDir) + [name]
    ensures Decide(cwd, outputDir, name + "/", RouteSeps) == Candidate(name + "/", Join(outputDir, name + "/"))
  {
    var abs := Join(outputDir, name + "/");
    assert Relative(cwd, outputDir, abs) in {"", name} by {
      RelativeSegsOfChild(ResolveSegs(cwd, outputDir), name);
    }
    assert !StartsWith(name, "..") by {
      if |name| >= 2 { assert name[..2][0] == name[0]; }
    }
  }

  /** The pieces of `../../n`. */
  lemma ComponentsClimb(n: string)
    requires IsName(n)
    ensures Components(".." + [Sep] + ".." + [Sep] + n) == ["..", "..", n]
  {
    var tail := ".." + [Sep] + n;
    assert ".." + [Sep] + ".." + [Sep] + n == ".." + [Sep] + tail;
    ComponentsConcat("..", tail);
    ComponentsConcat("..", n);
    ComponentsOfSegment("..");
    ComponentsOfSegment(n);
  }

  /** `../../n` normalises to itself. */
  lemma NormalizeClimb(n: string)
    requires IsName(n)
    ensures Normalize(".." + [Sep] + ".." + [Sep] + n) == ".." + [Sep] + ".." + [Sep] + n
  {
    var p := ".." + [Sep] + ".." + [Sep] + n;
    ComponentsClimb(n);
    FoldClimb(n);
    JoinClimb(n);
    assert p[0] != Sep && p[|p| - 1] != Sep by {
      assert p[|p| - 1] == n[|n| - 1];
    }
    NormalizeUnframed(p, ["..", "..", n]);
  }

  lemma FoldClimb(n: string)
    requires IsName(n)
    ensures Fold([], ["..", "..", n], true) == ["..", "..", n]
  {
    FoldShort([], "..", "..", n, true);
    assert Step([], "..", true) == [".."];
    assert Step([".."], "..", true) == ["..", ".."];
  }

  lemma JoinClimb(n: string)
    requires IsName(n)
    ensures JoinSegs(["..", "..", n]) == ".." + [Sep] + ".." + [Sep] + n
  {
    var segs := ["..", "..", n];
    assert segs[1..] == ["..", n] && segs[1..][1..] == [n];
    assert JoinSegs(["..", n]) == ".." + [Sep] + n;
    assert ".." + [Sep] + ".." + [Sep] + n == ".." + [Sep] + (".." + [Sep] + n);
  }

  /** Sanitising `../t` drops the leading dots and the separator after them. */
  lemma SanitizeClimb(t: string, seps: set<char>)
    requires Sep in seps && '.' !in seps
    requires t == [] || t[0] !in seps
    ensures Sanitize(".." + [Sep] + t, seps) == t
  {
    var s := ".." + [Sep] + t;
    assert s[0] == '.' && s[1..][0] == '.' && s[1..][1..] == [Sep] + t;
    assert DropLeading([Sep] + t, {'.'}) == [Sep] + t;
    assert DropLeading(s, {'.'}) == [Sep] + t;
    assert StripDotRun(s, seps) == t;
  }

  /** `/a/b` resolves to its two names. */
  lemma ResolveTwoNames(cwd: string, a: string, b: string)
    requires IsName(a) && IsName(b)
    ensures ResolveSegs(cwd, [Sep] + a + [Sep] + b) == [a, b]
  {
    var out := [Sep] + a + [Sep] + b;
    assert Components(out) == [a, b] by {
      assert out == "/" + (a + [Sep] + b);
      ComponentsLead(a + [Sep] + b);
      ComponentsConcat(a, b);
      ComponentsOfSegment(a);
      ComponentsOfSegment(b);
    }
    FoldIntoEmpty([a, b], false);
  }

  /** The pieces of `../n`. */
  lemma ComponentsUp(n: string)
    requires IsName(n)
    ensures Components(".." + [Sep] + n) == ["..", n]
  {
    ComponentsConcat("..", n);
    ComponentsOfSegment("..");
    ComponentsOfSegment(n);
  }

  /** `..` then a name, folded onto a directory inside `parent`. */
  lemma FoldUp(parent: seq<string>, d: string, n: string)
    requires IsName(d) && IsName(n)
    ensures Fold(parent + [d], ["..", n], false) == parent + [n]
  {
    FoldShort(parent + [d], "..", n, n, false);
    assert (parent + [d])[..|parent|] == parent;
  }

  /** From a directory `d` inside `parent`, the relative path `../n` reaches `parent/n`. */
  lemma ResolveUpOne(cwd: string, dir: string, parent: seq<string>, d: string, n: string)
    requires dir != "" && IsName(d) && IsName(n) && ResolveSegs(cwd, dir) == parent + [d]
    ensures ResolveSegs(cwd, Join(dir, ".." + [Sep] + n)) == parent + [n]
  {
    ResolveJoin(cwd, dir, ".." + [Sep] + n);
    ComponentsUp(n);
    FoldUp(parent, d, n);
  }

  /** Under the output directory `/a/b`, the relative path `../n` reaches `/a/n`. */
  lemma ResolveClimb(cwd: string, a: string, b: string, n: string)
    requires IsName(a) && IsName(b) && IsName(n)
    ensures ResolveSegs(cwd, [Sep] + a + [Sep] + b) == [a, b]
    ensures ResolveSegs(cwd, Join([Sep] + a + [Sep] + b, ".." + [Sep] + n)) == [a, n]
  {
    ResolveTwoNames(cwd, a, b);
    ResolveUpOne(cwd, [Sep] + a + [Sep] + b, [a], b, n);
  }

  /** Both routes turn `../../n` into `../n`. */
  lemma NormalizedClimb(n: string, seps: set<char>)
    requires IsName(n) && Sep in seps && '.' !in seps
    ensures Normalized(".." + [Sep] + ".." + [Sep] + n, seps) == ".." + [Sep] + n
  {
    var t := ".." + [Sep] + n;
    var p := ".." + [Sep] + ".." + [Sep] + n;
    assert p == ".." + [Sep] + t;
    NormalizeClimb(n);
    assert Normalize(p) == p;
    SanitizeClimb(t, seps);
    assert Sanitize(p, seps) == t;
  }

  /** path.relative from `/a/b` to `/a/n` climbs once. */
  lemma RelativeClimb(a: string, b: string, n: string)
    requires b != n
    ensures RelativeSegs([a, b], [a, n]) == ".." + [Sep] + n
  {
    var k := CommonPrefix([a, b], [a, n]);
    assert [a, b][0] == [a, n][0] && [a, b][1] != [a, n][1];
    assert k == 1;
    assert Ups(1) + [a, n][1..] == ["..", n];
    assert JoinSegs(["..", n]) == ".." + [Sep] + n by {
      assert ["..", n][1..] == [n];
    }
  }

  /** The admin route's check rejects `../../n` under `/a/b`. */
  lemma DecideClimb(cwd: string, a: string, b: string, n: string, seps: set<char>)
    requires IsName(a) && IsName(b) && IsName(n) && b != n && Sep in seps && '.' !in seps
    ensures Decide(cwd, [Sep] + a + [Sep] + b, ".." + [Sep] + ".." + [Sep] + n, seps) == InvalidPath
  {
    var out := [Sep] + a + [Sep] + b;
    var abs := Join(out, ".." + [Sep] + n);
    NormalizedClimb(n, seps);
    ResolveClimb(cwd, a, b, n);
    assert out != abs by {
      assert [a, b] != [a, n] by { assert [a, b][1] != [a, n][1]; }
    }
    RelativeClimb(a, b, n);
    assert Relative(cwd, out, abs) == ".." + [Sep] + n;
  }

  /** A joined path that does not end in '/' exists as soon as some entry other than the root sits at its key. */
  lemma JoinedEntryExists(e: Entries, cwd: string, dir: string, rel: string)
    requires dir != "" && rel != "" && rel[|rel| - 1] != Sep
    requires ResolveSegs(cwd, Join(dir, rel)) in e && ResolveSegs(cwd, Join(dir, rel)) != []
    ensures ExistsSync(e, cwd, Join(dir, rel))
  {
    var whole := dir + [Sep] + rel;
    assert whole[|whole| - 1] == rel[|rel| - 1];
    NormalizeTrailingSep(whole);
    ComponentsLead("");
    ComponentsOfEmpty();
    assert "/" + "" == "/";
  }

  /**
   * For any output directory `/a/b`, a request for `../../n` that exists
   * climbs out of it in the test factory: the service is asked for `/a/n`.
   */
  lemma TestFactoryAllowsTraversal(e: Entries, cwd: string, codec: Codec, a: string, b: string, n: string,
                                   qw: JsNumber, qh: JsNumber, now: int)
    requires IsName(a) && IsName(b) && IsName(n) && b != n && [a, n] in e
    ensures var outputDir := [Sep] + a + [Sep] + b;
      var rest := ".." + [Sep] + ".." + [Sep] + n;
      && Normalized(rest, FactorySeps) == ".." + [Sep] + n
      && PlanOf(cwd, outputDir, ".." + [Sep] + n).origKey == [a, n]
      && !(ResolveSegs(cwd, outputDir) <= [a, n])
      && TestRouteRun(e, cwd, codec, outputDir, rest, qw, qh, now).entries
           == ThumbnailRun(e, cwd, codec, outputDir, ".." + [Sep] + n, QueryOptions(qw, qh), now).entries
  {
    var outputDir := [Sep] + a + [Sep] + b;
    var rest := ".." + [Sep] + ".." + [Sep] + n;
    NormalizedClimb(n, FactorySeps);
    ResolveClimb(cwd, a, b, n);
    assert !([a, b] <= [a, n]) by { assert [a, b][1] != [a, n][1]; }
    var up := ".." + [Sep] + n;
    assert up[|up| - 1] == n[|n| - 1] != Sep by { assert n[|n| - 1] in n; }
    JoinedEntryExists(e, cwd, outputDir, up);
    TestFactoryNeverServes(e, cwd, codec, outputDir, rest, qw, qh, now);
  }

  /** The admin route answers the same request with 400 and leaves the filesystem alone. */
  lemma RouteRejectsTraversal(e: Entries, cwd: string, codec: Codec, a: string, b: string, n: string,
                              qw: JsNumber, qh: JsNumber, now: int)
    requires IsName(a) && IsName(b) && IsName(n) && b != n
    ensures RouteRun(e, cwd, codec, [Sep] + a + [Sep] + b, ".." + [Sep] + ".." + [Sep] + n, qw, qh, now)
      == Served(Text(400, "Invalid path"), e)
  {
    DecideClimb(cwd, a, b, n, RouteSeps);
  }

  /**
   * The factory as its comments intend: the admin route's traversal check
   * with the factory's own separators, and the cached file sent with a
   * one-minute cache lifetime.
   */
  function TestRouteRunIntended(e: Entries, cwd: string, codec: Codec, outputDir: string, rest: string,
                                qw: JsNumber, qh: JsNumber, now: int): Served
  {
    CheckedRoute(e, cwd, codec, outputDir, rest, FactorySeps, QueryOptions(qw, qh), now, TestCacheControl)
  }

  /** The admin route: 400 exactly for a rejected path, otherwise a 404 or the cached JPEG for a day. */
  lemma RouteOutcomes(e: Entries, cwd: string, codec: Codec, outputDir: string, rest: string,
                      qw: JsNumber, qh: JsNumber, now: int)
    ensures var served := RouteRun(e, cwd, codec, outputDir, rest, qw, qh, now);
      var d := Decide(cwd, outputDir, rest, RouteSeps);
      && (served.response.Text? ==> served.response.status in {400, 404})
      && (served.response == Text(400, "Invalid path") <==> d.InvalidPath?)
      && (served.entries != e ==> d.Candidate? && ResolveSegs(cwd, outputDir) <= PlanOf(cwd, outputDir, d.normalized).origKey)
      && (served.response.SendFile? ==>
            && served.response == SendFile(PlanOf(cwd, outputDir, d.normalized).cacheFile, AdminCacheControl, "image/jpeg")
            && !HiddenFile(PlanOf(cwd, outputDir, d.normalized).cacheKey))
      && (served.response.Forwarded? ==>
            served.response == Forwarded(404) && d.Candidate? && HiddenFile(PlanOf(cwd, outputDir, d.normalized).cacheKey))
      && (d.Candidate? && ExistsSync(e, cwd, d.abs) &&
            ThumbnailRun(e, cwd, codec, outputDir, d.normalized, QueryOptions(qw, qh), now).result.Success? ==>
              served.response == if HiddenFile(PlanOf(cwd, outputDir, d.normalized).cacheKey) then Forwarded(404)
                                 else SendFile(PlanOf(cwd, outputDir, d.normalized).cacheFile, AdminCacheControl, "image/jpeg"))
  {
    CheckedRouteOutcomes(e, cwd, codec, outputDir, rest, RouteSeps, QueryOptions(qw, qh), now, AdminCacheControl);
    var d := Decide(cwd, outputDir, rest, RouteSeps);
    if d.Candidate? {
      AnswerOutcomes(e, ExistsSync(e, cwd, d.abs), PlanOf(cwd, outputDir, d.normalized), codec, QueryOptions(qw, qh), now, AdminCacheControl);
    }
  }

  /** The intended factory serves the cache file it generates, and generates only inside its output directory. */
  lemma TestRouteIntendedOutcomes(e: Entries, cwd: string, codec: Codec, outputDir: string, rest: string,
                                  qw: JsNumber, qh: JsNumber, now: int)
    ensures var served := TestRouteRunIntended(e, cwd, codec, outputDir, rest, qw, qh, now);
      var d := Decide(cwd, outputDir, rest, FactorySeps);
      && (served.entries != e ==> d.Candidate? && ResolveSegs(cwd, outputDir) <= PlanOf(cwd, outputDir, d.normalized).origKey)
      && (d.Candidate? && ExistsSync(e, cwd, d.abs) &&
            ThumbnailRun(e, cwd, codec, outputDir, d.normalized, QueryOptions(qw, qh), now).result.Success? ==>
              served.response == if HiddenFile(PlanOf(cwd, outputDir, d.normalized).cacheKey) then Forwarded(404)
                                 else SendFile(PlanOf(cwd, outputDir, d.normalized).cacheFile, TestCacheControl, "image/jpeg"))
  {
    CheckedRouteOutcomes(e, cwd, codec, outputDir, rest, FactorySeps, QueryOptions(qw, qh), now, TestCacheControl);
    var d := Decide(cwd, outputDir, rest, FactorySeps);
    if d.Candidate? {
      AnswerOutcomes(e, ExistsSync(e, cwd, d.abs), PlanOf(cwd, outputDir, d.normalized), codec, QueryOptions(qw, qh), now, TestCacheControl);
    }
  }

  /** The route handlers, served from one thumbnail service. */
  method ServeOutputThumbnail(svc: ThumbnailService, envDir: Option<string>, workspaceRoot: string, rest: string,
                              qw: JsNumber, qh: JsNumber, now: int)
    returns (resp: Response)
    modifies svc.fs
    ensures Served(resp, svc.fs.entries)
      == RouteRun(old(svc.fs.entries), svc.fs.cwd, svc.codec, ResolveOutputDir(envDir, svc.fs.cwd, workspaceRoot), rest, qw, qh, now)
  {
    var outputDir := ResolveOutputDir(envDir, svc.fs.cwd, workspaceRoot);
    var decision := Decide(svc.fs.cwd, outputDir, rest, RouteSeps);
    if decision.InvalidPath? {
      return Text(400, "Invalid path");
    }
    if !svc.fs.PathExists(decision.abs) {
      return Text(404, "Not found");
    }
    var result := svc.GetOrCreateOutputThumbnail(outputDir, decision.normalized, QueryOptions(qw, qh), now);
    if result.Failure? {
      return Text(404, "Thumbnail not available");
    }
    if HiddenFile(PlanOf(svc.fs.cwd, outputDir, decision.normalized).cacheKey) {
      // send refuses a dotfile and hands a 404 to next(err).
      return Forwarded(404);
    }
    return SendFile(result.value, AdminCacheControl, "image/jpeg");
  }

  /** The test factory's handler, as written. */
  method ServeTestThumbnail(svc: ThumbnailService, outputDir: string, rest: string, qw: JsNumber, qh: JsNumber, now: int)
    returns (resp: Response)
    modifies svc.fs
    ensures Served(resp, svc.fs.entries) == TestRouteRun(old(svc.fs.entries), svc.fs.cwd, svc.codec, outputDir, rest, qw, qh, now)
  {
    var normalized := Normalized(rest, FactorySeps);
    var abs := Join(outputDir, normalized);
    if !svc.fs.PathExists(abs) {
      TestFactoryNeverServes(svc.fs.entries, svc.fs.cwd, svc.codec, outputDir, rest, qw, qh, now);
      return Text(404, "Not found");
    }
    var result := svc.GetOrCreateOutputThumbnail(outputDir, normalized, QueryOptions(qw, qh), now);
    // result.filePath is undefined on a string, and sendFile(undefined) throws.
    resp := Text(404, "Thumbnail not available");
    TestFactoryNeverServes(old(svc.fs.entries), svc.fs.cwd, svc.codec, outputDir, rest, qw, qh, now);
  }
}
