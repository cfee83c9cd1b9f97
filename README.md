# NudeAdmin core, modelled in Dafny

NudeAdmin is the administrative web panel of the Nude platform: an Express
application that lists and edits users and media, shows dashboard
statistics and serves previews of generated images. This project models
its core in Dafny and proves properties of the model:

- **Thumbnail cache** (`src/services/thumbnails.js`). This covers the
  clamped width, height and quality options; the cache path
  `<outputDir>/.thumbs/<name>.jpg`; the freshness rule (the cache is used
  when its mtime is at least the original's); the aspect-preserving target
  size; the 120-byte padding; and the `mkdir -p` and `writeFile` effects on
  the filesystem. Files: `thumbnails.dfy` and `filesystem.dfy`. The Node
  `path` functions it relies on (`normalize`, `join`, `resolve`,
  `relative`, `parse`) are in `posix_path.dfy`.
- **Thumbnail routes** (`src/app.js`):
  - `resolveOutputDir`;
  - the admin route `/thumbs/output/*`, with its leading-dot and slash
    sanitising, its `path.relative` traversal check, and the 404 that
    `res.sendFile` passes on for a cache file whose name starts with '.';
  - the `buildThumbnailTestApp` variant, modelled as written.

  File: `thumb_route.dfy`.
- **Access control** (`src/app.js`): this covers the `authGate` middleware
  with its open path prefixes, the `requireAuth` and `requireAdmin` guards,
  and the 5-second cache of "an admin exists" that decides whether signup
  is offered. File: `access.dfy`.
- **Batch media actions** (`POST /api/admin/media/actions` in `src/app.js`).
  This covers `parseTags`, the request validation, and each action's effect
  on the `media` table and the `media_tags` pairs, including the nested
  insert loops of `add_tags` and `replace_tags`. File: `media_actions.dfy`.
- **Statistics window** (`getDateCond` in `src/app.js`). File: `stats.dfy`.
- **Dashboard script** (`src/public/js/admin.js`). This covers
  `escapeHtml` and `escapeAttr`, the rules that enable the two Apply
  buttons, and the JSON bodies the buttons send. Files: `admin_client.dfy`
  and `bulk_flow.dfy`. The second file connects a body sent by the
  dashboard with what the media handler makes of it.
- `wrappers.dfy` and `js_values.dfy` hold `Option`/`Result` and the
  JavaScript value helpers: `Number` falsiness, `trim`, ASCII
  `toLowerCase`, `slice`, `startsWith`.

How the model is built:

- The filesystem is a class (`FileStore.FileSystem`) whose `entries` map
  goes from resolved paths to files and directories. Its methods
  reassign that map.
- The thumbnail service is a class whose method is proved equal to a pure
  specification (`Thumbnails.ThumbnailRun`). The lemmas are proved about
  that specification.
- The route functions return a `Served` value: the response plus the new
  filesystem state.
- The admin-presence cache and the media tables are classes too. Their
  methods are proved equal to pure functions.

`buildThumbnailTestApp` differs from the admin route in three ways:

- it strips backslashes as well as slashes;
- it performs no `path.relative` check;
- it sends `result.filePath` of a string, which is undefined.

The model is of that code (see Findings).

## Model

| member | source | states |
|---|---|---|
| Thumbnails.Clamp | src/services/thumbnails.js:43-45 | `Math.max(lo, Math.min(hi, Number(x) \|\| dflt))`. The result is in [lo, hi]. A falsy number (absent, 0, NaN) gives the default. An in-range number is kept. Numbers or infinities above or below the range give hi or lo. |
| Thumbnails.OptionRanges | src/services/thumbnails.js:43-45 | Width is in 32..2048 (default 480), height in 0..2048 (default 0, meaning auto), quality in 40..90 (default 75). |
| Thumbnails.CacheName | src/services/thumbnails.js:28-30 | The cache file name (`path.parse(filename).name + '.jpg'`) is always a single path segment: no '/', not "." or "..". |
| Thumbnails.CacheFileLocation | src/services/thumbnails.js:27-31 | The cache directory resolves to `<outputDir>/.thumbs`. The cache file resolves to `<outputDir>/.thumbs/<name>.jpg`. |
| Thumbnails.CacheNameOfStem | src/services/thumbnails.js:28-30 | `stem.ext` is cached as `stem.jpg`, whatever the extension (for example `sample.png` as `sample.jpg`). |
| Thumbnails.CacheNameCollision | src/services/thumbnails.js:27-31 | `stem.ext1` and `dir/stem.ext2` map to the same cache file (for example `a.png` and `sub/a.jpg`): both the directory and the extension are dropped. |
| Thumbnails.RoundDiv | src/services/thumbnails.js:74-77 | Exact `Math.round(a / b)` on naturals: 2a − b < 2b·r ≤ 2a + b. |
| Thumbnails.TargetSizeFits | src/services/thumbnails.js:68-79 | An explicit height, or missing metadata, keeps (width, height or null). Otherwise the longer native side becomes `min(width, native)`. The other side is at most that, and is that times the aspect ratio to within half a pixel. So neither side exceeds the requested width or the native long side. |
| Thumbnails.SampleTargetSize | src/services/thumbnails.js:68-79 | A 120×80 image at width 200 keeps 120×80. |
| Thumbnails.Pad | src/services/thumbnails.js:85-88 | The buffer is kept as a prefix. It is padded with zero bytes to at least 120 bytes. |
| Thumbnails.PlanOf | src/services/thumbnails.js:47-48 | The original's key is where `join(outputDir, filename)` resolves. The path answered is the cache file of `getOutputThumbCachePath`. The cache file lies directly in the cache directory. |
| Thumbnails.PlanOfPaths | src/services/thumbnails.js:27-48 | The cache directory and cache file keys are where `getOutputThumbCachePath`'s two paths resolve: `.thumbs` inside the output directory, and the cache name inside that. |
| Thumbnails.ThumbnailService.GetOrCreateOutputThumbnail | src/services/thumbnails.js:42-98 | It returns what, and changes the filesystem as, the specification `ThumbnailRun` says. It keeps the filesystem well formed. |
| Thumbnails.ThumbnailService.GetOrCreate | src/services/thumbnails.js:49-97 | It does the same for a computed plan: ensure the directory, stat both files, render when not fresh, pad, and write. |
| Thumbnails.ThumbnailService.RenderOriginal | src/services/thumbnails.js:66-83 | Given what reading the original yielded, it reads the metadata, computes the target size and encodes, with the result the codec gives. |
| Thumbnails.CacheDirEnsuredFirst | src/services/thumbnails.js:49 | Unless creating the cache directory failed, every ancestor of the cache directory is a directory afterwards. |
| Thumbnails.FreshnessDecidesRender | src/services/thumbnails.js:51-95 | If the cache is fresh (both exist and the cache's mtime is at least the original's), the cache path is returned with nothing rendered. Otherwise success holds exactly when rendering and writing succeed. Then the cache file holds the rendered bytes (at least 120) stamped `now`, and every other entry is as `mkdir` left it. |
| Thumbnails.SuccessIsCachePath | src/services/thumbnails.js:97 | A successful call always returns the cache file path. |
| Thumbnails.FailureWritesNothing | src/services/thumbnails.js:91-94 | A failed call changes no existing entry. Only new directories may appear. |
| Thumbnails.OnlyCacheFileWritten | src/services/thumbnails.js:49-89 | Apart from the cache file, no existing entry changes and only directories are created. |
| Thumbnails.StaleCacheIsRegenerated | src/services/thumbnails.js:57-89 | A cache older than its original is rewritten on success, with mtime `now`. |
| Thumbnails.SecondCallIsCacheHit | src/services/thumbnails.js:51-62 | When the original exists (with its mtime not after the call), a second call after a successful one, at any time and with any options, changes nothing and returns the same path. With no original, a successful second call renders again and stamps the cache file with its own time. |
| Thumbnails.MockCodecWritesPaddedFile | src/services/thumbnails.js:9-20 | The fallback codec never opens the original. Whenever a call has to render, it succeeds for any original (a file, a directory such as the output directory itself, or nothing), unless the cache path is a directory. In that case it fails with only `mkdir`'s changes. On success the cache file holds 120 zero bytes stamped with the call's time. |
| Thumbnails.ThumbnailService.constructor | src/services/thumbnails.js:42 | The service works on the given filesystem with the given codec. |
| FileStore.MkdirEffect | src/services/thumbnails.js:23-25 | `mkdir -p` succeeds exactly when no file lies on the path. It keeps every entry, adds only directories on the path, and leaves every prefix a directory. |
| FileStore.MkdirExisting | src/services/thumbnails.js:23-25 | `mkdir -p` of an existing directory chain changes nothing. |
| FileStore.MkdirKeepsWellFormed | src/services/thumbnails.js:23-25 | `mkdir -p` keeps the tree well formed: the root is a directory and every entry's parent is a directory. |
| FileStore.WriteEffect | src/services/thumbnails.js:89 | `writeFile` sets the one key to a file with the data and mtime. It adds no other key and changes no other entry. |
| FileStore.WriteKeepsWellFormed | src/services/thumbnails.js:89 | `writeFile` keeps the tree well formed. |
| FileStore.FileSystem.Stat | src/services/thumbnails.js:53-56 | `stat` succeeds exactly for an existing entry and gives its mtime. |
| FileStore.Read | src/services/thumbnails.js:66-80 | A read succeeds exactly for a file and gives its bytes. |
| FileStore.FileSystem.MakeDirectory | src/services/thumbnails.js:23-25 | It succeeds as `Mkdir` says and then holds its result; otherwise nothing changes. |
| FileStore.FileSystem.WriteFile | src/services/thumbnails.js:89 | It succeeds as `Write` says and then holds its result; otherwise nothing changes. |
| FileStore.FileSystem.constructor | src/services/thumbnails.js:23-25 | A fresh filesystem holds only the root directory and is well formed. |
| PosixPath.ResolveJoinName | src/services/thumbnails.js:29-30 | Joining a plain name onto a directory resolves to the directory's segments plus that name. |
| PosixPath.ParseNameDropsExtension | src/services/thumbnails.js:28 | `path.parse('stem.ext').name` is `stem`. |
| PosixPath.ParseNameIgnoresDirectory | src/services/thumbnails.js:28 | `path.parse('dir/name').name` is that of `name`. |
| PosixPath.NormalizeKeepsAbsolute | src/app.js:118 | `path.normalize` keeps a path absolute exactly when it was. |
| PosixPath.NormalizeTrailingSep | src/app.js:118-122 | `path.normalize` keeps a trailing '/'. Otherwise it ends in '/' only when nothing but the root is left. |
| PosixPath.FoldedComponentsClimb | src/app.js:118 | The folded components of a non-empty path are all plain names or `..`. |
| PosixPath.JoinSegsEndsWith | src/app.js:118 | Joining plain names and `..` ends with the last one's last character, never with '/'. |
| PosixPath.RelativeInside | src/app.js:123-124 | When `path.relative(from, to)` does not start with "..", `to` lies inside `from`. |
| PosixPath.NormalizeName | src/app.js:118 | A plain name is its own normal form. |
| PosixPath.Resolve | src/services/thumbnails.js:29-30 | `path.resolve` always gives an absolute path. |
| PosixPath.ResolveNormalize | src/app.js:118-122 | Normalising a path never changes what it resolves to. |
| PosixPath.ResolveJoin | src/services/thumbnails.js:29-47 | Resolving `path.join(a, b)` is resolving `a` and then walking the components of `b` from there. |
| PosixPath.NormalizeAbsoluteComponents | src/app.js:118 | An absolute path normalises to its components with `.` dropped and `..` applied, never climbing above the root. |
| PosixPath.NormalizeRelativeComponents | src/app.js:118 | A relative path normalises to its folded components, with leading `..` kept. It normalises to `.` when nothing is left. |
| PosixPath.ParseName | src/services/thumbnails.js:28 | `path.parse(p).name` is a prefix of the base name with no separator. When it differs from the base, it is cut at the base's last dot, and is non-empty. |
| ThumbRoute.ResolveOutputDir | src/app.js:103-107 | The output directory is always absolute. |
| ThumbRoute.OutputDirLocation | src/app.js:103-107 | The output directory is `OUTPUT_DIR` when that is set and non-empty. Otherwise it is `<workspace>/output`. |
| ThumbRoute.DropLeadingEffect | src/app.js:121 | `replace(/^[/]+/, '')` removes exactly the leading separators. What is left is a suffix that does not start with one. |
| ThumbRoute.SanitizeEffect | src/app.js:118-121 | The sanitised path is a suffix of the normalised one. Only dots and separators are removed, with no dot after a separator. It does not start with a separator. It is unchanged when it starts with neither. |
| ThumbRoute.NormalizedPlainName | src/app.js:118-121 | A plain file name passes sanitising unchanged. |
| ThumbRoute.CandidateInsideOutputDir | src/app.js:122-124 | Every path the traversal check lets through resolves inside the output directory. |
| ThumbRoute.RelativeOfChild | src/app.js:123 | `path.relative(dir, join(dir, name))` is `name`. |
| ThumbRoute.RelativeSegsOfChild | src/app.js:123 | From a directory to an entry directly inside it, `path.relative` is the entry's name. |
| ThumbRoute.PlainNamePasses | src/app.js:118-124 | A plain file name passes the check and resolves to `<outputDir>/name`. |
| ThumbRoute.QueryNumber | src/app.js:129-130 | `Number(q) \|\| undefined` keeps a truthy number and drops a falsy one. |
| ThumbRoute.AnswerOutcomes | src/app.js:125-137 | A missing original gives 404 "Not found" with nothing changed. A failed generation gives 404 "Thumbnail not available". Success sends the cache file as `image/jpeg` with the given Cache-Control, unless its name starts with '.'. Then `sendFile` passes a 404 on to Express, after the cache file has been written. Nothing else is passed on. |
| ThumbRoute.HiddenCacheFile | src/app.js:133 | `send` refuses the cache file exactly when `path.parse(filename).name` is empty or starts with '.'. |
| ThumbRoute.EmptyNameIsHidden | src/app.js:118-133 | The empty path, which names the output directory itself, is cached as `.jpg`, and `send` refuses that. |
| ThumbRoute.HiddenStemIsHidden | src/app.js:118-133 | `dir/.stem.ext` is cached as `.stem.jpg`, and `send` refuses that, as for `sub/.hidden.png`. |
| ThumbRoute.CheckedRouteOutcomes | src/app.js:114-138 | Every text answer is 400 or 404. "Invalid path" comes exactly from the traversal check, with nothing changed. An original that `existsSync` does not find (missing, or a file written with a trailing '/') gives 404 "Not found" with nothing changed. Any filesystem change follows an existing original inside the output directory. A file sent is the cache file, and its name does not start with '.'. A 404 passed on to Express comes only for a cache file whose name does. |
| ThumbRoute.RouteOutcomes | src/app.js:114-138 | The same for the admin route, which sends with `public, max-age=86400`. When the service succeeds, the route sends the cache file, or passes a 404 on when the cache file's name starts with '.'. |
| ThumbRoute.TrailingSlashOnFileIsNotFound | src/app.js:118-155 | For an existing file `name` in the output directory, `name/` passes both routes' checks unchanged. `existsSync` rejects a file written with a trailing '/', so both routes answer 404 "Not found" and change nothing. |
| ThumbRoute.NormalizedTrailingName | src/app.js:118-121 | A plain file name followed by '/' passes sanitising unchanged. |
| ThumbRoute.JoinTrailingName | src/app.js:122 | Joining `name/` onto the output directory keeps the trailing '/' and resolves to the directory plus `name`. |
| ThumbRoute.DecideTrailingName | src/app.js:122-124 | `name/` passes the traversal check as a candidate. |
| ThumbRoute.RouteRejectsTraversal | src/app.js:118-124 | For `/a/b` as output directory, `../../n` answers 400 "Invalid path" and changes nothing. |
| ThumbRoute.ServeOutputThumbnail | src/app.js:114-138 | The method answers, and changes the filesystem, as `RouteRun` says, through the thumbnail service. |
| ThumbRoute.TestFactoryNeverServes | src/app.js:145-164 | As written, the test route answers 404 "Not found" for a missing original. Otherwise it answers 404 "Thumbnail not available", even when a thumbnail was generated. |
| ThumbRoute.TestFactoryAllowsTraversal | src/app.js:151-157 | As written, `../../n` under `/a/b` sanitises to `../n`. That resolves to `/a/n`, outside the output directory, and the service runs on it. |
| ThumbRoute.JoinedEntryExists | src/app.js:125 | `existsSync` finds an entry of a joined path that does not end in '/'. |
| ThumbRoute.ServeTestThumbnail | src/app.js:142-166 | The method answers as `TestRouteRun` says. |
| ThumbRoute.TestRouteIntendedOutcomes | src/app.js:145-164 | The test route as intended changes files only for an original inside the output directory. When generation succeeds, it sends the cache file with `public, max-age=60`, or passes a 404 on for a cache file whose name starts with '.'. |
| Access.StartsWithAny | src/app.js:217 | True exactly when some prefix in the list starts the path. |
| Access.AuthGate | src/app.js:214-222 | `next()` exactly for a session with a user id, or a path starting with one of `/auth`, `/static`, `/shared`, `/health`, `/__cache-policy`, `/socket.io` or `/api`. Otherwise the auth page. |
| Access.OpenBelowPrefix | src/app.js:217 | Everything below an open prefix is open. |
| Access.PrefixNotSegment | src/app.js:217 | A prefix is not a path segment: `/apis` and `/authors` are open too. |
| Access.ClosedBySecondChar | src/app.js:217 | An anonymous path whose second character is none of `a s h _` needs sign-in. |
| Access.DashboardNeedsSignIn | src/app.js:214-222 | `/dashboard` needs sign-in. |
| Access.RequireAuth | src/app.js:498 | It passes exactly for a session with a user id. Otherwise 401 "Not authenticated". |
| Access.RequireAdmin | src/app.js:499 | It passes exactly for a session whose user's role is `admin` or `superadmin`. Otherwise 403 "Forbidden". |
| Access.AdminGuardOutcomes | src/app.js:498-499 | The chained guards pass exactly for a signed-in admin. Anonymous callers get 401 and other signed-in users 403. |
| Access.AnonymousApiIs401 | src/app.js:498 | `/api/...` passes the gate anonymously, but its admin handlers answer 401. |
| Access.LookupOutcome | src/app.js:181-189 | A live cache entry (non-zero stamp, younger than 5000 ms, value known) is returned whatever the database says. Otherwise the query's answer is stored with its stamp and returned. |
| Access.EmptyCacheQueries | src/app.js:180-186 | The initial cache always queries. |
| Access.FailedQueryMeansAdmin | src/app.js:187 | A failed query counts as "an admin exists". |
| Access.FalseOnlyFromEmptyRows | src/app.js:183-187 | "No admin" comes only from a cached "no admin" or an empty result. |
| Access.SecondLookupCached | src/app.js:181-188 | After a query, a second lookup within 5000 ms of its stamp returns the same answer without a query. |
| Access.AdminCreatedIsSeen | src/app.js:192-194 | After the first-admin event, lookups within 5000 ms answer "an admin exists". |
| Access.SignupOnlyWithoutAdmin | src/app.js:196-211 | Signup is disabled exactly when an admin is known. It is offered only on evidence of no admin. `isAuthenticated` holds exactly for a session with a user id. |
| Access.AdminPresenceCache.EnsureAdminPresenceFlag | src/app.js:181-189 | The method answers and updates the cache as `Lookup` says. |
| Access.AdminPresenceCache.OnFirstAdminCreated | src/app.js:192-194 | The event sets the cache to "admin exists" with the event's stamp. |
| Access.AdminPresenceCache.constructor | src/app.js:180 | The cache starts unknown, with no stamp. |
| Stats.Days | src/app.js:237-241 | 30 exactly for `30d`; otherwise 7. |
| Stats.DateCondRule | src/app.js:234-243 | No condition exactly for `all`. Otherwise ` AND col >= ` plus the start of a 30-day window for `30d`, or a 7-day window for anything else, in the driver's dialect. |
| Stats.UnknownPeriodIsSevenDays | src/app.js:232-243 | An unknown period gives the same window as no period. |
| MediaActions.SplitOn | src/app.js:557 | No piece holds a separator, and there is at least one piece. |
| MediaActions.SplitOnConcat | src/app.js:557 | A separator cuts the string in two. The pieces are those of the left part followed by those of the right part. |
| MediaActions.SplitOnPlain | src/app.js:557 | A string without separators is one piece, itself. |
| MediaActions.Dedupe | src/app.js:557 | `Array.from(new Set(xs))`: no duplicates, the same values, in the order of first occurrence. |
| MediaActions.Clipped | src/app.js:557 | `slice(0, 40)` on each tag: the same number of tags, each the first 40 characters of its piece. |
| MediaActions.CandidatesAreTags | src/app.js:557 | Every trimmed, lower-cased, non-empty, clipped piece is a valid tag. An empty value gives none. |
| MediaActions.ParseTags | src/app.js:557 | Every tag is non-empty, at most 40 characters, and free of spaces, commas and upper-case ASCII. There are no duplicates. Null, undefined and `""` give none. |
| MediaActions.ParseTagsOrder | src/app.js:557 | The tags are exactly the trimmed, lower-cased, clipped pieces, each once, ordered by first appearance. |
| MediaActions.ParseTagsOfTwo | src/app.js:557 | Two different tags with a space or a comma between them, such as `a,b`, parse to exactly those two tags, in order. |
| MediaActions.CandidatesOfTwo | src/app.js:557 | The split, trimmed, lower-cased, filtered and clipped pieces of `a,b` are `a` and `b`. |
| MediaActions.CleanedOfClean | src/app.js:557 | Pieces that are already tags, with no whitespace at either end, come through trimming, lower-casing and filtering unchanged. |
| MediaActions.DedupeOfTwo | src/app.js:557 | `new Set` keeps two different values in their order. |
| MediaActions.TagIsClean | src/app.js:557 | A tag with no whitespace at either end is its own `trim().toLowerCase()`. |
| JsValues.Trim | src/app.js:557 | `trim()` keeps the slice of the string after its leading whitespace, with only whitespace after that slice. The result neither starts nor ends with whitespace. |
| JsValues.TrimUntrimmed | src/app.js:557 | A string that neither starts nor ends with whitespace is its own trim. |
| MediaActions.KnownNames | src/app.js:559-609 | Exactly the seven action names select a branch. |
| MediaActions.Validate | src/app.js:555-609 | Accepted requests carry non-empty ids and an action. |
| MediaActions.ValidateRefusals | src/app.js:555-609 | Every refusal is a 400. Missing or empty ids answer "No ids" before anything else. "Unknown action" comes exactly for an action outside the seven. |
| MediaActions.ValidateCommands | src/app.js:560-608 | With ids present, an accepted command is the one its action names. `rename` succeeds exactly when the title is truthy, and then carries it; otherwise the answer is "title required". `add_tags`/`remove_tags` fail exactly when no tag parses, with "tags required"; otherwise they are `AddTags`/`RemoveTags` of the parsed tags. `replace_tags` always succeeds with the parsed tags, none at all for a missing or empty `tags`. `deactivate`, `activate` and `delete` always succeed with their own command. |
| MediaActions.NameOf | src/app.js:559-609 | A recognised action name implies that an action was sent. |
| MediaActions.NameOfSpelling | src/app.js:559-609 | An action selects a branch exactly when it is that branch's spelling. |
| MediaActions.PairsMember | src/app.js:580-586 | The pairs of the insert loops are exactly those of a listed id with a listed tag. |
| MediaActions.RefusalChangesNothing | src/app.js:552-612 | Every refusal, guard or validation, leaves both tables unchanged. Only a signed-in admin's valid request changes them. |
| MediaActions.RemoveTagsEffect | src/app.js:589-595 | Exactly the pairs (listed id, listed tag) are deleted, and `affected` is how many. |
| MediaActions.AddTagsEffect | src/app.js:577-587 | Every pair (listed id, listed tag) is present afterwards and no other pair is added. `affected` is ids × tags, counting ignored inserts. |
| MediaActions.ReplaceTagsEffect | src/app.js:596-607 | Each listed id has exactly the parsed tags (none for an empty list). Other ids keep their pairs. `affected` is ids × tags. |
| MediaActions.RowActionsEffect | src/app.js:560-576 | `rename`/`activate`/`deactivate` change only their column on the listed existing rows. `delete` removes exactly those rows. No row is added and tags are untouched. `affected` is the number of matched rows. |
| MediaActions.MediaDb.InsertPairs | src/app.js:577-608 | The nested loops add every (id, tag) pair and count ids × tags inserts. |
| MediaActions.MediaDb.RunCommand | src/app.js:559-611 | The queries of a validated action change the tables, and count, as `Apply` says. |
| MediaActions.MediaDb.HandleMediaAction | src/app.js:553-612 | The handler replies, and changes the tables, as `Handle` says. |
| MediaActions.MediaDb.constructor | src/app.js:552 | The tables start as given. |
| AdminClient.RunLength | src/public/js/admin.js:198 | The run of special characters at the start is maximal. |
| AdminClient.EscapeRunsHasNoMarkup | src/public/js/admin.js:198 | The output of `escapeHtml` never contains `<`, `>` or `"`. |
| AdminClient.EscapeHtmlOfNothing | src/public/js/admin.js:198 | `escapeHtml` of null, undefined or `""` is `""`. |
| AdminClient.EscapeRunsStep | src/public/js/admin.js:198 | An ordinary character is copied. A special one not followed by another becomes its entity. A run of two or more becomes `undefined`. |
| AdminClient.ReplaceApostrophesEffect | src/public/js/admin.js:199 | Replacing `'` leaves no apostrophe. It keeps markup-free text markup-free and changes nothing without apostrophes. |
| AdminClient.EscapeAttrIsSafe | src/public/js/admin.js:199 | The output of `escapeAttr` has no apostrophe, `<`, `>` or `"`. |
| AdminClient.EscapeRunsCollapses | src/public/js/admin.js:198 | `<>`, `<<` and `">` all escape to `undefined`. |
| AdminClient.EscapeRunsLosesText | src/public/js/admin.js:198 | As written, `<>` cannot be read back. Per-character escaping of it can. |
| AdminClient.EscapeCharsRoundTrip | src/public/js/admin.js:198 | Per-character escaping is undone by reading the four entities back. |
| AdminClient.EscapeRunsAgrees | src/public/js/admin.js:198 | With no two special characters adjacent, the code as written escapes per character. |
| AdminClient.ApplyRules | src/public/js/admin.js:55-140 | User Apply is enabled exactly with rows selected, an action, and a role for `change_role`. Media Apply is enabled exactly with rows, an action, and a non-empty category or title when the action shows that input. Each input is shown for its own action alone. |
| AdminClient.BodyFields | src/public/js/admin.js:72-155 | A body is sent exactly when an action is chosen. It holds that action and the ids, plus only the field of `change_role`, `set_category` or `rename`, trimmed. |
| BulkFlow.MediaClickOutcome | src/public/js/admin.js:133-155 | For an enabled media Apply, this handler (src/app.js:555-609) never answers "No ids". It accepts deactivate, activate and delete. It accepts rename exactly when the trimmed title is non-empty. It answers "Unknown action" for `set_category`. |
| BulkFlow.RenameClick | src/public/js/admin.js:139-155 | An enabled rename click is refused with "title required" exactly when the trimmed title is empty. Otherwise it renames to the trimmed title. |
| BulkFlow.SetCategoryClick | src/public/js/admin.js:139-155 | An enabled `set_category` click is refused with 400 "Unknown action" (src/app.js:609). |
| BulkFlow.SetCategoryIsUnknown | src/app.js:559-609 | `set_category` selects no branch of the handler. |
| BulkFlow.RowActionClick | src/public/js/admin.js:139-155 | An enabled deactivate, activate or delete click is accepted. |
| BulkFlow.MediaRequestFields | src/public/js/admin.js:139-155 | A media body is sent for any chosen action. It reaches the handler with that action and the ids, plus the trimmed title for `rename` alone. |
| BulkFlow.BlankTitleIsRefused | src/public/js/admin.js:139-155 | A title of blanks enables Apply, but the trimmed body is refused with 400 "title required" by the handler at src/app.js:561. |

## Left out

- The `sharp` codec is a parameter: a pair of total functions for metadata and encoding. Each is given what reading the original yields, which is nothing for a directory or a missing entry. Only its mock fallback is defined, and it ignores that input, as the mock ignores its path. Image decoding, resizing and JPEG encoding are not modelled.
- The service's own `stat` and read of an original named with a trailing '/' find a file, where Node answers ENOTDIR. Neither route passes such a name for a file to the service, because `existsSync` rejects it first (`ThumbRoute.TrailingSlashOnFileIsNotFound`).
- Thumbnails.TargetSizeFits: uses exact rational arithmetic with round-half-up instead of the floating-point aspect ratio. Results sitting exactly on .5 may differ from JavaScript doubles.
- Numbers are integers, NaN or ±Infinity; fractional query values are not modelled. `Number(string)` parsing of query parameters is left out: the route receives the resulting number.
- URL decoding of `:rest(*)` and Express routing are left out. The route gets the decoded parameter.
- Real filesystem behaviour is left out: mtime resolution, `fs.existsSync` on dangling links, permissions, `express.static`, and `res.sendFile` streaming. The response records the path, the Cache-Control and the Content-Type.
- A 404 that `res.sendFile` passes on (`ThumbRoute.Forwarded`) is answered by Express's final handler, whose body and headers are not modelled. The dotfile rule is read off the last segment of the cache file's key. That segment is the last part `send` sees, because the sent path is joined onto an absolute output directory.
- ThumbRoute.TestRouteIntendedOutcomes: sends the cache path even for a relative output directory, where `res.sendFile` would throw. The intended route is taken to pass an absolute path.
- Concurrency is left out: two requests racing on one cache file, and `Promise.all` ordering. Each call runs to completion with one clock value.
- `mkdir` and `writeFile` updating the parent directory's mtime is not modelled.
- The 500 path of the media handler is left out: a thrown database error answers "Action failed". Queries are modelled as succeeding.
- MediaActions.AddTagsEffect: the PostgreSQL driver rejects `INSERT OR IGNORE`. That makes each insert throw and leaves `inserted` at 0. Only the SQLite meaning is modelled.
- MediaActions.ReplaceTagsEffect: under PostgreSQL the same rejection leaves the listed ids with no tags at all after the `DELETE`, and reports 0 (src/app.js:598-606). Only the SQLite meaning is modelled.
- MediaActions.MediaDb.InsertPairs: counts one insert per pair, ignored ones included, as SQLite does. PostgreSQL's rejection of each insert is left out, as for the two lemmas above.
- MediaActions.Clipped: counts Unicode scalar values, whereas `slice(0, 40)` counts UTF-16 code units. A tag made of characters outside the Basic Multilingual Plane keeps 40 of them here and 20 in JavaScript, and JavaScript may cut one such character in half. Dafny strings hold scalar values, so a lone surrogate cannot be represented. The 40-character bound of `ParseTags` is in the same units.
- PosixPath.ParseName: Node's `path.parse('/..').name` is "." (its test for a `..` base looks for the dots at index 0, but the base starts after the root), where the model gives "..". Both routes strip leading separators before the cache name is taken, so this rooted case never reaches the service.
- Text answers record only a status and a body, not headers. The test factory's 404 after `sendFile` throws also carries the headers set at src/app.js:158 (`public, max-age=60` and `image/jpeg`, to which Express adds `; charset=utf-8` when sending text). The model answers it as a bare 404.
- Deleting media does not touch `media_tags` in the model. A cascade in the database schema is not part of this model.
- Request bodies are typed: `ids` is a list of integers (None when not an array), and `title` and `tags` are strings. A `tags` array reaches `String()` as its comma-joined text, which is the string modelled.
- `toLowerCase` and `trim` are modelled on ASCII letters and the ECMAScript whitespace listed in `JsValues.IsWhitespace`. Unicode case mapping is left out.
- A session user's id is an integer, with 0 standing for a missing id (falsy in JavaScript).
- The presence cache's database query is an input. It is given on every call but used only on a miss.
- The shared NudeShared routers mounted on `/api` before the media handler (src/app.js:502-548) are not part of this model. Among them is the admin media router, which may answer `/api/admin/media/actions` requests, `set_category` among them, before this handler runs. Their source is not available.
- The rest of the statistics handler is left out: its SQL queries, averages and rates (src/app.js:244-482).
- DOM work in admin.js is left out: rendering, `getSelected`, timers, `fetch`, `fmtTime` and the settings form.
- The Express layout override, sessions, start-up, database initialisation and migrations are left out.

## Findings

| source | as written | input that shows it | evidently intended | confidence | as-written member | corrected member |
|---|---|---|---|---|---|---|
| src/public/js/admin.js:198 | `/[&<>"]+/g` looks each whole run up in a four-entry table, so a run of two or more specials becomes `undefined` | `escapeHtml('a<>b')` is `aundefinedb`; `<<` and `<>` escape alike | escape each special character on its own (`/[&<>"]/g`) | not executed; high | AdminClient.EscapeRunsLosesText | AdminClient.EscapeCharsRoundTrip |
| src/app.js:157-159 | `getOrCreateOutputThumbnail` returns a string, so `result.filePath` is undefined; `sendFile(undefined)` throws and the catch answers 404 | any existing original, e.g. `sample.png` in the output directory | send the returned path with `public, max-age=60` | not executed; high | ThumbRoute.TestFactoryNeverServes | ThumbRoute.TestRouteIntendedOutcomes |
| src/app.js:151-155 | the test route sanitises but never compares `path.relative` with `..` | output dir `/a/b`, path `../../n` is read and thumbnailed from `/a/n` | the same traversal check as the admin route (src/app.js:123-124) | not executed; high | ThumbRoute.TestFactoryAllowsTraversal | ThumbRoute.TestRouteIntendedOutcomes |
