/**
 * The thumbnail cache service (src/services/thumbnails.js): clamps the
 * resize options, maps a file under the output directory to its cached
 * JPEG under `<outputDir>/.thumbs/`, re-renders only when the cache is older
 * than the original, shrinks to a target size that keeps the aspect ratio
 * and never enlarges, pads the encoded bytes to at least 120 and writes
 * them only once encoding has succeeded.
 *
 * The image library is a `Codec` oracle: given the original's bytes it
 * reports metadata and encodes a resized JPEG, either of which may fail.
 */
module Thumbnails {
  import opened Wrappers
  import opened JsValues
  import opened PosixPath
  import opened FileStore

  /** The `opts` argument; a missing property is `None`. */
  datatype ThumbOptions = ThumbOptions(w: Option<JsNumber>, h: Option<JsNumber>, quality: Option<JsNumber>)

  /** Number(x) for a property that is a number or undefined. */
  function NumberOf(x: Option<JsNumber>): JsNumber
  {
    if x.None? then NaN else x.value
  }

  /**
   * Math.max(lo, Math.min(hi, Number(x) || dflt)): a falsy value (missing,
   * zero, NaN) takes the default and everything else is clamped into range.
   */
  function Clamp(x: Option<JsNumber>, dflt: int, lo: int, hi: int): (r: int)
    requires lo <= dflt <= hi
    ensures lo <= r <= hi
    ensures !Truthy(NumberOf(x)) ==> r == dflt
    ensures NumberOf(x).Finite? && NumberOf(x).value != 0 && lo <= NumberOf(x).value <= hi ==> r == NumberOf(x).value
    ensures NumberOf(x).Finite? && NumberOf(x).value != 0 && NumberOf(x).value > hi ==> r == hi
    ensures NumberOf(x).Finite? && NumberOf(x).value != 0 && NumberOf(x).value < lo ==> r == lo
    ensures NumberOf(x) == PosInfinity ==> r == hi
    ensures NumberOf(x) == NegInfinity ==> r == lo
  {
    var n := NumberOf(x);
    if !Truthy(n) then Max(lo, Min(hi, dflt))
    else match n
      case Finite(v) => Max(lo, Min(hi, v))
      case PosInfinity => hi
      case _ => lo
  }

  function Width(opts: ThumbOptions): int { Clamp(opts.w, 480, 32, 2048) }
  function Height(opts: ThumbOptions): int { Clamp(opts.h, 0, 0, 2048) }
  function Quality(opts: ThumbOptions): int { Clamp(opts.quality, 75, 40, 90) }

  /** The three clamped options always land in their ranges, with their defaults for falsy input. */
  lemma OptionRanges(opts: ThumbOptions)
    ensures 32 <= Width(opts) <= 2048 && 0 <= Height(opts) <= 2048 && 40 <= Quality(opts) <= 90
    ensures !Truthy(NumberOf(opts.w)) ==> Width(opts) == 480
    ensures !Truthy(NumberOf(opts.h)) ==> Height(opts) == 0
    ensures !Truthy(NumberOf(opts.quality)) ==> Quality(opts) == 75
  {
  }

  datatype CachePaths = CachePaths(cacheDir: string, cacheFile: string)

  /** The cache directory's name inside the output directory. */
  const ThumbsDir: string := ".thumbs"

  /** getOutputThumbCachePath: `<outputDir>/.thumbs/<name without extension>.jpg`. */
  function OutputThumbCachePath(outputDir: string, filename: string): CachePaths
  {
    var cacheDir := Join(outputDir, ThumbsDir);
    CachePaths(cacheDir, Join(cacheDir, ParseName(filename) + ".jpg"))
  }

  /** The name of the cached file: the original's stem with a `.jpg` extension. */
  function CacheName(filename: string): (n: string)
    ensures IsName(n)
  {
    var n := ParseName(filename) + ".jpg";
    assert n[|n| - 4..] == ".jpg";
    assert Sep !in n by {
      forall i | 0 <= i < |n| ensures n[i] != Sep {
        if i < |ParseName(filename)| { assert n[i] in ParseName(filename); }
      }
    }
    n
  }

  /**
   * Where the cache lives, wherever `outputDir` points: the cache directory
   * is `.thumbs` inside it and the cache file sits directly in there.
   */
  lemma CacheFileLocation(cwd: string, outputDir: string, filename: string)
    ensures ResolveSegs(cwd, OutputThumbCachePath(outputDir, filename).cacheDir) == ResolveSegs(cwd, outputDir) + [ThumbsDir]
    ensures ResolveSegs(cwd, OutputThumbCachePath(outputDir, filename).cacheFile)
      == ResolveSegs(cwd, outputDir) + [ThumbsDir, CacheName(filename)]
  {
    assert IsName(ThumbsDir) by { assert Sep !in ThumbsDir; }
    ResolveJoinNames(cwd, outputDir, ThumbsDir, CacheName(filename));
  }

  /** `stem.ext` is cached as `stem.jpg`, whatever the extension was (`sample.png` as `sample.jpg`). */
  lemma CacheNameOfStem(stem: string, ext: string)
    requires stem != "" && Sep !in stem && Sep !in ext && '.' !in ext
    requires stem + "." + ext != ".."
    ensures CacheName(stem + "." + ext) == stem + ".jpg"
  {
    ParseNameDropsExtension(stem, ext);
  }

  /**
   * A subdirectory and the original extension are both dropped: `a.png` and
   * `sub/a.jpg` share one cache file.
   */
  lemma CacheNameCollision(outputDir: string, dir: string, stem: string, ext1: string, ext2: string)
    requires stem != "" && Sep !in stem && Sep !in ext1 && Sep !in ext2 && '.' !in ext1 && '.' !in ext2
    requires stem + "." + ext1 != ".." && stem + "." + ext2 != ".."
    ensures OutputThumbCachePath(outputDir, stem + "." + ext1)
         == OutputThumbCachePath(outputDir, dir + [Sep] + stem + "." + ext2)
  {
    var n2 := stem + "." + ext2;
    assert Sep !in n2 by {
      forall i | 0 <= i < |n2| ensures n2[i] != Sep {
        if i < |stem| { assert n2[i] in stem; }
        else if i > |stem| { assert n2[i] == ext2[i - |stem| - 1]; assert n2[i] in ext2; }
      }
    }
    ParseNameDropsExtension(stem, ext1);
    ParseNameDropsExtension(stem, ext2);
    Regroup(dir + [Sep], stem, ".", ext2);
    ParseNameIgnoresDirectory(dir, n2);
  }

  /** Image dimensions as the codec reports them; 0 stands for a missing value. */
  datatype Metadata = Metadata(width: nat, height: nat)

  /** The arguments handed to resize(); a `None` height lets the codec choose. */
  datatype Resize = Resize(width: int, height: Option<int>)

  /** Math.round(a / b) for non-negative `a` and positive `b`: the nearest integer, halves rounded up. */
  function RoundDiv(a: nat, b: nat): (r: nat)
    requires b > 0
    ensures 2 * a - b < 2 * b * r <= 2 * a + b
  {
    (2 * a + b) / (2 * b)
  }

  lemma LessByFactor(k: nat, a: int, b: int)
    requires k > 0 && k * a < k * b
    ensures a < b
  {
    assert k * a - k * b == k * (a - b);
  }

  /**
   * Scaling the long side `long` by short/native-long and rounding gives a
   * short side no longer than `long`, within half a unit of the exact ratio.
   */
  lemma ScaledSide(long: nat, short: nat, nativeLong: nat)
    requires nativeLong > 0 && short <= nativeLong
    ensures var s := RoundDiv(long * short, nativeLong);
      s <= long && -(nativeLong as int) < 2 * (s * nativeLong - long * short) <= nativeLong
  {
    var a := long * short;
    var s := RoundDiv(a, nativeLong);
    ProductAtMost(long, short, nativeLong);
    RoundedWithin(a, nativeLong, s);
    RoundedAtMost(a, nativeLong, s, long);
  }

  lemma ProductAtMost(k: nat, a: nat, b: nat)
    requires a <= b
    ensures k * a <= k * b
  {
    assert k * b - k * a == k * (b - a);
  }

  /** A quotient rounded to the nearest integer is within half a unit of the exact one. */
  lemma RoundedWithin(a: nat, b: nat, s: nat)
    requires b > 0 && 2 * a - b < 2 * b * s <= 2 * a + b
    ensures -(b as int) < 2 * (s * b - a) <= b
  {
    assert 2 * (s * b - a) == 2 * b * s - 2 * a;
  }

  /** A rounded quotient of `a` by `b` is at most `l` when `a` is at most `l·b`. */
  lemma RoundedAtMost(a: nat, b: nat, s: nat, l: nat)
    requires b > 0 && 2 * b * s <= 2 * a + b && a <= l * b
    ensures s <= l
  {
    assert b * (2 * s) == 2 * b * s;
    assert b * (2 * l + 2) == 2 * (l * b) + 2 * b;
    LessByFactor(b, 2 * s, 2 * l + 2);
  }

  /**
   * The two sides of a scaled image whose native sides are `long` ≥ `short`:
   * the long side is min(width, long), and the short side is at most the
   * long one and within half a pixel of long side × short / long.
   */
  predicate Fits(width: int, long: nat, short: nat, rl: int, rs: int)
  {
    && rl == Min(width, long) && 0 <= rs <= rl
    && -(long as int) < 2 * (rs * long - rl * short) <= long
  }

  /** Capping the long side at `width` and rounding the scaled short side fits. */
  lemma ScaledTarget(width: int, long: nat, short: nat)
    requires 32 <= width && 0 < short <= long
    ensures Fits(width, long, short, Min(width, long), RoundDiv(Min(width, long) * short, long))
  {
    ScaledSide(Min(width, long), short, long);
  }

  /** The resize target of lines 68-79. */
  function TargetSize(width: int, height: int, meta: Metadata): Resize
    requires 32 <= width && 0 <= height
  {
    if height != 0 || meta.width == 0 || meta.height == 0 then
      Resize(width, if height == 0 then None else Some(height))
    else if meta.width >= meta.height then
      var rw := Min(width, meta.width);
      Resize(rw, Some(RoundDiv(rw * meta.height, meta.width)))
    else
      var rh := Min(width, meta.height);
      Resize(RoundDiv(rh * meta.width, meta.height), Some(rh))
  }

  /**
   * With an explicit height, or metadata lacking a dimension, the clamped
   * options are passed on. Otherwise the long side becomes min(width, native
   * long side) and the short side follows the aspect ratio, rounded; neither
   * side then exceeds the requested width or the native long side.
   */
  lemma TargetSizeFits(width: int, height: int, meta: Metadata)
    requires 32 <= width && 0 <= height
    ensures var r := TargetSize(width, height, meta);
      && (height != 0 || meta.width == 0 || meta.height == 0 ==>
            r == Resize(width, if height == 0 then None else Some(height)))
      && (height == 0 && meta.width > 0 && meta.height > 0 ==>
            && r.height.Some?
            && (meta.width >= meta.height ==> Fits(width, meta.width, meta.height, r.width, r.height.value))
            && (meta.width < meta.height ==> Fits(width, meta.height, meta.width, r.height.value, r.width)))
  {
    if height == 0 && meta.width > 0 && meta.height > 0 {
      if meta.width >= meta.height {
        ScaledTarget(width, meta.width, meta.height);
      } else {
        ScaledTarget(width, meta.height, meta.width);
      }
    }
  }

  /** The 120×80 sample at w=200 is rendered at its own size: it is never enlarged. */
  lemma SampleTargetSize()
    ensures TargetSize(200, 0, Metadata(120, 80)) == Resize(120, Some(80))
  {
  }

  function Zeros(n: nat): (z: seq<byte>)
    ensures |z| == n && forall i :: 0 <= i < n ==> z[i] == 0
  {
    seq(n, _ => 0 as byte)
  }

  /** Buffer.concat([buf, Buffer.alloc(120 - buf.length)]) when the buffer is shorter than 120 bytes. */
  function Pad(buf: seq<byte>): (r: seq<byte>)
    ensures |r| == Max(|buf|, 120)
    ensures r[..|buf|] == buf
    ensures forall i :: |buf| <= i < |r| ==> r[i] == 0
  {
    if |buf| < 120 then buf + Zeros(120 - |buf|) else buf
  }

  /**
   * The image library: metadata() and resize().jpeg().toBuffer() on the
   * original's path, given what reading that path yields (None for a
   * directory or a missing entry).
   */
  datatype Codec = Codec(
    metadata: Option<seq<byte>> -> Option<Metadata>,
    encode: (Option<seq<byte>>, Resize, int) -> Option<seq<byte>>)

  /**
   * The stand-in used when the native library is missing: it never opens
   * the original, and reports a 1×1 image that encodes to one zero byte.
   */
  const MockCodec: Codec := Codec(_ => Some(Metadata(1, 1)), (_, _, _) => Some([0 as byte]))

  datatype ThumbError = CacheDirFailed | MetadataFailed | EncodeFailed | WriteFailed

  /** What a call returns, and the filesystem afterwards. */
  datatype Run = Run(result: Result<string, ThumbError>, entries: Entries)

  /**
   * The paths one call works with: the cache path it answers with, and the
   * resolved keys of the original, the cache directory and the cache file.
   */
  datatype Plan = Plan(cacheFile: string, origKey: Key, dirKey: Key, cacheKey: Key)

  /** The cache file sits directly in the cache directory. */
  predicate InCacheDir(p: Plan)
  {
    |p.cacheKey| == |p.dirKey| + 1 && p.cacheKey[..|p.dirKey|] == p.dirKey
  }

  /**
   * The paths one call works with: the original joined onto the output
   * directory, the cache path, and the resolved keys of the cache directory
   * and the cache file.
   */
  function PlanOf(cwd: string, outputDir: string, filename: string): (p: Plan)
    ensures p.cacheFile == OutputThumbCachePath(outputDir, filename).cacheFile
    ensures p.origKey == ResolveSegs(cwd, Join(outputDir, filename))
    ensures InCacheDir(p)
  {
    var dirKey := ResolveSegs(cwd, outputDir) + [ThumbsDir];
    var cacheKey := dirKey + [CacheName(filename)];
    assert cacheKey[..|dirKey|] == dirKey;
    Plan(OutputThumbCachePath(outputDir, filename).cacheFile, ResolveSegs(cwd, Join(outputDir, filename)), dirKey, cacheKey)
  }

  /**
   * The plan's keys are where getOutputThumbCachePath's two paths resolve:
   * `.thumbs` inside the output directory and the cache name inside that.
   */
  lemma PlanOfPaths(cwd: string, outputDir: string, filename: string)
    ensures var p := PlanOf(cwd, outputDir, filename);
      var paths := OutputThumbCachePath(outputDir, filename);
      && p.dirKey == ResolveSegs(cwd, paths.cacheDir) == ResolveSegs(cwd, outputDir) + [ThumbsDir]
      && p.cacheKey == ResolveSegs(cwd, paths.cacheFile) == p.dirKey + [CacheName(filename)]
  {
    CacheFileLocation(cwd, outputDir, filename);
    var base := ResolveSegs(cwd, outputDir);
    SegsAppend(base, ThumbsDir, CacheName(filename));
  }

  // Single regrouping steps of CacheNameCollision and PlanOfPaths, each kept
  // in a lemma of its own so that those proofs see only the equation they use.

  /** Regrouping a concatenation of four strings. */
  lemma Regroup(a: string, b: string, c: string, d: string)
    ensures a + b + c + d == a + (b + c + d)
  {
  }

  /** Appending two segments one at a time. */
  lemma SegsAppend(base: seq<string>, a: string, b: string)
    ensures (base + [a]) + [b] == base + [a, b]
  {
  }

  /** Both stats succeed and the cache is at least as new as the original. */
  predicate Fresh(e: Entries, p: Plan)
  {
    p.origKey in e && p.cacheKey in e && e[p.cacheKey].mtime >= e[p.origKey].mtime
  }

  /**
   * Measuring, resizing and encoding the original; the padded bytes on
   * success. Whether the original can be read is the codec's business.
   */
  function Render(e: Entries, origKey: Key, codec: Codec, width: int, height: int, quality: int): Result<seq<byte>, ThumbError>
    requires 32 <= width && 0 <= height
  {
    Encode(codec, Read(e, origKey), width, height, quality)
  }

  /** metadata(), then resize(target).jpeg().toBuffer(), then padding. */
  function Encode(codec: Codec, data: Option<seq<byte>>, width: int, height: int, quality: int): Result<seq<byte>, ThumbError>
    requires 32 <= width && 0 <= height
  {
    match codec.metadata(data)
    case None => Failure(MetadataFailed)
    case Some(meta) =>
      match codec.encode(data, TargetSize(width, height, meta), quality)
      case None => Failure(EncodeFailed)
      case Some(buf) => Success(Pad(buf))
  }

  /** Render with the clamped options. */
  function RenderWith(e: Entries, p: Plan, codec: Codec, opts: ThumbOptions): Result<seq<byte>, ThumbError>
  {
    OptionRanges(opts);
    Render(e, p.origKey, codec, Width(opts), Height(opts), Quality(opts))
  }

  /**
   * One call on the paths of `p`: ensure the cache directory, skip the work
   * when the cache is fresh, otherwise render and write, and answer with
   * the cache path.
   */
  function RunPlan(e: Entries, p: Plan, codec: Codec, opts: ThumbOptions, now: int): Run
  {
    match Mkdir(e, p.dirKey, now)
    case None => Run(Failure(CacheDirFailed), e)
    case Some(e1) =>
      if Fresh(e1, p) then Run(Success(p.cacheFile), e1)
      else
        match RenderWith(e1, p, codec, opts)
        case Failure(err) => Run(Failure(err), e1)
        case Success(bytes) =>
          match Write(e1, p.cacheKey, bytes, now)
          case None => Run(Failure(WriteFailed), e1)
          case Some(e2) => Run(Success(p.cacheFile), e2)
  }

  /** getOrCreateOutputThumbnail(outputDir, filename, opts) as a function of the filesystem before the call. */
  function ThumbnailRun(e: Entries, cwd: string, codec: Codec, outputDir: string, filename: string,
                        opts: ThumbOptions, now: int): Run
  {
    RunPlan(e, PlanOf(cwd, outputDir, filename), codec, opts, now)
  }

  /** The service object: the filesystem it owns and the image library it calls. */
  class ThumbnailService {
    const fs: FileSystem
    const codec: Codec

    constructor (fs: FileSystem, codec: Codec)
      ensures this.fs == fs && this.codec == codec
    {
      this.fs := fs;
      this.codec := codec;
    }

    /** Create or reuse the cached thumbnail of `filename` under `outputDir`; the cache path on success. */
    method GetOrCreateOutputThumbnail(outputDir: string, filename: string, opts: ThumbOptions, now: int)
      returns (r: Result<string, ThumbError>)
      modifies fs
      ensures Run(r, fs.entries) == ThumbnailRun(old(fs.entries), fs.cwd, codec, outputDir, filename, opts, now)
      ensures old(fs.Valid()) ==> fs.Valid()
    {
      var plan := PlanOf(fs.cwd, outputDir, filename);
      r := GetOrCreate(plan, opts, now);
    }

    /** The body of getOrCreateOutputThumbnail once the original and cache paths are known. */
    method GetOrCreate(plan: Plan, opts: ThumbOptions, now: int) returns (r: Result<string, ThumbError>)
      modifies fs
      ensures Run(r, fs.entries) == RunPlan(old(fs.entries), plan, codec, opts, now)
      ensures old(fs.Valid()) ==> fs.Valid()
    {
      OptionRanges(opts);
      var width := Clamp(opts.w, 480, 32, 2048);
      var height := Clamp(opts.h, 0, 0, 2048);
      var quality := Clamp(opts.quality, 75, 40, 90);

      var made := fs.MakeDirectory(plan.dirKey, now);
      if !made {
        return Failure(CacheDirFailed);
      }

      var needsRender := true;
      var origStat := fs.Stat(plan.origKey);
      var cacheStat := fs.Stat(plan.cacheKey);
      if origStat.Some? && cacheStat.Some? && cacheStat.value >= origStat.value {
        needsRender := false;
      }

      if needsRender {
        var data := fs.ReadFile(plan.origKey);
        var buf := RenderOriginal(data, width, height, quality);
        if buf.Failure? {
          return Failure(buf.error);
        }
        var written := fs.WriteFile(plan.cacheKey, buf.value, now);
        if !written {
          return Failure(WriteFailed);
        }
      }
      return Success(plan.cacheFile);
    }

    /** The rendering step: measure, choose the target size, encode and pad. */
    method RenderOriginal(data: Option<seq<byte>>, width: int, height: int, quality: int)
      returns (r: Result<seq<byte>, ThumbError>)
      requires 32 <= width && 0 <= height
      ensures r == Encode(codec, data, width, height, quality)
    {
      var meta := codec.metadata(data);
      if meta.None? {
        return Failure(MetadataFailed);
      }
      var resizeW := width;
      var resizeH := if height == 0 then None else Some(height);
      if height == 0 && meta.value.width > 0 && meta.value.height > 0 {
        var mw, mh := meta.value.width, meta.value.height;
        if mw >= mh {
          resizeW := Min(width, mw);
          resizeH := Some(RoundDiv(resizeW * mh, mw));
        } else {
          var h := Min(width, mh);
          resizeH := Some(h);
          resizeW := RoundDiv(h * mw, mh);
        }
      }
      assert Resize(resizeW, resizeH) == TargetSize(width, height, meta.value);
      var encoded := codec.encode(data, Resize(resizeW, resizeH), quality);
      if encoded.None? {
        return Failure(EncodeFailed);
      }
      var buf := encoded.value;
      if |buf| < 120 {
        var pad := Zeros(120 - |buf|);
        buf := buf + pad;
      }
      return Success(buf);
    }
  }

  // -----------------------------------------------------------------------
  // What a call does to the cache

  /**
   * The cache directory is ensured before anything else: unless mkdir
   * itself failed, every directory on the way to `.thumbs` exists
   * afterwards, a cache hit included.
   */
  lemma CacheDirEnsuredFirst(e: Entries, p: Plan, codec: Codec, opts: ThumbOptions, now: int)
    requires InCacheDir(p)
    ensures var run := RunPlan(e, p, codec, opts, now);
      run.result != Failure(CacheDirFailed) ==>
        forall i :: 0 <= i <= |p.dirKey| ==> p.dirKey[..i] in run.entries && run.entries[p.dirKey[..i]].Dir?
  {
    MkdirEffect(e, p.dirKey, now);
    forall i | 0 <= i <= |p.dirKey| ensures p.cacheKey != p.dirKey[..i] {
      assert |p.dirKey[..i]| < |p.cacheKey|;
    }
  }

  /**
   * Freshness decides the work: a fresh cache answers at once with no
   * write; otherwise the original is rendered and the call succeeds
   * exactly when rendering and writing do, leaving the padded JPEG in the
   * cache file stamped with the call's time and every other entry as mkdir
   * left it.
   */
  lemma FreshnessDecidesRender(e: Entries, p: Plan, codec: Codec, opts: ThumbOptions, now: int)
    requires Mkdir(e, p.dirKey, now).Some?
    ensures var e1 := Mkdir(e, p.dirKey, now).value;
      var run := RunPlan(e, p, codec, opts, now);
      && (Fresh(e1, p) ==> run == Run(Success(p.cacheFile), e1))
      && (!Fresh(e1, p) ==>
            var rendered := RenderWith(e1, p, codec, opts);
            && (run.result.Success? <==> rendered.Success? && Write(e1, p.cacheKey, rendered.value, now).Some?)
            && (run.result.Success? ==>
                  && run.result.value == p.cacheFile
                  && p.cacheKey in run.entries
                  && run.entries[p.cacheKey] == File(now, rendered.value)
                  && |rendered.value| >= 120
                  && forall k :: k in e1 && k != p.cacheKey ==> k in run.entries && run.entries[k] == e1[k]))
  {
    var e1 := Mkdir(e, p.dirKey, now).value;
    var rendered := RenderWith(e1, p, codec, opts);
    if !Fresh(e1, p) && rendered.Success? && Write(e1, p.cacheKey, rendered.value, now).Some? {
      WriteEffect(e1, p.cacheKey, rendered.value, now);
    }
  }

  /** Whichever way it succeeds, the call answers with the cache path. */
  lemma SuccessIsCachePath(e: Entries, p: Plan, codec: Codec, opts: ThumbOptions, now: int)
    ensures var run := RunPlan(e, p, codec, opts, now);
      run.result.Success? ==> run.result.value == p.cacheFile
  {
  }

  /**
   * A failing call never writes the cache file: it leaves every existing
   * entry as it was and has only added directories.
   */
  lemma FailureWritesNothing(e: Entries, p: Plan, codec: Codec, opts: ThumbOptions, now: int)
    ensures var run := RunPlan(e, p, codec, opts, now);
      run.result.Failure? ==>
        && (forall k :: k in e ==> k in run.entries && run.entries[k] == e[k])
        && (forall k :: k in run.entries && k !in e ==> run.entries[k] == Dir(now))
  {
    MkdirEffect(e, p.dirKey, now);
  }

  /** Writes go only to the cache file: the original and every other file keep their contents. */
  lemma OnlyCacheFileWritten(e: Entries, p: Plan, codec: Codec, opts: ThumbOptions, now: int)
    ensures var run := RunPlan(e, p, codec, opts, now);
      && (forall k :: k in e && k != p.cacheKey ==> k in run.entries && run.entries[k] == e[k])
      && (forall k :: k in run.entries && k !in e && k != p.cacheKey ==> run.entries[k] == Dir(now))
  {
    MkdirEffect(e, p.dirKey, now);
    var m := Mkdir(e, p.dirKey, now);
    if m.Some? {
      var e1 := m.value;
      var rendered := RenderWith(e1, p, codec, opts);
      if !Fresh(e1, p) && rendered.Success? && Write(e1, p.cacheKey, rendered.value, now).Some? {
        WriteEffect(e1, p.cacheKey, rendered.value, now);
      }
    }
  }

  /**
   * A cache that is older than its original is rendered again: the call
   * never answers from the stale file.
   */
  lemma StaleCacheIsRegenerated(e: Entries, p: Plan, codec: Codec, opts: ThumbOptions, now: int)
    requires p.origKey in e && p.cacheKey in e && e[p.cacheKey].mtime < e[p.origKey].mtime
    ensures var run := RunPlan(e, p, codec, opts, now);
      run.result.Success? ==> p.cacheKey in run.entries && run.entries[p.cacheKey].File? && run.entries[p.cacheKey].mtime == now
  {
    MkdirEffect(e, p.dirKey, now);
    if Mkdir(e, p.dirKey, now).Some? {
      FreshnessDecidesRender(e, p, codec, opts, now);
    }
  }

  /**
   * Asking twice gives a cache hit the second time when the original
   * exists (with its mtime not in the future): a later call with any
   * options returns the same path and changes nothing. When there is no
   * original, both stats never succeed, so every call renders again.
   */
  lemma SecondCallIsCacheHit(e: Entries, p: Plan, codec: Codec, opts: ThumbOptions, opts': ThumbOptions,
                             now: int, later: int)
    requires InCacheDir(p)
    requires p.origKey in e ==> e[p.origKey].mtime <= now
    requires RunPlan(e, p, codec, opts, now).result.Success?
    ensures var first := RunPlan(e, p, codec, opts, now);
      var second := RunPlan(first.entries, p, codec, opts', later);
      && (p.origKey in e ==> second == first)
      && (p.origKey !in first.entries && second.result.Success? ==>
            p.cacheKey in second.entries && second.entries[p.cacheKey].mtime == later)
  {
    var first := RunPlan(e, p, codec, opts, now);
    CacheDirEnsuredFirst(e, p, codec, opts, now);
    MkdirExisting(first.entries, p.dirKey, later);
    MkdirEffect(e, p.dirKey, now);
    var e1 := Mkdir(e, p.dirKey, now).value;
    FreshnessDecidesRender(e, p, codec, opts, now);
    if p.origKey in e && !Fresh(e1, p) {
      assert e1[p.origKey] == e[p.origKey];
      assert Fresh(first.entries, p);
    }
    if p.origKey !in first.entries {
      FreshnessDecidesRender(first.entries, p, codec, opts', later);
    }
  }

  /**
   * With the stand-in codec every render succeeds, whatever the original
   * is: a file, a directory or nothing at all. A call that has to render
   * fails only when the cache path is a directory, and otherwise leaves 120
   * zero bytes there.
   */
  lemma MockCodecWritesPaddedFile(e: Entries, p: Plan, opts: ThumbOptions, now: int)
    requires InCacheDir(p)
    ensures var m := Mkdir(e, p.dirKey, now);
      var run := RunPlan(e, p, MockCodec, opts, now);
      m.Some? && !Fresh(m.value, p) ==>
        && (run.result.Success? <==> !(p.cacheKey in m.value && m.value[p.cacheKey].Dir?))
        && (run.result.Success? ==>
              run.result == Success(p.cacheFile) && p.cacheKey in run.entries && run.entries[p.cacheKey] == File(now, Zeros(120)))
        && (run.result.Failure? ==> run == Run(Failure(WriteFailed), m.value))
  {
    if Mkdir(e, p.dirKey, now).Some? {
      MkdirEffect(e, p.dirKey, now);
      assert Parent(p.cacheKey) == p.dirKey;
      assert p.dirKey[..|p.dirKey|] == p.dirKey;
      assert Pad([0 as byte]) == Zeros(120);
      FreshnessDecidesRender(e, p, MockCodec, opts, now);
    }
  }
}
