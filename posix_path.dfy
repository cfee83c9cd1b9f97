/**
 * Node's `path` module on POSIX, as used by the thumbnail service and its
 * route: normalize, join, resolve, relative, isAbsolute and parse(...).name.
 *
 * Paths stay strings (the route applies regular expressions to them), but
 * their meaning is given by segment lists: `Split` cuts at '/', `Components`
 * drops the empty pieces, and `Fold` is Node's normalizeString, a left fold
 * that skips "." and lets ".." remove the previous name. A resolved path is
 * a list of names (`Rooted`), read from the filesystem root.
 */
module PosixPath {
  import opened JsValues

  const Sep: char := '/'

  /** A normalised segment: non-empty, not "." or "..", without '/'. */
  predicate IsName(seg: string)
  {
    seg != "" && seg != "." && seg != ".." && Sep !in seg
  }

  /** Every segment is a name: the shape of a resolved absolute path. */
  predicate Rooted(segs: seq<string>)
  {
    forall i :: 0 <= i < |segs| ==> IsName(segs[i])
  }

  /** Every segment is a name or "..": the shape of a normalised relative path. */
  predicate Climbing(segs: seq<string>)
  {
    forall i :: 0 <= i < |segs| ==> IsName(segs[i]) || segs[i] == ".."
  }

  predicate NoSep(segs: seq<string>)
  {
    forall i :: 0 <= i < |segs| ==> Sep !in segs[i]
  }

  predicate IsAbsolute(p: string)
  {
    |p| > 0 && p[0] == Sep
  }

  /** `p.split('/')`: the pieces between separators, at least one. */
  function Split(s: string): (r: seq<string>)
    ensures |r| >= 1
  {
    if s == [] then [""]
    else if s[0] == Sep then [""] + Split(s[1..])
    else
      var r := Split(s[1..]);
      [[s[0]] + r[0]] + r[1..]
  }

  /** No piece of a split holds a separator. */
  lemma {:induction false} SplitPieces(s: string)
    ensures NoSep(Split(s))
  {
    if s != [] {
      var r := Split(s[1..]);
      SplitPieces(s[1..]);
      if s[0] != Sep {
        var q := Split(s);
        forall i | 0 <= i < |q| ensures Sep !in q[i] {
          if i == 0 {
            assert q[0] == [s[0]] + r[0];
            assert Sep !in r[0];
          } else {
            assert q[i] == r[i];
          }
        }
      } else {
        var q := Split(s);
        forall i | 0 <= i < |q| ensures Sep !in q[i] {
          if i > 0 { assert q[i] == r[i - 1]; }
        }
      }
    }
  }

  function NonEmpty(xs: seq<string>): (r: seq<string>)
    ensures forall i :: 0 <= i < |r| ==> r[i] != "" && r[i] in xs
  {
    if xs == [] then []
    else (if xs[0] == "" then [] else [xs[0]]) + NonEmpty(xs[1..])
  }

  /** The non-empty pieces of `p`: what "a//b/" and "a/b" have in common. */
  function Components(p: string): (r: seq<string>)
    ensures NoSep(r) && forall i :: 0 <= i < |r| ==> r[i] != ""
  {
    SplitPieces(p);
    var r := NonEmpty(Split(p));
    assert forall i :: 0 <= i < |r| ==> Sep !in r[i] by {
      forall i | 0 <= i < |r| ensures Sep !in r[i] {
        var j :| 0 <= j < |Split(p)| && Split(p)[j] == r[i];
      }
    }
    r
  }

  /** One segment of normalizeString; `allowAboveRoot` is true for relative paths. */
  function Step(acc: seq<string>, seg: string, allowAboveRoot: bool): seq<string>
  {
    if seg == "" || seg == "." then acc
    else if seg == ".." then
      if |acc| > 0 && acc[|acc| - 1] != ".." then acc[..|acc| - 1]
      else if allowAboveRoot then acc + [".."]
      else acc
    else acc + [seg]
  }

  function Fold(acc: seq<string>, segs: seq<string>, allowAboveRoot: bool): seq<string>
    decreases |segs|
  {
    if segs == [] then acc else Fold(Step(acc, segs[0], allowAboveRoot), segs[1..], allowAboveRoot)
  }

  /** Segments joined with '/'. */
  function JoinSegs(segs: seq<string>): string
  {
    if segs == [] then ""
    else if |segs| == 1 then segs[0]
    else segs[0] + [Sep] + JoinSegs(segs[1..])
  }

  /** path.normalize. */
  function Normalize(p: string): string
  {
    if p == "" then "."
    else
      var absolute := p[0] == Sep;
      var trailing := p[|p| - 1] == Sep;
      var segs := Fold([], Components(p), !absolute);
      if segs == [] then (if absolute then "/" else if trailing then "./" else ".")
      else (if absolute then "/" else "") + JoinSegs(segs) + (if trailing then "/" else "")
  }

  /** path.join of two arguments: empty arguments are skipped. */
  function Join(a: string, b: string): string
  {
    if a == "" && b == "" then "."
    else if a == "" then Normalize(b)
    else if b == "" then Normalize(a)
    else Normalize(a + [Sep] + b)
  }

  /**
   * The segments path.resolve(p) stands for, with `cwd` as process.cwd()
   * (which is always absolute): a relative `p` is read from `cwd`.
   */
  function ResolveSegs(cwd: string, p: string): (r: seq<string>)
    ensures Rooted(r)
  {
    var base := if IsAbsolute(p) then [] else Fold([], Components(cwd), false);
    FoldRootedKeepsRooted([], Components(cwd));
    FoldRootedKeepsRooted(base, Components(p));
    Fold(base, Components(p), false)
  }

  /** path.resolve(p). */
  function Resolve(cwd: string, p: string): (r: string)
    ensures IsAbsolute(r)
  {
    [Sep] + JoinSegs(ResolveSegs(cwd, p))
  }

  function Ups(n: nat): (r: seq<string>)
    ensures |r| == n && forall i :: 0 <= i < n ==> r[i] == ".."
  {
    if n == 0 then [] else [".."] + Ups(n - 1)
  }

  /** Length of the longest common prefix of two segment lists. */
  function CommonPrefix(a: seq<string>, b: seq<string>): (n: nat)
    ensures n <= |a| && n <= |b| && a[..n] == b[..n]
    ensures n < |a| && n < |b| ==> a[n] != b[n]
  {
    if a == [] || b == [] || a[0] != b[0] then 0
    else
      var n := CommonPrefix(a[1..], b[1..]);
      assert a[..n + 1] == [a[0]] + a[1..][..n];
      assert b[..n + 1] == [b[0]] + b[1..][..n];
      n + 1
  }

  /** path.relative on resolved segment lists: climb out of `from`, then descend. */
  function RelativeSegs(from: seq<string>, to: seq<string>): string
  {
    if from == to then ""
    else
      var n := CommonPrefix(from, to);
      JoinSegs(Ups(|from| - n) + to[n..])
  }

  /** path.relative(from, to). */
  function Relative(cwd: string, from: string, to: string): string
  {
    if from == to then "" else RelativeSegs(ResolveSegs(cwd, from), ResolveSegs(cwd, to))
  }

  /** The index of the last '.' among the first `n` characters, or -1. */
  function LastDot(s: string, n: nat): (k: int)
    requires n <= |s|
    ensures -1 <= k < n
    ensures k >= 0 ==> s[k] == '.'
    ensures forall j :: k < j < n ==> s[j] != '.'
  {
    if n == 0 then -1
    else if s[n - 1] == '.' then n - 1
    else LastDot(s, n - 1)
  }

  /** The last component of `p`: path.parse(p).base. */
  function Base(p: string): (b: string)
    ensures Sep !in b
  {
    var cs := Components(p);
    if cs == [] then "" else cs[|cs| - 1]
  }

  /**
   * path.parse(p).name: the base without its last extension. A base whose
   * only dot is its first character, or the base "..", has no extension.
   */
  function ParseName(p: string): (name: string)
    ensures Sep !in name
    ensures |name| <= |Base(p)| && Base(p)[..|name|] == name
    ensures name != Base(p) ==>
      0 < |name| && Base(p)[|name|] == '.' && forall j :: |name| < j < |Base(p)| ==> Base(p)[j] != '.'
  {
    var b := Base(p);
    var k := LastDot(b, |b|);
    if k <= 0 || b == ".." then b
    else
      assert forall c :: c in b[..k] ==> c in b;
      b[..k]
  }

  // ---------------------------------------------------------------------
  // Lemmas about Split and Components

  lemma {:induction false} SplitConcat(a: string, b: string)
    ensures Split(a + [Sep] + b) == Split(a) + Split(b)
  {
    var s := a + [Sep] + b;
    if a == [] {
      assert s[1..] == b;
    } else {
      assert s[0] == a[0] && s[1..] == a[1..] + [Sep] + b;
      SplitConcat(a[1..], b);
      if a[0] == Sep {
        SplitConcatSep(a, b);
      } else {
        SplitConcatChar(a, b);
      }
    }
  }

  /** One step of SplitConcat: a leading separator of `a` starts a new piece. */
  lemma SplitConcatSep(a: string, b: string)
    requires a != [] && a[0] == Sep && Split(a[1..] + [Sep] + b) == Split(a[1..]) + Split(b)
    ensures Split(a + [Sep] + b) == Split(a) + Split(b)
  {
    var t := a[1..];
    Peel(a, b);
    SplitCons(Sep, t + [Sep] + b);
    SplitCons(Sep, t);
    PrependPiece("", Split(t), Split(b));
  }

  /** One step of SplitConcat: any other first character of `a` joins the first piece. */
  lemma SplitConcatChar(a: string, b: string)
    requires a != [] && a[0] != Sep && Split(a[1..] + [Sep] + b) == Split(a[1..]) + Split(b)
    ensures Split(a + [Sep] + b) == Split(a) + Split(b)
  {
    var c, t := a[0], a[1..];
    Peel(a, b);
    SplitCons(c, t + [Sep] + b);
    SplitCons(c, t);
    PrependToFirst([c], Split(t), Split(b));
  }

  // Single rewriting steps of SplitConcatSep and SplitConcatChar, each kept
  // in a lemma of its own so that those proofs see only the equation they use.

  /** Splitting a string with a known first character. */
  lemma SplitCons(c: char, t: string)
    ensures c == Sep ==> Split([c] + t) == [""] + Split(t)
    ensures c != Sep ==> Split([c] + t) == [[c] + Split(t)[0]] + Split(t)[1..]
  {
    assert ([c] + t)[0] == c && ([c] + t)[1..] == t;
  }

  /** Split `a` off its first character. */
  lemma Peel(a: string, b: string)
    requires a != []
    ensures a == [a[0]] + a[1..] && a + [Sep] + b == [a[0]] + (a[1..] + [Sep] + b)
  {
  }

  /** Prepending a piece commutes with appending more pieces. */
  lemma PrependPiece(x: string, ra: seq<string>, rb: seq<string>)
    ensures [x] + (ra + rb) == ([x] + ra) + rb
  {
  }

  /** Extending the first piece of a list commutes with appending more pieces. */
  lemma PrependToFirst(x: string, ra: seq<string>, rb: seq<string>)
    requires |ra| >= 1
    ensures [x + (ra + rb)[0]] + (ra + rb)[1..] == ([x + ra[0]] + ra[1..]) + rb
  {
    assert (ra + rb)[0] == ra[0] && (ra + rb)[1..] == ra[1..] + rb;
  }

  // ---------------------------------------------------------------------

  /** A string without separators is one piece. */
  lemma {:induction false} SplitNoSep(s: string)
    requires Sep !in s
    ensures Split(s) == [s]
  {
    if s != [] {
      SplitNoSep(s[1..]);
      assert s == [s[0]] + s[1..];
    }
  }

  lemma {:induction false} NonEmptyConcat(xs: seq<string>, ys: seq<string>)
    ensures NonEmpty(xs + ys) == NonEmpty(xs) + NonEmpty(ys)
    decreases |xs|
  {
    if xs == [] {
      assert xs + ys == ys;
    } else {
      assert (xs + ys)[0] == xs[0];
      assert (xs + ys)[1..] == xs[1..] + ys;
      NonEmptyConcat(xs[1..], ys);
    }
  }

  lemma ComponentsConcat(a: string, b: string)
    ensures Components(a + [Sep] + b) == Components(a) + Components(b)
  {
    SplitConcat(a, b);
    NonEmptyConcat(Split(a), Split(b));
  }

  lemma ComponentsOfSegment(s: string)
    requires s != "" && Sep !in s
    ensures Components(s) == [s]
  {
    SplitNoSep(s);
    assert NonEmpty([s]) == [s] + NonEmpty([s][1..]);
    assert [s][1..] == [];
  }

  lemma ComponentsOfEmpty()
    ensures Components("") == [] && Components("/") == []
  {
    assert "/" == "" + [Sep] + "";
    ComponentsConcat("", "");
  }

  lemma {:induction false} ComponentsOfJoinSegs(segs: seq<string>)
    requires NoSep(segs) && forall i :: 0 <= i < |segs| ==> segs[i] != ""
    ensures Components(JoinSegs(segs)) == segs
    decreases |segs|
  {
    if segs == [] {
      ComponentsOfEmpty();
    } else if |segs| == 1 {
      ComponentsOfSegment(segs[0]);
    } else {
      ComponentsConcat(segs[0], JoinSegs(segs[1..]));
      ComponentsOfSegment(segs[0]);
      ComponentsOfJoinSegs(segs[1..]);
    }
  }

  lemma JoinSegsStartsWith(segs: seq<string>)
    requires |segs| > 0
    ensures StartsWith(JoinSegs(segs), segs[0])
  {
    if |segs| > 1 {
      assert JoinSegs(segs)[..|segs[0]|] == segs[0];
    }
  }

  // ---------------------------------------------------------------------
  // Lemmas about Fold

  lemma {:induction false} FoldAppend(acc: seq<string>, xs: seq<string>, ys: seq<string>, allow: bool)
    ensures Fold(acc, xs + ys, allow) == Fold(Fold(acc, xs, allow), ys, allow)
    decreases |xs|
  {
    if xs == [] {
      assert xs + ys == ys;
    } else {
      assert (xs + ys)[0] == xs[0] && (xs + ys)[1..] == xs[1..] + ys;
      FoldAppend(Step(acc, xs[0], allow), xs[1..], ys, allow);
    }
  }

  lemma {:induction false} FoldNames(acc: seq<string>, names: seq<string>, allow: bool)
    requires Rooted(names)
    ensures Fold(acc, names, allow) == acc + names
    decreases |names|
  {
    if names != [] {
      FoldNames(acc + [names[0]], names[1..], allow);
      assert acc + [names[0]] + names[1..] == acc + names;
    }
  }

  lemma {:induction false} FoldRootedKeepsRooted(acc: seq<string>, segs: seq<string>)
    requires Rooted(acc) && NoSep(segs)
    ensures Rooted(Fold(acc, segs, false))
    decreases |segs|
  {
    if segs != [] {
      FoldRootedKeepsRooted(Step(acc, segs[0], false), segs[1..]);
    }
  }

  lemma {:induction false} FoldClimbingKeepsClimbing(acc: seq<string>, segs: seq<string>)
    requires Climbing(acc) && NoSep(segs)
    ensures Climbing(Fold(acc, segs, true))
    decreases |segs|
  {
    if segs != [] {
      FoldClimbingKeepsClimbing(Step(acc, segs[0], true), segs[1..]);
    }
  }

  /**
   * Normalising a relative path first and resolving afterwards gives the
   * same segments as resolving it directly; `b` is what the normalisation
   * has kept so far.
   */
  lemma {:induction false} FoldRelativeThenRooted(a: seq<string>, b: seq<string>, xs: seq<string>)
    requires Climbing(b) && NoSep(xs)
    ensures Fold(a, Fold(b, xs, true), false) == Fold(a, b + xs, false)
    decreases |xs|
  {
    if xs == [] {
      assert b + xs == b;
    } else {
      var x, rest := xs[0], xs[1..];
      assert xs == [x] + rest;
      assert b + xs == (b + [x]) + rest;
      FoldAppend(a, b + [x], rest, false);
      FoldAppend(a, b, [x], false);
      if x == "" || x == "." {
        FoldRelativeThenRooted(a, b, rest);
        FoldAppend(a, b, rest, false);
      } else if x == ".." {
        if |b| > 0 && b[|b| - 1] != ".." {
          var b' := b[..|b| - 1];
          assert b == b' + [b[|b| - 1]];
          FoldAppend(a, b', [b[|b| - 1]], false);
          FoldRelativeThenRooted(a, b', rest);
          FoldAppend(a, b', rest, false);
        } else {
          FoldRelativeThenRooted(a, b + [".."], rest);
        }
      } else {
        FoldRelativeThenRooted(a, b + [x], rest);
      }
    }
  }

  // ---------------------------------------------------------------------
  // Normalize, Join and Resolve agree on segments

  lemma FoldIntoEmpty(segs: seq<string>, allow: bool)
    requires Rooted(segs)
    ensures Fold([], segs, allow) == segs
  {
    FoldNames([], segs, allow);
    assert [] + segs == segs;
  }

  /** A fold over two or three segments, one Step at a time. */
  lemma FoldCons(acc: seq<string>, seg: string, rest: seq<string>, allow: bool)
    ensures Fold(acc, [seg] + rest, allow) == Fold(Step(acc, seg, allow), rest, allow)
  {
    assert ([seg] + rest)[1..] == rest;
  }

  lemma FoldShort(acc: seq<string>, x: string, y: string, z: string, allow: bool)
    ensures Fold(acc, [x, y], allow) == Step(Step(acc, x, allow), y, allow)
    ensures Fold(acc, [x, y, z], allow) == Step(Step(Step(acc, x, allow), y, allow), z, allow)
  {
    var a1 := Step(acc, x, allow);
    var a2 := Step(a1, y, allow);
    FoldCons(a2, z, [], allow);
    FoldCons(a1, y, [], allow);
    FoldCons(a1, y, [z], allow);
    FoldCons(acc, x, [y], allow);
    FoldCons(acc, x, [y, z], allow);
    assert [x] + [y] == [x, y] && [y] + [z] == [y, z] && [x] + [y, z] == [x, y, z];
    assert [y] + [] == [y] && [z] + [] == [z];
  }


  lemma NormalizeKeepsAbsolute(p: string)
    ensures IsAbsolute(Normalize(p)) <==> IsAbsolute(p)
  {
    if p != "" && p[0] != Sep {
      var segs := Fold([], Components(p), true);
      FoldClimbingKeepsClimbing([], Components(p));
      if segs != [] {
        JoinSegsStartsWith(segs);
        assert segs[0][0] in segs[0];
        assert JoinSegs(segs)[0] == segs[0][0];
      }
    }
  }

  /**
   * path.normalize keeps a trailing '/', and ends in '/' only when its
   * input does or when nothing but the root is left.
   */
  lemma NormalizeTrailingSep(p: string)
    ensures var n := Normalize(p);
      && (n != "" && n[|n| - 1] == Sep ==> (p != "" && p[|p| - 1] == Sep) || n == "/")
      && (p != "" && p[|p| - 1] == Sep ==> n != "" && n[|n| - 1] == Sep)
  {
    if p != "" {
      var n := Normalize(p);
      var absolute := p[0] == Sep;
      var segs := Fold([], Components(p), !absolute);
      if p[|p| - 1] == Sep {
        assert n[|n| - 1] == Sep;
      } else if segs != [] {
        FoldedComponentsClimb(p);
        var j := JoinSegs(segs);
        JoinSegsEndsWith(segs);
        assert n == (if absolute then "/" else "") + j;
        assert n[|n| - 1] == j[|j| - 1];
      }
    }
  }

  /** Normalising keeps only names and "..". */
  lemma FoldedComponentsClimb(p: string)
    requires p != ""
    ensures Climbing(Fold([], Components(p), p[0] != Sep))
  {
    if p[0] == Sep {
      FoldRootedKeepsRooted([], Components(p));
    } else {
      FoldClimbingKeepsClimbing([], Components(p));
    }
  }

  /** Joined segments end with the last segment. */
  lemma {:induction false} JoinSegsEndsWith(segs: seq<string>)
    requires Climbing(segs) && segs != []
    ensures var j := JoinSegs(segs);
      j != "" && j[|j| - 1] == segs[|segs| - 1][|segs[|segs| - 1]| - 1] && j[|j| - 1] != Sep
  {
    var last := segs[|segs| - 1];
    assert IsName(last) || last == "..";
    assert last[|last| - 1] in last;
    if |segs| > 1 {
      JoinSegsEndsWith(segs[1..]);
    }
  }

  lemma ComponentsLead(s: string)
    ensures Components("/" + s) == Components(s)
  {
    assert "/" + s == "" + [Sep] + s;
    ComponentsConcat("", s);
    ComponentsOfEmpty();
  }

  lemma ComponentsTrail(s: string)
    ensures Components(s + "/") == Components(s)
  {
    assert s + "/" == s + [Sep] + "";
    ComponentsConcat(s, "");
    ComponentsOfEmpty();
  }

  /** A leading or trailing '/' adds no components. */
  lemma ComponentsFramed(t: string, segs: seq<string>)
    requires Components(t) == segs
    ensures Components("/" + t) == segs
    ensures Components(t + "/") == segs
    ensures Components("/" + t + "/") == segs
  {
    ComponentsLead(t);
    ComponentsTrail(t);
    ComponentsLead(t + "/");
    assert "/" + t + "/" == "/" + (t + "/");
  }

  /** What an absolute path's normal form is made of. */
  lemma NormalizeAbsoluteComponents(p: string)
    requires IsAbsolute(p)
    ensures Components(Normalize(p)) == Fold([], Components(p), false)
  {
    var segs := Fold([], Components(p), false);
    FoldRootedKeepsRooted([], Components(p));
    ComponentsOfEmpty();
    if segs != [] {
      if p[|p| - 1] == Sep {
        ComponentsOfJoinSegs(segs);
        ComponentsFramed(JoinSegs(segs), segs);
      } else {
        ComponentsOfJoinSegs(segs);
        ComponentsFramed(JoinSegs(segs), segs);
        assert Normalize(p) == "/" + JoinSegs(segs);
      }
    }
  }

  /**
   * What a relative path's normal form is made of: its folded segments, or
   * "." when nothing is left.
   */
  lemma NormalizeRelativeComponents(p: string)
    requires !IsAbsolute(p)
    ensures var segs := Fold([], Components(p), true);
      if segs == [] then Components(Normalize(p)) == ["."] else Components(Normalize(p)) == segs
  {
    var segs := Fold([], Components(p), true);
    if p == "" {
      assert Normalize(p) == ".";
      ComponentsOfSegment(".");
    } else if segs == [] {
      assert Normalize(p) == "." || Normalize(p) == "./";
      assert Components("./") == ["."] by {
        ComponentsOfSegment(".");
        ComponentsTrail(".");
      }
      ComponentsOfSegment(".");
    } else {
      NormalizeRelativeSegments(p, segs);
    }
  }

  lemma NormalizeRelativeSegments(p: string, segs: seq<string>)
    requires p != "" && !IsAbsolute(p)
    requires segs != [] && segs == Fold([], Components(p), true)
    ensures Components(Normalize(p)) == segs
  {
    var t := JoinSegs(segs);
    assert Components(t) == segs && Components(t + "/") == segs by {
      FoldClimbingKeepsClimbing([], Components(p));
      ComponentsOfJoinSegs(segs);
      ComponentsFramed(t, segs);
    }
    if p[|p| - 1] == Sep {
      NormalizeTrailing(p, segs);
    } else {
      NormalizeUnframed(p, segs);
    }
  }

  /** Normalising a path never changes what it resolves to. */
  lemma ResolveNormalize(cwd: string, p: string)
    ensures ResolveSegs(cwd, Normalize(p)) == ResolveSegs(cwd, p)
  {
    NormalizeKeepsAbsolute(p);
    if IsAbsolute(p) {
      ResolveNormalizeAbsolute(cwd, p);
    } else {
      ResolveNormalizeRelative(cwd, p);
    }
  }

  lemma ResolveNormalizeAbsolute(cwd: string, p: string)
    requires IsAbsolute(p) && IsAbsolute(Normalize(p))
    ensures ResolveSegs(cwd, Normalize(p)) == ResolveSegs(cwd, p)
  {
    var segs := Fold([], Components(p), false);
    NormalizeAbsoluteComponents(p);
    assert ResolveSegs(cwd, p) == segs;
    assert ResolveSegs(cwd, Normalize(p)) == Fold([], segs, false);
    FoldRootedKeepsRooted([], Components(p));
    FoldIntoEmpty(segs, false);
  }

  lemma ResolveNormalizeRelative(cwd: string, p: string)
    requires !IsAbsolute(p) && !IsAbsolute(Normalize(p))
    ensures ResolveSegs(cwd, Normalize(p)) == ResolveSegs(cwd, p)
  {
    var cw := Fold([], Components(cwd), false);
    var segs := Fold([], Components(p), true);
    assert ResolveSegs(cwd, p) == Fold(cw, Components(p), false);
    NormalizeRelativeComponents(p);
    FoldRelativeThenRooted(cw, [], Components(p));
    assert [] + Components(p) == Components(p);
    if segs == [] {
      assert Fold(cw, ["."], false) == cw;
    }
  }

  /**
   * Resolving `path.join(a, b)` is resolving `a` and then walking the
   * components of `b` from there.
   */
  lemma ResolveJoin(cwd: string, a: string, b: string)
    requires a != ""
    ensures ResolveSegs(cwd, Join(a, b)) == Fold(ResolveSegs(cwd, a), Components(b), false)
  {
    if b == "" {
      ResolveNormalize(cwd, a);
      ComponentsOfEmpty();
    } else {
      var ab := a + [Sep] + b;
      ResolveNormalize(cwd, ab);
      ComponentsConcat(a, b);
      var base := if IsAbsolute(a) then [] else Fold([], Components(cwd), false);
      assert IsAbsolute(ab) == IsAbsolute(a);
      FoldAppend(base, Components(a), Components(b), false);
    }
  }

  /** Joining a single name adds exactly that name to the resolved segments. */
  lemma ResolveJoinName(cwd: string, a: string, name: string)
    requires IsName(name)
    ensures ResolveSegs(cwd, Join(a, name)) == ResolveSegs(cwd, a) + [name]
  {
    ComponentsOfSegment(name);
    FoldNames(ResolveSegs(cwd, a), [name], false);
    if a == "" {
      NormalizeName(name);
      assert !IsAbsolute(name) by { assert name[0] in name; }
      ComponentsOfEmpty();
    } else {
      ResolveJoin(cwd, a, name);
    }
  }

  /** A resolved path resolves to itself, from any working directory. */
  lemma ResolveResolved(cwd: string, cwd': string, p: string)
    ensures ResolveSegs(cwd', Resolve(cwd, p)) == ResolveSegs(cwd, p)
  {
    var segs := ResolveSegs(cwd, p);
    var inner := JoinSegs(segs);
    ComponentsOfJoinSegs(segs);
    assert Resolve(cwd, p) == "" + [Sep] + inner;
    ComponentsConcat("", inner);
    ComponentsOfEmpty();
    assert [] + segs == segs;
    FoldIntoEmpty(segs, false);
  }

  /**
   * path.relative starts with ".." whenever `to` lies outside `from`:
   * whatever does not start with ".." names a place at or below `from`.
   * The converse does not hold: a child named "..x" inside `from` is
   * reached by "..x".
   */
  lemma RelativeInside(from: seq<string>, to: seq<string>)
    requires Rooted(from) && Rooted(to)
    ensures !StartsWith(RelativeSegs(from, to), "..") ==> |from| <= |to| && to[..|from|] == from
  {
    if from == to {
      assert to[..|from|] == to;
    } else {
      var n := CommonPrefix(from, to);
      var segs := Ups(|from| - n) + to[n..];
      assert RelativeSegs(from, to) == JoinSegs(segs);
      if |from| - n > 0 {
        assert segs[0] == "..";
        JoinSegsStartsWith(segs);
      } else {
        assert from[..n] == from;
      }
    }
  }

  /** A name without '/' or '.' other than its extension normalises to itself. */
  lemma NormalizeName(name: string)
    requires IsName(name)
    ensures Normalize(name) == name
  {
    assert name[0] != Sep by { assert name[0] in name; }
    assert name[|name| - 1] != Sep by { assert name[|name| - 1] in name; }
    NameFolds(name);
    NormalizeUnframed(name, [name]);
  }

  lemma NameFolds(name: string)
    requires IsName(name)
    ensures Fold([], Components(name), true) == [name]
  {
    ComponentsOfSegment(name);
    FoldIntoEmpty([name], true);
  }

  /** A relative path without a trailing separator whose segments fold to `segs` normalises to them joined. */
  lemma NormalizeTrailing(p: string, segs: seq<string>)
    requires p != "" && p[0] != Sep && p[|p| - 1] == Sep
    requires segs != [] && Fold([], Components(p), true) == segs
    ensures Normalize(p) == JoinSegs(segs) + "/"
  {
    assert "" + JoinSegs(segs) == JoinSegs(segs);
  }

  lemma NormalizeUnframed(p: string, segs: seq<string>)
    requires p != "" && p[0] != Sep && p[|p| - 1] != Sep
    requires segs != [] && Fold([], Components(p), true) == segs
    ensures Normalize(p) == JoinSegs(segs)
  {
  }

  // ---------------------------------------------------------------------
  // path.parse(p).name

  lemma {:induction false} LastDotAt(s: string, n: nat, k: nat)
    requires k < n <= |s| && s[k] == '.'
    requires forall j :: k < j < n ==> s[j] != '.'
    ensures LastDot(s, n) == k
    decreases n
  {
    if n - 1 != k {
      LastDotAt(s, n - 1, k);
    }
  }

  /** The name of `stem.ext` is `stem`: only the last extension goes. */
  lemma ParseNameDropsExtension(stem: string, ext: string)
    requires stem != "" && Sep !in stem && Sep !in ext && '.' !in ext
    requires stem + "." + ext != ".."
    ensures ParseName(stem + "." + ext) == stem
  {
    var b := stem + "." + ext;
    assert Sep !in b by {
      forall i | 0 <= i < |b| ensures b[i] != Sep {
        if i < |stem| { assert b[i] in stem; }
        else if i > |stem| { assert b[i] == ext[i - |stem| - 1]; assert b[i] in ext; }
      }
    }
    ComponentsOfSegment(b);
    forall j | |stem| < j < |b| ensures b[j] != '.' {
      assert b[j] == ext[j - |stem| - 1];
      assert b[j] in ext;
    }
    LastDotAt(b, |b|, |stem|);
    assert b[..|stem|] == stem;
  }

  /** Directories in front of a name do not change its path.parse name. */
  lemma ParseNameIgnoresDirectory(dir: string, name: string)
    requires name != "" && Sep !in name
    ensures ParseName(dir + [Sep] + name) == ParseName(name)
  {
    ComponentsConcat(dir, name);
    ComponentsOfSegment(name);
  }

  /** Two names joined in turn below `a` add exactly those two segments. */
  lemma ResolveJoinNames(cwd: string, a: string, n1: string, n2: string)
    requires IsName(n1) && IsName(n2)
    ensures ResolveSegs(cwd, Join(a, n1)) == ResolveSegs(cwd, a) + [n1]
    ensures ResolveSegs(cwd, Join(Join(a, n1), n2)) == ResolveSegs(cwd, a) + [n1, n2]
  {
    ResolveJoinName(cwd, a, n1);
    ResolveJoinName(cwd, Join(a, n1), n2);
  }
}
