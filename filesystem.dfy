/**
 * The part of Node's `fs.promises` the thumbnail service relies on: `stat`
 * (its mtime), reading a file's bytes, `mkdir` with `{ recursive: true }`
 * and `writeFile`. Paths are read through `path.resolve` against the
 * process's working directory, so every entry is keyed by its resolved
 * segment list; the filesystem root is the empty key.
 */
module FileStore {
  import opened Wrappers
  import PosixPath

  newtype byte = b: int | 0 <= b < 256

  type Key = seq<string>

  /** A file carries its bytes; both kinds carry an mtime in milliseconds. */
  datatype Entry = File(mtime: int, data: seq<byte>) | Dir(mtime: int)

  type Entries = map<Key, Entry>

  function Parent(k: Key): Key
    requires k != []
  {
    k[..|k| - 1]
  }

  /** The root is a directory and every other entry sits inside a directory. */
  predicate WellFormed(e: Entries)
  {
    && [] in e && e[[]].Dir?
    && forall k :: k in e && k != [] ==> Parent(k) in e && e[Parent(k)].Dir?
  }

  /** No prefix of `key` (the key included) is a file. */
  predicate NoFileOnPath(e: Entries, key: Key)
  {
    forall i :: 0 <= i <= |key| && key[..i] in e ==> e[key[..i]].Dir?
  }

  /**
   * mkdir(path, { recursive: true }): every missing directory on the way to
   * `key` is created with the given mtime; an existing directory is left as
   * it is; a file anywhere on the way makes the call fail.
   */
  function Mkdir(e: Entries, key: Key, mtime: int): Option<Entries>
    decreases |key|
  {
    var prior := if key == [] then Some(e) else Mkdir(e, Parent(key), mtime);
    match prior
    case None => None
    case Some(e1) =>
      if key in e1 then (if e1[key].Dir? then Some(e1) else None)
      else Some(e1[key := Dir(mtime)])
  }

  /**
   * writeFile(path, data): replaces or creates a file inside an existing
   * directory, stamping it with `mtime`; the root, a directory or a missing
   * parent make it fail.
   */
  function Write(e: Entries, key: Key, data: seq<byte>, mtime: int): Option<Entries>
  {
    if key == [] || Parent(key) !in e || !e[Parent(key)].Dir? || (key in e && e[key].Dir?) then None
    else Some(e[key := File(mtime, data)])
  }

  lemma PrefixOfParent(key: Key)
    requires key != []
    ensures forall i :: 0 <= i <= |Parent(key)| ==> key[..i] == Parent(key)[..i]
    ensures key[..|key|] == key
  {
  }

  /**
   * What mkdir -p does: it succeeds exactly when no prefix is a file; then
   * it keeps every existing entry, adds only directories on the way to
   * `key`, and afterwards every prefix of `key` is a directory.
   */
  lemma {:induction false} MkdirEffect(e: Entries, key: Key, mtime: int)
    ensures Mkdir(e, key, mtime).Some? <==> NoFileOnPath(e, key)
    ensures Mkdir(e, key, mtime).Some? ==>
      var r := Mkdir(e, key, mtime).value;
      && (forall k :: k in e ==> k in r && r[k] == e[k])
      && (forall k :: k in r && k !in e ==> r[k] == Dir(mtime) && |k| <= |key| && k == key[..|k|])
      && (forall i :: 0 <= i <= |key| ==> key[..i] in r && r[key[..i]].Dir?)
    decreases |key|
  {
    if key != [] {
      var p := Parent(key);
      MkdirEffect(e, p, mtime);
      PrefixOfParent(key);
      var prior := Mkdir(e, p, mtime);
      if prior.Some? {
        var e1 := prior.value;
        assert key in e1 <==> key in e;
        assert NoFileOnPath(e, key) <==> NoFileOnPath(e, p) && (key in e ==> e[key].Dir?) by {
          if NoFileOnPath(e, p) && (key in e ==> e[key].Dir?) {
            forall i | 0 <= i <= |key| && key[..i] in e ensures e[key[..i]].Dir? {
              if i < |key| { assert key[..i] == p[..i]; }
            }
          }
          if NoFileOnPath(e, key) {
            forall i | 0 <= i <= |p| && p[..i] in e ensures e[p[..i]].Dir? {
              assert key[..i] == p[..i];
            }
          }
        }
        if Mkdir(e, key, mtime).Some? {
          var r := Mkdir(e, key, mtime).value;
          forall k | k in r && k !in e
            ensures r[k] == Dir(mtime) && |k| <= |key| && k == key[..|k|]
          {
            if k != key {
              assert k in e1;
              assert k == p[..|k|];
            }
          }
          forall i | 0 <= i <= |key|
            ensures key[..i] in r && r[key[..i]].Dir?
          {
            if i < |key| { assert key[..i] == p[..i]; }
          }
        }
      } else {
        assert !NoFileOnPath(e, key) by {
          var i :| 0 <= i <= |p| && p[..i] in e && !e[p[..i]].Dir?;
          assert key[..i] == p[..i];
        }
      }
    } else {
      assert key[..0] == key;
    }
  }

  /** mkdir -p over a path of existing directories changes nothing. */
  lemma MkdirExisting(e: Entries, key: Key, mtime: int)
    requires forall i :: 0 <= i <= |key| ==> key[..i] in e && e[key[..i]].Dir?
    ensures Mkdir(e, key, mtime) == Some(e)
  {
    MkdirEffect(e, key, mtime);
    var r := Mkdir(e, key, mtime).value;
    assert r.Keys == e.Keys;
    assert r == e;
  }

  lemma MkdirKeepsWellFormed(e: Entries, key: Key, mtime: int)
    requires WellFormed(e)
    ensures Mkdir(e, key, mtime).Some? ==> WellFormed(Mkdir(e, key, mtime).value)
  {
    MkdirEffect(e, key, mtime);
    if Mkdir(e, key, mtime).Some? {
      var r := Mkdir(e, key, mtime).value;
      forall k | k in r && k != [] ensures Parent(k) in r && r[Parent(k)].Dir? {
        if k !in e {
          assert k == key[..|k|];
          assert Parent(k) == key[..|k| - 1];
        }
      }
    }
  }

  lemma WriteKeepsWellFormed(e: Entries, key: Key, data: seq<byte>, mtime: int)
    requires WellFormed(e)
    ensures Write(e, key, data, mtime).Some? ==> WellFormed(Write(e, key, data, mtime).value)
  {
    if Write(e, key, data, mtime).Some? {
      var r := Write(e, key, data, mtime).value;
      forall k | k in r && k != [] ensures Parent(k) in r && r[Parent(k)].Dir? {
        if k != key {
          assert Parent(k) != key;
        }
      }
    }
  }

  /** A successful write stores exactly the given bytes under `key` and nothing else changes. */
  lemma WriteEffect(e: Entries, key: Key, data: seq<byte>, mtime: int)
    requires Write(e, key, data, mtime).Some?
    ensures var r := Write(e, key, data, mtime).value;
      && key in r && r[key] == File(mtime, data)
      && r.Keys == e.Keys + {key}
      && forall k :: k in e && k != key ==> r[k] == e[k]
  {
  }

  /** What reading `key` yields: the bytes of a file; a directory or a missing entry cannot be read. */
  function Read(e: Entries, key: Key): (r: Option<seq<byte>>)
    ensures r.Some? <==> key in e && e[key].File?
    ensures r.Some? ==> r.value == e[key].data
  {
    if key in e && e[key].File? then Some(e[key].data) else None
  }

  /**
   * fs.existsSync(p): `p` resolves to an entry, and a path written with a
   * trailing `/` must name a directory (for a file it is ENOTDIR).
   */
  predicate ExistsSync(e: Entries, cwd: string, p: string)
  {
    var k := PosixPath.ResolveSegs(cwd, p);
    k in e && (p != [] && p[|p| - 1] == PosixPath.Sep ==> e[k].Dir?)
  }

  /**
   * The filesystem the service sees: the working directory `path.resolve`
   * reads relative paths from, and the entries.
   */
  class FileSystem {
    const cwd: string
    var entries: Entries

    predicate Valid()
      reads this
    {
      WellFormed(entries)
    }

    /** An empty disk: only the root directory. */
    constructor (cwd: string, mtime: int)
      ensures this.cwd == cwd && entries == map[[] := Dir(mtime)]
      ensures Valid()
    {
      this.cwd := cwd;
      entries := map[[] := Dir(mtime)];
    }

    /** The entry a path names: the key `path.resolve(p)` reaches. */
    function KeyOf(p: string): (k: Key)
    {
      PosixPath.ResolveSegs(cwd, p)
    }

    /** Some entry sits at `key`. */
    predicate Exists(key: Key)
      reads this
    {
      key in entries
    }

    /** fs.existsSync(p). */
    predicate PathExists(p: string)
      reads this
    {
      ExistsSync(entries, cwd, p)
    }

    /** The mtime fs.stat reports for the path resolving to `key`, or None when stat rejects. */
    function Stat(key: Key): (r: Option<int>)
      reads this
      ensures r.Some? <==> Exists(key)
      ensures r.Some? ==> r.value == entries[key].mtime
    {
      if key in entries then Some(entries[key].mtime) else None
    }

    /** Reading the path resolving to `key`. */
    function ReadFile(key: Key): (r: Option<seq<byte>>)
      reads this
      ensures r == Read(entries, key)
    {
      Read(entries, key)
    }

    /** fs.promises.mkdir(path, { recursive: true }) on the path resolving to `key`; false when it rejects. */
    method MakeDirectory(key: Key, now: int) returns (ok: bool)
      modifies this
      ensures ok == Mkdir(old(entries), key, now).Some?
      ensures entries == if ok then Mkdir(old(entries), key, now).value else old(entries)
      ensures old(Valid()) ==> Valid()
    {
      if Valid() {
        MkdirKeepsWellFormed(entries, key, now);
      }
      var r := Mkdir(entries, key, now);
      ok := r.Some?;
      if ok {
        entries := r.value;
      }
    }

    /** fs.promises.writeFile(path, data) on the path resolving to `key`; false when it rejects. */
    method WriteFile(key: Key, data: seq<byte>, now: int) returns (ok: bool)
      modifies this
      ensures ok == Write(old(entries), key, data, now).Some?
      ensures entries == if ok then Write(old(entries), key, data, now).value else old(entries)
      ensures old(Valid()) ==> Valid()
    {
      if Valid() {
        WriteKeepsWellFormed(entries, key, data, now);
      }
      var r := Write(entries, key, data, now);
      ok := r.Some?;
      if ok {
        entries := r.value;
      }
    }
  }
}
