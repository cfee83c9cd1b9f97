/**
 * The batch media endpoint `POST /api/admin/media/actions` of src/app.js:
 * `parseTags`, the validation of the request body, and the effect of each
 * action on the `media` table and on the `media_tags` (media id, tag) pairs.
 * `INSERT OR IGNORE` is set insertion and `DELETE ... IN` set removal.
 */
module MediaActions {
  import opened Wrappers
  import opened JsValues
  import opened Access

  // ---------------------------------------------------------------------
  // parseTags

  /** The separator class of `split(/[ ,]+/)`. */
  const TagSeps: set<char> := {' ', ','}

  /**
   * `s.split` at every single separator. The regular expression splits at
   * runs of separators instead, which only leaves out the empty pieces
   * between two adjacent separators; parseTags drops empty pieces anyway.
   */
  function SplitOn(s: string, seps: set<char>): (r: seq<string>)
    ensures |r| >= 1
    ensures forall i :: 0 <= i < |r| ==> NoneIn(r[i], seps)
  {
    if s == [] then [""]
    else if s[0] in seps then [""] + SplitOn(s[1..], seps)
    else
      var r := SplitOn(s[1..], seps);
      [[s[0]] + r[0]] + r[1..]
  }

  /** A separator cuts the string in two: the pieces of each side, in order. */
  lemma {:induction false} SplitOnConcat(a: string, c: char, b: string, seps: set<char>)
    requires c in seps
    ensures SplitOn(a + [c] + b, seps) == SplitOn(a, seps) + SplitOn(b, seps)
  {
    var s := a + [c] + b;
    if a == [] {
      assert s == [c] + b && s[1..] == b;
    } else {
      assert s[0] == a[0] && s[1..] == a[1..] + [c] + b;
      SplitOnConcat(a[1..], c, b, seps);
      if a[0] !in seps {
        var l := SplitOn(a[1..], seps);
        ConsFirst(a[0], l, SplitOn(b, seps));
      }
    }
  }

  /** One regrouping step of SplitOnConcat: the first piece takes the character. */
  lemma ConsFirst(x: char, l: seq<string>, m: seq<string>)
    requires |l| >= 1
    ensures [[x] + (l + m)[0]] + (l + m)[1..] == ([[x] + l[0]] + l[1..]) + m
  {
  }

  /** A string without separators is a single piece. */
  lemma {:induction false} SplitOnPlain(w: string, seps: set<char>)
    requires NoneIn(w, seps)
    ensures SplitOn(w, seps) == [w]
  {
    if w != [] {
      assert w[0] == w[0] && w[0] !in seps;
      SplitOnPlain(w[1..], seps);
      assert [w[0]] + w[1..] == w;
    }
  }

  /** `s.trim().toLowerCase()`, lower-casing ASCII only. */
  function TrimLower(s: string): string
  {
    ToLowerAscii(Trim(s))
  }

  /** `.map(s => s.trim().toLowerCase()).filter(Boolean)`. */
  function Cleaned(pieces: seq<string>): seq<string>
  {
    if pieces == [] then []
    else
      var t := TrimLower(pieces[0]);
      (if t == "" then [] else [t]) + Cleaned(pieces[1..])
  }

  /** `.map(s => s.slice(0, 40))`. */
  function Clipped(tags: seq<string>): (r: seq<string>)
    ensures |r| == |tags|
    ensures forall i :: 0 <= i < |r| ==> r[i] == Take(tags[i], 40)
  {
    if tags == [] then [] else [Take(tags[0], 40)] + Clipped(tags[1..])
  }

  /** No character of `t` is in `cs`. */
  predicate NoneIn(t: string, cs: set<char>)
  {
    forall k :: 0 <= k < |t| ==> t[k] !in cs
  }

  /** No character of `t` is an upper-case ASCII letter. */
  predicate NoUpper(t: string)
  {
    forall k :: 0 <= k < |t| ==> !('A' <= t[k] <= 'Z')
  }

  /** A piece after trimming and lower-casing still holds no separator. */
  lemma TrimLowerKeepsOut(p: string)
    requires NoneIn(p, TagSeps)
    ensures NoneIn(TrimLower(p), TagSeps) && NoUpper(TrimLower(p))
  {
    var t := Trim(p);
    var start := |p| - |TrimStart(p)|;
    assert NoneIn(t, TagSeps) by {
      forall k | 0 <= k < |t| ensures t[k] !in TagSeps {
        assert t[k] == p[start + k];
      }
    }
    var l := ToLowerAscii(t);
    forall k | 0 <= k < |l| ensures l[k] !in TagSeps {
      assert t[k] !in TagSeps;
    }
  }

  /** What the trim, lower-case and filter steps leave of a piece. */
  predicate Tidy(t: string)
  {
    t != "" && NoneIn(t, TagSeps) && NoUpper(t)
  }

  lemma CleanedTags(pieces: seq<string>)
    requires forall p :: p in pieces ==> NoneIn(p, TagSeps)
    ensures forall t :: t in Cleaned(pieces) ==> Tidy(t)
  {
    if pieces != [] {
      var rest := pieces[1..];
      assert forall p :: p in rest ==> p in pieces;
      CleanedTags(rest);
      TrimLowerKeepsOut(pieces[0]);
    }
  }

  lemma ClippedTags(tags: seq<string>)
    requires forall t :: t in tags ==> Tidy(t)
    ensures forall t :: t in Clipped(tags) ==> IsTag(t)
  {
    var c := Clipped(tags);
    forall t | t in c ensures IsTag(t) {
      var i :| 0 <= i < |c| && c[i] == t;
      assert tags[i] in tags;
      assert c[i] == tags[i][..|c[i]|];
      assert NoneIn(c[i], TagSeps) by {
        forall k | 0 <= k < |c[i]| ensures c[i][k] !in TagSeps {
          assert c[i][k] == tags[i][k];
        }
      }
      assert NoUpper(c[i]) by {
        forall k | 0 <= k < |c[i]| ensures !('A' <= c[i][k] <= 'Z') {
          assert c[i][k] == tags[i][k];
        }
      }
    }
  }

  /** The position of the first `x` in `xs`. */
  function FirstIndex(xs: seq<string>, x: string): (k: nat)
    requires x in xs
    ensures k < |xs| && xs[k] == x
    ensures forall j :: 0 <= j < k ==> xs[j] != x
  {
    if xs[0] == x then 0 else 1 + FirstIndex(xs[1..], x)
  }

  predicate NoDuplicates(xs: seq<string>)
  {
    forall i, j :: 0 <= i < j < |xs| ==> xs[i] != xs[j]
  }

  lemma FirstIndexOfPrefix(xs: seq<string>, x: string, n: nat)
    requires n <= |xs| && x in xs[..n]
    ensures x in xs && FirstIndex(xs, x) == FirstIndex(xs[..n], x)
  {
    var k := FirstIndex(xs[..n], x);
    assert xs[k] == x;
  }

  /**
   * `Array.from(new Set(xs))`: each value once, in the order of its first
   * occurrence.
   */
  function Dedupe(xs: seq<string>): (r: seq<string>)
    ensures NoDuplicates(r)
    ensures forall x :: x in r <==> x in xs
    ensures forall i, j :: 0 <= i < j < |r| ==> FirstIndex(xs, r[i]) < FirstIndex(xs, r[j])
    decreases |xs|
  {
    if xs == [] then []
    else
      var init := xs[..|xs| - 1];
      var last := xs[|xs| - 1];
      var r := Dedupe(init);
      assert forall x :: x in xs <==> x in init || x == last by {
        assert xs == init + [last];
      }
      forall x | x in r ensures FirstIndex(xs, x) == FirstIndex(init, x) {
        FirstIndexOfPrefix(xs, x, |xs| - 1);
      }
      if last in r then r
      else
        assert FirstIndex(xs, last) == |xs| - 1;
        r + [last]
  }

  /** A tag as parseTags leaves it. */
  predicate IsTag(t: string)
  {
    0 < |t| <= 40 && NoneIn(t, TagSeps) && NoUpper(t)
  }

  /** The pieces of `s` after trimming, lower-casing, filtering and clipping, duplicates still in. */
  function Candidates(s: string): seq<string>
  {
    Clipped(Cleaned(SplitOn(s, TagSeps)))
  }

  lemma CandidatesAreTags(s: string)
    ensures forall t :: t in Candidates(s) ==> IsTag(t)
    ensures s == "" ==> Candidates(s) == []
  {
    var pieces := SplitOn(s, TagSeps);
    assert forall p :: p in pieces ==> NoneIn(p, TagSeps);
    CleanedTags(pieces);
    ClippedTags(Cleaned(pieces));
    if s == "" {
      assert pieces == [""];
      assert Cleaned(pieces[1..]) == [];
    }
  }

  /**
   * parseTags(val): split `String(val || '')` at spaces and commas, trim
   * and lower-case each piece, drop the empty ones, clip each to 40
   * characters and keep the first occurrence of each.
   */
  function ParseTags(val: Option<string>): (r: seq<string>)
    ensures NoDuplicates(r)
    ensures forall i :: 0 <= i < |r| ==> IsTag(r[i])
    ensures val.None? || val.value == "" ==> r == []
  {
    var s := if val.None? then "" else val.value;
    CandidatesAreTags(s);
    var r := Dedupe(Candidates(s));
    assert forall i :: 0 <= i < |r| ==> IsTag(r[i]) by {
      forall i | 0 <= i < |r| ensures IsTag(r[i]) {
        assert r[i] in Candidates(s);
      }
    }
    r
  }

  /**
   * The order parseTags keeps: each tag once, in the order in which its
   * first piece appears in the input.
   */
  lemma ParseTagsOrder(val: Option<string>)
    ensures var s := if val.None? then "" else val.value;
      var r := ParseTags(val);
      && (forall t :: t in r <==> t in Candidates(s))
      && (forall i, j :: 0 <= i < j < |r| ==> FirstIndex(Candidates(s), r[i]) < FirstIndex(Candidates(s), r[j]))
  {
    var s := if val.None? then "" else val.value;
    assert ParseTags(val) == Dedupe(Candidates(s));
  }

  /**
   * Two tags written with a space or a comma between them, such as
   * `"a,b"`, parse to exactly those two tags, in that order.
   */
  lemma ParseTagsOfTwo(a: string, c: char, b: string)
    requires IsTag(a) && IsTag(b) && a != b && c in TagSeps
    requires !IsWhitespace(a[0]) && !IsWhitespace(a[|a| - 1])
    requires !IsWhitespace(b[0]) && !IsWhitespace(b[|b| - 1])
    ensures ParseTags(Some(a + [c] + b)) == [a, b]
  {
    CandidatesOfTwo(a, c, b);
    DedupeOfTwo(a, b);
  }

  lemma CandidatesOfTwo(a: string, c: char, b: string)
    requires IsTag(a) && IsTag(b) && c in TagSeps
    requires !IsWhitespace(a[0]) && !IsWhitespace(a[|a| - 1])
    requires !IsWhitespace(b[0]) && !IsWhitespace(b[|b| - 1])
    ensures Candidates(a + [c] + b) == [a, b]
  {
    SplitOfTwo(a, c, b);
    CleanedOfClean([a, b]);
    ClippedOfTwo(a, b);
  }

  lemma SplitOfTwo(a: string, c: char, b: string)
    requires NoneIn(a, TagSeps) && NoneIn(b, TagSeps) && c in TagSeps
    ensures SplitOn(a + [c] + b, TagSeps) == [a, b]
  {
    SplitOnConcat(a, c, b, TagSeps);
    SplitOnPlain(a, TagSeps);
    SplitOnPlain(b, TagSeps);
  }

  lemma ClippedOfTwo(a: string, b: string)
    requires |a| <= 40 && |b| <= 40
    ensures Clipped([a, b]) == [a, b]
  {
  }

  /** Pieces that are already tags without surrounding whitespace come through cleaning unchanged. */
  lemma {:induction false} CleanedOfClean(ts: seq<string>)
    requires forall t :: t in ts ==> IsTag(t) && !IsWhitespace(t[0]) && !IsWhitespace(t[|t| - 1])
    ensures Cleaned(ts) == ts
  {
    if ts != [] {
      assert ts[0] in ts;
      assert ts == [ts[0]] + ts[1..];
      CleanedCons(ts[0], ts[1..]);
      assert forall t :: t in ts[1..] ==> t in ts;
      CleanedOfClean(ts[1..]);
    }
  }

  /** One step of CleanedOfClean: a clean tag in front is kept as it is. */
  lemma CleanedCons(t: string, rest: seq<string>)
    requires IsTag(t) && !IsWhitespace(t[0]) && !IsWhitespace(t[|t| - 1])
    ensures Cleaned([t] + rest) == [t] + Cleaned(rest)
  {
    TagIsClean(t);
    assert ([t] + rest)[0] == t && ([t] + rest)[1..] == rest;
  }

  lemma DedupeOfTwo(a: string, b: string)
    requires a != b
    ensures Dedupe([a, b]) == [a, b]
  {
    assert [a, b][..1] == [a];
    assert Dedupe([a]) == [a] by { assert [a][..0] == []; }
  }

  /** A tag with no whitespace at either end is left alone by trimming and lower-casing. */
  lemma TagIsClean(t: string)
    requires IsTag(t) && !IsWhitespace(t[0]) && !IsWhitespace(t[|t| - 1])
    ensures TrimLower(t) == t
  {
    TrimUntrimmed(t);
    assert ToLowerAscii(t) == t;
  }

  // ---------------------------------------------------------------------
  // Validation

  /** The fields of the request body the handler reads; `ids` is None when it is not an array. */
  datatype Request = Request(action: Option<string>, ids: Option<seq<int>>, title: Option<string>, tags: Option<string>)

  /** A validated action with what it needs. */
  datatype Command =
    | Rename(title: string)
    | Deactivate
    | Activate
    | Delete
    | AddTags(tags: seq<string>)
    | RemoveTags(tags: seq<string>)
    | ReplaceTags(tags: seq<string>)

  /** The JSON reply: an error with its status, or `{ ok: true, action, affected }`. */
  datatype Reply = Failed(status: int, error: string) | Done(action: string, affected: nat)

  /** `!title`: a missing or empty title. */
  predicate Falsy(s: Option<string>)
  {
    s.None? || s.value == ""
  }

  /** The `action` names the handler knows, and every other value. */
  datatype ActionName =
    | RenameAction | DeactivateAction | ActivateAction | DeleteAction
    | AddTagsAction | RemoveTagsAction | ReplaceTagsAction
    | OtherAction

  /** The `action` string of a known name. */
  function Spelling(name: ActionName): string
    requires name != OtherAction
  {
    match name
    case RenameAction => "rename"
    case DeactivateAction => "deactivate"
    case ActivateAction => "activate"
    case DeleteAction => "delete"
    case AddTagsAction => "add_tags"
    case RemoveTagsAction => "remove_tags"
    case ReplaceTagsAction => "replace_tags"
  }

  /** The branch of the handler that `action` selects. */
  function NameOf(action: Option<string>): (name: ActionName)
    ensures name != OtherAction ==> action.Some?
  {
    if action == Some("rename") then RenameAction
    else if action == Some("deactivate") then DeactivateAction
    else if action == Some("activate") then ActivateAction
    else if action == Some("delete") then DeleteAction
    else if action == Some("add_tags") then AddTagsAction
    else if action == Some("remove_tags") then RemoveTagsAction
    else if action == Some("replace_tags") then ReplaceTagsAction
    else OtherAction
  }

  /** A known name is selected only by its own spelling, and its spelling selects it. */
  lemma NameOfSpelling(action: Option<string>, name: ActionName)
    requires name != OtherAction
    ensures NameOf(action) == name <==> action == Some(Spelling(name))
  {
  }

  /** Exactly the seven names select a branch; a missing action selects none. */
  lemma KnownNames(action: Option<string>)
    ensures NameOf(action) != OtherAction <==>
      action.Some? && action.value in {"rename", "deactivate", "activate", "delete", "add_tags", "remove_tags", "replace_tags"}
  {
  }

  /** The checks before any query: ids first, then the action and what it needs. */
  function Validate(req: Request): (r: Result<Command, Reply>)
    ensures r.Success? ==> req.ids.Some? && req.ids.value != [] && req.action.Some?
  {
    if req.ids.None? || req.ids.value == [] then Failure(Failed(400, "No ids"))
    else
      match NameOf(req.action)
      case RenameAction =>
        if Falsy(req.title) then Failure(Failed(400, "title required")) else Success(Rename(req.title.value))
      case DeactivateAction => Success(Deactivate)
      case ActivateAction => Success(Activate)
      case DeleteAction => Success(Delete)
      case AddTagsAction =>
        var tags := ParseTags(req.tags);
        if tags == [] then Failure(Failed(400, "tags required")) else Success(AddTags(tags))
      case RemoveTagsAction =>
        var tags := ParseTags(req.tags);
        if tags == [] then Failure(Failed(400, "tags required")) else Success(RemoveTags(tags))
      case ReplaceTagsAction => Success(ReplaceTags(ParseTags(req.tags)))
      case OtherAction => Failure(Failed(400, "Unknown action"))
  }

  /**
   * Validation refuses with a 400 only: missing ids come first, then an
   * action outside the seven names.
   */
  lemma ValidateRefusals(req: Request)
    ensures Validate(req).Failure? ==> Validate(req).error.Failed? && Validate(req).error.status == 400
    ensures req.ids.None? || req.ids.value == [] ==> Validate(req) == Failure(Failed(400, "No ids"))
    ensures req.ids.Some? && req.ids.value != [] ==>
      (Validate(req) == Failure(Failed(400, "Unknown action")) <==> NameOf(req.action) == OtherAction)
  {
  }

  /**
   * With ids present, an action is refused only for what it lacks, and an
   * accepted command is the one its action names. rename fails exactly
   * when the title is missing or empty, and otherwise carries that title.
   * add_tags and remove_tags fail exactly when no tag parses, and
   * otherwise carry the parsed tags. replace_tags always succeeds, with no
   * tags at all for a missing or empty `tags`. deactivate, activate and
   * delete always succeed.
   */
  lemma ValidateCommands(req: Request)
    requires req.ids.Some? && req.ids.value != []
    ensures var r := Validate(req);
      var name := NameOf(req.action);
      var tags := ParseTags(req.tags);
      && (name == RenameAction ==>
            && (r.Success? <==> !Falsy(req.title))
            && (r.Success? ==> r.value == Rename(req.title.value))
            && (r.Failure? ==> r.error == Failed(400, "title required")))
      && (name in {AddTagsAction, RemoveTagsAction} ==>
            && (r.Failure? <==> tags == [])
            && (r.Failure? ==> r.error == Failed(400, "tags required")))
      && (name == AddTagsAction && r.Success? ==> r.value == AddTags(tags))
      && (name == RemoveTagsAction && r.Success? ==> r.value == RemoveTags(tags))
      && (name == ReplaceTagsAction ==> r == Success(ReplaceTags(tags)) && (Falsy(req.tags) ==> tags == []))
      && (name == DeactivateAction ==> r == Success(Deactivate))
      && (name == ActivateAction ==> r == Success(Activate))
      && (name == DeleteAction ==> r == Success(Delete))
  {
  }

  // ---------------------------------------------------------------------
  // Tables

  /** A row of `media`: the columns the actions touch, and one they leave alone. */
  datatype MediaRow = MediaRow(title: string, active: bool, category: string)

  type Media = map<int, MediaRow>

  type MediaTags = set<(int, string)>

  /** Every (id, tag) pair with the id among `ids` and the tag in `tags`. */
  function Pairs(ids: seq<int>, tags: seq<string>): set<(int, string)>
  {
    set i, t | i in ids && t in tags :: (i, t)
  }

  lemma PairsMember(ids: seq<int>, tags: seq<string>)
    ensures forall p: (int, string) :: p in Pairs(ids, tags) <==> p.0 in ids && p.1 in tags
  {
    forall p: (int, string) | p.0 in ids && p.1 in tags ensures p in Pairs(ids, tags) {
      var i, t := p.0, p.1;
      assert i in ids && t in tags && p == (i, t);
    }
  }

  /** How many rows `WHERE id IN (ids)` matches. */
  function Matched(media: Media, ids: seq<int>): nat
  {
    |set k | k in media && k in ids|
  }

  /** `UPDATE media SET title=? WHERE id IN (ids)`. */
  function Renamed(media: Media, ids: seq<int>, title: string): Media
  {
    map k | k in media :: if k in ids then media[k].(title := title) else media[k]
  }

  /** `UPDATE media SET active=? WHERE id IN (ids)`. */
  function WithActive(media: Media, ids: seq<int>, active: bool): Media
  {
    map k | k in media :: if k in ids then media[k].(active := active) else media[k]
  }

  /** `DELETE FROM media WHERE id IN (ids)`. */
  function Deleted(media: Media, ids: seq<int>): Media
  {
    map k | k in media && k !in ids :: media[k]
  }

  /** `DELETE FROM media_tags WHERE media_id IN (ids)`. */
  function Untagged(tags: MediaTags, ids: seq<int>): MediaTags
  {
    set p | p in tags && p.0 !in ids
  }

  /** The tables the handler works on. */
  datatype Tables = Tables(media: Media, mediaTags: MediaTags)

  /** A validated command's effect and its `affected` count. */
  function Apply(cmd: Command, ids: seq<int>, db: Tables): (Tables, nat)
  {
    match cmd
    case Rename(title) => (db.(media := Renamed(db.media, ids, title)), Matched(db.media, ids))
    case Deactivate => (db.(media := WithActive(db.media, ids, false)), Matched(db.media, ids))
    case Activate => (db.(media := WithActive(db.media, ids, true)), Matched(db.media, ids))
    case Delete => (db.(media := Deleted(db.media, ids)), Matched(db.media, ids))
    case AddTags(tags) => (db.(mediaTags := db.mediaTags + Pairs(ids, tags)), |ids| * |tags|)
    case RemoveTags(tags) =>
      (db.(mediaTags := db.mediaTags - Pairs(ids, tags)), |db.mediaTags * Pairs(ids, tags)|)
    case ReplaceTags(tags) =>
      (db.(mediaTags := Untagged(db.mediaTags, ids) + Pairs(ids, tags)), |ids| * |tags|)
  }

  /** The handler as a function of the tables before the request. */
  function Handle(req: Request, db: Tables): (Reply, Tables)
  {
    match Validate(req)
    case Failure(reply) => (reply, db)
    case Success(cmd) =>
      var (db', affected) := Apply(cmd, req.ids.value, db);
      (Done(req.action.value, affected), db')
  }

  /** The endpoint behind `requireAuth, requireAdmin`. */
  function Endpoint(session: Session, req: Request, db: Tables): (Reply, Tables)
  {
    match AdminGuard(session)
    case Deny(status, error) => (Failed(status, error), db)
    case Pass => Handle(req, db)
  }

  /** Only a signed-in admin's valid request changes the tables; every refusal leaves them as they were. */
  lemma RefusalChangesNothing(session: Session, req: Request, db: Tables)
    ensures var (reply, db') := Endpoint(session, req, db);
      && (reply.Failed? ==> db' == db)
      && (db' != db ==> SignedIn(session) && IsAdminRole(session.value.role) && Validate(req).Success?)
  {
    AdminGuardOutcomes(session);
  }

  /** remove_tags deletes exactly the pairs of a listed id and a listed tag and counts them. */
  lemma RemoveTagsEffect(ids: seq<int>, tags: seq<string>, db: Tables)
    ensures var (db', affected) := Apply(RemoveTags(tags), ids, db);
      && db'.media == db.media
      && (forall p :: p in db'.mediaTags <==> p in db.mediaTags && !(p.0 in ids && p.1 in tags))
      && affected == |db.mediaTags| - |db'.mediaTags|
  {
    PairsMember(ids, tags);
    var removed := db.mediaTags * Pairs(ids, tags);
    var kept := db.mediaTags - Pairs(ids, tags);
    assert db.mediaTags == kept + removed;
    assert kept * removed == {};
  }

  /** add_tags adds every pair of a listed id and a listed tag, keeping the pairs already there. */
  lemma AddTagsEffect(ids: seq<int>, tags: seq<string>, db: Tables)
    ensures var (db', affected) := Apply(AddTags(tags), ids, db);
      && db'.media == db.media
      && (forall p :: p in db'.mediaTags <==> p in db.mediaTags || (p.0 in ids && p.1 in tags))
      && affected == |ids| * |tags|
  {
    PairsMember(ids, tags);
  }

  /**
   * replace_tags leaves every listed id with exactly the given tags (none
   * for an empty list) and the pairs of every other id as they were.
   */
  lemma ReplaceTagsEffect(ids: seq<int>, tags: seq<string>, db: Tables)
    ensures var (db', affected) := Apply(ReplaceTags(tags), ids, db);
      && db'.media == db.media
      && (forall id, t :: id in ids ==> ((id, t) in db'.mediaTags <==> t in tags))
      && (forall id, t :: id !in ids ==> ((id, t) in db'.mediaTags <==> (id, t) in db.mediaTags))
      && affected == |ids| * |tags|
  {
    PairsMember(ids, tags);
  }

  /**
   * rename, activate and deactivate change only their column on the listed
   * rows that exist; delete removes exactly those rows; no row is added,
   * the tag pairs stay as they were and the count is of the matched rows.
   */
  lemma RowActionsEffect(cmd: Command, ids: seq<int>, db: Tables)
    requires cmd.Rename? || cmd.Activate? || cmd.Deactivate? || cmd.Delete?
    ensures var (db', affected) := Apply(cmd, ids, db);
      && db'.mediaTags == db.mediaTags
      && (forall k :: k in db'.media ==> k in db.media)
      && (forall k :: k in db.media && k !in ids ==> k in db'.media && db'.media[k] == db.media[k])
      && (cmd.Delete? ==> forall k :: k in ids ==> k !in db'.media)
      && (cmd.Rename? ==> forall k :: k in ids && k in db.media ==> k in db'.media && db'.media[k] == db.media[k].(title := cmd.title))
      && (cmd.Activate? ==> forall k :: k in ids && k in db.media ==> k in db'.media && db'.media[k] == db.media[k].(active := true))
      && (cmd.Deactivate? ==> forall k :: k in ids && k in db.media ==> k in db'.media && db'.media[k] == db.media[k].(active := false))
      && affected == |set k | k in db.media && k in ids|
  {
  }

  /** The two tables, updated in place by the handler. */
  class MediaDb {
    var media: Media
    var mediaTags: MediaTags

    function State(): Tables
      reads this
    {
      Tables(media, mediaTags)
    }

    constructor (media: Media, mediaTags: MediaTags)
      ensures this.media == media && this.mediaTags == mediaTags
    {
      this.media := media;
      this.mediaTags := mediaTags;
    }

    /**
     * The nested loops of add_tags and replace_tags: one
     * `INSERT OR IGNORE` per listed id and tag, each counted as inserted.
     */
    method InsertPairs(ids: seq<int>, tags: seq<string>) returns (inserted: nat)
      modifies this
      ensures mediaTags == old(mediaTags) + Pairs(ids, tags)
      ensures media == old(media)
      ensures inserted == |ids| * |tags|
    {
      inserted := 0;
      var i := 0;
      while i < |ids|
        invariant 0 <= i <= |ids|
        invariant mediaTags == old(mediaTags) + Pairs(ids[..i], tags)
        invariant inserted == i * |tags|
        invariant media == old(media)
      {
        var j := 0;
        while j < |tags|
          invariant 0 <= j <= |tags|
          invariant mediaTags == old(mediaTags) + Pairs(ids[..i], tags) + Pairs([ids[i]], tags[..j])
          invariant inserted == i * |tags| + j
          invariant media == old(media)
        {
          PairsStep([ids[i]], tags, j);
          mediaTags := mediaTags + {(ids[i], tags[j])};
          inserted := inserted + 1;
          j := j + 1;
        }
        PairsCons(ids, tags, i);
        assert tags[..|tags|] == tags;
        i := i + 1;
      }
      assert ids[..|ids|] == ids;
    }

    /** The queries of one validated command, with the count the reply reports. */
    method RunCommand(cmd: Command, ids: seq<int>) returns (affected: nat)
      modifies this
      ensures (State(), affected) == Apply(cmd, ids, old(State()))
    {
      match cmd {
        case Rename(title) =>
          affected := Matched(media, ids);
          media := Renamed(media, ids, title);
        case Deactivate =>
          affected := Matched(media, ids);
          media := WithActive(media, ids, false);
        case Activate =>
          affected := Matched(media, ids);
          media := WithActive(media, ids, true);
        case Delete =>
          affected := Matched(media, ids);
          media := Deleted(media, ids);
        case AddTags(tags) =>
          affected := InsertPairs(ids, tags);
        case RemoveTags(tags) =>
          affected := |mediaTags * Pairs(ids, tags)|;
          mediaTags := mediaTags - Pairs(ids, tags);
        case ReplaceTags(tags) =>
          mediaTags := Untagged(mediaTags, ids);
          affected := InsertPairs(ids, tags);
      }
    }

    /** The handler: validate, then run the action's queries. */
    method HandleMediaAction(req: Request) returns (reply: Reply)
      modifies this
      ensures (reply, State()) == Handle(req, old(State()))
    {
      var v := Validate(req);
      if v.Failure? {
        return v.error;
      }
      var affected := RunCommand(v.value, req.ids.value);
      reply := Done(req.action.value, affected);
    }
  }

  lemma PairsStep(ids: seq<int>, tags: seq<string>, j: nat)
    requires |ids| == 1 && j < |tags|
    ensures Pairs(ids, tags[..j + 1]) == Pairs(ids, tags[..j]) + {(ids[0], tags[j])}
  {
    assert tags[..j + 1] == tags[..j] + [tags[j]];
    PairsMember(ids, tags[..j + 1]);
    PairsMember(ids, tags[..j]);
  }

  lemma PairsCons(ids: seq<int>, tags: seq<string>, i: nat)
    requires i < |ids|
    ensures Pairs(ids[..i + 1], tags) == Pairs(ids[..i], tags) + Pairs([ids[i]], tags[..|tags|])
  {
    assert ids[..i + 1] == ids[..i] + [ids[i]];
    assert tags[..|tags|] == tags;
    PairsMember(ids[..i + 1], tags);
    PairsMember(ids[..i], tags);
    PairsMember([ids[i]], tags);
  }
}
