/**
 * The pure helpers of the admin dashboard script (src/public/js/admin.js):
 * HTML escaping, the rules that enable the bulk-action Apply buttons and
 * show their extra inputs, and the JSON bodies the buttons send.
 */
module AdminClient {
  import opened Wrappers
  import opened JsValues

  // ---------------------------------------------------------------------
  // escapeHtml and escapeAttr

  /** The characters in `[&<>"]`. */
  predicate Special(c: char)
  {
    c == '&' || c == '<' || c == '>' || c == '"'
  }

  /** The lookup table of escapeHtml. */
  function Entity(c: char): string
    requires Special(c)
  {
    if c == '&' then "&amp;" else if c == '<' then "&lt;" else if c == '>' then "&gt;" else "&quot;"
  }

  /** The length of the run of special characters at the start of `s`. */
  function RunLength(s: string): (n: nat)
    ensures n <= |s|
    ensures forall i :: 0 <= i < n ==> Special(s[i])
    ensures n < |s| ==> !Special(s[n])
  {
    if s != [] && Special(s[0]) then 1 + RunLength(s[1..]) else 0
  }

  /**
   * `s.replace(/[&<>"]+/g, ch => table[ch])`: each maximal run of special
   * characters is looked up as a whole, so a run of one becomes its entity
   * and a longer run, missing from the table, becomes the text `undefined`.
   */
  function EscapeRuns(s: string): string
    decreases |s|
  {
    if s == [] then []
    else
      var n := RunLength(s);
      if n == 0 then [s[0]] + EscapeRuns(s[1..])
      else (if n == 1 then Entity(s[0]) else "undefined") + EscapeRuns(s[n..])
  }

  /** escapeHtml(s): `(s || '')` escaped; None stands for null and undefined. */
  function EscapeHtml(s: Option<string>): string
  {
    EscapeRuns(if s.None? then "" else s.value)
  }

  /** No character that would open a tag or close an attribute value. */
  predicate NoMarkup(t: string)
  {
    forall k :: 0 <= k < |t| ==> t[k] != '<' && t[k] != '>' && t[k] != '"'
  }

  lemma NoMarkupConcat(a: string, b: string)
    requires NoMarkup(a) && NoMarkup(b)
    ensures NoMarkup(a + b)
  {
    forall k | 0 <= k < |a + b| ensures (a + b)[k] != '<' && (a + b)[k] != '>' && (a + b)[k] != '"' {
      if k < |a| {
        assert (a + b)[k] == a[k];
      } else {
        assert (a + b)[k] == b[k - |a|];
      }
    }
  }

  /** The output of escapeHtml never holds `<`, `>` or `"`, whatever the input. */
  lemma {:induction false} EscapeRunsHasNoMarkup(s: string)
    ensures NoMarkup(EscapeRuns(s))
    decreases |s|
  {
    if s != [] {
      var n := RunLength(s);
      if n == 0 {
        EscapeRunsHasNoMarkup(s[1..]);
        NoMarkupConcat([s[0]], EscapeRuns(s[1..]));
      } else {
        EscapeRunsHasNoMarkup(s[n..]);
        var head := if n == 1 then Entity(s[0]) else "undefined";
        assert NoMarkup(head);
        NoMarkupConcat(head, EscapeRuns(s[n..]));
      }
    }
  }

  /** escapeHtml of null, undefined or the empty string is empty. */
  lemma EscapeHtmlOfNothing(s: Option<string>)
    requires s.None? || s.value == ""
    ensures EscapeHtml(s) == ""
  {
  }

  /**
   * One step of escapeHtml: an ordinary character is copied, a special one
   * not followed by another becomes its entity, and a run of two or more
   * becomes `undefined`.
   */
  lemma EscapeRunsStep(c: char, rest: string)
    ensures !Special(c) ==> EscapeRuns([c] + rest) == [c] + EscapeRuns(rest)
    ensures Special(c) && (rest == [] || !Special(rest[0])) ==> EscapeRuns([c] + rest) == Entity(c) + EscapeRuns(rest)
    ensures Special(c) && rest != [] && Special(rest[0]) ==>
      EscapeRuns([c] + rest) == "undefined" + EscapeRuns(rest[RunLength(rest)..])
  {
    var s := [c] + rest;
    assert s[1..] == rest;
    if Special(c) {
      assert RunLength(s) == 1 + RunLength(rest);
      assert s[RunLength(s)..] == rest[RunLength(rest)..];
      if rest == [] || !Special(rest[0]) {
        assert s[1..] == rest;
      }
    }
  }

  /** escapeAttr's second replacement: every `'` becomes `&#39;`. */
  function ReplaceApostrophes(t: string): string
  {
    if t == [] then []
    else (if t[0] == '\'' then "&#39;" else [t[0]]) + ReplaceApostrophes(t[1..])
  }

  /** escapeAttr(s). */
  function EscapeAttr(s: Option<string>): string
  {
    ReplaceApostrophes(EscapeHtml(s))
  }

  predicate NoApostrophe(t: string)
  {
    forall k :: 0 <= k < |t| ==> t[k] != '\''
  }

  /**
   * The apostrophe replacement leaves no apostrophe, keeps the text free of
   * markup when it was, and changes nothing in a text without apostrophes.
   */
  lemma {:induction false} ReplaceApostrophesEffect(t: string)
    ensures NoApostrophe(ReplaceApostrophes(t))
    ensures NoMarkup(t) ==> NoMarkup(ReplaceApostrophes(t))
    ensures NoApostrophe(t) ==> ReplaceApostrophes(t) == t
  {
    if t != [] {
      var rest := t[1..];
      ReplaceApostrophesEffect(rest);
      var head := if t[0] == '\'' then "&#39;" else [t[0]];
      var r := ReplaceApostrophes(rest);
      assert ReplaceApostrophes(t) == head + r;
      forall k | 0 <= k < |head + r| ensures (head + r)[k] != '\'' {
        if k >= |head| {
          assert (head + r)[k] == r[k - |head|];
        }
      }
      if NoMarkup(t) {
        assert NoMarkup(rest) by {
          forall k | 0 <= k < |rest| ensures rest[k] != '<' && rest[k] != '>' && rest[k] != '"' {
            assert rest[k] == t[k + 1];
          }
        }
        NoMarkupConcat(head, r);
      }
      if NoApostrophe(t) {
        assert NoApostrophe(rest) by {
          forall k | 0 <= k < |rest| ensures rest[k] != '\'' {
            assert rest[k] == t[k + 1];
          }
        }
        assert t == [t[0]] + rest;
      }
    }
  }

  /** escapeAttr's output holds neither an apostrophe nor `<`, `>` or `"`. */
  lemma EscapeAttrIsSafe(s: Option<string>)
    ensures NoApostrophe(EscapeAttr(s)) && NoMarkup(EscapeAttr(s))
  {
    EscapeRunsHasNoMarkup(if s.None? then "" else s.value);
    ReplaceApostrophesEffect(EscapeHtml(s));
  }

  /** The run lookup collapses different inputs: `<>`, `<<` and `">` all become `undefined`. */
  lemma EscapeRunsCollapses()
    ensures EscapeRuns("<>") == "undefined"
    ensures EscapeRuns("<<") == EscapeRuns("<>") == EscapeRuns("\">")
  {
    EscapeRunsStep('<', ">");
    EscapeRunsStep('<', "<");
    EscapeRunsStep('"', ">");
    assert ">"[RunLength(">")..] == [];
    assert "<"[RunLength("<")..] == [];
  }

  // ---------------------------------------------------------------------
  // The escaping evidently intended

  /** Per-character escaping, `/[&<>"]/g`. */
  function EscapeChars(s: string): string
  {
    if s == [] then []
    else (if Special(s[0]) then Entity(s[0]) else [s[0]]) + EscapeChars(s[1..])
  }

  /** Reads the four entities back, copying every other character. */
  function Unescape(t: string): string
    decreases |t|
  {
    if t == [] then []
    else if StartsWith(t, "&amp;") then "&" + Unescape(t[5..])
    else if StartsWith(t, "&lt;") then "<" + Unescape(t[4..])
    else if StartsWith(t, "&gt;") then ">" + Unescape(t[4..])
    else if StartsWith(t, "&quot;") then "\"" + Unescape(t[6..])
    else [t[0]] + Unescape(t[1..])
  }

  lemma UnescapePlain(c: char, rest: string)
    requires c != '&'
    ensures Unescape([c] + rest) == [c] + Unescape(rest)
  {
    var t := [c] + rest;
    assert t[1..] == rest;
    assert !StartsWith(t, "&amp;") by { if 5 <= |t| { assert t[..5][0] == c; } }
    assert !StartsWith(t, "&lt;") by { if 4 <= |t| { assert t[..4][0] == c; } }
    assert !StartsWith(t, "&gt;") by { if 4 <= |t| { assert t[..4][0] == c; } }
    assert !StartsWith(t, "&quot;") by { if 6 <= |t| { assert t[..6][0] == c; } }
  }

  lemma UnescapeEntity(c: char, rest: string)
    requires Special(c)
    ensures Unescape(Entity(c) + rest) == [c] + Unescape(rest)
  {
    var t := Entity(c) + rest;
    assert t[..|Entity(c)|] == Entity(c);
    assert t[|Entity(c)|..] == rest;
    if c != '&' {
      assert !StartsWith(t, "&amp;") by { if 5 <= |t| { assert t[..5][1] == t[1]; } }
    }
    if c == '"' || c == '>' {
      assert !StartsWith(t, "&lt;") by { assert t[..4][1] == t[1]; }
    }
    if c == '"' {
      assert !StartsWith(t, "&gt;") by { assert t[..4][1] == t[1]; }
    }
  }

  /** Per-character escaping can always be read back. */
  lemma {:induction false} EscapeCharsRoundTrip(s: string)
    ensures Unescape(EscapeChars(s)) == s
  {
    if s != [] {
      EscapeCharsRoundTrip(s[1..]);
      if Special(s[0]) {
        UnescapeEntity(s[0], EscapeChars(s[1..]));
      } else {
        UnescapePlain(s[0], EscapeChars(s[1..]));
      }
      assert s == [s[0]] + s[1..];
    }
  }

  /** No two special characters stand next to each other. */
  predicate NoAdjacentSpecials(s: string)
  {
    forall i :: 0 <= i < |s| - 1 ==> !(Special(s[i]) && Special(s[i + 1]))
  }

  /** Where no two special characters touch, the code as written escapes as intended. */
  lemma {:induction false} EscapeRunsAgrees(s: string)
    requires NoAdjacentSpecials(s)
    ensures EscapeRuns(s) == EscapeChars(s)
    decreases |s|
  {
    if s != [] {
      var rest := s[1..];
      assert NoAdjacentSpecials(rest) by {
        forall i | 0 <= i < |rest| - 1 ensures !(Special(rest[i]) && Special(rest[i + 1])) {
          assert rest[i] == s[i + 1] && rest[i + 1] == s[i + 2];
        }
      }
      EscapeRunsAgrees(rest);
      assert s == [s[0]] + rest;
      if Special(s[0]) && rest != [] {
        assert !Special(s[1]);
      }
      EscapeRunsStep(s[0], rest);
    }
  }

  /** The run lookup loses information that per-character escaping keeps. */
  lemma EscapeRunsLosesText()
    ensures EscapeRuns("<<") == EscapeRuns("<>")
    ensures Unescape(EscapeRuns("<>")) != "<>" && Unescape(EscapeChars("<>")) == "<>"
  {
    EscapeRunsCollapses();
    EscapeCharsRoundTrip("<>");
    UnescapeStartsPlain('u', "ndefined");
    assert "undefined" == ['u'] + "ndefined";
  }

  lemma UnescapeStartsPlain(c: char, rest: string)
    requires c != '&'
    ensures Unescape([c] + rest)[0] == c
  {
    UnescapePlain(c, rest);
  }

  // ---------------------------------------------------------------------
  // Apply buttons and extra inputs

  /** The user table's `update()`: Apply is disabled with nothing selected, no action, or no role for `change_role`. */
  function UserApplyDisabled(selected: seq<int>, action: string, roleInput: string): bool
  {
    |selected| == 0 || action == "" || (action == "change_role" && roleInput == "")
  }

  /** The role input is shown for `change_role` only. */
  function RoleInputShown(action: string): bool
  {
    action == "change_role"
  }

  /** The media table's `update()`. */
  function MediaApplyDisabled(selected: seq<int>, action: string, categoryInput: string, titleInput: string): bool
  {
    var needsCategory := action == "set_category";
    var needsTitle := action == "rename";
    |selected| == 0 || action == "" || (needsCategory && categoryInput == "") || (needsTitle && titleInput == "")
  }

  function CategoryInputShown(action: string): bool
  {
    action == "set_category"
  }

  function TitleInputShown(action: string): bool
  {
    action == "rename"
  }

  /**
   * The Apply rules: an enabled button means rows are selected and an action
   * is chosen, and the input the action needs (the only one shown) is not
   * empty; each input is shown for its own action alone.
   */
  lemma ApplyRules(selected: seq<int>, action: string, role: string, category: string, title: string)
    ensures !UserApplyDisabled(selected, action, role) <==>
      selected != [] && action != "" && (RoleInputShown(action) ==> role != "")
    ensures !MediaApplyDisabled(selected, action, category, title) <==>
      && selected != [] && action != ""
      && (CategoryInputShown(action) ==> category != "")
      && (TitleInputShown(action) ==> title != "")
    ensures !(CategoryInputShown(action) && TitleInputShown(action))
    ensures RoleInputShown(action) ==> !CategoryInputShown(action) && !TitleInputShown(action)
  {
  }

  // ---------------------------------------------------------------------
  // Request bodies

  /** `{ action, ids, ... }`: the extra fields by name. */
  datatype Body = Body(action: string, ids: seq<int>, fields: map<string, string>)

  /** The user Apply click: nothing without an action; `change_role` adds the trimmed role. */
  function UserBody(action: string, ids: seq<int>, roleInput: string): Option<Body>
  {
    if action == "" then None
    else Some(Body(action, ids, if action == "change_role" then map["role" := Trim(roleInput)] else map[]))
  }

  /** The media Apply click: `set_category` adds the trimmed category, `rename` the trimmed title. */
  function MediaBody(action: string, ids: seq<int>, categoryInput: string, titleInput: string): Option<Body>
  {
    if action == "" then None
    else
      var fields :=
        if action == "set_category" then map["category" := Trim(categoryInput)]
        else if action == "rename" then map["title" := Trim(titleInput)]
        else map[];
      Some(Body(action, ids, fields))
  }

  /** A value with neither leading nor trailing whitespace. */
  predicate Trimmed(t: string)
  {
    |t| > 0 ==> !IsWhitespace(t[0]) && !IsWhitespace(t[|t| - 1])
  }

  /**
   * The bodies: sent exactly when an action is chosen, with that action and
   * the selected ids, and at most the one extra field of the action, trimmed.
   */
  lemma BodyFields(action: string, ids: seq<int>, role: string, category: string, title: string)
    ensures UserBody(action, ids, role).Some? <==> action != ""
    ensures MediaBody(action, ids, category, title).Some? <==> action != ""
    ensures action != "" ==>
      var u := UserBody(action, ids, role).value;
      && u.action == action && u.ids == ids
      && u.fields.Keys == (if action == "change_role" then {"role"} else {})
      && (action == "change_role" ==> u.fields["role"] == Trim(role) && Trimmed(u.fields["role"]))
    ensures action != "" ==>
      var m := MediaBody(action, ids, category, title).value;
      && m.action == action && m.ids == ids
      && m.fields.Keys == (if action == "set_category" then {"category"} else if action == "rename" then {"title"} else {})
      && (action == "set_category" ==> m.fields["category"] == Trim(category) && Trimmed(m.fields["category"]))
      && (action == "rename" ==> m.fields["title"] == Trim(title) && Trimmed(m.fields["title"]))
  {
  }
}
