/**
 * The media bulk actions end to end: the body the dashboard's Apply button
 * sends (src/public/js/admin.js) read as the request of the
 * `/api/admin/media/actions` handler (src/app.js).
 */
module BulkFlow {
  import opened Wrappers
  import opened JsValues
  import opened AdminClient
  import opened MediaActions

  /** The values of the media bulk-action menu, the unselected entry first. */
  const MediaMenu: seq<string> := ["", "deactivate", "activate", "delete", "set_category", "rename"]

  /** The JSON body as the handler reads it; the dashboard never sends `tags`. */
  function RequestOf(b: Body): Request
  {
    Request(Some(b.action), Some(b.ids), if "title" in b.fields then Some(b.fields["title"]) else None, None)
  }

  /**
   * What the handler makes of an enabled Apply click: the ids are never
   * missing, deactivate, activate and delete are accepted, rename is
   * accepted exactly when the title is more than blanks, and set_category,
   * which this handler does not know, is refused as an unknown action.
   */
  lemma MediaClickOutcome(ids: seq<int>, action: string, category: string, title: string)
    requires action in MediaMenu
    requires !MediaApplyDisabled(ids, action, category, title)
    ensures MediaBody(action, ids, category, title).Some?
    ensures var req := RequestOf(MediaBody(action, ids, category, title).value);
      && (action == "set_category" ==> Validate(req) == Failure(Failed(400, "Unknown action")))
      && (action == "rename" ==> Validate(req) == if Trim(title) == "" then Failure(Failed(400, "title required")) else Success(Rename(Trim(title))))
      && (action in {"deactivate", "activate", "delete"} ==> Validate(req).Success?)
  {
    if action == "rename" {
      RenameClick(ids, category, title);
    } else if action == "set_category" {
      SetCategoryClick(ids, category, title);
    } else if action == "deactivate" || action == "activate" || action == "delete" {
      RowActionClick(ids, action, category, title);
    }
  }

  /** An enabled rename click is accepted exactly when the trimmed title is non-empty. */
  lemma RenameClick(ids: seq<int>, category: string, title: string)
    requires ids != []
    ensures var req := RequestOf(MediaBody("rename", ids, category, title).value);
      Validate(req) == if Trim(title) == "" then Failure(Failed(400, "title required")) else Success(Rename(Trim(title)))
  {
    MediaRequestFields(ids, "rename", category, title);
    assert NameOf(Some("rename")) == RenameAction;
  }

  /** An enabled set_category click is refused as an unknown action. */
  lemma SetCategoryClick(ids: seq<int>, category: string, title: string)
    requires ids != []
    ensures Validate(RequestOf(MediaBody("set_category", ids, category, title).value)) == Failure(Failed(400, "Unknown action"))
  {
    MediaRequestFields(ids, "set_category", category, title);
    SetCategoryIsUnknown();
    ValidateRefusals(RequestOf(MediaBody("set_category", ids, category, title).value));
  }

  lemma SetCategoryIsUnknown()
    ensures NameOf(Some("set_category")) == OtherAction
  {
    assert "set_category" != "replace_tags" by { assert "set_category"[0] != "replace_tags"[0]; }
  }

  /** An enabled deactivate, activate or delete click is accepted. */
  lemma RowActionClick(ids: seq<int>, action: string, category: string, title: string)
    requires ids != [] && action in {"deactivate", "activate", "delete"}
    ensures Validate(RequestOf(MediaBody(action, ids, category, title).value)).Success?
  {
    MediaRequestFields(ids, action, category, title);
    assert NameOf(Some(action)) in {DeactivateAction, ActivateAction, DeleteAction};
  }

  /** The request an Apply click makes: the action and ids as sent, and the trimmed title for rename alone. */
  lemma MediaRequestFields(ids: seq<int>, action: string, category: string, title: string)
    requires action != ""
    ensures MediaBody(action, ids, category, title).Some?
    ensures RequestOf(MediaBody(action, ids, category, title).value)
      == Request(Some(action), Some(ids), if action == "rename" then Some(Trim(title)) else None, None)
  {
  }

  /** A title of blanks enables the button, yet the handler answers `title required`. */
  lemma BlankTitleIsRefused(ids: seq<int>)
    requires ids != []
    ensures !MediaApplyDisabled(ids, "rename", "", " ")
    ensures Validate(RequestOf(MediaBody("rename", ids, "", " ").value)) == Failure(Failed(400, "title required"))
  {
    assert Trim(" ") == "" by {
      assert TrimStart(" ") == TrimStart(" "[1..]);
    }
    MediaClickOutcome(ids, "rename", "", " ");
  }
}
