/**
 * The text editor page of the web client (text-editor.component.ts): a list of
 * the user's texts kept in step with the server's records, a create/edit form
 * whose project associations are a toggle-membership list, and deletion.
 * Every server call is replaced by its outcome.
 */
module TextEditor {
  import opened Wrappers
  import opened Sequences
  import opened Membership
  import opened Records

  /** The form's `currentText`. */
  datatype Draft = Draft(title: string, content: string, projectIds: seq<int>)

  const EmptyDraft := Draft("", "", [])

  /** The request `saveText` sends: an update of the text being edited, or a creation. */
  datatype SaveRequest =
    | Update(id: int, title: string, content: string, projectIds: seq<int>)
    | Create(title: string, content: string, projectIds: seq<int>)

  /** No text in the list has this id. */
  predicate NoneWithId(texts: seq<UserText>, id: int) {
    forall k :: 0 <= k < |texts| ==> texts[k].id != id
  }

  /** `i` is the first position holding a text with this id (what `findIndex` finds). */
  predicate IsFirstWithId(texts: seq<UserText>, id: int, i: int) {
    0 <= i < |texts| && texts[i].id == id && forall k :: 0 <= k < i ==> texts[k].id != id
  }

  /** `texts.filter(t => t.id !== id)`. */
  function WithoutId(texts: seq<UserText>, id: int): (r: seq<UserText>)
    ensures |r| <= |texts|
    ensures NoneWithId(r, id)
  {
    if texts == [] then []
    else (if texts[0].id != id then [texts[0]] else []) + WithoutId(texts[1..], id)
  }

  /** The list after an update reply: the first text with the returned record's id is replaced by
      it; a list without that id is returned unchanged. */
  function Reconciled(texts: seq<UserText>, updated: UserText): (r: seq<UserText>)
    ensures |r| == |texts|
    ensures !NoneWithId(texts, updated.id) ==> updated in r
  {
    if texts == [] then []
    else if texts[0].id == updated.id then [updated] + texts[1..]
    else [texts[0]] + Reconciled(texts[1..], updated)
  }

  /** `texts.findIndex(t => t.id === id)`. */
  method FindIndexById(texts: seq<UserText>, id: int) returns (index: int)
    ensures index == -1 <==> NoneWithId(texts, id)
    ensures index != -1 ==> IsFirstWithId(texts, id, index)
  {
    index := 0;
    while index < |texts|
      invariant 0 <= index <= |texts|
      invariant forall k :: 0 <= k < index ==> texts[k].id != id
    {
      if texts[index].id == id {
        return;
      }
      index := index + 1;
    }
    index := -1;
  }

  /** Deletion keeps exactly the texts with another id. */
  lemma {:induction false} WithoutIdMembers(texts: seq<UserText>, id: int, t: UserText)
    ensures t in WithoutId(texts, id) <==> t in texts && t.id != id
  {
    if texts != [] {
      WithoutIdMembers(texts[1..], id, t);
      assert texts == [texts[0]] + texts[1..];
    }
  }

  /** Deletion keeps the remaining texts in their order. */
  lemma {:induction false} WithoutIdInOrder(texts: seq<UserText>, id: int)
    ensures IsSubsequence(WithoutId(texts, id), texts)
  {
    if texts != [] {
      WithoutIdInOrder(texts[1..], id);
      if texts[0].id != id {
        assert WithoutId(texts, id) == [texts[0]] + WithoutId(texts[1..], id);
        assert WithoutId(texts, id)[1..] == WithoutId(texts[1..], id);
      } else {
        assert WithoutId(texts, id) == WithoutId(texts[1..], id);
        SubsequenceOfTail(WithoutId(texts[1..], id), texts[0], texts[1..]);
        assert [texts[0]] + texts[1..] == texts;
      }
    }
  }

  /** Deleting an id that is not listed changes nothing. */
  lemma {:induction false} WithoutAbsentId(texts: seq<UserText>, id: int)
    requires NoneWithId(texts, id)
    ensures WithoutId(texts, id) == texts
  {
    if texts != [] {
      assert NoneWithId(texts[1..], id) by {
        forall k | 0 <= k < |texts[1..]|
          ensures texts[1..][k].id != id
        {
          assert texts[1..][k] == texts[k + 1];
        }
      }
      WithoutAbsentId(texts[1..], id);
      assert [texts[0]] + texts[1..] == texts;
    }
  }

  /** An update reply replaces the first text with its id, and only that one. */
  lemma {:induction false} ReconciledReplacesFirst(texts: seq<UserText>, updated: UserText, i: int)
    requires IsFirstWithId(texts, updated.id, i)
    ensures Reconciled(texts, updated) == texts[i := updated]
  {
    if i > 0 {
      assert IsFirstWithId(texts[1..], updated.id, i - 1) by {
        forall k | 0 <= k < i - 1
          ensures texts[1..][k].id != updated.id
        {
          assert texts[1..][k] == texts[k + 1];
        }
      }
      ReconciledReplacesFirst(texts[1..], updated, i - 1);
      assert texts[i := updated] == [texts[0]] + texts[1..][i - 1 := updated];
    }
  }

  /** An update reply for an id that is not listed changes nothing. */
  lemma {:induction false} ReconciledUnknownId(texts: seq<UserText>, updated: UserText)
    requires NoneWithId(texts, updated.id)
    ensures Reconciled(texts, updated) == texts
  {
    if texts != [] {
      assert NoneWithId(texts[1..], updated.id) by {
        forall k | 0 <= k < |texts[1..]|
          ensures texts[1..][k].id != updated.id
        {
          assert texts[1..][k] == texts[k + 1];
        }
      }
      ReconciledUnknownId(texts[1..], updated);
      assert [texts[0]] + texts[1..] == texts;
    }
  }

  /** An update reply keeps the length and the id at every position. */
  lemma {:induction false} ReconciledKeepsIds(texts: seq<UserText>, updated: UserText)
    ensures |Reconciled(texts, updated)| == |texts|
    ensures forall k :: 0 <= k < |texts| ==> Reconciled(texts, updated)[k].id == texts[k].id
  {
    if texts != [] && texts[0].id != updated.id {
      ReconciledKeepsIds(texts[1..], updated);
      var r := Reconciled(texts, updated);
      assert forall k :: 1 <= k < |texts| ==> r[k] == Reconciled(texts[1..], updated)[k - 1];
    }
  }

  class TextEditorComponent {
    var texts: seq<UserText>
    var showCreateForm: bool
    var editingText: Option<UserText>
    var currentText: Draft

    /** The field initialisers. */
    constructor()
      ensures texts == [] && !showCreateForm && editingText == None && currentText == EmptyDraft
    {
      texts := [];
      showCreateForm := false;
      editingText := None;
      currentText := EmptyDraft;
    }

    /** `loadTexts`: `fetched` is the server's list of texts, `None` when the call failed (which
        only logs). */
    method LoadTexts(fetched: Option<seq<UserText>>)
      modifies this`texts
      ensures texts == if fetched.Some? then fetched.value else old(texts)
    {
      if fetched.Some? {
        texts := fetched.value;
      }
    }

    /** `isProjectSelected`: membership in the draft's project list. */
    predicate IsProjectSelected(projectId: int)
      reads this
    {
      projectId in currentText.projectIds
    }

    /** `editText`: edits `text`, copying its title and content; the project list starts empty. */
    method EditText(text: UserText)
      modifies this`editingText, this`currentText
      ensures editingText == Some(text)
      ensures currentText == Draft(text.title, text.content, [])
    {
      editingText := Some(text);
      currentText := Draft(text.title, text.content, []);
    }

    /** `cancelEdit`: the form is closed and emptied. */
    method CancelEdit()
      modifies this`editingText, this`showCreateForm, this`currentText
      ensures editingText == None && !showCreateForm && currentText == EmptyDraft
      ensures forall p :: !IsProjectSelected(p)
    {
      editingText := None;
      showCreateForm := false;
      currentText := EmptyDraft;
    }

    /** `toggleProject`: adds an absent project id to the draft, removes a present one (its first
        occurrence); title and content are untouched. */
    method ToggleProject(projectId: int)
      modifies this`currentText
      ensures currentText == old(currentText).(projectIds := Toggled(old(currentText.projectIds), projectId))
    {
      var ids := currentText.projectIds;
      var index := IndexOf(ids, projectId);
      if index == -1 {
        ids := ids + [projectId];
      } else {
        ids := ids[..index] + ids[index + 1..];
      }
      currentText := currentText.(projectIds := ids);
    }

    /** `deleteText`: `confirmed` is the answer to the confirmation dialog and `succeeded` the outcome
        of the deletion request, which is sent only when confirmed. */
    method DeleteText(id: int, confirmed: bool, succeeded: bool) returns (sent: bool)
      modifies this`texts
      ensures sent == confirmed
      ensures sent && succeeded ==> texts == WithoutId(old(texts), id)
      ensures !(sent && succeeded) ==> texts == old(texts)
    {
      sent := confirmed;
      if confirmed && succeeded {
        texts := WithoutId(texts, id);
      }
    }

    /** `saveText`: sends an update of the text being edited, or else a creation, with the draft's
        fields. `reply` is the record the server returns, `None` when the call fails (which only
        logs). A reply updates the list and closes the form. */
    method SaveText(reply: Option<UserText>) returns (request: SaveRequest)
      modifies this`texts, this`editingText, this`showCreateForm, this`currentText
      ensures old(editingText).Some? ==>
        request == Update(old(editingText).value.id, old(currentText).title, old(currentText).content, old(currentText).projectIds)
      ensures old(editingText).None? ==>
        request == Create(old(currentText).title, old(currentText).content, old(currentText).projectIds)
      ensures reply.Some? && request.Update? ==> texts == Reconciled(old(texts), reply.value)
      ensures reply.Some? && request.Create? ==> texts == old(texts) + [reply.value]
      ensures reply.Some? ==> editingText == None && !showCreateForm && currentText == EmptyDraft
      ensures reply.None? ==>
        texts == old(texts) && editingText == old(editingText) &&
        showCreateForm == old(showCreateForm) && currentText == old(currentText)
    {
      if editingText.Some? {
        request := Update(editingText.value.id, currentText.title, currentText.content, currentText.projectIds);
        if reply.Some? {
          var updated := reply.value;
          var index := FindIndexById(texts, updated.id);
          if index != -1 {
            ReconciledReplacesFirst(texts, updated, index);
            texts := texts[index := updated];
          } else {
            ReconciledUnknownId(texts, updated);
          }
          CancelEdit();
        }
      } else {
        request := Create(currentText.title, currentText.content, currentText.projectIds);
        if reply.Some? {
          texts := texts + [reply.value];
          CancelEdit();
        }
      }
    }
  }
}
