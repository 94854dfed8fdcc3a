/** The request examples of the controller's request spec, stated over the model. */
module RequestExamples {
  import opened Common
  import opened Values
  import opened RubyInteger
  import opened QueuedPosts
  import opened EditOverlay
  import opened UserDeletion
  import opened ModerationUpdate

  /** The edit the request spec sends: every editable field, the category id as the
      string a form submits. */
  const EditParams: map<string, Value> := map[
    RawKey := Str("new raw"),
    TitleKey := Str("new title"),
    CategoryKey := Str("10"),
    TagsKey := List([Str("new_tag")]),
    EditReasonKey := Str("keep everything up to date")]

  function Submission(id: int, topicId: Option<int>): QueuedPost {
    QueuedPost(id, topicId, 2, New, "original raw",
               map["title" := Str("original title"), "category" := Int(3), "tags" := List([Str("old")])],
               0, true)
  }

  /** The spec's topic edit is written, and its overlay has every editable key of a new
      topic plus the editor. */
  lemma TopicEditKeys(moderatorId: int)
    ensures var e := ProposedEdit(TopicSubmission, EditParams, moderatorId);
      e.Write? && e.changes.Keys == TopicKeys + {EditorKey}
  {
    EditParamsAreTopicKeys();
    EditParamsValues();
  }

  /** In that overlay the category id is the integer 10 and the editor is the
      moderator. */
  lemma TopicEditCategoryAndEditor(moderatorId: int)
    ensures var e := ProposedEdit(TopicSubmission, EditParams, moderatorId);
      && e.Write?
      && CategoryKey in e.changes && e.changes[CategoryKey] == Int(10)
      && e.changes[EditorKey] == Int(moderatorId)
  {
    EditParamsAreTopicKeys();
    EditParamsValues();
    assert Present(Str("10")) by {
      assert !IsUnicodeSpace("10"[0]);
    }
    TopicCategoryIsInteger(EditParams, moderatorId);
    TenReadsTen();
  }

  /** The body, title, tags and edit reason are stored as sent. */
  lemma TopicEditCopiesFields(moderatorId: int)
    ensures var e := ProposedEdit(TopicSubmission, EditParams, moderatorId);
      && e.Write?
      && RawKey in e.changes && e.changes[RawKey] == Str("new raw")
      && TitleKey in e.changes && e.changes[TitleKey] == Str("new title")
      && TagsKey in e.changes && e.changes[TagsKey] == List([Str("new_tag")])
      && EditReasonKey in e.changes && e.changes[EditReasonKey] == Str("keep everything up to date")
  {
    EditParamsAreTopicKeys();
    EditParamsValues();
  }

  /** Every editable key of a new topic is sent. */
  lemma EditParamsAreTopicKeys()
    ensures EditParams.Keys == TopicKeys
  {
  }

  /** What the example request sends for each key. */
  lemma EditParamsValues()
    ensures EditParams[RawKey] == Str("new raw")
    ensures EditParams[TitleKey] == Str("new title")
    ensures EditParams[CategoryKey] == Str("10")
    ensures EditParams[TagsKey] == List([Str("new_tag")])
    ensures EditParams[EditReasonKey] == Str("keep everything up to date")
  {
  }

  /** `"10".to_i == 10`. */
  lemma TenReadsTen()
    ensures ToI("10") == 10
  {
    ToIOfDigits("10");
    assert "10"[..1] == "1";
  }

  /** The category id `"10"` is present and converts to 10. */
  lemma CategoryTenReadsTen()
    ensures CoerceCategory(Str("10")) == Some(Int(10))
  {
    TenReadsTen();
    assert !IsUnicodeSpace("10"[0]);
  }

  /** A reply keeps only the body and the edit reason; title, category and tags are
      dropped without an error. */
  lemma ReplyEditExample(moderatorId: int)
    ensures var e := ProposedEdit(ReplySubmission, EditParams, moderatorId);
      && e.Write?
      && e.changes.Keys == {RawKey, EditReasonKey, EditorKey}
      && e.changes[RawKey] == Str("new raw")
      && e.changes[EditReasonKey] == Str("keep everything up to date")
      && e.changes[EditorKey] == Int(moderatorId)
  {
    assert EditParams.Keys * ReplyKeys == ReplyKeys;
  }

  /** Approving a queued post with no edit: the post is rendered, approved, and its
      options are left as they were. */
  lemma ApproveOnlyExample()
    ensures
      var params := map[StateParam := Str("approved")];
      var eff := Update([Submission(1, Some(5))], Request(1, Some(params)), Moderator(7, "mod"),
                        Env(true, None), Collaborators(Pass, Pass, false, Pass));
      && |eff.store| == 1
      && eff.store[0].state == Approved
      && eff.store[0].postOptions == Submission(1, Some(5)).postOptions
      && eff.response == Rendered(eff.store[0])
      && eff.calls == [ApproveCall(1, 7)]
  {
    var params := map[StateParam := Str("approved")];
    var req := Request(1, Some(params));
    var collab := Collaborators(Pass, Pass, false, Pass);
    assert Find([Submission(1, Some(5))], 1) == Some(0);
    assert Reaches([Submission(1, Some(5))], req, Moderator(7, "mod"));
    StateDispatch([Submission(1, Some(5))], req, Moderator(7, "mod"), Env(true, None), collab);
    EditPersistsThroughTransition([Submission(1, Some(5))], req, Moderator(7, "mod"), Env(true, None), collab);
  }

  /** Rejecting a queued post with no edit and no user deletion: the post is rendered and
      rejected, and only reject is called. */
  lemma RejectOnlyExample()
    ensures
      var params := map[StateParam := Str("rejected")];
      var eff := Update([Submission(1, Some(5))], Request(1, Some(params)), Moderator(7, "mod"),
                        Env(true, None), Collaborators(Pass, Pass, true, Pass));
      && |eff.store| == 1
      && eff.store[0].state == Rejected
      && eff.response == Rendered(eff.store[0])
      && eff.calls == [RejectCall(1, 7)]
  {
    var params := map[StateParam := Str("rejected")];
    var req := Request(1, Some(params));
    var collab := Collaborators(Pass, Pass, true, Pass);
    assert Find([Submission(1, Some(5))], 1) == Some(0);
    assert Reaches([Submission(1, Some(5))], req, Moderator(7, "mod"));
    StateDispatch([Submission(1, Some(5))], req, Moderator(7, "mod"), Env(true, None), collab);
    CascadeGuard([Submission(1, Some(5))], req, Moderator(7, "mod"), Env(true, None), collab);
  }

  /** Approving a reply after editing it in the same request: the overlay holds the new
      body, the edit reason and the editor and no title, the post ends up approved and
      is rendered. */
  lemma EditThenApproveExample()
    ensures
      var params := map[RawKey := Str("new raw"), TitleKey := Str("ignored"),
                        EditReasonKey := Str("fix typo"), StateParam := Str("approved")];
      var eff := Update([Submission(1, Some(5))], Request(1, Some(params)), Moderator(7, "mod"),
                        Env(true, None), Collaborators(Pass, Pass, false, Pass));
      && eff.store[0].state == Approved
      && |eff.store| == 1
      && ChangesKey in eff.store[0].postOptions
      && eff.store[0].postOptions[ChangesKey].Hash?
      && eff.store[0].postOptions[ChangesKey].entries.Keys == {RawKey, EditReasonKey, EditorKey}
      && eff.store[0].postOptions[ChangesKey].entries[RawKey] == Str("new raw")
      && eff.store[0].postOptions[ChangesKey].entries[EditorKey] == Int(7)
      && eff.calls == [ApproveCall(1, 7)]
      && eff.response == Rendered(eff.store[0])
  {
    var params := map[RawKey := Str("new raw"), TitleKey := Str("ignored"),
                      EditReasonKey := Str("fix typo"), StateParam := Str("approved")];
    var post := Submission(1, Some(5));
    var req := Request(1, Some(params));
    var actor := Moderator(7, "mod");
    var collab := Collaborators(Pass, Pass, false, Pass);
    assert Find([post], 1) == Some(0);
    assert params.Keys * ReplyKeys == ReplyKeys;
    assert Reaches([post], req, actor);
    StateDispatch([post], req, actor, Env(true, None), collab);
    EditPersistsThroughTransition([post], req, actor, Env(true, None), collab);
  }
}
