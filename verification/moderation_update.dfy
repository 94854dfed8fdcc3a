/** `QueuedPostsController#update`: look the post up, write the moderator's edit, then
    approve or reject it, and after a rejection optionally delete the submitter.

    The collaborators whose code is not part of this model (`QueuedPost#approve!`,
    `#reject!`, `guardian.can_delete_user?` and `UserDestroyer#destroy`) appear as
    given outcomes. A successful approve or reject moves the post to that state; one that
    raises leaves the stored state as it was. The calls the action makes are recorded. */
module ModerationUpdate {
  import opened Common
  import opened Values
  import opened QueuedPosts
  import opened EditOverlay
  import opened UserDeletion

  const StateParam := "state"
  const DeleteUserParam := "delete_user"

  /** A `PUT /queued_posts/:id` request. `queuedPost` is `params[:queued_post]` when it is
      a hash, and `None` when it is missing or is not a hash. */
  datatype Request = Request(id: int, queuedPost: Option<map<string, Value>>)

  /** The signed-in staff member. */
  datatype Moderator = Moderator(id: int, username: string)

  /** What the opaque collaborators do when called. */
  datatype Collaborators = Collaborators(
    approve: Outcome,
    reject: Outcome,
    canDeleteUser: bool,
    destroyUser: Outcome)

  /** A call into a collaborator that changes something. */
  datatype Call =
    | ApproveCall(post: int, actor: int)
    | RejectCall(post: int, actor: int)
    | DestroyUserCall(user: int, actor: int, opts: DeletionOpts)

  /** The kinds of error the action reports: the post was not found, a collaborator raised
      (rescued and rendered as a JSON error), or an error escaped the rescue block. */
  datatype Error = NotFound | Raised(message: string) | Unhandled

  datatype Response = Rendered(post: QueuedPost) | Failed(error: Error)

  /** The table after the request, the response, and the calls made, in order. */
  datatype Effect = Effect(store: Store, response: Response, calls: seq<Call>)

  predicate IsDestroy(c: Call) {
    c.DestroyUserCall?
  }

  /** The transition `params[:queued_post][:state]` asks for: only the exact strings
      `"approved"` and `"rejected"` ask for one. */
  predicate AsksApprove(params: map<string, Value>) {
    Lookup(params, StateParam) == Str("approved")
  }

  predicate AsksReject(params: map<string, Value>) {
    Lookup(params, StateParam) == Str("rejected")
  }

  /** The post after the edit step, when that step does not raise. */
  function Edited(post: QueuedPost, edit: Edit): QueuedPost
    requires !edit.NoMethodError?
  {
    if edit.Write? then ApplyEdit(post, edit.changes) else post
  }

  /** The deletion of the submitter that may follow a successful reject. */
  function Cascade(store: Store, i: nat, params: map<string, Value>, actor: Moderator, env: Env, collab: Collaborators): (eff: Effect)
    requires i < |store| && store[i].state == Rejected
    ensures eff.store == store
    ensures |eff.calls| <= 1
    ensures |eff.calls| == 1 <==> Lookup(params, DeleteUserParam) == Str("true") && collab.canDeleteUser
    ensures |eff.calls| == 1 ==> eff.calls[0] == DestroyUserCall(store[i].userId, actor.id, UserDeletionOpts(actor.username, env))
    ensures eff.response.Failed? <==> |eff.calls| == 1 && collab.destroyUser.Raise?
    ensures eff.response.Failed? ==> eff.response.error == Raised(collab.destroyUser.message)
    ensures eff.response.Rendered? ==> eff.response.post == store[i]
  {
    var post := store[i];
    if Lookup(params, DeleteUserParam) == Str("true") && collab.canDeleteUser then
      var calls := [DestroyUserCall(post.userId, actor.id, UserDeletionOpts(actor.username, env))];
      match collab.destroyUser
      case Raise(m) => Effect(store, Failed(Raised(m)), calls)
      case Pass => Effect(store, Rendered(post), calls)
    else Effect(store, Rendered(post), [])
  }

  /** The state dispatch and cascade, applied to row `i` once the edit is stored. */
  function Transition(store: Store, i: nat, params: map<string, Value>, actor: Moderator, env: Env, collab: Collaborators): (eff: Effect)
    requires i < |store|
  {
    var post := store[i];
    if AsksApprove(params) then
      var calls := [ApproveCall(post.id, actor.id)];
      match collab.approve
      case Raise(m) => Effect(store, Failed(Raised(m)), calls)
      case Pass =>
        var done := post.(state := Approved);
        Effect(store[i := done], Rendered(done), calls)
    else if AsksReject(params) then
      var calls := [RejectCall(post.id, actor.id)];
      match collab.reject
      case Raise(m) => Effect(store, Failed(Raised(m)), calls)
      case Pass =>
        var cascade := Cascade(store[i := post.(state := Rejected)], i, params, actor, env, collab);
        cascade.(calls := calls + cascade.calls)
    else Effect(store, Rendered(post), [])
  }

  /** The whole action. Whatever happens the table keeps its rows; an unknown id is the
      not-found error, an error outside the rescue block is unhandled, and either way
      nothing is written and nothing is called. */
  function Update(store: Store, req: Request, actor: Moderator, env: Env, collab: Collaborators): (eff: Effect)
    ensures |eff.store| == |store|
    ensures eff.response == Failed(NotFound) <==> Find(store, req.id).None?
    ensures eff.response == Failed(Unhandled) <==> Find(store, req.id).Some? && !Reaches(store, req, actor)
    ensures !Reaches(store, req, actor) ==> eff.store == store && eff.calls == []
  {
    match Find(store, req.id)
    case None => Effect(store, Failed(NotFound), [])
    case Some(i) =>
      match req.queuedPost
      case None => Effect(store, Failed(Unhandled), [])
      case Some(params) =>
        var edit := ProposedEdit(store[i].Kind(), params, actor.id);
        if edit.NoMethodError? then Effect(store, Failed(Unhandled), [])
        else Transition(store[i := Edited(store[i], edit)], i, params, actor, env, collab)
  }

  /** The action as the controller runs it: the edit is saved, then the transition is
      attempted, then the cascade. */
  method HandleUpdate(store: Store, req: Request, actor: Moderator, env: Env, collab: Collaborators)
    returns (store': Store, response: Response, calls: seq<Call>)
    ensures Effect(store', response, calls) == Update(store, req, actor, env, collab)
    ensures |store'| == |store|
    ensures response == Failed(NotFound) <==> Find(store, req.id).None?
  {
    var found := Find(store, req.id);
    if found.None? {
      return store, Failed(NotFound), [];
    }
    var i := found.value;
    if req.queuedPost.None? {
      return store, Failed(Unhandled), [];
    }
    var params := req.queuedPost.value;
    var edit := ProposedEdit(store[i].Kind(), params, actor.id);
    if edit.NoMethodError? {
      return store, Failed(Unhandled), [];
    }
    store' := store;
    if edit.Write? {
      store' := store'[i := ApplyEdit(store[i], edit.changes)];
    }
    assert store' == store[i := Edited(store[i], edit)];
    ghost var target := Transition(store', i, params, actor, env, collab);
    assert Update(store, req, actor, env, collab) == target;
    var post := store'[i];
    calls := [];
    response := Rendered(post);
    if AsksApprove(params) {
      calls := [ApproveCall(post.id, actor.id)];
      if collab.approve.Raise? {
        response := Failed(Raised(collab.approve.message));
      } else {
        post := post.(state := Approved);
        store' := store'[i := post];
        response := Rendered(post);
      }
    } else if AsksReject(params) {
      calls := [RejectCall(post.id, actor.id)];
      if collab.reject.Raise? {
        response := Failed(Raised(collab.reject.message));
      } else {
        post := post.(state := Rejected);
        store' := store'[i := post];
        response := Rendered(post);
        if Lookup(params, DeleteUserParam) == Str("true") && collab.canDeleteUser {
          calls := calls + [DestroyUserCall(post.userId, actor.id, UserDeletionOpts(actor.username, env))];
          if collab.destroyUser.Raise? {
            response := Failed(Raised(collab.destroyUser.message));
          }
        }
      }
    }
  }

  /** The row `update` works on and the edit it makes, when the request gets that far. */
  predicate Reaches(store: Store, req: Request, actor: Moderator) {
    && Find(store, req.id).Some?
    && req.queuedPost.Some?
    && !ProposedEdit(store[Find(store, req.id).value].Kind(), req.queuedPost.value, actor.id).NoMethodError?
  }

  /** Once the request gets past the edit, the action is the transition applied to the
      table holding the edited row. */
  lemma UpdateAfterEdit(store: Store, req: Request, actor: Moderator, env: Env, collab: Collaborators)
    requires Reaches(store, req, actor)
    ensures var i := Find(store, req.id).value;
      var params := req.queuedPost.value;
      var edited := store[i := Edited(store[i], ProposedEdit(store[i].Kind(), params, actor.id))];
      Update(store, req, actor, env, collab) == Transition(edited, i, params, actor, env, collab)
  {
  }

  /** An id that names no row: the not-found error, with nothing written and nothing
      called. */
  lemma UnknownIdChangesNothing(store: Store, req: Request, actor: Moderator, env: Env, collab: Collaborators)
    requires forall j :: 0 <= j < |store| ==> store[j].id != req.id
    ensures Update(store, req, actor, env, collab) == Effect(store, Failed(NotFound), [])
  {
  }

  /** An error outside the rescue block (no `queued_post` hash, or `to_i` on a value
      without it) is reported with nothing written and nothing called. */
  lemma UnhandledChangesNothing(store: Store, req: Request, actor: Moderator, env: Env, collab: Collaborators)
    requires Find(store, req.id).Some?
    requires !Reaches(store, req, actor)
    ensures Update(store, req, actor, env, collab) == Effect(store, Failed(Unhandled), [])
  {
  }

  /** Only the requested row is written, and of it only the `changes` entry of
      `post_options` and the state: the submitted body, the other options (title,
      category, tags, ...) and the identity of the row stay as they were. */
  lemma SubmissionUntouched(store: Store, req: Request, actor: Moderator, env: Env, collab: Collaborators)
    requires Reaches(store, req, actor)
    ensures var eff := Update(store, req, actor, env, collab);
      var i := Find(store, req.id).value;
      && |eff.store| == |store|
      && (forall j :: 0 <= j < |store| && j != i ==> eff.store[j] == store[j])
      && eff.store[i].(postOptions := store[i].postOptions, state := store[i].state) == store[i]
      && eff.store[i].postOptions.Keys <= store[i].postOptions.Keys + {ChangesKey}
      && (forall k :: k in store[i].postOptions && k != ChangesKey ==>
            k in eff.store[i].postOptions && eff.store[i].postOptions[k] == store[i].postOptions[k])
  {
    var i := Find(store, req.id).value;
    var params := req.queuedPost.value;
    var edited := store[i := Edited(store[i], ProposedEdit(store[i].Kind(), params, actor.id))];
    UpdateAfterEdit(store, req, actor, env, collab);
    TransitionWritesOnlyState(edited, i, params, actor, env, collab);
  }

  /** The transition step writes only the state of row `i`. */
  lemma TransitionWritesOnlyState(store: Store, i: nat, params: map<string, Value>, actor: Moderator, env: Env, collab: Collaborators)
    requires i < |store|
    ensures var eff := Transition(store, i, params, actor, env, collab);
      && |eff.store| == |store|
      && (forall j :: 0 <= j < |store| && j != i ==> eff.store[j] == store[j])
      && eff.store[i].(state := store[i].state) == store[i]
  {
  }

  /** The edit is stored before the transition runs, so it is in the table whether or not
      approve, reject or the user deletion raised: the overlay is the edit's, with the
      acting moderator as editor. When nothing editable was sent the previous overlay, if
      any, is kept. */
  lemma EditPersistsThroughTransition(store: Store, req: Request, actor: Moderator, env: Env, collab: Collaborators)
    requires Reaches(store, req, actor)
    ensures var eff := Update(store, req, actor, env, collab);
      var i := Find(store, req.id).value;
      var edit := ProposedEdit(store[i].Kind(), req.queuedPost.value, actor.id);
      && |eff.store| == |store|
      && (edit.Write? ==> ChangesKey in eff.store[i].postOptions
                          && eff.store[i].postOptions[ChangesKey] == Hash(edit.changes))
      && (edit.Write? ==> EditorKey in edit.changes && edit.changes[EditorKey] == Int(actor.id))
      && (edit.Skip? ==> eff.store[i].postOptions == store[i].postOptions)
  {
    var i := Find(store, req.id).value;
    var params := req.queuedPost.value;
    var edit := ProposedEdit(store[i].Kind(), params, actor.id);
    var edited := store[i := Edited(store[i], edit)];
    UpdateAfterEdit(store, req, actor, env, collab);
    TransitionWritesOnlyState(edited, i, params, actor, env, collab);
  }

  /** The state afterwards: approved after a successful approve, rejected after a
      successful reject (even when the user deletion that follows raises), unchanged
      otherwise, in particular for any other requested state. */
  lemma StateDispatch(store: Store, req: Request, actor: Moderator, env: Env, collab: Collaborators)
    requires Reaches(store, req, actor)
    ensures var eff := Update(store, req, actor, env, collab);
      var i := Find(store, req.id).value;
      var params := req.queuedPost.value;
      eff.store[i].state ==
        if AsksApprove(params) && collab.approve.Pass? then Approved
        else if AsksReject(params) && collab.reject.Pass? then Rejected
        else store[i].state
    ensures var eff := Update(store, req, actor, env, collab);
      var i := Find(store, req.id).value;
      var params := req.queuedPost.value;
      && (!AsksApprove(params) && !AsksReject(params) ==> eff.calls == [] && eff.response.Rendered?)
      && (AsksApprove(params) ==> eff.calls == [ApproveCall(req.id, actor.id)])
      && (AsksReject(params) ==>
            eff.calls == [RejectCall(req.id, actor.id)] +
              (if collab.reject.Pass? && Lookup(params, DeleteUserParam) == Str("true") && collab.canDeleteUser
               then [DestroyUserCall(store[i].userId, actor.id, UserDeletionOpts(actor.username, env))]
               else []))
    ensures var eff := Update(store, req, actor, env, collab);
      var i := Find(store, req.id).value;
      var params := req.queuedPost.value;
      var deletionRaises := Lookup(params, DeleteUserParam) == Str("true") && collab.canDeleteUser && collab.destroyUser.Raise?;
      && (AsksApprove(params) && collab.approve.Raise? ==> eff.response == Failed(Raised(collab.approve.message)))
      && (AsksApprove(params) && collab.approve.Pass? ==> eff.response == Rendered(eff.store[i]))
      && (AsksReject(params) && collab.reject.Raise? ==> eff.response == Failed(Raised(collab.reject.message)))
      && (AsksReject(params) && collab.reject.Pass? && !deletionRaises ==> eff.response == Rendered(eff.store[i]))
      && (!AsksApprove(params) && !AsksReject(params) ==> eff.response == Rendered(eff.store[i]))
  {
    var i := Find(store, req.id).value;
    var params := req.queuedPost.value;
    var edited := store[i := Edited(store[i], ProposedEdit(store[i].Kind(), params, actor.id))];
    UpdateAfterEdit(store, req, actor, env, collab);
    assert edited[i].id == req.id;
  }

  /** The submitter is deleted only after a successful reject, only when `delete_user`
      is exactly the string `"true"`, and only when the guardian allows it; the deletion
      carries the moderator and the deletion options. */
  lemma CascadeGuard(store: Store, req: Request, actor: Moderator, env: Env, collab: Collaborators)
    ensures var eff := Update(store, req, actor, env, collab);
      (exists c :: c in eff.calls && IsDestroy(c)) <==>
        && Reaches(store, req, actor)
        && AsksReject(req.queuedPost.value)
        && collab.reject.Pass?
        && Lookup(req.queuedPost.value, DeleteUserParam) == Str("true")
        && collab.canDeleteUser
    ensures var eff := Update(store, req, actor, env, collab);
      forall c :: c in eff.calls && IsDestroy(c) ==>
        c == DestroyUserCall(store[Find(store, req.id).value].userId, actor.id, UserDeletionOpts(actor.username, env))
  {
    var eff := Update(store, req, actor, env, collab);
    if Reaches(store, req, actor) {
      var i := Find(store, req.id).value;
      var params := req.queuedPost.value;
      var edited := store[i := Edited(store[i], ProposedEdit(store[i].Kind(), params, actor.id))];
      UpdateAfterEdit(store, req, actor, env, collab);
      if AsksReject(params) && !AsksApprove(params) && collab.reject.Pass? {
        var rejected := edited[i := edited[i].(state := Rejected)];
        var cascade := Cascade(rejected, i, params, actor, env, collab);
        assert eff.calls == [RejectCall(edited[i].id, actor.id)] + cascade.calls;
        assert forall c :: c in eff.calls && IsDestroy(c) ==> c in cascade.calls;
        if Lookup(params, DeleteUserParam) == Str("true") && collab.canDeleteUser {
          assert eff.calls[1] in eff.calls && IsDestroy(eff.calls[1]);
        }
      }
    }
  }

  /** A failed user deletion is reported, but the rejection it followed stands. */
  lemma FailedDeletionKeepsRejection(store: Store, req: Request, actor: Moderator, env: Env, collab: Collaborators)
    requires Reaches(store, req, actor)
    requires AsksReject(req.queuedPost.value) && collab.reject.Pass?
    requires Lookup(req.queuedPost.value, DeleteUserParam) == Str("true") && collab.canDeleteUser
    requires collab.destroyUser.Raise?
    ensures var eff := Update(store, req, actor, env, collab);
      && eff.response == Failed(Raised(collab.destroyUser.message))
      && eff.store[Find(store, req.id).value].state == Rejected
  {
    StateDispatch(store, req, actor, env, collab);
  }
}
