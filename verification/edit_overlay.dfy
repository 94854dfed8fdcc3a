/** The first half of `QueuedPostsController#update`: turning the request's
    `queued_post` parameters into the `changes` overlay of a queued post.

    The editable keys depend on the kind of submission: a reply may have its body and
    edit reason changed, a new topic also its title, category and tags. The parameters
    are cut down to those keys; a present `category_id` is converted with `to_i`; the
    acting user's id is recorded as `editor_id`; and the result replaces
    `post_options["changes"]` as a whole. Nothing is written when no editable key was
    supplied. */
module EditOverlay {
  import opened Common
  import opened Values
  import opened RubyInteger
  import opened QueuedPosts

  const RawKey := "raw"
  const EditReasonKey := "edit_reason"
  const TitleKey := "title"
  const CategoryKey := "category_id"
  const TagsKey := "tags"
  const EditorKey := "editor_id"
  const ChangesKey := "changes"

  /** Keys a moderator may edit on a reply. */
  const ReplyKeys: set<string> := {RawKey, EditReasonKey}

  /** Keys a moderator may edit on a new-topic submission. */
  const TopicKeys: set<string> := {RawKey, EditReasonKey, TitleKey, CategoryKey, TagsKey}

  function EditableKeys(kind: Kind): set<string> {
    match kind
    case ReplySubmission => ReplyKeys
    case TopicSubmission => TopicKeys
  }

  /** `Hash#slice`: the entries of `params` whose key is in `keys`. */
  function Slice(params: map<string, Value>, keys: set<string>): (r: map<string, Value>)
    ensures r.Keys == params.Keys * keys
    ensures forall k :: k in r ==> r[k] == params[k]
  {
    map k | k in params && k in keys :: params[k]
  }

  /** `v.to_i` applied to a present category id. `None` stands for the NoMethodError Ruby
      raises for a value with no `to_i` (true, a non-empty array or hash). A blank value
      is not converted at all. */
  function CoerceCategory(v: Value): (r: Option<Value>)
    ensures r.None? <==> Present(v) && !v.Str? && !v.Int?
    ensures r.Some? && r.value != v ==> r.value.Int? && v.Str?
    ensures Blank(v) ==> r == Some(v)
    ensures v.Str? && Present(v) ==> r == Some(Int(ToI(v.s)))
  {
    if Blank(v) then Some(v)
    else match v
      case Str(s) => Some(Int(ToI(s)))
      case Int(_) => Some(v)
      case _ => None
  }

  /** What the edit part of `update` does to a post. */
  datatype Edit =
    | Skip                                   // no editable key supplied: nothing is written
    | Write(changes: map<string, Value>)     // the new `post_options["changes"]`
    | NoMethodError                          // `to_i` raised before anything was written

  /** The edit `update` makes to a post of kind `kind` for request parameters `params`
      by editor `editorId`. */
  function ProposedEdit(kind: Kind, params: map<string, Value>, editorId: int): (e: Edit)
    ensures e.Skip? <==> params.Keys * EditableKeys(kind) == {}
    ensures e.NoMethodError? <==>
      kind == TopicSubmission && CategoryKey in params && CoerceCategory(params[CategoryKey]).None?
    ensures e.Write? ==> e.changes.Keys == params.Keys * EditableKeys(kind) + {EditorKey}
    ensures e.Write? ==> e.changes[EditorKey] == Int(editorId)
    ensures e.Write? ==> forall k :: k in e.changes && k != EditorKey && k != CategoryKey ==>
      e.changes[k] == params[k]
    ensures e.Write? && CategoryKey in e.changes ==>
      Some(e.changes[CategoryKey]) == CoerceCategory(params[CategoryKey])
  {
    var slice := Slice(params, EditableKeys(kind));
    if slice.Keys == {} then Skip
    else if CategoryKey in slice && CoerceCategory(slice[CategoryKey]).None? then NoMethodError
    else Write(CoerceSlice(slice)[EditorKey := Int(editorId)])
  }

  /** Line 35 applied to the sliced parameters: the category id, if any, converted. */
  function CoerceSlice(slice: map<string, Value>): (c: map<string, Value>)
    requires CategoryKey in slice ==> CoerceCategory(slice[CategoryKey]).Some?
    ensures c.Keys == slice.Keys
    ensures forall k :: k in c && k != CategoryKey ==> c[k] == slice[k]
    ensures CategoryKey in c ==> Some(c[CategoryKey]) == CoerceCategory(slice[CategoryKey])
  {
    if CategoryKey in slice then slice[CategoryKey := CoerceCategory(slice[CategoryKey]).value]
    else slice
  }

  /** `qp.post_options['changes'] = changes`. */
  function ApplyEdit(post: QueuedPost, changes: map<string, Value>): (p: QueuedPost)
    ensures p.postOptions.Keys == post.postOptions.Keys + {ChangesKey}
    ensures p.postOptions[ChangesKey] == Hash(changes)
    ensures forall k :: k in post.postOptions && k != ChangesKey ==> p.postOptions[k] == post.postOptions[k]
    ensures p.(postOptions := post.postOptions) == post
    ensures p.Kind() == post.Kind()
  {
    post.(postOptions := post.postOptions[ChangesKey := Hash(changes)])
  }

  /** A reply's overlay never carries a title, category or tags: only the body, the edit
      reason and the editor. */
  lemma ReplyWhitelist(params: map<string, Value>, editorId: int)
    ensures ProposedEdit(ReplySubmission, params, editorId).Write? ==>
      ProposedEdit(ReplySubmission, params, editorId).changes.Keys <= {RawKey, EditReasonKey, EditorKey}
    ensures !ProposedEdit(ReplySubmission, params, editorId).NoMethodError?
  {
  }

  /** A new topic's overlay keeps exactly the supplied editable keys, plus the editor. */
  lemma TopicWhitelist(params: map<string, Value>, editorId: int, k: string)
    requires ProposedEdit(TopicSubmission, params, editorId).Write?
    ensures k in ProposedEdit(TopicSubmission, params, editorId).changes <==>
      k == EditorKey || (k in params && k in TopicKeys)
  {
  }

  /** A new topic's present category id string is stored as its `to_i` value. */
  lemma TopicCategoryIsInteger(params: map<string, Value>, editorId: int)
    requires CategoryKey in params && params[CategoryKey].Str? && Present(params[CategoryKey])
    ensures var e := ProposedEdit(TopicSubmission, params, editorId);
      && e.Write?
      && CategoryKey in e.changes
      && e.changes[CategoryKey] == Int(ToI(params[CategoryKey].s))
  {
    assert CategoryKey in params.Keys * EditableKeys(TopicSubmission);
    assert CoerceCategory(params[CategoryKey]) == Some(Int(ToI(params[CategoryKey].s)));
  }

  /** Replacement, not merge: the edit computed after an earlier overlay was written is
      the edit computed without it, and writing it leaves no trace of the earlier overlay;
      a key of the earlier overlay that the later request leaves out is gone. */
  lemma LaterEditReplacesEarlier(post: QueuedPost, earlier: map<string, Value>, params: map<string, Value>, editorId: int)
    requires ProposedEdit(post.Kind(), params, editorId).Write?
    ensures var e := ProposedEdit(post.Kind(), params, editorId);
      && ProposedEdit(ApplyEdit(post, earlier).Kind(), params, editorId) == e
      && ApplyEdit(ApplyEdit(post, earlier), e.changes) == ApplyEdit(post, e.changes)
      && forall k :: k in earlier && k !in params && k != EditorKey ==> k !in e.changes
  {
    var e := ProposedEdit(post.Kind(), params, editorId);
    var twice := ApplyEdit(ApplyEdit(post, earlier), e.changes);
    assert twice.postOptions == post.postOptions[ChangesKey := Hash(e.changes)];
  }

  /** A present category id in which no number starts is stored as 0, not dropped
      (`"abc5".to_i == 0`); a blank one is left as it is. */
  lemma NonNumericCategoryIsZero(s: string)
    requires NoLeadingNumber(s)
    ensures Present(Str(s)) ==> CoerceCategory(Str(s)) == Some(Int(0))
    ensures Blank(Str(s)) ==> CoerceCategory(Str(s)) == Some(Str(s))
  {
    NonNumericReadsZero(s);
  }
}
