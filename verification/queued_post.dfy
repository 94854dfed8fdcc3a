/** The queued post record the controller reads and writes, and the table it lives in. */
module QueuedPosts {
  import opened Common
  import opened Values

  /** The `QueuedPost.states` enum. */
  datatype State = New | Approved | Rejected

  /** What was submitted: a new topic, or a reply to an existing topic. */
  datatype Kind = TopicSubmission | ReplySubmission

  /** One row of the queue. `raw` and the entries of `postOptions` other than `changes`
      are the submission as made; a moderator's edits live in `postOptions["changes"]`. */
  datatype QueuedPost = QueuedPost(
    id: int,
    topicId: Option<int>,
    userId: int,
    state: State,
    raw: string,
    postOptions: map<string, Value>,
    createdAt: int,
    visible: bool)
  {
    /** A reply targets an existing topic; a new-topic submission has no topic yet. */
    function Kind(): (k: Kind)
      ensures k == ReplySubmission <==> topicId.Some?
    {
      if topicId.Some? then ReplySubmission else TopicSubmission
    }
  }

  /** The `queued_posts` table, as an abstract sequence of rows. */
  type Store = seq<QueuedPost>

  /** `QueuedPost.where(id: id).first`: the position of the first row with that id. */
  function Find(store: Store, id: int): (r: Option<nat>)
    ensures r.Some? ==> r.value < |store| && store[r.value].id == id
    ensures r.Some? ==> forall j :: 0 <= j < r.value ==> store[j].id != id
    ensures r.None? <==> forall j :: 0 <= j < |store| ==> store[j].id != id
  {
    FindFrom(store, id, 0)
  }

  function FindFrom(store: Store, id: int, from: nat): (r: Option<nat>)
    requires from <= |store|
    requires forall j :: 0 <= j < from ==> store[j].id != id
    ensures r.Some? ==> from <= r.value < |store| && store[r.value].id == id
    ensures r.Some? ==> forall j :: 0 <= j < r.value ==> store[j].id != id
    ensures r.None? <==> forall j :: 0 <= j < |store| ==> store[j].id != id
    decreases |store| - from
  {
    if from == |store| then None
    else if store[from].id == id then Some(from)
    else FindFrom(store, id, from + 1)
  }
}
