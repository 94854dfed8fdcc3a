/** `QueuedPostsController#user_deletion_opts`: the options handed to the user destroyer
    when a rejected submitter is deleted. */
module UserDeletion {
  import opened Common

  /** The deployment signals the options depend on: whether the Rails environment is
      production, and the value of the `Staging` environment variable, if it is set. */
  datatype Env = Env(production: bool, staging: Option<string>)

  /** The translated `queue.delete_reason` note, naming the acting moderator. The
      translation text itself is not modelled. */
  datatype DeleteReason = DeleteReason(performedBy: string)

  /** The options hash. `None` stands for a key the hash does not have. */
  datatype DeletionOpts = DeletionOpts(
    context: DeleteReason,
    deletePosts: bool,
    deleteAsSpammer: bool,
    blockEmail: Option<bool>,
    blockIp: Option<bool>)

  /** A production deployment that is not a staging site: the `Staging` variable being set
      to anything at all, even an empty string, marks staging. */
  predicate LiveProduction(env: Env) {
    env.production && env.staging.None?
  }

  function UserDeletionOpts(username: string, env: Env): (o: DeletionOpts)
    ensures o.context == DeleteReason(username)
    ensures o.deletePosts && o.deleteAsSpammer
    ensures o.blockEmail == o.blockIp
    ensures o.blockEmail.Some? <==> LiveProduction(env)
    ensures o.blockEmail.Some? ==> o.blockEmail.value
  {
    var base := DeletionOpts(DeleteReason(username), true, true, None, None);
    if LiveProduction(env) then base.(blockEmail := Some(true), blockIp := Some(true)) else base
  }
}
