# Moderation queue: the queued-posts controller, in Dafny

This project models the request logic of Discourse's `QueuedPostsController`. The
controller serves the staff moderation queue, where posts and new topics wait for approval.
It handles two requests:

- **`update`** (`PUT /queued_posts/:id`) looks the queued post up. It writes the
  moderator's proposed edit into the post's `post_options["changes"]` overlay. Then it
  approves or rejects the post. After a rejection it may also delete the submitter.
- **`index`** lists the visible queued posts in one state, oldest first.

The model is written with immutable records and pure functions. There is one method,
`ModerationUpdate.HandleUpdate`. It runs edit → transition → cascade step by step and
is proved equal to the functional definition `ModerationUpdate.Update`.

| file | module | models |
|---|---|---|
| common.dfy | `Common` | `Option`, and `Outcome` (a collaborator returned or raised) |
| values.dfy | `Values` | Ruby parameter values, ActiveSupport `blank?` / `present?`, `h[key]` |
| ruby_integer.dfy | `RubyInteger` | Ruby `String#to_i` and its partner `Integer#to_s` |
| queued_post.dfy | `QueuedPosts` | the queued post record, its `State`, the table and `where(id:).first` |
| edit_overlay.dfy | `EditOverlay` | whitelist by kind, `slice`, `category_id.to_i`, `editor_id`, the overlay write |
| user_deletion.dfy | `UserDeletion` | `user_deletion_opts` |
| listing.dfy | `Listing` | `index`: state selection, the `visible` filter, `order(:created_at)` |
| moderation_update.dfy | `ModerationUpdate` | `update`: not-found, edit, state dispatch, guarded user deletion |
| scenarios.dfy | `RequestExamples` | the examples of the controller's request spec |

Collaborators whose code is not part of this model are given as parameters:

- `Collaborators.approve` and `Collaborators.reject` stand for `QueuedPost#approve!` and
  `#reject!`. Each is an `Outcome`: the call passes or raises with a message. A passing
  call moves the post to `Approved` or `Rejected`. A raising one leaves the stored
  state as it was.
- `Collaborators.canDeleteUser` stands for `guardian.can_delete_user?`.
- `Collaborators.destroyUser` stands for `UserDestroyer#destroy`.
- `UserDeletion.Env` stands for `Rails.env.production?` and `ENV["Staging"]`. It holds
  a boolean and the optional value of the variable.

The calls the action makes are returned as a list of `Call`s.

Error kinds:

- `NotFound` is the `queue.not_found` JSON error.
- `Raised(message)` is an exception rescued at lines 52-53 and rendered as a JSON error.
- `Unhandled` is an exception raised outside the rescue block. This happens when
  `params[:queued_post]` is missing or is not a hash. It also happens when `to_i` is
  applied to a present value that has no `to_i` (`true`, a non-empty array or hash).

Behaviour of the controller worth noting:

- A present, non-numeric `category_id` is stored as `0` (`"abc5".to_i`). It is not dropped.
- A failed user deletion is reported with the same error kind as a failed approve or
  reject. Nothing marks it as a secondary failure. The rejection still stands.
- The controller does not check that the post is still `new` before approving or
  rejecting it. Any such check belongs to `approve!`/`reject!`, which are given outcomes
  here.
- `index` applies only the `visible` flag and the state. It makes no per-item
  authorization call.

## Model

The definitions the lemma rows are about are `RubyInteger.ToI` (`String#to_i`, line 35) and
`ModerationUpdate.Update` (the whole `update` action, lines 20-57).

| member | source | states |
|---|---|---|
| `RubyInteger.ToIOfToS` | app/controllers/queued_posts_controller.rb:35 | `to_i` undoes `Integer#to_s`: every integer written in decimal reads back as itself, negatives included |
| `RubyInteger.LeadingDigits` | app/controllers/queued_posts_controller.rb:35 | `to_i` reads a string's leading digits and ignores what follows them, when that is not a further digit or `_` (`"99 red".to_i == 99`, `"7d".to_i == 7`). The exception is a lone `0` followed by `d` or `D`, which is the `0d` radix prefix |
| `RubyInteger.LeadingSpaceIgnored` | app/controllers/queued_posts_controller.rb:35 | `to_i` ignores leading ASCII white space |
| `RubyInteger.NonNumericReadsZero` | app/controllers/queued_posts_controller.rb:35 | `to_i` is 0 for any string in which, after the white space, neither a digit nor a sign followed by a digit comes first (`"abc5"`, `"#10"`, `"- 5"`) |
| `RubyInteger.NoDigitsReadsZero` | app/controllers/queued_posts_controller.rb:35 | a string with no decimal digit is such a string, so its `to_i` is 0 |
| `QueuedPosts.QueuedPost.Kind` | app/controllers/queued_posts_controller.rb:28 | a post is a reply exactly when it has a topic id, and a new topic otherwise |
| `QueuedPosts.Find` | app/controllers/queued_posts_controller.rb:21 | the lookup gives the first row with the requested id, or reports that no row has it |
| `EditOverlay.CoerceCategory` | app/controllers/queued_posts_controller.rb:35 | a blank category id is left as it is. A present string becomes `Int(to_i)` and an integer stays. Any other present value raises NoMethodError |
| `EditOverlay.TopicCategoryIsInteger` | app/controllers/queued_posts_controller.rb:30-35 | a new topic's present category id string is stored as its `to_i` value, and the edit is written |
| `EditOverlay.NonNumericCategoryIsZero` | app/controllers/queued_posts_controller.rb:35 | a present category id in which no number starts is stored as the integer 0, not dropped. A blank one is kept as it is, because the `present?` guard skips `to_i` |
| `EditOverlay.Slice` | app/controllers/queued_posts_controller.rb:29-31 | `slice` keeps exactly the requested keys the parameters have, each with its value |
| `EditOverlay.CoerceSlice` | app/controllers/queued_posts_controller.rb:35 | on the sliced parameters only `category_id` may change, and it becomes what converting it gives. The keys stay the same |
| `EditOverlay.ProposedEdit` | app/controllers/queued_posts_controller.rb:27-37 | for the post's kind (reply or new topic), nothing is written exactly when no editable key was sent. NoMethodError happens exactly for a topic whose category id cannot be converted. Otherwise the overlay has exactly the sent editable keys plus `editor_id`, set to the acting user's id. The category is converted and every other value is copied from the request |
| `EditOverlay.ApplyEdit` | app/controllers/queued_posts_controller.rb:38 | the write sets `post_options["changes"]` to the overlay. It keeps every other option entry and every other field of the post |
| `EditOverlay.ReplyWhitelist` | app/controllers/queued_posts_controller.rb:27-29 | a reply's overlay has only `raw`, `edit_reason` and `editor_id`, never title, category or tags. A reply edit never raises |
| `EditOverlay.TopicWhitelist` | app/controllers/queued_posts_controller.rb:30-31 | a new topic's overlay has a key exactly when it is `editor_id`, or it was sent and is one of raw, edit_reason, title, category_id or tags |
| `EditOverlay.LaterEditReplacesEarlier` | app/controllers/queued_posts_controller.rb:38 | the overlay replaces the previous one as a whole. It does not depend on the earlier overlay, and a key the later request leaves out is absent afterwards |
| `UserDeletion.UserDeletionOpts` | app/controllers/queued_posts_controller.rb:61-73 | the options always delete the user's posts and mark them as a spammer, and name the moderator. `block_email` and `block_ip` are both present and true exactly in production with `Staging` unset. Otherwise both are absent |
| `Listing.StateNamed` | app/controllers/queued_posts_controller.rb:8 | `QueuedPost.states` knows exactly the names `new`, `approved` and `rejected`, each for its own state |
| `Listing.RequestedState` | app/controllers/queued_posts_controller.rb:8-9 | a missing parameter or an unknown name selects `new`, and a known name selects its state. `to_sym` on a non-string raises |
| `Listing.Select` | app/controllers/queued_posts_controller.rb:11 | the filter keeps each visible row in the state, as often as the table has it, and nothing else |
| `Listing.Insert` | app/controllers/queued_posts_controller.rb:11 | inserting into a list sorted by `created_at` keeps it sorted and adds exactly that row |
| `Listing.SortByCreation` | app/controllers/queued_posts_controller.rb:11 | the ordering is ascending by `created_at` and a permutation of its input |
| `Listing.InsertKeepsTies` | app/controllers/queued_posts_controller.rb:11 | inserting a row puts it ahead of the rows created at the same time and keeps their order |
| `Listing.TiesKeepTableOrder` | app/controllers/queued_posts_controller.rb:11 | for every time `t`, the rows created at `t` come out in the order the table has them. The ordering is stable, a choice of the model where SQL fixes none |
| `Listing.Index` | app/controllers/queued_posts_controller.rb:8-11 | the listing holds exactly the visible rows in the selected state, with multiplicity, oldest first. It fails only for a parameter without `to_sym` |
| `Listing.ListingMembership` | app/controllers/queued_posts_controller.rb:11 | a row is listed if and only if it is in the table, visible and in the selected state |
| `ModerationUpdate.Cascade` | app/controllers/queued_posts_controller.rb:48-50 | a rejected submitter is deleted exactly when `delete_user` is the string `"true"` and the guardian permits it, using the moderator and the deletion options. A raising deletion becomes the rescued error, and the table is left as it is |
| `ModerationUpdate.Update` | app/controllers/queued_posts_controller.rb:20-57 | the action keeps the table's rows. It answers not-found exactly for an unknown id, and the unhandled error exactly when the request fails before the rescue block. In both cases nothing is written and nothing is called |
| `ModerationUpdate.HandleUpdate` | app/controllers/queued_posts_controller.rb:20-57 | the step-by-step action computes what `Update` defines and keeps the table's size. It answers not-found exactly when no row has the id |
| `ModerationUpdate.UnknownIdChangesNothing` | app/controllers/queued_posts_controller.rb:21-23 | an unknown id gives the not-found error with no write and no call |
| `ModerationUpdate.UnhandledChangesNothing` | app/controllers/queued_posts_controller.rb:25-35 | an error before the save (no `queued_post` hash, or a failed `to_i`) writes nothing and calls nothing |
| `ModerationUpdate.SubmissionUntouched` | app/controllers/queued_posts_controller.rb:38-51 | only the requested row changes, and in it only the `changes` overlay and the state. `raw` and the original title, category and tags options stay the same |
| `ModerationUpdate.TransitionWritesOnlyState` | app/controllers/queued_posts_controller.rb:42-54 | the dispatch step changes only the state of the requested row |
| `ModerationUpdate.EditPersistsThroughTransition` | app/controllers/queued_posts_controller.rb:34-47 | the stored overlay is the edit, stamped with the moderator's id, even when approve, reject or the deletion raised. With nothing editable sent, the previous `post_options` stay as they were |
| `ModerationUpdate.StateDispatch` | app/controllers/queued_posts_controller.rb:42-51 | `"approved"` calls only approve. `"rejected"` calls reject and then nothing but the user deletion, exactly when reject passed, `delete_user` is `"true"` and the guardian permits it. Any other value calls nothing and renders the post. The resulting state is the one a passing call sets, and is unchanged otherwise. A raising approve or reject is answered with its message as the rescued error. A passing approve, or a passing reject not followed by a raising deletion, renders the stored post |
| `ModerationUpdate.CascadeGuard` | app/controllers/queued_posts_controller.rb:46-50 | a user deletion happens if and only if the request got past the edit, asked for `"rejected"`, reject passed, `delete_user` is `"true"` and the guardian permits it |
| `ModerationUpdate.FailedDeletionKeepsRejection` | app/controllers/queued_posts_controller.rb:46-53 | a raising deletion is reported as the rescued error while the post stays rejected |
| `RequestExamples.TopicEditKeys` | spec/requests/queued_posts_controller_spec.rb:116-121 | the spec's full edit of a topic is written, with every editable topic key plus `editor_id` |
| `RequestExamples.TopicEditCategoryAndEditor` | spec/requests/queued_posts_controller_spec.rb:119-131 | in that overlay the category id sent as `"10"` is the integer 10, and the editor is the moderator |
| `RequestExamples.TopicEditCopiesFields` | spec/requests/queued_posts_controller_spec.rb:116-133 | raw, title, tags and edit reason are stored exactly as sent |
| `RequestExamples.CategoryTenReadsTen` | spec/requests/queued_posts_controller_spec.rb:119 | the category id `"10"` is present and converts to the integer 10 |
| `RequestExamples.ReplyEditExample` | spec/requests/queued_posts_controller_spec.rb:150-166 | the same edit on a reply keeps only raw, edit reason and editor |
| `RequestExamples.ApproveOnlyExample` | spec/requests/queued_posts_controller_spec.rb:50-61 | a request with only `state: 'approved'` renders the post (status 200), leaves it approved, keeps its options and calls only approve |
| `RequestExamples.RejectOnlyExample` | spec/requests/queued_posts_controller_spec.rb:63-75 | a request with only `state: 'rejected'` renders the post (status 200), leaves it rejected and calls only reject |
| `RequestExamples.EditThenApproveExample` | spec/requests/queued_posts_controller_spec.rb:50-61 | a composite of the approve test with a reply edit of the kind at lines 150-166: editing a reply and approving it in one request stores the reply-only overlay, leaves the post approved and renders it |

## Left out

- Authorization (`before_action :ensure_staff`) is framework code. The model assumes
  the caller is staff.
- Rendering (`render_serialized`, `QueuedPostSerializer`, `render_json_error`) and the
  I18n message texts are transport concerns. Only the error kind is kept. The deletion
  context keeps only the moderator's username.
- The internals of `QueuedPost#approve!` and `#reject!` are not part of this model,
  which is why they are given outcomes. The same goes for `UserDestroyer#destroy`,
  `guardian.can_delete_user?` and the `QueuedPost.visible` scope (taken to be the
  `visible` flag). Any effect a user deletion has on queue rows is not modelled.
- `qp.save(validate: false)` is assumed to persist the edit. The source ignores its
  result.
- `.includes(:topic, :user)` is eager loading with no effect on which rows are returned
  or in what order.
- The order of rows with equal `created_at` is not fixed by SQL.
  `Listing.SortByCreation` keeps table order (`Listing.TiesKeepTableOrder`). Its contract promises only sortedness and
  the exact multiset.
- The routing layer's conversion of the `:id` path segment is left out. The request id
  is an integer.
- Float parameter values (`Float#to_i`) and symbol values do not arise from request
  parsing as modelled. They are left out.
- Concurrent moderators and any at-most-once transition guarantee are not modelled.
  Nothing in the controller implements them.
- `ModerationUpdate.HandleUpdate`: besides equality with `Update`, its own contract
  states only the size of the table and the not-found case. The other properties are
  lemmas about `Update`.
- spec/models/site_spec.rb tests `Site.json_for`, and
  db/migrate/20180911080316_add_user_selectable_to_child_themes.rb is a schema change.
  Neither is part of this model.
