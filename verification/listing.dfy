/** `QueuedPostsController#index`: which state is listed, and which rows in which order. */
module Listing {
  import opened Common
  import opened Values
  import opened QueuedPosts

  /** The state named by a symbol of `QueuedPost.states`, if there is one. */
  function StateNamed(name: string): (r: Option<State>)
    ensures r == Some(New) <==> name == "new"
    ensures r == Some(Approved) <==> name == "approved"
    ensures r == Some(Rejected) <==> name == "rejected"
  {
    if name == "new" then Some(New)
    else if name == "approved" then Some(Approved)
    else if name == "rejected" then Some(Rejected)
    else None
  }

  /** `QueuedPost.states[(params[:state] || 'new').to_sym] || QueuedPost.states[:new]`.
      A missing parameter (nil, or false) falls back to `'new'`; an unknown name finds no
      state and falls back to `new` as well. `None` stands for the NoMethodError of
      calling `to_sym` on a value that has no such method. */
  function RequestedState(param: Value): (r: Option<State>)
    ensures r.None? <==> !(param.Nil? || param == Bool(false) || param.Str?)
    ensures r.Some? && r.value != New ==> param.Str? && StateNamed(param.s) == r
    ensures param.Nil? ==> r == Some(New)
    ensures param.Str? && StateNamed(param.s).Some? ==> r == StateNamed(param.s)
    ensures param.Str? && StateNamed(param.s).None? ==> r == Some(New)
  {
    match param
    case Nil => Some(New)
    case Bool(b) => if b then None else Some(New)
    case Str(name) => Some(if StateNamed(name).Some? then StateNamed(name).value else New)
    case _ => None
  }

  /** The rows `QueuedPost.visible.where(state: state)` selects. */
  predicate Listed(post: QueuedPost, state: State) {
    post.visible && post.state == state
  }

  /** Ascending `created_at`. */
  predicate SortedByCreation(posts: seq<QueuedPost>) {
    forall i, j :: 0 <= i < j < |posts| ==> posts[i].createdAt <= posts[j].createdAt
  }

  /** The listed rows of `rows`, in table order. */
  function Select(rows: seq<QueuedPost>, state: State): (r: seq<QueuedPost>)
    ensures forall p :: multiset(r)[p] == if Listed(p, state) then multiset(rows)[p] else 0
  {
    if |rows| == 0 then []
    else
      var rest := Select(rows[1..], state);
      assert rows == [rows[0]] + rows[1..];
      if Listed(rows[0], state) then [rows[0]] + rest else rest
  }

  /** Inserts `p` into a list sorted by creation, before every row created no earlier. */
  function Insert(p: QueuedPost, sorted: seq<QueuedPost>): (r: seq<QueuedPost>)
    requires SortedByCreation(sorted)
    ensures SortedByCreation(r)
    ensures multiset(r) == multiset(sorted) + multiset{p}
    ensures |r| > 0 && (r[0] == p || (|sorted| > 0 && r[0] == sorted[0]))
  {
    if |sorted| == 0 then [p]
    else if p.createdAt <= sorted[0].createdAt then
      ConsSorted(p, sorted);
      [p] + sorted
    else
      var rest := Insert(p, sorted[1..]);
      assert sorted == [sorted[0]] + sorted[1..];
      ConsSorted(sorted[0], rest);
      [sorted[0]] + rest
  }

  /** A row created no later than the head of a sorted list can go in front of it. */
  lemma ConsSorted(x: QueuedPost, rest: seq<QueuedPost>)
    requires SortedByCreation(rest)
    requires |rest| == 0 || x.createdAt <= rest[0].createdAt
    ensures SortedByCreation([x] + rest)
  {
  }

  /** `order(:created_at)`; rows created at the same time keep their table order. */
  function SortByCreation(rows: seq<QueuedPost>): (r: seq<QueuedPost>)
    ensures SortedByCreation(r)
    ensures multiset(r) == multiset(rows)
  {
    if |rows| == 0 then []
    else
      assert rows == [rows[0]] + rows[1..];
      Insert(rows[0], SortByCreation(rows[1..]))
  }

  /** The rows of `rows` created at time `t`, in table order. */
  function CreatedAt(rows: seq<QueuedPost>, t: int): seq<QueuedPost> {
    if |rows| == 0 then [] else Tie(rows[0], t) + CreatedAt(rows[1..], t)
  }

  function Tie(p: QueuedPost, t: int): seq<QueuedPost> {
    if p.createdAt == t then [p] else []
  }

  lemma CreatedAtCons(p: QueuedPost, rows: seq<QueuedPost>, t: int)
    ensures CreatedAt([p] + rows, t) == Tie(p, t) + CreatedAt(rows, t)
  {
    assert ([p] + rows)[1..] == rows;
  }

  /** Inserting a row puts it ahead of the rows created at the same time and leaves
      their order alone. */
  lemma {:induction false} InsertKeepsTies(p: QueuedPost, sorted: seq<QueuedPost>, t: int)
    requires SortedByCreation(sorted)
    ensures CreatedAt(Insert(p, sorted), t) == Tie(p, t) + CreatedAt(sorted, t)
  {
    if |sorted| == 0 {
      CreatedAtCons(p, [], t);
    } else if p.createdAt <= sorted[0].createdAt {
      CreatedAtCons(p, sorted, t);
    } else {
      var rest := Insert(p, sorted[1..]);
      assert Insert(p, sorted) == [sorted[0]] + rest;
      CreatedAtCons(sorted[0], rest, t);
      InsertKeepsTies(p, sorted[1..], t);
      SwapTies(sorted[0], p, CreatedAt(sorted[1..], t), t);
      assert sorted == [sorted[0]] + sorted[1..];
      CreatedAtCons(sorted[0], sorted[1..], t);
    }
  }

  /** Rows created at different times are never both at time `t`, so their order
      among the rows at `t` does not matter. */
  lemma SwapTies(x: QueuedPost, y: QueuedPost, rest: seq<QueuedPost>, t: int)
    requires x.createdAt != y.createdAt
    ensures Tie(x, t) + (Tie(y, t) + rest) == Tie(y, t) + (Tie(x, t) + rest)
  {
    if x.createdAt == t {
      assert Tie(y, t) == [];
    } else {
      assert Tie(x, t) == [];
    }
  }

  /** Rows created at the same time come out in table order: the ordering is stable. */
  lemma {:induction false} TiesKeepTableOrder(rows: seq<QueuedPost>, t: int)
    ensures CreatedAt(SortByCreation(rows), t) == CreatedAt(rows, t)
  {
    if |rows| > 0 {
      TiesKeepTableOrder(rows[1..], t);
      InsertKeepsTies(rows[0], SortByCreation(rows[1..]), t);
    }
  }

  /** The rows `index` renders for the `state` parameter `param`: exactly the visible rows
      in the requested state, each as often as the table holds it, oldest first. `None`
      stands for the error raised by an unusable parameter. */
  function Index(rows: seq<QueuedPost>, param: Value): (r: Option<seq<QueuedPost>>)
    ensures r.Some? <==> RequestedState(param).Some?
    ensures r.Some? ==> SortedByCreation(r.value)
    ensures r.Some? ==> forall p ::
              multiset(r.value)[p] == if Listed(p, RequestedState(param).value) then multiset(rows)[p] else 0
  {
    match RequestedState(param)
    case None => None
    case Some(state) => Some(SortByCreation(Select(rows, state)))
  }

  /** Every row of the listing is visible and in the requested state, and every such row
      of the table is listed. */
  lemma ListingMembership(rows: seq<QueuedPost>, param: Value, p: QueuedPost)
    requires Index(rows, param).Some?
    ensures p in Index(rows, param).value <==> p in rows && Listed(p, RequestedState(param).value)
  {
    var listed := Index(rows, param).value;
    assert p in listed <==> multiset(listed)[p] > 0;
    assert p in rows <==> multiset(rows)[p] > 0;
  }
}
