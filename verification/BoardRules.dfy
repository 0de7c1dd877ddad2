/**
 What the transactions of a board keep, over every run: identities are unique, every
 reply belongs to an earlier top-level post of its channel, subscriptions and opt-outs
 are disjoint, explicit opt-outs are sticky, and recipients are exactly the agents named
 or subscribed, without the author.
 */
module BoardRules {
  import opened Common
  import opened BoardTypes
  import opened BoardRows

  ghost predicate Increasing(posts: seq<PostRow>) {
    forall i, j :: 0 <= i < j < |posts| ==> posts[i].seqNo < posts[j].seqNo
  }

  ghost predicate UniqueIds(posts: seq<PostRow>) {
    forall i, j :: 0 <= i < j < |posts| ==> posts[i].metadata.messageID != posts[j].metadata.messageID
  }

  /** At most one post per caller and request id. */
  ghost predicate UniqueKeys(posts: seq<PostRow>) {
    forall i, j :: 0 <= i < j < |posts| ==> !HasKey(posts[j], posts[i].caller, posts[i].request.requestID)
  }

  /** The post at `j` is a top-level post and the root of the post at `i`, in the same channel. */
  predicate IsRootOf(posts: seq<PostRow>, j: nat, i: nat)
    requires j < |posts| && i < |posts|
  {
    && posts[j].metadata.messageID == posts[j].metadata.threadID == posts[i].metadata.threadID
    && posts[j].metadata.channelName == posts[i].metadata.channelName
  }

  ghost predicate Rooted(posts: seq<PostRow>) {
    forall i | 0 <= i < |posts| ::
      posts[i].metadata.threadID == posts[i].metadata.messageID || exists j :: 0 <= j < i && IsRootOf(posts, j, i)
  }

  ghost predicate RowsInv(r: Rows) {
    && Increasing(r.posts) && UniqueIds(r.posts) && UniqueKeys(r.posts) && Rooted(r.posts)
    && (forall i :: 0 <= i < |r.posts| ==> r.posts[i].metadata.channelName in r.channels)
    && r.subs !! r.optOuts
  }

  ghost predicate FreshPost(r: Rows, seqNo: nat, id: string) {
    forall i :: 0 <= i < |r.posts| ==> r.posts[i].seqNo < seqNo && r.posts[i].metadata.messageID != id
  }

  // Posting

  lemma ResolveKeeps(r: Rows, destination: Destination, author: string, now: int, caller: string, id: string,
                     behavior: Behavior, fold: Fold)
    requires RowsInv(r)
    ensures var place := Resolve(r, destination, author, now, caller, id, behavior, fold);
      place.Ok? ==>
        && RowsInv(place.value.rows) && place.value.rows.posts == r.posts
        && place.value.channel in place.value.rows.channels
        && r.channels.Keys <= place.value.rows.channels.Keys
        && (place.value.root == id || exists j :: 0 <= j < |r.posts| && IsPlaceRoot(r.posts, j, place.value))
  {
    if destination.ToThread? {
      var o := FindThread(r.posts, destination.threadID);
      if o.Ok? {
        var place := Resolve(r, destination, author, now, caller, id, behavior, fold).value;
        assert IsPlaceRoot(r.posts, o.value, place);
      }
    }
  }

  predicate IsPlaceRoot(posts: seq<PostRow>, j: nat, place: Place)
    requires j < |posts|
  {
    && posts[j].metadata.messageID == posts[j].metadata.threadID == place.root
    && posts[j].metadata.channelName == place.channel
  }

  /** Appending a row with a new key, id and sequence number at a resolved place. */
  lemma AppendKeeps(posts: seq<PostRow>, row: PostRow)
    requires Increasing(posts) && UniqueIds(posts) && UniqueKeys(posts) && Rooted(posts)
    requires forall i :: 0 <= i < |posts| ==> posts[i].seqNo < row.seqNo && posts[i].metadata.messageID != row.metadata.messageID
    requires forall i :: 0 <= i < |posts| ==> !HasKey(posts[i], row.caller, row.request.requestID)
    requires row.metadata.threadID == row.metadata.messageID ||
      exists j :: 0 <= j < |posts| && IsRootOf(posts + [row], j, |posts|)
    ensures Increasing(posts + [row]) && UniqueIds(posts + [row]) && UniqueKeys(posts + [row]) && Rooted(posts + [row])
  {
    var more := posts + [row];
    forall i | 0 <= i < |more|
      ensures more[i].metadata.threadID == more[i].metadata.messageID || exists j :: 0 <= j < i && IsRootOf(more, j, i)
    {
      if i < |posts| && posts[i].metadata.threadID != posts[i].metadata.messageID {
        var j :| 0 <= j < i && IsRootOf(posts, j, i);
        assert IsRootOf(more, j, i);
      }
    }
  }

  /** The row written at a resolved place keeps the rules, and a reply finds its root. */
  lemma PlacedRowKeeps(r: Rows, seqNo: nat, caller: string, request: PostRequest, behavior: Behavior, author: string, now: int,
                       id: string, place: Place, row: PostRow, fold: Fold)
    requires RowsInv(r) && FreshPost(r, seqNo, id) && FindRequest(r.posts, caller, request.requestID) == None
    requires Resolve(r, request.destination, author, now, caller, id, behavior, fold) == Ok(place)
    requires row == NewRow(seqNo, place, id, author, now, caller, request, behavior, fold)
    ensures place.rows.posts == r.posts && place.channel in place.rows.channels
    ensures RowsInv(place.rows.(posts := r.posts + [row]))
    ensures place.root != id ==> FindThread(r.posts, place.root).Ok?
  {
    ResolveKeeps(r, request.destination, author, now, caller, id, behavior, fold);
    WriteKeeps(r, place, row);
  }

  lemma CommitKeeps(r: Rows, seqNo: nat, caller: string, request: PostRequest, behavior: Behavior, author: string, now: int,
                    id: string, named: set<string>, fold: Fold)
    requires RowsInv(r) && FreshPost(r, seqNo, id)
    ensures RowsInv(CommitPost(r, seqNo, caller, request, behavior, author, now, id, named, fold).0)
  {
    var place := Resolve(r, request.destination, author, now, caller, id, behavior, fold);
    if Existing(r, caller, request, behavior) == Ok(None) && place.Ok? {
      var row := NewRow(seqNo, place.value, id, author, now, caller, request, behavior, fold);
      PlacedRowKeeps(r, seqNo, caller, request, behavior, author, now, id, place.value, row, fold);
    }
  }

  lemma WriteKeeps(r: Rows, place: Place, row: PostRow)
    requires RowsInv(place.rows) && place.rows.posts == r.posts && place.channel in place.rows.channels
    requires FreshPost(r, row.seqNo, row.metadata.messageID) && FindRequest(r.posts, row.caller, row.request.requestID) == None
    requires row.metadata.threadID == place.root && row.metadata.channelName == place.channel
    requires place.root == row.metadata.messageID || exists j :: 0 <= j < |r.posts| && IsPlaceRoot(r.posts, j, place)
    ensures RowsInv(place.rows.(posts := r.posts + [row]))
  {
    if place.root != row.metadata.messageID {
      var j :| 0 <= j < |r.posts| && IsPlaceRoot(r.posts, j, place);
      assert IsRootOf(r.posts + [row], j, |r.posts|);
    }
    AppendKeeps(r.posts, row);
  }

  // Runs of a board

  datatype Op =
    | Create(caller: string, name: string, description: Option<string>, subscription: Change, host: Host)
    | Upsert(name: string, text: string, host: Host)
    | Write(seqNo: nat, caller: string, request: PostRequest, behavior: Behavior, host: Host, id: string)
    | SetSub(change: SubscriptionRequest, host: Host)

  function Apply(r: Rows, op: Op, fold: Fold): Rows {
    match op
    case Create(caller, name, description, subscription, host) =>
      CreateChannel(r, caller, name, description, subscription, host, fold).0
    case Upsert(name, description, host) => UpsertChannel(r, name, description, host, fold).0
    case Write(seqNo, caller, request, behavior, host, id) => PostInner(r, seqNo, caller, request, behavior, host, id, fold).0
    case SetSub(change, host) => SetSubscription(r, change, host).0
  }

  /** Post ids and sequence numbers are new. */
  ghost predicate Admissible(r: Rows, op: Op) {
    op.Write? ==> FreshPost(r, op.seqNo, op.id)
  }

  function Run(r: Rows, ops: seq<Op>, fold: Fold): Rows {
    if ops == [] then r else Apply(Run(r, ops[..|ops| - 1], fold), ops[|ops| - 1], fold)
  }

  ghost predicate AdmissibleRun(r: Rows, ops: seq<Op>, fold: Fold) {
    ops != [] ==>
      AdmissibleRun(r, ops[..|ops| - 1], fold) && Admissible(Run(r, ops[..|ops| - 1], fold), ops[|ops| - 1])
  }

  lemma PostKeeps(r: Rows, seqNo: nat, caller: string, request: PostRequest, behavior: Behavior, host: Host, id: string, fold: Fold)
    requires RowsInv(r) && FreshPost(r, seqNo, id)
    ensures RowsInv(PostInner(r, seqNo, caller, request, behavior, host, id, fold).0)
  {
    if host.agentPath.Some? && host.now.Some? {
      var named := if behavior == Discussion then ResolveAll(host, request.agentsToNotify) else Some({});
      if named.Some? {
        CommitKeeps(r, seqNo, caller, request, behavior, host.agentPath.value, host.now.value, id, named.value, fold);
      }
    }
  }

  lemma ApplyKeeps(r: Rows, op: Op, fold: Fold)
    requires RowsInv(r) && Admissible(r, op)
    ensures RowsInv(Apply(r, op, fold))
  {
    hide PostInner, ValidPostRequest, ValidChannelName, Increasing, UniqueIds, UniqueKeys, Rooted, Summary, DescribeTarget;
    match op
    case Write(seqNo, caller, request, behavior, host, id) => PostKeeps(r, seqNo, caller, request, behavior, host, id, fold);
    case _ =>
  }

  /** Every run keeps the rules of the tables. */
  lemma {:induction false} RunKeeps(ops: seq<Op>, fold: Fold)
    requires AdmissibleRun(EMPTY_ROWS, ops, fold)
    ensures RowsInv(Run(EMPTY_ROWS, ops, fold))
    decreases |ops|
  {
    if ops != [] {
      RunKeeps(ops[..|ops| - 1], fold);
      ApplyKeeps(Run(EMPTY_ROWS, ops[..|ops| - 1], fold), ops[|ops| - 1], fold);
    }
  }

  // The post table only grows

  ghost predicate Grows(r: Rows, s: Rows) {
    && r.posts <= s.posts && |s.posts| <= |r.posts| + 1
    && forall name | name in r.channels ::
         name in s.channels && s.channels[name] == r.channels[name].(description := s.channels[name].description)
  }

  lemma ResolveGrows(r: Rows, destination: Destination, author: string, now: int, caller: string, id: string,
                     behavior: Behavior, fold: Fold)
    ensures var place := Resolve(r, destination, author, now, caller, id, behavior, fold);
      place.Ok? ==>
        && Grows(r, place.value.rows) && place.value.rows.posts == r.posts
        && place.value.rows.optOuts == r.optOuts
        && forall pair | pair in place.value.rows.subs && pair !in r.subs :: pair !in r.optOuts
  {
  }

  lemma CommitGrows(r: Rows, seqNo: nat, caller: string, request: PostRequest, behavior: Behavior, author: string, now: int,
                    id: string, named: set<string>, fold: Fold)
    ensures var s := CommitPost(r, seqNo, caller, request, behavior, author, now, id, named, fold).0;
      Grows(r, s) && s.optOuts == r.optOuts && forall pair | pair in s.subs && pair !in r.subs :: pair !in r.optOuts
  {
    if Existing(r, caller, request, behavior) == Ok(None) {
      ResolveGrows(r, request.destination, author, now, caller, id, behavior, fold);
    }
  }

  /** A post that is stored carries the sequence number given. */
  lemma CommitNumbered(r: Rows, seqNo: nat, caller: string, request: PostRequest, behavior: Behavior, author: string, now: int,
                       id: string, named: set<string>, fold: Fold)
    ensures var s := CommitPost(r, seqNo, caller, request, behavior, author, now, id, named, fold).0;
      |s.posts| > |r.posts| ==> s.posts[|r.posts|].seqNo == seqNo
  {
    hide Existing, Resolve, Subscribers;
  }

  lemma PostGrows(r: Rows, seqNo: nat, caller: string, request: PostRequest, behavior: Behavior, host: Host, id: string, fold: Fold)
    ensures var s := PostInner(r, seqNo, caller, request, behavior, host, id, fold).0;
      Grows(r, s) && s.optOuts == r.optOuts && forall pair | pair in s.subs && pair !in r.subs :: pair !in r.optOuts
  {
    if host.agentPath.Some? && host.now.Some? {
      var named := if behavior == Discussion then ResolveAll(host, request.agentsToNotify) else Some({});
      if named.Some? {
        CommitGrows(r, seqNo, caller, request, behavior, host.agentPath.value, host.now.value, id, named.value, fold);
      }
    }
  }

  /** Posts are never changed or removed, and channels keep their creation data. */
  lemma ApplyGrows(r: Rows, op: Op, fold: Fold)
    ensures Grows(r, Apply(r, op, fold))
  {
    match op
    case Write(seqNo, caller, request, behavior, host, id) => PostGrows(r, seqNo, caller, request, behavior, host, id, fold);
    case _ =>
  }

  // Recipients and subscriptions

  /** The target whose subscribers hear of a post: the channel for a new root, the thread for a reply. */
  function TargetOf(destination: Destination): Target {
    match destination
    case ToChannel(name) => ChannelTarget(name)
    case ToNewChannel(name) => ChannelTarget(name)
    case ToThread(threadID) => ThreadTarget(threadID)
  }

  /**
   A committed discussion post is handed to exactly the named agents and the subscribers
   of its target, without its author; an append changes no subscription and notifies
   nobody; a retry and a refusal change nothing.
   */
  lemma CommitNotifies(r: Rows, seqNo: nat, caller: string, request: PostRequest, behavior: Behavior, author: string, now: int,
                       id: string, named: set<string>, fold: Fold)
    ensures var (s, out) := CommitPost(r, seqNo, caller, request, behavior, author, now, id, named, fold);
      && (out.Ok? && s.posts != r.posts && behavior == Discussion ==>
            out.value.notified == named + Subscribers(r, TargetOf(request.destination)) - {caller})
      && (behavior == SilentAppend ==> s.subs == r.subs && s.optOuts == r.optOuts && (out.Ok? ==> out.value.notified == {}))
      && (s.posts == r.posts ==> s == r && (out.Ok? ==> out.value.notified == {}))
  {
  }

  /**
   Participation subscribes: after a discussion post its author is subscribed to the
   thread, unless opted out; a new channel's author to the channel as well. No other
   subscription and no opt-out changes.
   */
  lemma CommitSubscribes(r: Rows, seqNo: nat, caller: string, request: PostRequest, author: string, now: int,
                         id: string, named: set<string>, fold: Fold)
    ensures var (s, out) := CommitPost(r, seqNo, caller, request, Discussion, author, now, id, named, fold);
      out.Ok? && s.posts != r.posts ==>
        var joined := {ThreadTarget(out.value.metadata.threadID)}
          + (if request.destination.ToNewChannel? then {ChannelTarget(request.destination.name)} else {});
        && s.optOuts == r.optOuts
        && forall t, a :: (t, a) in s.subs <==> (t, a) in r.subs || (a == caller && t in joined && (t, a) !in r.optOuts)
  {
    hide Resolve, Existing, Subscribers;
    ResolveSubscribes(r, request.destination, author, now, caller, id, fold);
  }

  /** Resolving a destination subscribes the author to a new channel, unless opted out, and changes no other pair. */
  lemma ResolveSubscribes(r: Rows, destination: Destination, author: string, now: int, caller: string, id: string, fold: Fold)
    ensures var place := Resolve(r, destination, author, now, caller, id, Discussion, fold);
      place.Ok? ==>
        var joined := if destination.ToNewChannel? then {ChannelTarget(destination.name)} else {};
        && place.value.rows.optOuts == r.optOuts
        && forall t, a :: (t, a) in place.value.rows.subs <==>
             (t, a) in r.subs || (a == caller && t in joined && (t, a) !in r.optOuts)
  {
  }

  /** No operation but an explicit change touches an opt-out, or subscribes an opted-out agent. */
  lemma OptOutStays(r: Rows, op: Op, fold: Fold, target: Target, agent: string)
    requires RowsInv(r) && (target, agent) in r.optOuts
    requires !Resubscribes(op, target, agent)
    ensures (target, agent) in Apply(r, op, fold).optOuts && (target, agent) !in Apply(r, op, fold).subs
  {
    match op
    case Write(seqNo, caller, request, behavior, host, id) => PostGrows(r, seqNo, caller, request, behavior, host, id, fold);
    case _ =>
  }

  /** The operation is a successful-looking explicit subscription of this agent to this target. */
  predicate Resubscribes(op: Op, target: Target, agent: string) {
    && op.SetSub? && op.change.target == target && op.change.change == Subscribe && op.host.agentPath.Some?
    && op.host.resolve(if op.change.targetAgent.Some? then op.change.targetAgent.value else op.host.agentPath.value) == Some(agent)
  }

  /** An explicit unsubscribe survives any run without an explicit resubscription. */
  lemma {:induction false} OptOutIsSticky(r: Rows, ops: seq<Op>, fold: Fold, target: Target, agent: string)
    requires RowsInv(r) && AdmissibleRun(r, ops, fold) && (target, agent) in r.optOuts
    requires forall i :: 0 <= i < |ops| ==> !Resubscribes(ops[i], target, agent)
    ensures (target, agent) in Run(r, ops, fold).optOuts && (target, agent) !in Run(r, ops, fold).subs
    ensures RowsInv(Run(r, ops, fold))
    decreases |ops|
  {
    if ops != [] {
      var front := ops[..|ops| - 1];
      OptOutIsSticky(r, front, fold, target, agent);
      OptOutStays(Run(r, front, fold), ops[|ops| - 1], fold, target, agent);
      ApplyKeeps(Run(r, front, fold), ops[|ops| - 1], fold);
    }
  }

  /** An explicit change takes effect for the pair, and for no other. */
  lemma ChangeTakesEffect(r: Rows, target: Target, agent: string, change: Change)
    requires RowsInv(r)
    ensures var s := ChangeSubscription(r, target, agent, change);
      && RowsInv(s)
      && ((target, agent) in s.subs <==> change == Subscribe) && ((target, agent) in s.optOuts <==> change == Unsubscribe)
      && forall t, a :: (t, a) != (target, agent) ==>
           ((t, a) in s.subs <==> (t, a) in r.subs) && ((t, a) in s.optOuts <==> (t, a) in r.optOuts)
  {
  }

  lemma SubscribeKeeps(r: Rows, target: Target, agent: string)
    requires RowsInv(r)
    ensures RowsInv(SubscribeRow(r, target, agent))
  {
  }

  // Retries

  /**
   A key that has been used: repeating the same request returns the stored metadata,
   using it for anything else is refused, and neither changes the board.
   */
  lemma UsedKey(r: Rows, i: nat, seqNo: nat, caller: string, request: PostRequest, behavior: Behavior, author: string, now: int,
                id: string, named: set<string>, fold: Fold)
    requires RowsInv(r) && i < |r.posts| && HasKey(r.posts[i], caller, request.requestID)
    ensures CommitPost(r, seqNo, caller, request, behavior, author, now, id, named, fold)
      == (r, if r.posts[i].request == request && r.posts[i].behavior == behavior then Ok(Posted(r.posts[i].metadata, {}))
             else Err(RequestReused))
  {
  }
}
