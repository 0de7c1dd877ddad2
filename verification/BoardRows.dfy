/**
 One board as rows of tables, the way the SQLite backend stores it (agentboard/local.go):
 channels, an append-only table of posts in sequence order, subscriptions and opt-outs.
 Each write is one transaction on the rows, each read a query over them. The in-memory
 backend (agentboard/inmemory.go) is proved to be an implementation of these rows.
 */
module BoardRows {
  import opened Common
  import opened Sorting
  import opened Paging
  import opened BoardTypes

  datatype ChannelRow = ChannelRow(search: string, createdAt: int, author: string, description: Option<string>)

  datatype PostRow = PostRow(seqNo: nat, metadata: Metadata, text: string, search: string,
                             caller: string, request: PostRequest, behavior: Behavior)

  datatype Rows = Rows(
    channels: map<string, ChannelRow>,
    posts: seq<PostRow>,
    subs: set<(Target, string)>,
    optOuts: set<(Target, string)>)

  const EMPTY_ROWS := Rows(map[], [], {}, {})

  type Fold = string -> string

  // Selections of the post table

  datatype Filter = All | InChannel(name: string) | RootsIn(name: string) | RepliesTo(root: string) | InThread(root: string)

  predicate Picks(f: Filter, row: PostRow) {
    match f
    case All => true
    case InChannel(name) => row.metadata.channelName == name
    case RootsIn(name) => row.metadata.channelName == name && row.metadata.threadID == row.metadata.messageID
    case RepliesTo(root) => row.metadata.threadID == root && row.metadata.messageID != root
    case InThread(root) => row.metadata.threadID == root
  }

  /** The positions of the rows picked by a filter, in sequence order. */
  function Select(f: Filter, posts: seq<PostRow>): (s: seq<nat>)
    ensures forall k :: 0 <= k < |s| ==> s[k] < |posts|
  {
    if posts == [] then []
    else
      var last := |posts| - 1;
      Select(f, posts[..last]) + (if Picks(f, posts[last]) then [last] else [])
  }

  function Stamp(row: PostRow): int {
    Micro(row.metadata.createdAt)
  }

  /** The picked row that comes first in ORDER BY timestamp DESC, seq DESC. */
  function Latest(f: Filter, posts: seq<PostRow>): (o: Option<nat>)
    ensures o.Some? ==> o.value < |posts| && Picks(f, posts[o.value])
  {
    if posts == [] then None
    else
      var last := |posts| - 1;
      var before := Latest(f, posts[..last]);
      if !Picks(f, posts[last]) then before
      else if before.Some? && Stamp(posts[before.value]) > Stamp(posts[last]) then before
      else Some(last)
  }

  /** The row order of the queries: timestamp, then sequence number. */
  predicate RowBefore(a: PostRow, b: PostRow) {
    Stamp(a) < Stamp(b) || (Stamp(a) == Stamp(b) && a.seqNo < b.seqNo)
  }

  function FindPost(posts: seq<PostRow>, id: string): (o: Option<nat>)
    ensures o.Some? ==> o.value < |posts| && posts[o.value].metadata.messageID == id
    ensures o.None? ==> forall i :: 0 <= i < |posts| ==> posts[i].metadata.messageID != id
  {
    if posts == [] then None
    else if posts[|posts| - 1].metadata.messageID == id then Some(|posts| - 1)
    else FindPost(posts[..|posts| - 1], id)
  }

  predicate HasKey(row: PostRow, caller: string, requestID: string) {
    row.caller == caller && row.request.requestID == requestID
  }

  function FindRequest(posts: seq<PostRow>, caller: string, requestID: string): (o: Option<nat>)
    ensures o.Some? ==> o.value < |posts| && HasKey(posts[o.value], caller, requestID)
    ensures o.None? ==> forall i :: 0 <= i < |posts| ==> !HasKey(posts[i], caller, requestID)
  {
    if posts == [] then None
    else if HasKey(posts[|posts| - 1], caller, requestID) then Some(|posts| - 1)
    else FindRequest(posts[..|posts| - 1], caller, requestID)
  }

  // Transactions

  /** `existingPost`: an earlier post with this key, if the request is the same. */
  function Existing(r: Rows, caller: string, request: PostRequest, behavior: Behavior): Outcome<Option<Metadata>> {
    match FindRequest(r.posts, caller, request.requestID)
    case None => Ok(None)
    case Some(i) =>
      if r.posts[i].request == request && r.posts[i].behavior == behavior then Ok(Some(r.posts[i].metadata))
      else Err(RequestReused)
  }

  function InsertChannel(r: Rows, name: string, author: string, now: int, description: Option<string>, fold: Fold): Outcome<Rows> {
    if !ValidChannelName(name) then Err(InvalidChannelName)
    else if name in r.channels then Err(ChannelExists)
    else Ok(r.(channels := r.channels[name := ChannelRow(fold(name), now, author, description)]))
  }

  /** The implicit subscription of a participant; an opt-out is respected. */
  function SubscribeRow(r: Rows, target: Target, agent: string): Rows {
    if (target, agent) in r.optOuts then r else r.(subs := r.subs + {(target, agent)})
  }

  function Subscribers(r: Rows, target: Target): set<string> {
    set s | s in r.subs && s.0 == target :: s.1
  }

  /** A top-level post, by id. */
  function FindThread(posts: seq<PostRow>, id: string): (o: Outcome<nat>)
    ensures o.Ok? ==> o.value < |posts| && posts[o.value].metadata.messageID == id == posts[o.value].metadata.threadID
  {
    match FindPost(posts, id)
    case None => Err(PostNotFound)
    case Some(i) => if posts[i].metadata.threadID != id then Err(NotTopLevel) else Ok(i)
  }

  /** Where a post goes: the rows with a new channel if one is asked for, channel, root and target. */
  datatype Place = Place(rows: Rows, channel: string, root: string, target: Target)

  function Resolve(r: Rows, destination: Destination, author: string, now: int, caller: string, id: string,
                   behavior: Behavior, fold: Fold): Outcome<Place> {
    match destination
    case ToChannel(name) =>
      if name !in r.channels then Err(ChannelNotFound) else Ok(Place(r, name, id, ChannelTarget(name)))
    case ToNewChannel(name) =>
      (match InsertChannel(r, name, author, now, None, fold)
       case Err(error) => Err(error)
       case Ok(created) =>
         Ok(Place(if behavior == Discussion then SubscribeRow(created, ChannelTarget(name), caller) else created,
                  name, id, ChannelTarget(name))))
    case ToThread(threadID) =>
      (match FindThread(r.posts, threadID)
       case Err(error) => Err(error)
       case Ok(i) => Ok(Place(r, r.posts[i].metadata.channelName, threadID, ThreadTarget(threadID))))
  }

  function NewRow(seqNo: nat, place: Place, id: string, author: string, now: int, caller: string, request: PostRequest,
                  behavior: Behavior, fold: Fold): PostRow {
    PostRow(seqNo, Metadata(id, place.channel, author, place.root, now), request.text, fold(request.text), caller, request, behavior)
  }

  /** The writing transaction of a post or append, after the host has answered. */
  function CommitPost(r: Rows, seqNo: nat, caller: string, request: PostRequest, behavior: Behavior, author: string, now: int,
                      id: string, named: set<string>, fold: Fold): (Rows, Outcome<Posted>) {
    match Existing(r, caller, request, behavior)
    case Err(error) => (r, Err(error))
    case Ok(Some(metadata)) => (r, Ok(Posted(metadata, {})))
    case Ok(None) =>
      match Resolve(r, request.destination, author, now, caller, id, behavior, fold)
      case Err(error) => (r, Err(error))
      case Ok(place) =>
        var row := NewRow(seqNo, place, id, author, now, caller, request, behavior, fold);
        var written := place.rows.(posts := r.posts + [row]);
        if behavior == SilentAppend then (written, Ok(Posted(row.metadata, {})))
        else
          var recipients := named + Subscribers(place.rows, place.target) - {caller};
          (SubscribeRow(written, ThreadTarget(place.root), caller), Ok(Posted(row.metadata, recipients)))
  }

  /** A whole post or append without concurrent calls: check, ask the host, commit. */
  function PostInner(r: Rows, seqNo: nat, caller: string, request: PostRequest, behavior: Behavior, host: Host, id: string,
                     fold: Fold): (Rows, Outcome<Posted>) {
    if !ValidPostRequest(request) then (r, Err(InvalidPost))
    else if host.agentPath.None? then (r, Err(HostFailed))
    else
      match Existing(r, caller, request, behavior)
      case Err(error) => (r, Err(error))
      case Ok(Some(metadata)) => (r, Ok(Posted(metadata, {})))
      case Ok(None) =>
        var named := if behavior == Discussion then ResolveAll(host, request.agentsToNotify) else Some({});
        if named.None? || host.now.None? then (r, Err(HostFailed))
        else CommitPost(r, seqNo, caller, request, behavior, host.agentPath.value, host.now.value, id, named.value, fold)
  }

  function Summary(r: Rows, name: string): ChannelSummary
    requires name in r.channels
  {
    var c := r.channels[name];
    var last := Latest(InChannel(name), r.posts);
    ChannelSummary(name, c.description, c.createdAt, c.author, |Select(InChannel(name), r.posts)|,
                   if last.Some? then Some(r.posts[last.value].metadata.messageID) else None)
  }

  function CreateChannel(r: Rows, caller: string, name: string, description: Option<string>, subscription: Change, host: Host,
                         fold: Fold): (Rows, Outcome<ChannelSummary>) {
    if !ValidChannelName(name) then (r, Err(InvalidChannelName))
    else if !ValidDescription(description) then (r, Err(InvalidDescription))
    else if host.agentPath.None? || host.now.None? then (r, Err(HostFailed))
    else
      match InsertChannel(r, name, host.agentPath.value, host.now.value, description, fold)
      case Err(error) => (r, Err(error))
      case Ok(created) =>
        var s := if subscription == Subscribe then SubscribeRow(created, ChannelTarget(name), caller) else created;
        (s, Ok(Summary(s, name)))
  }

  /** The description of a channel, replaced. */
  function Describe(r: Rows, name: string, description: string): Rows
    requires name in r.channels
  {
    r.(channels := r.channels[name := r.channels[name].(description := Some(description))])
  }

  /** Insertion; on conflict with an existing channel, replacement of its description. */
  function UpsertRow(r: Rows, name: string, description: string, author: string, now: int, fold: Fold): Rows {
    if name in r.channels then Describe(r, name, description)
    else r.(channels := r.channels[name := ChannelRow(fold(name), now, author, Some(description))])
  }

  function UpsertChannel(r: Rows, name: string, description: string, host: Host, fold: Fold): (Rows, Outcome<()>) {
    if !ValidChannelName(name) then (r, Err(InvalidChannelName))
    else if !ValidDescription(Some(description)) then (r, Err(InvalidDescription))
    else if host.agentPath.None? then (r, Err(HostFailed))
    else if name in r.channels then (Describe(r, name, description), Ok(()))
    else if host.now.None? then (r, Err(HostFailed))
    else (UpsertRow(r, name, description, host.agentPath.value, host.now.value, fold), Ok(()))
  }

  /** The explicit change of a subscription: the pair moves to one table and leaves the other. */
  function ChangeSubscription(r: Rows, target: Target, agent: string, change: Change): Rows {
    var pair := {(target, agent)};
    if change == Subscribe then r.(subs := r.subs + pair, optOuts := r.optOuts - pair)
    else r.(subs := r.subs - pair, optOuts := r.optOuts + pair)
  }

  /** Channel, thread and newest message of a subscription target. */
  function DescribeTarget(r: Rows, target: Target): Outcome<(string, Option<string>, Option<string>)> {
    match target
    case ChannelTarget(name) =>
      if name !in r.channels then Err(ChannelNotFound) else Ok((name, None, Summary(r, name).lastMessageID))
    case ThreadTarget(id) =>
      (match FindThread(r.posts, id)
       case Err(error) => Err(error)
       case Ok(i) =>
         var last := Latest(InThread(id), r.posts);
         Ok((r.posts[i].metadata.channelName, Some(id),
             if last.Some? then Some(r.posts[last.value].metadata.messageID) else None)))
  }

  function SetSubscription(r: Rows, request: SubscriptionRequest, host: Host): (Rows, Outcome<SubscriptionState>) {
    if host.agentPath.None? then (r, Err(HostFailed))
    else
      var path := if request.targetAgent.Some? then request.targetAgent.value else host.agentPath.value;
      var agent := host.resolve(path);
      if agent.None? then (r, Err(HostFailed))
      else
        match DescribeTarget(r, request.target)
        case Err(error) => (r, Err(error))
        case Ok((channel, thread, last)) =>
          (ChangeSubscription(r, request.target, agent.value, request.change),
           Ok(SubscriptionState(channel, thread, path, request.change == Subscribe, last)))
  }
}
