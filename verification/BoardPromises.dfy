/**
 What one call on a board does, written out in terms of the request, the host's answers
 and the tables: when a post is stored, where it goes and whom it reaches; what channel
 creation, upserts and subscription changes leave behind.
 */
module BoardPromises {
  import opened Common
  import opened BoardTypes
  import opened BoardRows
  import opened BoardRules

  /** A post of this caller has used the request id. */
  ghost predicate Used(r: Rows, caller: string, requestID: string) {
    exists i :: 0 <= i < |r.posts| && r.posts[i].caller == caller && r.posts[i].request.requestID == requestID
  }

  /** The request asks for exactly what a stored post of this caller asked for. */
  ghost predicate Repeats(r: Rows, caller: string, request: PostRequest, behavior: Behavior) {
    exists i :: 0 <= i < |r.posts| && r.posts[i].caller == caller && r.posts[i].request == request && r.posts[i].behavior == behavior
  }

  ghost predicate IsStored(r: Rows, id: string) {
    exists i :: 0 <= i < |r.posts| && r.posts[i].metadata.messageID == id
  }

  /** A stored post with this id starts a thread, in the channel. */
  predicate StartsThread(row: PostRow, id: string, channel: string) {
    row.metadata.messageID == id && row.metadata.threadID == id && row.metadata.channelName == channel
  }

  ghost predicate IsThread(r: Rows, id: string) {
    exists i :: 0 <= i < |r.posts| && StartsThread(r.posts[i], id, r.posts[i].metadata.channelName)
  }

  /** A name of 1 to 128 bytes without surrounding blanks and without control characters. */
  predicate NameFits(name: string) {
    && 1 <= |name| && ByteLen(name) <= 128 && !IsSpace(name[0]) && !IsSpace(name[|name| - 1])
    && forall c | c in name :: c >= ' ' && c != '\U{7F}'
  }

  /** The fault of a destination on these tables, if any. */
  ghost function DestinationFault(r: Rows, destination: Destination): Option<BoardError> {
    match destination
    case ToChannel(name) => if name in r.channels then None else Some(ChannelNotFound)
    case ToNewChannel(name) =>
      if !NameFits(name) then Some(InvalidChannelName) else if name in r.channels then Some(ChannelExists) else None
    case ToThread(threadID) =>
      if IsThread(r, threadID) then None else if IsStored(r, threadID) then Some(NotTopLevel) else Some(PostNotFound)
  }

  /**
   The one row that was added is the post asked for: identity, author, time and text as
   given; a new thread of the channel named, or a reply in the thread named and the
   channel of its root. A new channel is created with it; channels do not change otherwise.
   */
  ghost predicate Delivers(r: Rows, s: Rows, m: Metadata, seqNo: nat, caller: string, request: PostRequest, behavior: Behavior,
                           author: string, now: int, id: string, fold: Fold) {
    && s.posts == r.posts + [PostRow(seqNo, m, request.text, fold(request.text), caller, request, behavior)]
    && m.messageID == id && m.author == author && m.createdAt == now
    && match request.destination
       case ToChannel(name) => m.channelName == name && m.threadID == id && name in r.channels && s.channels == r.channels
       case ToNewChannel(name) =>
         && m.channelName == name && m.threadID == id && name !in r.channels
         && s.channels == r.channels[name := ChannelRow(fold(name), now, author, None)]
       case ToThread(threadID) =>
         && m.threadID == threadID && s.channels == r.channels
         && exists i :: 0 <= i < |r.posts| && StartsThread(r.posts[i], threadID, m.channelName)
  }

  /** Subscribed to the channel that a new thread goes to, or to the thread of a reply. */
  predicate Listens(r: Rows, destination: Destination, agent: string) {
    match destination
    case ToChannel(name) => (ChannelTarget(name), agent) in r.subs
    case ToNewChannel(name) => (ChannelTarget(name), agent) in r.subs
    case ToThread(threadID) => (ThreadTarget(threadID), agent) in r.subs
  }

  lemma NameFitsIff(name: string)
    ensures ValidChannelName(name) <==> NameFits(name)
  {
    assert ContainsControlChar(name) <==> exists c :: c in name && (c < ' ' || c == '\U{7F}') by {
      if ContainsControlChar(name) {
        var i :| 0 <= i < |name| && (name[i] < '\U{20}' || name[i] == '\U{7F}');
        assert name[i] in name;
      }
      if c :| c in name && (c < ' ' || c == '\U{7F}') {
        var i :| 0 <= i < |name| && name[i] == c;
      }
    }
  }

  /** A destination resolves iff it has no fault, and else to that fault. */
  lemma ResolveFaults(r: Rows, destination: Destination, author: string, now: int, caller: string, id: string,
                      behavior: Behavior, fold: Fold)
    requires RowsInv(r)
    ensures var fault, place := DestinationFault(r, destination), Resolve(r, destination, author, now, caller, id, behavior, fold);
      if fault.Some? then place == Err(fault.value) else place.Ok?
  {
    match destination
    case ToChannel(name) =>
    case ToNewChannel(name) => NameFitsIff(name);
    case ToThread(threadID) =>
  }

  /** The stored post that a repetition finds. */
  predicate IsRepeated(row: PostRow, caller: string, request: PostRequest, behavior: Behavior) {
    row.caller == caller && row.request == request && row.behavior == behavior
  }

  lemma ExistingAnswers(r: Rows, caller: string, request: PostRequest, behavior: Behavior)
    requires UniqueKeys(r.posts)
    ensures var found := Existing(r, caller, request, behavior);
      && (found == Ok(None) <==> !Used(r, caller, request.requestID))
      && (found == Err(RequestReused) <==> Used(r, caller, request.requestID) && !Repeats(r, caller, request, behavior))
      && (found.Err? ==> found.error == RequestReused)
      && (Repeats(r, caller, request, behavior) ==>
            && found.Ok? && found.value.Some?
            && exists i :: 0 <= i < |r.posts| && IsRepeated(r.posts[i], caller, request, behavior) && found.value.value == r.posts[i].metadata)
  {
    var key := FindRequest(r.posts, caller, request.requestID);
    if key.Some? {
      assert HasKey(r.posts[key.value], caller, request.requestID);
      forall i | 0 <= i < |r.posts| && r.posts[i].caller == caller && r.posts[i].request.requestID == request.requestID
        ensures i == key.value
      {
        assert HasKey(r.posts[i], r.posts[key.value].caller, r.posts[key.value].request.requestID);
        assert HasKey(r.posts[key.value], r.posts[i].caller, r.posts[i].request.requestID);
      }
    } else {
      forall i | 0 <= i < |r.posts| ensures !(r.posts[i].caller == caller && r.posts[i].request.requestID == request.requestID) {
        assert !HasKey(r.posts[i], caller, request.requestID);
      }
    }
  }

  lemma FaultIsNoReuse(r: Rows, destination: Destination)
    ensures DestinationFault(r, destination) != Some(RequestReused)
  {
  }

  /** When a commit stores the post, and what it answers otherwise. */
  lemma CommitAnswers(r: Rows, seqNo: nat, caller: string, request: PostRequest, behavior: Behavior, author: string, now: int,
                      id: string, named: set<string>, fold: Fold)
    requires RowsInv(r)
    ensures var (s, out) := CommitPost(r, seqNo, caller, request, behavior, author, now, id, named, fold);
      var fault := DestinationFault(r, request.destination);
      && (s.posts != r.posts <==> !Used(r, caller, request.requestID) && fault == None)
      && (s.posts == r.posts ==> s == r)
      && (out == Err(RequestReused) <==> Used(r, caller, request.requestID) && !Repeats(r, caller, request, behavior))
      && (!Used(r, caller, request.requestID) && fault.Some? ==> out == Err(fault.value))
      && (Repeats(r, caller, request, behavior) ==>
            && out.Ok? && out.value.notified == {}
            && exists i :: 0 <= i < |r.posts| && IsRepeated(r.posts[i], caller, request, behavior)
                           && out.value.metadata == r.posts[i].metadata)
  {
    hide Resolve, DestinationFault, Increasing, UniqueIds, UniqueKeys, Rooted, Subscribers, Existing, Used, Repeats, IsRepeated;
    ResolveFaults(r, request.destination, author, now, caller, id, behavior, fold);
    ExistingAnswers(r, caller, request, behavior);
    FaultIsNoReuse(r, request.destination);
  }

  /** The post that a commit stores, and whom it is handed to: the agents resolved before, and the listeners of that moment. */
  lemma CommitDelivers(r: Rows, seqNo: nat, caller: string, request: PostRequest, behavior: Behavior, author: string, now: int,
                       id: string, named: set<string>, fold: Fold)
    ensures var (s, out) := CommitPost(r, seqNo, caller, request, behavior, author, now, id, named, fold);
      s.posts != r.posts ==>
        && out.Ok? && Delivers(r, s, out.value.metadata, seqNo, caller, request, behavior, author, now, id, fold)
        && forall agent :: agent in out.value.notified <==>
             behavior == Discussion && agent != caller && (agent in named || Listens(r, request.destination, agent))
  {
    hide Existing, Delivers;
    CommitStores(r, seqNo, caller, request, behavior, author, now, id, named, fold);
    CommitNotifies(r, seqNo, caller, request, behavior, author, now, id, named, fold);
  }

  lemma CommitStores(r: Rows, seqNo: nat, caller: string, request: PostRequest, behavior: Behavior, author: string, now: int,
                     id: string, named: set<string>, fold: Fold)
    ensures var (s, out) := CommitPost(r, seqNo, caller, request, behavior, author, now, id, named, fold);
      s.posts != r.posts ==>
        out.Ok? && Delivers(r, s, out.value.metadata, seqNo, caller, request, behavior, author, now, id, fold)
  {
    hide Existing, Subscribers;
  }

  /** Text of 1 to 65536 bytes, request id of 1 to 512 bytes, at most 256 agents to notify. */
  predicate RequestFits(request: PostRequest) {
    && request.text != "" && ByteLen(request.text) <= 65536
    && request.requestID != "" && ByteLen(request.requestID) <= 512 && |request.agentsToNotify| <= 256
  }

  /** The host answers everything that a post asks it; an append names no agents. */
  predicate HostAnswers(host: Host, request: PostRequest, behavior: Behavior) {
    && host.now.Some? && (behavior == Discussion ==> forall a | a in request.agentsToNotify :: host.resolve(a).Some?)
  }

  /**
   When a post or append is stored, without concurrent calls: exactly for a valid request
   whose caller, agents and time the host knows, with a new key and a destination that
   exists. Otherwise nothing changes, and the answer is the first fault met.
   */
  lemma PostAnswers(r: Rows, seqNo: nat, caller: string, request: PostRequest, behavior: Behavior, host: Host, id: string, fold: Fold)
    requires RowsInv(r)
    ensures var (s, out) := PostInner(r, seqNo, caller, request, behavior, host, id, fold);
      var known, used, fault :=
        RequestFits(request) && host.agentPath.Some?, Used(r, caller, request.requestID), DestinationFault(r, request.destination);
      && (s.posts != r.posts <==> known && !used && HostAnswers(host, request, behavior) && fault == None)
      && (s.posts == r.posts ==> s == r)
      && (!RequestFits(request) ==> out == Err(InvalidPost))
      && (RequestFits(request) && host.agentPath.None? ==> out == Err(HostFailed))
      && (known && used && !Repeats(r, caller, request, behavior) ==> out == Err(RequestReused))
      && (known && Repeats(r, caller, request, behavior) ==>
            && out.Ok? && out.value.notified == {}
            && exists i :: 0 <= i < |r.posts| && IsRepeated(r.posts[i], caller, request, behavior)
                           && out.value.metadata == r.posts[i].metadata)
      && (known && !used && !HostAnswers(host, request, behavior) ==> out == Err(HostFailed))
      && (known && !used && HostAnswers(host, request, behavior) && fault.Some? ==> out == Err(fault.value))
  {
    hide RowsInv, CommitPost, Existing, Used, Repeats, IsRepeated, DestinationFault, ResolveAll;
    ExistingFor(r, caller, request, behavior);
    ResolveAllExact(host, request.agentsToNotify);
    var named := if behavior == Discussion then ResolveAll(host, request.agentsToNotify) else Some({});
    if host.agentPath.Some? && host.now.Some? && named.Some? {
      CommitAnswers(r, seqNo, caller, request, behavior, host.agentPath.value, host.now.value, id, named.value, fold);
    }
  }

  lemma ExistingFor(r: Rows, caller: string, request: PostRequest, behavior: Behavior)
    requires RowsInv(r)
    ensures var found := Existing(r, caller, request, behavior);
      && (found == Ok(None) <==> !Used(r, caller, request.requestID))
      && (Used(r, caller, request.requestID) && !Repeats(r, caller, request, behavior) ==> found == Err(RequestReused))
      && (Repeats(r, caller, request, behavior) ==>
            && Used(r, caller, request.requestID) && found.Ok? && found.value.Some?
            && exists i :: 0 <= i < |r.posts| && IsRepeated(r.posts[i], caller, request, behavior) && found.value.value == r.posts[i].metadata)
  {
    ExistingAnswers(r, caller, request, behavior);
  }

  /** The post that is stored, and whom it is handed to. */
  lemma PostDelivers(r: Rows, seqNo: nat, caller: string, request: PostRequest, behavior: Behavior, host: Host, id: string, fold: Fold)
    ensures var (s, out) := PostInner(r, seqNo, caller, request, behavior, host, id, fold);
      s.posts != r.posts ==>
        && out.Ok? && host.agentPath.Some? && host.now.Some?
        && Delivers(r, s, out.value.metadata, seqNo, caller, request, behavior, host.agentPath.value, host.now.value, id, fold)
        && forall agent :: agent in out.value.notified <==>
             && behavior == Discussion && agent != caller
             && ((exists a :: a in request.agentsToNotify && host.resolve(a) == Some(agent)) || Listens(r, request.destination, agent))
  {
    hide CommitPost, Existing, ResolveAll, Delivers, Listens;
    ResolveAllExact(host, request.agentsToNotify);
    var named := if behavior == Discussion then ResolveAll(host, request.agentsToNotify) else Some({});
    if host.agentPath.Some? && host.now.Some? && named.Some? {
      CommitDelivers(r, seqNo, caller, request, behavior, host.agentPath.value, host.now.value, id, named.value, fold);
    }
  }

  // Channels

  /** When a channel is created, and how it and the subscriptions look afterwards. */
  lemma CreateAnswers(r: Rows, caller: string, name: string, description: Option<string>, subscription: Change, host: Host, fold: Fold)
    requires RowsInv(r)
    ensures var (s, out) := CreateChannel(r, caller, name, description, subscription, host, fold);
      && (out.Ok? <==> NameFits(name) && (description.Some? ==> ByteLen(description.value) <= 512)
                       && host.agentPath.Some? && host.now.Some? && name !in r.channels)
      && (out.Err? ==> s == r && out.error == if !NameFits(name) then InvalidChannelName
            else if description.Some? && ByteLen(description.value) > 512 then InvalidDescription
            else if host.agentPath.None? || host.now.None? then HostFailed else ChannelExists)
      && (out.Ok? ==>
            && s.channels == r.channels[name := ChannelRow(fold(name), host.now.value, host.agentPath.value, description)]
            && s.posts == r.posts && s.optOuts == r.optOuts
            && (forall t, a :: (t, a) in s.subs <==>
                  (t, a) in r.subs || (subscription == Subscribe && t == ChannelTarget(name) && a == caller && (t, a) !in r.optOuts))
            && out.value == ChannelSummary(name, description, host.now.value, host.agentPath.value, 0, None))
  {
    hide Increasing, UniqueIds, UniqueKeys, Rooted, ValidChannelName, NameFits;
    NameFitsIff(name);
    if name !in r.channels { NoPostsIn(r, name); }
  }

  lemma {:induction false} NoneIn(posts: seq<PostRow>, name: string)
    requires forall i :: 0 <= i < |posts| ==> posts[i].metadata.channelName != name
    ensures Select(InChannel(name), posts) == [] && Latest(InChannel(name), posts) == None
  {
    if posts != [] { NoneIn(posts[..|posts| - 1], name); }
  }

  lemma NoPostsIn(r: Rows, name: string)
    requires RowsInv(r) && name !in r.channels
    ensures Select(InChannel(name), r.posts) == [] && Latest(InChannel(name), r.posts) == None
  {
    NoneIn(r.posts, name);
  }

  /**
   An upsert creates a channel that is missing, which takes the clock, or gives one that
   is there the new description and changes nothing else of it, nor any other row.
   */
  lemma UpsertAnswers(r: Rows, name: string, description: string, host: Host, fold: Fold)
    ensures var (s, out) := UpsertChannel(r, name, description, host, fold);
      && (out.Ok? <==> NameFits(name) && ByteLen(description) <= 512 && host.agentPath.Some? && (name in r.channels || host.now.Some?))
      && (out.Err? ==> s == r && out.error == if !NameFits(name) then InvalidChannelName
            else if ByteLen(description) > 512 then InvalidDescription else HostFailed)
      && (out.Ok? ==>
            && s == r.(channels := s.channels) && s.channels.Keys == r.channels.Keys + {name}
            && (forall other | other in r.channels && other != name :: s.channels[other] == r.channels[other])
            && s.channels[name].description == Some(description)
            && (if name in r.channels then s.channels[name] == r.channels[name].(description := Some(description))
                else s.channels[name] == ChannelRow(fold(name), host.now.value, host.agentPath.value, Some(description))))
  {
    hide ValidChannelName, NameFits;
    NameFitsIff(name);
  }

  // Subscriptions

  /**
   An explicit change puts the pair of target and agent into one of the two tables and
   out of the other; every other pair and every other row stays. The agent is the one
   named, else the caller.
   */
  lemma SubscriptionAnswers(r: Rows, request: SubscriptionRequest, host: Host)
    requires RowsInv(r)
    ensures var (s, out) := SetSubscription(r, request, host);
      var path := if request.targetAgent.Some? then request.targetAgent else host.agentPath;
      var agent := if path.Some? then host.resolve(path.value) else None;
      && (out.Ok? <==> host.agentPath.Some? && agent.Some?
                       && match request.target
                          case ChannelTarget(name) => name in r.channels
                          case ThreadTarget(threadID) => IsThread(r, threadID))
      && (out.Err? ==> s == r && out.error == if host.agentPath.None? || agent.None? then HostFailed
            else if request.target.ChannelTarget? then ChannelNotFound
            else if IsStored(r, request.target.threadID) then NotTopLevel else PostNotFound)
      && (out.Ok? ==>
            && s == r.(subs := s.subs, optOuts := s.optOuts)
            && ((request.target, agent.value) in s.subs <==> request.change == Subscribe)
            && ((request.target, agent.value) in s.optOuts <==> request.change == Unsubscribe)
            && (forall t, a | (t, a) != (request.target, agent.value) ::
                  ((t, a) in s.subs <==> (t, a) in r.subs) && ((t, a) in s.optOuts <==> (t, a) in r.optOuts))
            && out.value.targetAgent == path.value && (out.value.enabled <==> request.change == Subscribe)
            && match request.target
               case ChannelTarget(name) => out.value.channelName == name && out.value.threadID == None
               case ThreadTarget(threadID) =>
                 && out.value.threadID == Some(threadID)
                 && exists i :: 0 <= i < |r.posts| && StartsThread(r.posts[i], threadID, out.value.channelName))
  {
    hide Summary, Latest;
  }
}
