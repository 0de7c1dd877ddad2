/**
 Concurrent posts, appends and upserts (agentboard/inmemory.go, `postInner` and
 `UpsertChannel`; the same steps in agentboard/local.go) as interleaved steps. A call
 checks under the lock, releases it to ask the host, locks again, checks again and
 commits; between any two of its steps any other calls may run. What holds after every
 interleaving is proved here.
 */
module PostProtocol {
  import opened Common
  import opened BoardTypes
  import opened BoardRows
  import opened BoardRules
  import opened BoardPromises

  /** How far a call has come. `wrote` tells the call that stored the post from those that found it stored. */
  datatype Phase =
    | Arrived
    | Named(author: string)
    | Pending(author: string)
    | Ready(author: string, recipients: set<string>, now: int)
    | Finished(outcome: Outcome<Posted>, wrote: bool)

  datatype Call = Call(caller: string, request: PostRequest, behavior: Behavior, phase: Phase)

  /** How far an upsert has come; `Missing` if it found no channel to describe. */
  datatype UpsertPhase =
    | Begun
    | Known(author: string)
    | Missing(author: string)
    | Clocked(author: string, now: int)
    | Ended(result: Outcome<()>)

  datatype Upserting = Upserting(name: string, description: string, phase: UpsertPhase)

  datatype World = World(rows: Rows, nextSeq: nat, calls: map<nat, Call>, upserts: map<nat, Upserting>)

  datatype Event =
    | Arrive(call: nat, caller: string, request: PostRequest, behavior: Behavior)
    | AgentPath(call: nat, author: Option<string>)
    | Check(call: nat)
    | HostReply(call: nat, host: Host)
    | Commit(call: nat, id: string)
    | Upsert(call: nat, step: UpsertEvent)
    | Other(op: Op)

  datatype UpsertEvent =
    | Begin(name: string, description: string)
    | Path(author: Option<string>)
    | Try
    | Clock(now: Option<int>)
    | Again

  const EMPTY_WORLD := World(EMPTY_ROWS, 1, map[], map[])

  function With(w: World, call: nat, phase: Phase): World
    requires call in w.calls
  {
    w.(calls := w.calls[call := w.calls[call].(phase := phase)])
  }

  function Fail(w: World, call: nat, error: BoardError): World
    requires call in w.calls
  {
    With(w, call, Finished(Err(error), false))
  }

  /** The first locked section: an earlier post with the key ends the call. */
  function CheckStep(w: World, call: nat, author: string): World
    requires call in w.calls
  {
    var c := w.calls[call];
    match Existing(w.rows, c.caller, c.request, c.behavior)
    case Err(error) => Fail(w, call, error)
    case Ok(Some(metadata)) => With(w, call, Finished(Ok(Posted(metadata, {})), false))
    case Ok(None) => With(w, call, Pending(author))
  }

  /** The answers of the host, obtained without the lock. An append asks for no agents. */
  function ReplyStep(w: World, call: nat, author: string, host: Host): World
    requires call in w.calls
  {
    var c := w.calls[call];
    var recipients := if c.behavior == Discussion then ResolveAll(host, c.request.agentsToNotify) else Some({});
    if recipients.None? || host.now.None? then Fail(w, call, HostFailed)
    else With(w, call, Ready(author, recipients.value, host.now.value))
  }

  /** The second locked section. */
  function CommitStep(w: World, call: nat, author: string, recipients: set<string>, now: int, id: string, fold: Fold): World
    requires call in w.calls
  {
    var c := w.calls[call];
    var (rows, outcome) := CommitPost(w.rows, w.nextSeq, c.caller, c.request, c.behavior, author, now, id, recipients, fold);
    var wrote := rows.posts != w.rows.posts;
    With(w.(rows := rows, nextSeq := if wrote then w.nextSeq + 1 else w.nextSeq), call, Finished(outcome, wrote))
  }

  function WithUpsert(w: World, call: nat, phase: UpsertPhase): World
    requires call in w.upserts
  {
    w.(upserts := w.upserts[call := w.upserts[call].(phase := phase)])
  }

  /**
   One step of an upsert: the request is checked and the caller's path asked; an existing
   channel is described under the lock; otherwise the clock is asked without it, and the
   second locked section looks again.
   */
  function UpsertStep(w: World, call: nat, e: UpsertEvent, fold: Fold): World {
    match e
    case Begin(name, description) =>
      if call in w.upserts then w else w.(upserts := w.upserts[call := Upserting(name, description, Begun)])
    case Path(author) =>
      if call !in w.upserts || !w.upserts[call].phase.Begun? then w
      else
        var u := w.upserts[call];
        WithUpsert(w, call, if !ValidChannelName(u.name) then Ended(Err(InvalidChannelName))
                            else if !ValidDescription(Some(u.description)) then Ended(Err(InvalidDescription))
                            else if author.None? then Ended(Err(HostFailed)) else Known(author.value))
    case Try =>
      if call !in w.upserts || !w.upserts[call].phase.Known? then w
      else
        var u := w.upserts[call];
        if u.name in w.rows.channels then
          WithUpsert(w.(rows := Describe(w.rows, u.name, u.description)), call, Ended(Ok(())))
        else WithUpsert(w, call, Missing(u.phase.author))
    case Clock(now) =>
      if call !in w.upserts || !w.upserts[call].phase.Missing? then w
      else WithUpsert(w, call, if now.None? then Ended(Err(HostFailed)) else Clocked(w.upserts[call].phase.author, now.value))
    case Again =>
      if call !in w.upserts || !w.upserts[call].phase.Clocked? then w
      else
        var u := w.upserts[call];
        WithUpsert(w.(rows := UpsertRow(w.rows, u.name, u.description, u.phase.author, u.phase.now, fold)), call, Ended(Ok(())))
  }

  /** One step; a step that is not due changes nothing. */
  function Next(w: World, e: Event, fold: Fold): World {
    match e
    case Arrive(call, caller, request, behavior) =>
      if call in w.calls then w else w.(calls := w.calls[call := Call(caller, request, behavior, Arrived)])
    case AgentPath(call, author) =>
      if call !in w.calls || !w.calls[call].phase.Arrived? then w
      else if !ValidPostRequest(w.calls[call].request) then Fail(w, call, InvalidPost)
      else if author.None? then Fail(w, call, HostFailed)
      else With(w, call, Named(author.value))
    case Check(call) =>
      if call !in w.calls || !w.calls[call].phase.Named? then w else CheckStep(w, call, w.calls[call].phase.author)
    case HostReply(call, host) =>
      if call !in w.calls || !w.calls[call].phase.Pending? then w
      else ReplyStep(w, call, w.calls[call].phase.author, host)
    case Commit(call, id) =>
      if call !in w.calls || !w.calls[call].phase.Ready? then w
      else
        var phase := w.calls[call].phase;
        CommitStep(w, call, phase.author, phase.recipients, phase.now, id, fold)
    case Upsert(call, step) => UpsertStep(w, call, step, fold)
    case Other(op) => if OneSection(op) then w.(rows := Apply(w.rows, op, fold)) else w
  }

  /** The operations that hold the lock once. */
  predicate OneSection(op: Op) {
    op.Create? || op.SetSub?
  }

  /** Post ids are new. */
  ghost predicate Possible(w: World, e: Event) {
    e.Commit? ==> forall i :: 0 <= i < |w.rows.posts| ==> w.rows.posts[i].metadata.messageID != e.id
  }

  function After(events: seq<Event>, fold: Fold): World {
    if events == [] then EMPTY_WORLD else Next(After(events[..|events| - 1], fold), events[|events| - 1], fold)
  }

  ghost predicate PossibleRun(events: seq<Event>, fold: Fold) {
    events != [] ==>
      PossibleRun(events[..|events| - 1], fold) && Possible(After(events[..|events| - 1], fold), events[|events| - 1])
  }

  // What every interleaving keeps

  /** The row at `i` is the post that a finished call with this outcome reports. */
  predicate Reports(rows: Rows, c: Call, i: nat)
    requires c.phase.Finished? && c.phase.outcome.Ok?
  {
    && i < |rows.posts| && rows.posts[i].metadata == c.phase.outcome.value.metadata
    && rows.posts[i].caller == c.caller && rows.posts[i].request == c.request && rows.posts[i].behavior == c.behavior
  }

  /** The row at `i` has the key of the call, but another request or behavior. */
  predicate Contradicts(rows: Rows, c: Call, i: nat) {
    && i < |rows.posts| && HasKey(rows.posts[i], c.caller, c.request.requestID)
    && (rows.posts[i].request != c.request || rows.posts[i].behavior != c.behavior)
  }

  /**
   A successful call reports a stored post with its key, its request and its behavior; a
   call refused for a reused key met a stored post that asked for something else.
   */
  ghost predicate CallInv(rows: Rows, c: Call) {
    && (c.phase.Finished? && c.phase.outcome.Ok? ==> exists i :: Reports(rows, c, i))
    && (c.phase.Finished? && c.phase.outcome == Err(RequestReused) ==> exists i :: Contradicts(rows, c, i))
    && (c.phase.Finished? && c.phase.wrote ==> c.phase.outcome.Ok?)
    && (c.phase.Finished? && !c.phase.wrote && c.phase.outcome.Ok? ==> c.phase.outcome.value.notified == {})
  }

  predicate Wrote(c: Call) {
    c.phase.Finished? && c.phase.wrote && c.phase.outcome.Ok?
  }

  /** Calls that stored a post stored different ones. */
  ghost predicate WritersDiffer(calls: map<nat, Call>) {
    forall a, b | a in calls && b in calls && a != b && Wrote(calls[a]) && Wrote(calls[b]) ::
      calls[a].phase.outcome.value.metadata.messageID != calls[b].phase.outcome.value.metadata.messageID
  }

  ghost predicate WorldInv(w: World) {
    && RowsInv(w.rows) && (forall i :: 0 <= i < |w.rows.posts| ==> w.rows.posts[i].seqNo < w.nextSeq)
    && (forall call | call in w.calls :: CallInv(w.rows, w.calls[call]))
    && WritersDiffer(w.calls) && UpsertsHold(w)
  }

  /** An upsert that succeeded left its channel; one past its checks has a valid name. */
  ghost predicate UpsertsHold(w: World) {
    forall call | call in w.upserts ::
      && (w.upserts[call].phase == Ended(Ok(())) ==> w.upserts[call].name in w.rows.channels)
      && (w.upserts[call].phase.Known? || w.upserts[call].phase.Missing? || w.upserts[call].phase.Clocked? ==>
            ValidChannelName(w.upserts[call].name))
  }

  /** Stored posts stay, so reports stay true. */
  lemma CallsKeep(w: World, rows: Rows)
    requires WorldInv(w) && w.rows.posts <= rows.posts
    ensures forall call | call in w.calls :: CallInv(rows, w.calls[call])
  {
    forall call | call in w.calls ensures CallInv(rows, w.calls[call]) {
      var c := w.calls[call];
      if c.phase.Finished? && c.phase.outcome.Ok? {
        var i :| Reports(w.rows, c, i);
        assert Reports(rows, c, i);
      }
      if c.phase.Finished? && c.phase.outcome == Err(RequestReused) {
        var i :| Contradicts(w.rows, c, i);
        assert Contradicts(rows, c, i);
      }
    }
  }

  /** A step that finishes a call without writing, or moves it on. */
  lemma WithKeeps(w: World, call: nat, phase: Phase)
    requires WorldInv(w) && call in w.calls && !Wrote(w.calls[call]) && !(phase.Finished? && phase.wrote)
    requires CallInv(w.rows, w.calls[call].(phase := phase))
    ensures WorldInv(With(w, call, phase))
  {
  }

  lemma CheckKeeps(w: World, call: nat, author: string)
    requires WorldInv(w) && call in w.calls && !Wrote(w.calls[call])
    ensures WorldInv(CheckStep(w, call, author))
  {
    var c := w.calls[call];
    var existing := Existing(w.rows, c.caller, c.request, c.behavior);
    if existing.Ok? && existing.value.Some? {
      var phase := Finished(Ok(Posted(existing.value.value, {})), false);
      assert Reports(w.rows, c.(phase := phase), FindRequest(w.rows.posts, c.caller, c.request.requestID).value);
      WithKeeps(w, call, phase);
    } else if existing.Err? {
      var phase := Finished(Err(existing.error), false);
      assert Contradicts(w.rows, c.(phase := phase), FindRequest(w.rows.posts, c.caller, c.request.requestID).value);
      WithKeeps(w, call, phase);
    }
  }

  /** What a commit leaves for the call to report. */
  lemma CommitReports(r: Rows, seqNo: nat, c: Call, author: string, now: int, id: string, named: set<string>, fold: Fold)
    ensures var (s, out) := CommitPost(r, seqNo, c.caller, c.request, c.behavior, author, now, id, named, fold);
      var done := c.(phase := Finished(out, s.posts != r.posts));
      && CallInv(s, done)
      && (s.posts != r.posts ==> out.Ok? && out.value.metadata.messageID == id)
      && (out.Err? ==> s == r)
  {
    var (s, out) := CommitPost(r, seqNo, c.caller, c.request, c.behavior, author, now, id, named, fold);
    var done := c.(phase := Finished(out, s.posts != r.posts));
    if out.Ok? {
      if s.posts == r.posts {
        assert Reports(s, done, FindRequest(r.posts, c.caller, c.request.requestID).value);
      } else {
        assert Reports(s, done, |r.posts|);
      }
    } else if out.error == RequestReused {
      assert Contradicts(s, done, FindRequest(r.posts, c.caller, c.request.requestID).value);
    }
  }

  lemma CommitStepKeeps(w: World, call: nat, author: string, recipients: set<string>, now: int, id: string, fold: Fold)
    requires WorldInv(w) && call in w.calls && FreshPost(w.rows, w.nextSeq, id)
    ensures WorldInv(CommitStep(w, call, author, recipients, now, id, fold))
  {
    hide RowsInv, CommitPost;
    var c := w.calls[call];
    var next := CommitStep(w, call, author, recipients, now, id, fold);
    CommitKeeps(w.rows, w.nextSeq, c.caller, c.request, c.behavior, author, now, id, recipients, fold);
    CommitGrows(w.rows, w.nextSeq, c.caller, c.request, c.behavior, author, now, id, recipients, fold);
    CommitNumbered(w.rows, w.nextSeq, c.caller, c.request, c.behavior, author, now, id, recipients, fold);
    CommitReports(w.rows, w.nextSeq, c, author, now, id, recipients, fold);
    CallsKeep(w, next.rows);
    WritersKeep(w, call, next.calls[call].phase, id);
  }

  lemma WritersKeep(w: World, call: nat, phase: Phase, id: string)
    requires WorldInv(w) && call in w.calls && FreshPost(w.rows, w.nextSeq, id)
    requires phase.Finished? && phase.wrote ==> phase.outcome.Ok? && phase.outcome.value.metadata.messageID == id
    ensures WritersDiffer(w.calls[call := w.calls[call].(phase := phase)])
  {
  }

  lemma OtherKeeps(w: World, op: Op, fold: Fold)
    requires WorldInv(w) && OneSection(op)
    ensures WorldInv(w.(rows := Apply(w.rows, op, fold)))
  {
    ApplyKeeps(w.rows, op, fold);
    ApplyGrows(w.rows, op, fold);
    assert Apply(w.rows, op, fold).posts == w.rows.posts;
    CallsKeep(w, Apply(w.rows, op, fold));
  }

  /** Channels may come and be described. */
  lemma ChannelsMoveKeeps(w: World, rows: Rows)
    requires WorldInv(w) && rows == w.rows.(channels := rows.channels) && w.rows.channels.Keys <= rows.channels.Keys
    ensures WorldInv(w.(rows := rows))
  {
    CallsKeep(w, rows);
  }

  lemma UpsertKeeps(w: World, call: nat, e: UpsertEvent, fold: Fold)
    requires WorldInv(w)
    ensures WorldInv(UpsertStep(w, call, e, fold))
  {
    hide RowsInv, CallInv, WritersDiffer, ValidChannelName, ValidDescription;
    var next := UpsertStep(w, call, e, fold);
    ChannelsMoveKeeps(w, next.rows);
    assert UpsertsHold(next);
  }

  /** The steps of a call before its commit. */
  lemma EarlyKeeps(w: World, e: Event, fold: Fold)
    requires WorldInv(w) && !e.Commit? && !e.Other? && !e.Upsert?
    ensures WorldInv(Next(w, e, fold))
  {
    match e
    case Arrive(call, caller, request, behavior) => ArriveKeeps(w, call, Call(caller, request, behavior, Arrived));
    case Check(call) =>
      if call in w.calls && w.calls[call].phase.Named? { CheckKeeps(w, call, w.calls[call].phase.author); }
    case AgentPath(call, _) => if Next(w, e, fold) != w { WithKeeps(w, call, Next(w, e, fold).calls[call].phase); }
    case HostReply(call, _) => if Next(w, e, fold) != w { WithKeeps(w, call, Next(w, e, fold).calls[call].phase); }
  }

  lemma ArriveKeeps(w: World, call: nat, c: Call)
    requires WorldInv(w) && c.phase.Arrived?
    ensures call in w.calls || WorldInv(w.(calls := w.calls[call := c]))
  {
  }

  lemma NextKeeps(w: World, e: Event, fold: Fold)
    requires WorldInv(w) && Possible(w, e)
    ensures WorldInv(Next(w, e, fold))
  {
    match e
    case Commit(call, id) =>
      if call in w.calls && w.calls[call].phase.Ready? {
        var phase := w.calls[call].phase;
        CommitStepKeeps(w, call, phase.author, phase.recipients, phase.now, id, fold);
      }
    case Other(op) => if OneSection(op) { OtherKeeps(w, op, fold); }
    case Upsert(call, step) => UpsertKeeps(w, call, step, fold);
    case _ => EarlyKeeps(w, e, fold);
  }

  /** Every interleaving keeps the invariant. */
  lemma {:induction false} EveryInterleaving(events: seq<Event>, fold: Fold)
    requires PossibleRun(events, fold)
    ensures WorldInv(After(events, fold))
    decreases |events|
  {
    if events != [] {
      EveryInterleaving(events[..|events| - 1], fold);
      NextKeeps(After(events[..|events| - 1], fold), events[|events| - 1], fold);
    }
  }

  // What callers can rely on

  /** In every interleaving at most one post exists per caller and request id. */
  lemma AtMostOnePost(events: seq<Event>, fold: Fold, i: nat, j: nat)
    requires PossibleRun(events, fold)
    requires var posts := After(events, fold).rows.posts;
      i < |posts| && j < |posts| && posts[i].caller == posts[j].caller && posts[i].request.requestID == posts[j].request.requestID
    ensures i == j
  {
    EveryInterleaving(events, fold);
    var posts := After(events, fold).rows.posts;
    assert HasKey(posts[i], posts[j].caller, posts[j].request.requestID);
    assert HasKey(posts[j], posts[i].caller, posts[i].request.requestID);
  }

  predicate Succeeded(c: Call) {
    c.phase.Finished? && c.phase.outcome.Ok?
  }

  /**
   In every interleaving, all successful calls with one key asked for the same thing and
   return the same metadata, at most one of them stored the post, and only that one
   handed recipients to notification.
   */
  lemma SameAnswer(events: seq<Event>, fold: Fold, a: nat, b: nat)
    requires PossibleRun(events, fold)
    requires var calls := After(events, fold).calls;
      && a in calls && b in calls && Succeeded(calls[a]) && Succeeded(calls[b])
      && calls[a].caller == calls[b].caller && calls[a].request.requestID == calls[b].request.requestID
    ensures var x, y := After(events, fold).calls[a], After(events, fold).calls[b];
      && x.phase.outcome.value.metadata == y.phase.outcome.value.metadata
      && x.request == y.request && x.behavior == y.behavior
      && (a != b ==> !(x.phase.wrote && y.phase.wrote))
      && (x.phase.outcome.value.notified != {} ==> x.phase.wrote)
  {
    EveryInterleaving(events, fold);
    var w := After(events, fold);
    assert CallInv(w.rows, w.calls[a]) && CallInv(w.rows, w.calls[b]);
    var i :| Reports(w.rows, w.calls[a], i);
    var j :| Reports(w.rows, w.calls[b], j);
    AtMostOnePost(events, fold, i, j);
  }

  /** A call is refused for a reused key only where the one post with that key asked for something else. */
  lemma RefusedForAReason(events: seq<Event>, fold: Fold, a: nat)
    requires PossibleRun(events, fold)
    requires a in After(events, fold).calls && After(events, fold).calls[a].phase.Finished?
    requires After(events, fold).calls[a].phase.outcome == Err(RequestReused)
    ensures exists i :: Contradicts(After(events, fold).rows, After(events, fold).calls[a], i)
  {
    EveryInterleaving(events, fold);
    var w := After(events, fold);
    assert CallInv(w.rows, w.calls[a]);
  }

  /** A key in use answers a repetition with the stored metadata, refuses anything else, and changes no row. */
  lemma UsedKeySteps(w: World, call: nat, i: nat, author: string, recipients: set<string>, now: int, id: string, fold: Fold)
    requires WorldInv(w) && call in w.calls && i < |w.rows.posts|
    requires HasKey(w.rows.posts[i], w.calls[call].caller, w.calls[call].request.requestID)
    ensures var c, row := w.calls[call], w.rows.posts[i];
      var answer := Finished(if row.request == c.request && row.behavior == c.behavior then Ok(Posted(row.metadata, {}))
                             else Err(RequestReused), false);
      && CheckStep(w, call, author) == With(w, call, answer)
      && CommitStep(w, call, author, recipients, now, id, fold).calls == With(w, call, answer).calls
      && CommitStep(w, call, author, recipients, now, id, fold).rows == w.rows
  {
  }

  /** The host's reply: a post goes on iff the host knows the time and all agents it names, with exactly their ids. */
  lemma ReplyNames(w: World, call: nat, host: Host, fold: Fold)
    requires call in w.calls && w.calls[call].phase.Pending?
    ensures var c, next := w.calls[call], Next(w, HostReply(call, host), fold);
      && next.rows == w.rows
      && (if !HostAnswers(host, c.request, c.behavior) then next.calls[call].phase == Finished(Err(HostFailed), false)
          else
            && next.calls[call].phase.Ready? && next.calls[call].phase.author == c.phase.author
            && Some(next.calls[call].phase.now) == host.now
            && forall id :: id in next.calls[call].phase.recipients <==>
                 c.behavior == Discussion && exists a :: a in c.request.agentsToNotify && host.resolve(a) == Some(id))
  {
    hide ResolveAll;
    ResolveAllExact(host, w.calls[call].request.agentsToNotify);
  }

  /**
   The commit of a call, whatever ran before it: the post is stored iff its key is still
   unused and its destination has no fault by then. It is the post asked for, handed to
   the agents resolved before and to those subscribed by then, without the caller.
   */
  lemma CommitStepDelivers(w: World, call: nat, id: string, fold: Fold)
    requires WorldInv(w) && call in w.calls && w.calls[call].phase.Ready?
    ensures var c, next := w.calls[call], Next(w, Commit(call, id), fold);
      var done := next.calls[call].phase;
      && done.Finished?
      && (done.wrote <==> !Used(w.rows, c.caller, c.request.requestID) && DestinationFault(w.rows, c.request.destination) == None)
      && (!done.wrote ==> next.rows == w.rows)
      && (done.wrote ==>
            && done.outcome.Ok?
            && Delivers(w.rows, next.rows, done.outcome.value.metadata, w.nextSeq, c.caller, c.request, c.behavior,
                        c.phase.author, c.phase.now, id, fold)
            && forall agent :: agent in done.outcome.value.notified <==>
                 && c.behavior == Discussion && agent != c.caller
                 && (agent in c.phase.recipients || Listens(w.rows, c.request.destination, agent)))
  {
    hide RowsInv, CommitPost, Used, DestinationFault, Delivers, Listens;
    var c := w.calls[call];
    CommitAnswers(w.rows, w.nextSeq, c.caller, c.request, c.behavior, c.phase.author, c.phase.now, id, c.phase.recipients, fold);
    CommitDelivers(w.rows, w.nextSeq, c.caller, c.request, c.behavior, c.phase.author, c.phase.now, id, c.phase.recipients, fold);
  }

  /** A step that ends a call with an error changes no row; a finished call stays as it is. */
  lemma FailuresChangeNothing(w: World, e: Event, fold: Fold, call: nat)
    requires call in w.calls
    ensures call in Next(w, e, fold).calls
    ensures w.calls[call].phase.Finished? ==> Next(w, e, fold).calls[call] == w.calls[call]
    ensures Next(w, e, fold).calls[call] != w.calls[call] ==>
      var phase := Next(w, e, fold).calls[call].phase; phase.Finished? && !phase.wrote ==> Next(w, e, fold).rows == w.rows
  {
  }

  /** A call whose steps run without interruption is the whole transaction at once. */
  lemma Uninterrupted(w: World, call: nat, caller: string, request: PostRequest, behavior: Behavior, host: Host, id: string, fold: Fold)
    requires call !in w.calls
    ensures var w1 := Next(w, Arrive(call, caller, request, behavior), fold);
      var w2 := Next(Next(w1, AgentPath(call, host.agentPath), fold), Check(call), fold);
      var w3 := Next(Next(w2, HostReply(call, host), fold), Commit(call, id), fold);
      var (rows, outcome) := PostInner(w.rows, w.nextSeq, caller, request, behavior, host, id, fold);
      && w3.rows == rows && call in w3.calls
      && w3.calls[call].phase.Finished? && w3.calls[call].phase.outcome == outcome
  {
    hide ValidPostRequest, ResolveAll, Existing, CommitPost;
  }

  // Upserts

  /**
   An upsert takes effect at once: whatever ran between its steps, the locked section that
   ends it is the whole upsert on the board of that moment, and it succeeds, also when
   another call created the channel while the clock was asked.
   */
  lemma UpsertAtOnce(w: World, call: nat, e: UpsertEvent, resolve: string -> Option<string>, fold: Fold)
    requires WorldInv(w) && call in w.upserts && ValidDescription(Some(w.upserts[call].description))
    requires var u := w.upserts[call];
      (e.Try? && u.phase.Known? && u.name in w.rows.channels) || (e.Again? && u.phase.Clocked?)
    ensures var u, next := w.upserts[call], UpsertStep(w, call, e, fold);
      var host := Host(Some(u.phase.author), resolve, if e.Again? then Some(u.phase.now) else None);
      && (next.rows, Ok(())) == UpsertChannel(w.rows, u.name, u.description, host, fold)
      && next.upserts[call].phase == Ended(Ok(()))
  {
    assert ValidChannelName(w.upserts[call].name);
    hide RowsInv, CallInv, WritersDiffer, ValidChannelName, ValidDescription;
  }

  /** Only those two sections of an upsert change the board; no other step of it does. */
  lemma UpsertWaits(w: World, call: nat, e: UpsertEvent, fold: Fold)
    requires UpsertStep(w, call, e, fold).rows != w.rows
    ensures call in w.upserts && UpsertStep(w, call, e, fold).upserts[call].phase == Ended(Ok(()))
    ensures (e.Try? && w.upserts[call].name in w.rows.channels) || e.Again?
  {
  }

  /** An upsert whose steps run without interruption is the whole operation. */
  lemma UpsertUninterrupted(w: World, call: nat, name: string, description: string, host: Host, fold: Fold)
    requires call !in w.upserts
    ensures var w1 := UpsertStep(UpsertStep(w, call, Begin(name, description), fold), call, Path(host.agentPath), fold);
      var w2 := UpsertStep(UpsertStep(w1, call, Try, fold), call, Clock(host.now), fold);
      var w3 := UpsertStep(w2, call, Again, fold);
      var (rows, result) := UpsertChannel(w.rows, name, description, host, fold);
      w3.rows == rows && call in w3.upserts && w3.upserts[call].phase == Ended(result)
  {
    hide ValidChannelName, ValidDescription;
  }
}
