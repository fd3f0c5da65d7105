/**
 The sequential loops of one consumer (internal/consume/consume.go), run without interference
 against the consumer group they modify. What the world answers is a script: the luck of the n-th
 handler call, the fate of the n-th XACK and of the n-th other command, and the number of waits
 after which the context is cancelled.
 */
module Consume {
  import opened Wrappers
  import opened Events
  import opened PendingList
  import opened OwnEntries
  import opened Pipeline
  import Backoff
  import Protocol
  import Recovery
  import opened Refinement

  datatype Fate = Fine | Refused | ReplyLost
  datatype Level = Warn | Error

  /** The Redis side of one stream and group. */
  class Server {
    var log: seq<Option<Event>>
    var cursor: Id
    var pel: Pel
    var now: Time
    var seen: map<Name, Time>   // consumers and when they were last active
    var done: seq<Id>           // history: entries in the order XACK removed them

    /** XINFO CONSUMERS: one line a consumer, in no particular order. */
    method XInfoConsumers() returns (infos: seq<Info>)
      ensures forall i :: 0 <= i < |infos| ==>
                infos[i].name in seen && infos[i].idle == now - seen[infos[i].name] &&
                  infos[i].pending == |Owned(pel, infos[i].name)|
      ensures forall n :: n in seen ==> exists i :: 0 <= i < |infos| && infos[i].name == n
    {
      infos := [];
      var names := seen.Keys;
      while names != {}
        invariant names <= seen.Keys
        invariant forall i :: 0 <= i < |infos| ==>
                    infos[i].name in seen && infos[i].idle == now - seen[infos[i].name] &&
                      infos[i].pending == |Owned(pel, infos[i].name)|
        invariant forall n :: n in seen && n !in names ==> exists i :: 0 <= i < |infos| && infos[i].name == n
        decreases names
      {
        ghost var before := infos;
        var n :| n in names;
        infos := infos + [Info(n, now - seen[n], |Owned(pel, n)|)];
        names := names - {n};
        assert infos[|infos| - 1].name == n;
        assert forall i :: 0 <= i < |before| ==> infos[i] == before[i];
      }
    }

    constructor (log: seq<Option<Event>>)
      ensures Valid() && this.log == log && cursor == 0 && pel == map[] && done == []
    {
      this.log, cursor, pel, now, seen, done := log, 0, map[], 0, map[], [];
    }

    ghost predicate Valid()
      reads this
    {
      && cursor <= |log|
      && forall id :: id in pel ==> id < cursor && pel[id].since <= now
    }

    /** The protocol's view of it. */
    ghost predicate Shown(g: Protocol.Group)
      reads this
    {
      g.log == log && g.cursor == cursor && g.pel == pel && g.now == now
    }

    method XPending(from: Id, count: nat, q: Query) returns (ids: seq<Id>)
      ensures ids == List(pel, from, cursor, count, q)
    {
      ids := List(pel, from, cursor, count, q);
    }

    method XClaim(ids: seq<Id>, who: Name, minIdle: Time) returns (claimed: seq<Id>)
      requires Valid()
      modifies `pel
      ensures Valid()
      ensures pel == Claim(old(pel), ids, who, minIdle, now) && claimed == Claimed(old(pel), ids, minIdle, now)
    {
      claimed := Claimed(pel, ids, minIdle, now);
      pel := Claim(pel, ids, who, minIdle, now);
    }

    method XReadGroup(who: Name, count: nat) returns (ids: seq<Id>)
      requires Valid()
      modifies `pel, `cursor
      ensures Valid() && old(cursor) <= cursor <= old(cursor) + count
      ensures cursor == |log| || cursor == old(cursor) + count
      ensures ids == Range(old(cursor), cursor) && pel == Deliver(old(pel), old(cursor), cursor, who, now)
    {
      var end := if cursor + count < |log| then cursor + count else |log|;
      ids := Range(cursor, end);
      pel := Deliver(pel, cursor, end, who, now);
      cursor := end;
    }

    method XAck(id: Id)
      requires Valid()
      modifies `pel, `done
      ensures Valid()
      ensures pel == Ack(old(pel), id) && done == if id in old(pel) then old(done) + [id] else old(done)
    {
      if id in pel { done := done + [id]; }
      pel := Ack(pel, id);
    }

    method XGroupDelConsumer(victim: Name)
      requires Valid()
      modifies `pel, `seen
      ensures Valid()
      ensures pel == DelConsumer(old(pel), victim) && seen == old(seen) - {victim}
    {
      pel := DelConsumer(pel, victim);
      seen := seen - {victim};
    }
  }

  predicate AckWaits(before: seq<int>, after: seq<int>) {
    |before| <= |after| && after[..|before|] == before && forall k :: |before| <= k < |after| ==>
      after[k] == 100
  }

  lemma TailStep<T>(s: seq<T>, i: nat)
    requires i < |s|
    ensures s[i..][0] == s[i] && s[i..][1..] == s[i + 1..] && s[i..] == [s[i]] + s[i + 1..]
  {
  }

  const BLOCK := 2_000  // defaultBlockDuration, in ms

  class Consumer {
    const rdb: Server
    const name: Name
    const handler: Handler
    const failLoud: bool
    const escalateAfter: int
    const count: nat
    const minIdle: Time
    const gcTimeout: Time
    const beatEvery: Time
    // The script of the world's answers.
    const luck: nat -> Luck
    const ackFate: nat -> AckFate
    const fate: nat -> Fate
    const patience: nat

    var inFlight: Option<Id>
    // What has happened so far.
    var calls: seq<Id>       // handler calls, by entry
    var acks: nat            // XACK attempts
    var sent: nat            // other commands
    var waits: seq<int>      // backoff and ack-retry waits, in ms
    var levels: seq<Level>   // levels of the retry log lines
    // The protocol that is followed along: where it was at first, and where it is.
    ghost const start: Protocol.State
    ghost var at: Protocol.State

    constructor (rdb: Server, name: Name, handler: Handler, failLoud: bool, escalateAfter: int, count: nat,
        minIdle: Time, gcTimeout: Time, beatEvery: Time, luck: nat -> Luck, ackFate: nat -> AckFate, fate: nat -> Fate,
        patience: nat, ghost at: Protocol.State)
      requires count > 0 && Recovery.At(at, name, Protocol.Top) && rdb.Shown(at.g)
      ensures this.rdb == rdb && this.name == name && this.count == count && inFlight == None && calls == []
      ensures Follows() && In(Protocol.Top)
    {
      this.rdb, this.name, this.handler := rdb, name, handler;
      this.failLoud, this.escalateAfter := failLoud, escalateAfter;
      this.count, this.minIdle, this.gcTimeout, this.beatEvery := count, minIdle, gcTimeout, beatEvery;
      this.luck, this.ackFate, this.fate, this.patience := luck, ackFate, fate, patience;
      inFlight, calls, acks, sent, waits, levels := None, [], 0, 0, [], [];
      start, this.at := at, at;
    }

    ghost function Cfg(): Protocol.Setup {
      Protocol.Setup(count, minIdle, gcTimeout, beatEvery, failLoud, handler)
    }

    /** What this consumer has done is a run of the protocol: same pending list and cursor, same handler calls. */
    ghost predicate Follows()
      reads this, rdb
    {
      Refinement.Follows(Cfg(), start, at) && rdb.Shown(at.g) && at.g.calls == start.g.calls + calls
    }

    /** Where the protocol's main loop is. */
    ghost predicate In(phase: Protocol.Phase)
      reads `at
    {
      Recovery.At(at, name, phase)
    }

    /** Where the protocol's peerReclaim is. */
    ghost predicate Scans(scan: Protocol.Scan)
      reads `at
    {
      name in at.nodes && at.nodes[name].scan == scan
    }

    /** The XINFO lines that the protocol's gcConsumers has still to look at. */
    ghost predicate Collects(infos: seq<Info>)
      reads `at
    {
      name in at.nodes && at.nodes[name].gc == infos
    }

    /** The context is cancelled. */
    predicate Done()
      reads `waits
    {
      |waits| >= patience
    }

    /** Some command from..end has failed, or its reply was lost. */
    predicate Failed(from: nat, end: nat) {
      exists k :: from <= k < end && fate(k) != Fine
    }

    lemma FirstFine(from: nat, end: nat)
      requires fate(from) == Fine
      ensures Failed(from, end) <==> Failed(from + 1, end)
    {
    }

    /** What stops a fail-loud consumer: a malformed entry, or poison or panic from the last handler call, on it. */
    predicate StoppedAt(id: Id)
      reads `calls, rdb`log
    {
      && id < |rdb.log|
      && (rdb.log[id].Some? ==>
            && calls != [] && calls[|calls| - 1] == id
            && var last := ReplyTo(handler, rdb.log[id].value, luck, |calls| - 1); last.Poison? || last.Panic?)
    }

    /** The world as it should be: commands and acks get through, entries are well-formed and handled at once. */
    ghost predicate Smooth()
      reads rdb`log
    {
      && (forall n :: fate(n) == Fine) && (forall n :: ackFate(n) == Acked)
      && (forall id :: 0 <= id < |rdb.log| ==> rdb.log[id].Some?)
      && forall id, n: nat ::
        0 <= id < |rdb.log| && rdb.log[id].Some? ==> ReplyTo(handler, rdb.log[id].value, luck, n).Nil?
    }

    function OnFatal(): Exit {
      if failLoud then FailedLoud else Nothing
    }

    /** The entries of this consumer that are still to do, in stream order. */
    ghost function Own(): seq<Id>
      reads this, rdb
    {
      OwnIds(rdb.pel, name, 0, rdb.cursor)
    }

    /** The group after the attempts from..end to acknowledge id. */
    twostate predicate Acknowledged(id: Id, from: nat, end: nat)
      reads rdb
    {
      if Took(ackFate, from, end)
      then rdb.pel == Ack(old(rdb.pel), id) &&
        rdb.done == (if id in old(rdb.pel) then old(rdb.done) + [id] else old(rdb.done))
      else rdb.pel == old(rdb.pel) && rdb.done == old(rdb.done)
    }

    /** The XACK retry loop, entered once the handler has returned nil. */
    method AckUntilDone(id: Id) returns (r: Exit)
      requires rdb.Valid()
      modifies `acks, `waits, rdb`pel, rdb`done
      ensures rdb.Valid() && acks > old(acks)
      // It stops at the first confirmed ack, or at cancellation.
      ensures if ackFate(acks - 1) == Acked then r == Nothing else r == Cancelled && Done()
      ensures forall n :: old(acks) <= n < acks - 1 ==> ackFate(n) != Acked
      ensures AckWaits(old(waits), waits)
      ensures var h := |waits| - |old(waits)|;
              acks - old(acks) - 1 <= h <= acks - old(acks) && (r == Nothing ==> h == acks - old(acks) - 1)
      ensures ackFate(old(acks)) == Acked ==> r == Nothing && waits == old(waits)
      // The entry is gone exactly when some attempt took effect.
      ensures Acknowledged(id, old(acks), acks)
    {
      var took := false;
      while true
        invariant rdb.Valid() && acks >= old(acks)
        invariant forall n :: old(acks) <= n < acks ==> ackFate(n) != Acked
        invariant AckWaits(old(waits), waits) && |waits| - |old(waits)| == acks - old(acks)
        invariant acks > old(acks) ==> !Done()
        invariant took == Took(ackFate, old(acks), acks)
        invariant rdb.pel == if took then Ack(old(rdb.pel), id) else old(rdb.pel)
        invariant rdb.done == if took && id in old(rdb.pel) then old(rdb.done) + [id] else old(rdb.done)
        decreases patience - |waits|
      {
        var a := ackFate(acks);
        acks := acks + 1;
        if a != NotAcked {
          rdb.XAck(id);
          took := true;
        }
        if a == Acked {
          assert waits[..|waits|] == waits;
          return Nothing;
        }
        if Done() { return Cancelled; }
        waits := waits + [Backoff.ACK_RETRY];
        if Done() { return Cancelled; }
      }
    }

    /** The level of the n-th retry line of an entry. */
    function LevelOf(n: int): Level {
      if n >= escalateAfter then Error else Warn
    }

    /** The log lines of one entry's retries, after those before it. */
    predicate Escalates(before: seq<Level>, after: seq<Level>) {
      |before| <= |after| && after[..|before|] == before && forall j :: |before| <= j < |after| ==>
        (after[j] == Error <==> j - |before| + 1 >= escalateAfter)
    }

    /** Only calls on id were added. */
    predicate CallsOn(id: Id, before: seq<Id>, after: seq<Id>) {
      |before| <= |after| && after[..|before|] == before && forall n :: |before| <= n < |after| ==> after[n] == id
    }

    lemma SameCalls(first: seq<Id>, id: Id, before: seq<Id>, after: seq<Id>)
      requires |before| <= |after| && after[..|before|] == before
      requires forall n :: |before| <= n < |after| ==> after[n] == id
      ensures first + before + Repeat(id, |after| - |before|) == first + after
    {
    }

    /** The log line and the wait of one retry, after those before it. */
    method LogAndWait(retries: nat, backoff: int, ghost levels0: seq<Level>, ghost waits0: seq<int>)
      requires retries > 0 && backoff == Backoff.Wait(retries - 1)
      requires Escalates(levels0, levels) && |levels| - |levels0| == retries - 1 &&
               waits == waits0 + Backoff.Waits(retries - 1)
      modifies `levels, `waits
      ensures Escalates(levels0, levels) && |levels| - |levels0| == retries && waits == waits0 + Backoff.Waits(retries)
      ensures levels == old(levels) + [LevelOf(retries)] && waits == old(waits) + [backoff]
    {
      Backoff.WaitsSnoc(waits0, retries);
      levels := levels + [LevelOf(retries)];
      waits := waits + [backoff];
    }

    /** The retry loop: call the handler until it settles, waiting longer after each transient failure. */
    method CallUntilSettled(id: Id, evt: Event) returns (settled: Option<Reply>)
      modifies `calls, `waits, `levels
      ensures |calls| > |old(calls)| && CallsOn(id, old(calls), calls)
      // Every call but the last failed transiently; the last one settles it, or the context has ended.
      ensures forall n :: |old(calls)| <= n < |calls| - 1 ==> ReplyTo(handler, evt, luck, n).Transient?
      ensures var last := ReplyTo(handler, evt, luck, |calls| - 1);
              if last.Transient? then settled.None? && Done() else settled == Some(last)
      // One log line and one wait a retry: 100ms doubled at each, capped; at most the last wait has no call after it.
      ensures ReplyTo(handler, evt, luck, |old(calls)|).Nil? ==> settled == Some(Nil) && waits == old(waits)
      ensures Escalates(old(levels), levels)
      ensures var h := |levels| - |old(levels)|;
              && waits == old(waits) + Backoff.Waits(h)
              && |calls| - |old(calls)| - 1 <= h && (h < |calls| - |old(calls)| || settled.None?) &&
                 h <= |calls| - |old(calls)|
    {
      var backoff := Backoff.FIRST;
      var retries := 0;
      while true
        invariant backoff == Backoff.Wait(retries) && retries == |calls| - |old(calls)| == |levels| - |old(levels)|
        invariant CallsOn(id, old(calls), calls)
        invariant forall n :: |old(calls)| <= n < |calls| ==> ReplyTo(handler, evt, luck, n).Transient?
        invariant waits == old(waits) + Backoff.Waits(retries)
        invariant Escalates(old(levels), levels)
        invariant retries > 0 ==> !Done()
        decreases patience - |waits|
      {
        var reply := ReplyTo(handler, evt, luck, |calls|);
        calls := calls + [id];
        if !reply.Transient? {
          assert retries == 0 ==> waits == old(waits) + [];
          return Some(reply);
        }
        if Done() { return None; }
        retries := retries + 1;
        LogAndWait(retries, backoff, old(levels), old(waits));
        if Done() { return None; }
        backoff := Backoff.Next(backoff);
      }
    }

    /** process: parse, call the handler until it settles, then ack, report, or stop. */
    method Process(id: Id) returns (r: Exit)
      requires rdb.Valid() && id < |rdb.log| && inFlight == None
      modifies this, rdb`pel, rdb`done
      ensures rdb.Valid() && inFlight == None && sent == old(sent)
      // A malformed envelope is fatal, and never reaches the handler.
      ensures rdb.log[id].None? ==>
                r == (if failLoud then FailedLoud else Nothing) && calls == old(calls) && acks == old(acks)
      ensures rdb.log[id].Some? ==>
                && |calls| > |old(calls)| && CallsOn(id, old(calls), calls)
                && forall n ::
                  |old(calls)| <= n < |calls| - 1 ==> ReplyTo(handler, rdb.log[id].value, luck, n).Transient?
      // The last reply decides: success leads to the ack loop, poison and panic to OnFatal, anything else to
      // cancellation.
      ensures rdb.log[id].Some? ==>
                match ReplyTo(handler, rdb.log[id].value, luck, |calls| - 1)
                case Nil => acks > old(acks) && r == if ackFate(acks - 1) == Acked then Nothing else Cancelled
                case Transient => acks == old(acks) && r == Cancelled
                case _ => acks == old(acks) && r == if failLoud then FailedLoud else Nothing
      ensures r == Cancelled ==> Done()
      ensures r == FailedLoud ==> StoppedAt(id)
      ensures forall n :: old(acks) <= n < acks - 1 ==> ackFate(n) != Acked
      // No ack attempt without a nil return, so no other way for the entry to leave the pending list.
      ensures Acknowledged(id, old(acks), acks)
      ensures r == Nothing && failLoud ==> Took(ackFate, old(acks), acks)
      ensures |waits| >= |old(waits)| && (Smooth() ==> r == Nothing && waits == old(waits))
      ensures at == old(at)
    {
      if rdb.log[id].None? {
        return OnFatal();
      }
      inFlight := Some(id);
      var settled := CallUntilSettled(id, rdb.log[id].value);
      match settled {
        case None => r := Cancelled;
        case Some(Nil) => r := AckUntilDone(id);
        case Some(_) => r := OnFatal();
      }
      inFlight := None;
    }

    /** Process the entry at the head of the protocol's batch. */
    method ProcessAlong(id: Id, ghost rest: seq<Id>, ghost after: Protocol.After) returns (r: Exit)
      requires rdb.Valid() && id < |rdb.log| && inFlight == None
      requires Follows() && In(Protocol.Working([id] + rest, after))
      modifies this, rdb`pel, rdb`done
      ensures rdb.Valid() && inFlight == None && sent == old(sent)
      ensures r != RedisError && (r == Cancelled ==> Done()) && (r == FailedLoud ==> StoppedAt(id))
      ensures Acknowledged(id, old(acks), acks) && (r == Nothing && failLoud ==> Took(ackFate, old(acks), acks))
      ensures |waits| >= |old(waits)| && (Smooth() ==> r == Nothing && waits == old(waits))
      ensures Follows() && (r == Nothing ==> In(Protocol.Working(rest, after)))
    {
      r := Process(id);
      SameCalls(start.g.calls, id, old(calls), calls);
      at := FollowProcess(Cfg(), start, at, name, id, rest, after, luck, |old(calls)|, |calls|, ackFate, old(acks),
        acks, r);
    }

    /** Process the entry at the head of this consumer's queue. */
    method ProcessHead(id: Id, ghost rest: seq<Id>, ghost after: Protocol.After) returns (r: Exit)
      requires rdb.Valid() && inFlight == None && failLoud && Own() != [] && Own()[0] == id
      requires Follows() && In(Protocol.Working([id] + rest, after))
      modifies this, rdb`pel, rdb`done
      ensures rdb.Valid() && inFlight == None && sent == old(sent)
      ensures rdb.done + Own() == old(rdb.done) + old(Own())
      ensures r == Nothing ==> Own() == old(Own())[1..]
      ensures r != RedisError && (r == Cancelled ==> Done()) && (r == FailedLoud ==> StoppedAt(id))
      ensures |waits| >= |old(waits)| && (Smooth() ==> r == Nothing && waits == old(waits))
      ensures SameForOthers(old(rdb.pel), rdb.pel, name)
      ensures Follows() && (r == Nothing ==> In(Protocol.Working(rest, after)))
    {
      ghost var pel, done := rdb.pel, rdb.done;
      assert id in Own();
      r := ProcessAlong(id, rest, after);
      QueueStep(pel, done, rdb.pel, rdb.done, name, rdb.cursor, id);
    }

    /** Work through a batch that starts this consumer's queue, as both selfReclaim and the main loop do. */
    method ProcessAll(batch: seq<Id>, ghost after: Protocol.After) returns (r: Exit)
      requires rdb.Valid() && inFlight == None && failLoud && batch <= Own()
      requires Follows() && In(Protocol.Working(batch, after))
      modifies this, rdb`pel, rdb`done
      ensures rdb.Valid() && inFlight == None && sent == old(sent)
      // The queue moves, in order, from pending to acknowledged; without an error by the whole batch.
      ensures rdb.done + Own() == old(rdb.done) + old(Own())
      ensures r == Nothing ==> Own() == old(Own())[|batch|..]
      ensures r != RedisError && (r == Cancelled ==> Done())
      ensures r == FailedLoud ==> exists id :: id in batch && StoppedAt(id)
      ensures |waits| >= |old(waits)| && (Smooth() ==> r == Nothing && waits == old(waits))
      ensures SameForOthers(old(rdb.pel), rdb.pel, name)
      ensures Follows() && (r == Nothing ==> In(if after.Again? then Protocol.Top else Protocol.Reading))
    {
      var i := 0;
      ghost var queue := Own();
      while i < |batch|
        invariant 0 <= i <= |batch| && rdb.Valid() && inFlight == None && sent == old(sent) && |waits| >= |old(waits)|
        invariant Smooth() ==> waits == old(waits)
        invariant Own() == queue[i..] && rdb.done + Own() == old(rdb.done) + queue
        invariant SameForOthers(old(rdb.pel), rdb.pel, name)
        invariant Follows() && In(Protocol.Working(batch[i..], after))
      {
        TailStep(queue, i);
        TailStep(batch, i);
        r := ProcessHead(batch[i], batch[i + 1..], after);
        if r != Nothing { return; }
        i := i + 1;
      }
      r := Nothing;
      Leave(after);
    }

    /** The protocol's batch is done. */
    ghost method Leave(after: Protocol.After)
      requires Follows() && In(Protocol.Working([], after))
      modifies `at
      ensures Follows() && In(if after.Again? then Protocol.Top else Protocol.Reading)
    {
      at := TakeMain(Cfg(), start, at, name, Protocol.Leave);
    }

    /** The next command's fate. */
    method Send() returns (f: Fate)
      modifies `sent
      ensures f == fate(old(sent)) && sent == old(sent) + 1
    {
      f := fate(sent);
      sent := sent + 1;
    }

    /** List a page of the own queue. */
    method ListOwn() returns (r: Exit, ids: seq<Id>)
      requires rdb.Valid() && Follows() && In(Protocol.Top)
      modifies `sent, `at
      ensures sent == old(sent) + 1 && r == if fate(old(sent)) == Fine then Nothing else RedisError
      ensures r == Nothing ==> ids <= Own() && |ids| <= count && (|ids| < count ==> ids == Own())
      ensures Follows()
      ensures r == Nothing ==> In(if ids == [] then Protocol.Reading else Protocol.SelfListed(ids, |ids| >= count))
    {
      var f := Send();
      if f != Fine { return RedisError, []; }
      var q := Query(Some(name), 0, rdb.now);
      ids := rdb.XPending(0, count, q);
      PageOfOwn(rdb.pel, name, 0, rdb.cursor, count, q);
      r := Nothing;
      at := TakeMain(Cfg(), start, at, name, Protocol.ListOwn);
    }

    /** Claim it, which moves nothing between consumers. */
    method ClaimOwn(ids: seq<Id>, ghost full: bool) returns (r: Exit, msgs: seq<Id>)
      requires rdb.Valid() && ids <= Own() && Follows() && In(Protocol.SelfListed(ids, full))
      modifies `sent, `at, rdb`pel
      ensures sent == old(sent) + 1 && r == if fate(old(sent)) == Fine then Nothing else RedisError
      ensures rdb.Valid() && Own() == old(Own()) && SameForOthers(old(rdb.pel), rdb.pel, name)
      ensures r == Nothing ==> msgs == ids
      ensures Follows() && (r == Nothing ==> In(Protocol.Working(ids, if full then Protocol.Again else Protocol.Read)))
    {
      var f := Send();
      if f == Refused { return RedisError, []; }
      ClaimOwnHead(rdb.pel, ids, name, rdb.cursor, rdb.now);
      msgs := rdb.XClaim(ids, name, 0);
      at := TakeMain(Cfg(), start, at, name, Protocol.ClaimOwn);
      r := if f == ReplyLost then RedisError else Nothing;
    }

    /** One page of selfReclaim: list, claim and process. `more` tells whether the page was full. */
    method ReclaimOwnPage() returns (r: Exit, more: bool)
      requires rdb.Valid() && inFlight == None && failLoud && count > 0 && Follows() && In(Protocol.Top)
      modifies this, rdb`pel, rdb`done
      ensures rdb.Valid() && inFlight == None && |waits| >= |old(waits)|
      ensures rdb.done + Own() == old(rdb.done) + old(Own())
      ensures r == Nothing ==> if more then |Own()| < |old(Own())| else Own() == []
      ensures r == Nothing ==> forall id :: id in Own() ==> id in old(Own())
      ensures SameForOthers(old(rdb.pel), rdb.pel, name)
      ensures sent > old(sent) && (r == RedisError <==> Failed(old(sent), sent)) && (r == Cancelled ==> Done())
      ensures r == FailedLoud ==> exists id :: id in old(Own()) && StoppedAt(id)
      ensures Smooth() ==> r == Nothing && waits == old(waits)
      ensures Follows() && (r == Nothing ==> In(if more then Protocol.Top else Protocol.Reading))
    {
      var ids;
      r, ids := ListOwn();
      more := false;
      if r != Nothing || ids == [] { return; }
      more := |ids| >= count;
      r := ClaimAndProcess(ids, more);
    }

    /** A page of the own queue, once listed. */
    method ClaimAndProcess(ids: seq<Id>, ghost full: bool) returns (r: Exit)
      requires rdb.Valid() && inFlight == None && failLoud && ids <= Own()
      requires Follows() && In(Protocol.SelfListed(ids, full))
      modifies this, rdb`pel, rdb`done
      ensures rdb.Valid() && inFlight == None && |waits| >= |old(waits)|
      ensures rdb.done + Own() == old(rdb.done) + old(Own()) && (r == Nothing ==> Own() == old(Own())[|ids|..])
      ensures SameForOthers(old(rdb.pel), rdb.pel, name)
      ensures sent == old(sent) + 1 && (r == RedisError <==> fate(old(sent)) != Fine) && (r == Cancelled ==> Done())
      ensures r == FailedLoud ==> exists id :: id in ids && StoppedAt(id)
      ensures Smooth() ==> r == Nothing && waits == old(waits)
      ensures Follows() && (r == Nothing ==> In(if full then Protocol.Top else Protocol.Reading))
    {
      var msgs;
      r, msgs := ClaimOwn(ids, full);
      if r != Nothing { return; }
      r := ProcessAll(msgs, if full then Protocol.Again else Protocol.Read);
    }

    /** selfReclaim: list the own pending entries, claim them and process them, page by page. */
    method SelfReclaim() returns (r: Exit)
      requires rdb.Valid() && inFlight == None && failLoud && count > 0 && Follows() && In(Protocol.Top)
      modifies this, rdb`pel, rdb`done
      ensures rdb.Valid() && inFlight == None && |waits| >= |old(waits)|
      // It drains the queue in order, returns nil only when it is empty, and touches nobody else's entries.
      ensures rdb.done + Own() == old(rdb.done) + old(Own())
      ensures r == Nothing ==> Own() == []
      ensures SameForOthers(old(rdb.pel), rdb.pel, name)
      // A Redis error means that a command failed, cancellation that the context is over; a loud stop has its entry.
      ensures sent >= old(sent) && (r == RedisError <==> Failed(old(sent), sent)) && (r == Cancelled ==> Done())
      ensures r == FailedLoud ==> exists id :: id in old(Own()) && StoppedAt(id)
      ensures Smooth() ==> r == Nothing && waits == old(waits)
      ensures Follows() && (r == Nothing ==> In(Protocol.Reading))
    {
      var more := true;
      r := Nothing;
      while more
        invariant sent >= old(sent) && !Failed(old(sent), sent) && (Smooth() ==> waits == old(waits))
        invariant forall id :: id in Own() ==> id in old(Own())
        invariant rdb.Valid() && inFlight == None && |waits| >= |old(waits)|
        invariant rdb.done + Own() == old(rdb.done) + old(Own())
        invariant SameForOthers(old(rdb.pel), rdb.pel, name)
        invariant r == Nothing && (!more ==> Own() == [])
        invariant Follows() && In(if more then Protocol.Top else Protocol.Reading)
        decreases |Own()|, more
      {
        r, more := ReclaimOwnPage();
        if r != Nothing { return; }
      }
    }

    /** Claim a page from its owners, unless there is nothing on it to claim. */
    method ClaimPage(page: seq<Id>) returns (r: Exit)
      requires rdb.Valid() && count > 0 && Follows() && Scans(ScanOf(Cfg(), at.g, name, page))
      modifies `sent, `at, rdb`pel
      ensures rdb.Valid() && sent >= old(sent) && r == if Failed(old(sent), sent) then RedisError else Nothing
      ensures rdb.pel == Claim(old(rdb.pel), Foreign(old(rdb.pel), page, name), name, minIdle, rdb.now) ||
              (r == RedisError && rdb.pel == old(rdb.pel))
      ensures Follows() && SamePhase(old(at), at, name)
      ensures r == Nothing ==> Scans(if |page| < count then Protocol.NoScan else Protocol.ScanAt(page[|page| - 1] + 1))
    {
      var ids := Foreign(rdb.pel, page, name);
      if ids == [] {
        ClaimNothing(rdb.pel, name, minIdle, rdb.now);
        if page != [] {
          at := TakeSide(Cfg(), start, at, name, Protocol.ScanClaim);
        }
        return Nothing;
      }
      var f := Send();
      if f == Refused { return RedisError; }
      var _ := rdb.XClaim(ids, name, minIdle);
      at := TakeSide(Cfg(), start, at, name, Protocol.ScanClaim);
      r := if f == ReplyLost then RedisError else Nothing;
    }

    /** List a page of what is idle. */
    method ListIdle(from: Id) returns (r: Exit, page: seq<Id>)
      requires rdb.Valid() && Follows() && Scans(Protocol.ScanAt(from))
      modifies `sent, `at
      ensures sent == old(sent) + 1 && r == if fate(old(sent)) == Fine then Nothing else RedisError
      ensures r == Nothing ==> page == List(rdb.pel, from, rdb.cursor, count, Query(None, minIdle, rdb.now))
      ensures Follows() && SamePhase(old(at), at, name)
      ensures r == Nothing ==> Scans(ScanOf(Cfg(), at.g, name, page))
    {
      var f := Send();
      if f != Fine { return RedisError, []; }
      page := rdb.XPending(from, count, Query(None, minIdle, rdb.now));
      at := TakeScanList(Cfg(), start, at, name, page);
      r := Nothing;
    }

    /** One page of peerReclaim: list from the cursor, claim what others own, move the cursor. */
    method ReclaimPage(from: Id, ghost pel: Pel) returns (r: Exit, next: Id, more: bool)
      requires rdb.Valid() && count > 0 && from <= rdb.cursor && forall id :: id in pel ==> id < rdb.cursor
      requires rdb.pel == TakeOverBelow(pel, name, minIdle, rdb.now, from)
      requires Follows() && Scans(Protocol.ScanAt(from))
      modifies `sent, `at, rdb`pel
      ensures rdb.Valid() && sent > old(sent) && r == if Failed(old(sent), sent) then RedisError else Nothing
      ensures from <= next <= rdb.cursor && (if more then from < next else next == rdb.cursor)
      ensures rdb.pel == TakeOverBelow(pel, name, minIdle, rdb.now, next) ||
              (r == RedisError && rdb.pel == old(rdb.pel))
      ensures Follows() && SamePhase(old(at), at, name)
      ensures r == Nothing ==> Scans(if more then Protocol.ScanAt(next) else Protocol.NoScan)
    {
      var page;
      r, page := ListIdle(from);
      if r != Nothing { return r, rdb.cursor, false; }
      PageTakesOver(pel, name, minIdle, rdb.now, from, rdb.cursor, count);
      CursorAdvances(page, count, from, rdb.cursor);
      next := NextCursor(page, count, from, rdb.cursor);
      more := |page| >= count;
      r := ClaimPage(page);
      FirstFine(old(sent), sent);
    }

    /** peerReclaim: take over, page by page, what others have left idle for reclaimMinIdle. */
    method PeerReclaim() returns (r: Exit, ghost bound: Id)
      requires rdb.Valid() && count > 0 && Follows() && Scans(Protocol.NoScan)
      modifies `sent, `at, rdb`pel
      // The only error is that of a failed command.
      ensures rdb.Valid() && sent > old(sent) && r == if Failed(old(sent), sent) then RedisError else Nothing
      // Exactly the stealable entries change hands: of the whole pending list, or below some id if a command fails.
      ensures rdb.pel == TakeOverBelow(old(rdb.pel), name, minIdle, rdb.now, bound) &&
              (r == Nothing ==> bound == rdb.cursor)
      // It is a scan of the protocol, whatever the main loop is at.
      ensures Follows() && Scans(Protocol.NoScan) && SamePhase(old(at), at, name)
    {
      var from: Id, more := 0, true;
      bound := 0;
      TakeOverNothing(rdb.pel, name, minIdle, rdb.now);
      at := TakeSide(Cfg(), start, at, name, Protocol.ScanStart);
      while more
        invariant rdb.Valid() && 0 <= from <= rdb.cursor && bound == from && (!more ==> from == rdb.cursor)
        invariant sent >= old(sent) && !Failed(old(sent), sent) && (!more ==> sent > old(sent))
        invariant rdb.pel == TakeOverBelow(old(rdb.pel), name, minIdle, rdb.now, from)
        invariant Follows() && SamePhase(old(at), at, name)
        invariant Scans(if more then Protocol.ScanAt(from) else Protocol.NoScan)
        decreases rdb.cursor - from, more
      {
        r, from, more := ReclaimPage(from, old(rdb.pel));
        if rdb.pel == TakeOverBelow(old(rdb.pel), name, minIdle, rdb.now, from) { bound := from; }
        if r != Nothing {
          at := TakeSide(Cfg(), start, at, name, Protocol.ScanFail);
          return;
        }
      }
      r := Nothing;
    }

    /** One tick of the heartbeat: the entry in flight, if there is one, is claimed anew. */
    method Beat() returns (ok: bool)
      requires rdb.Valid() && Follows() && name in at.nodes
      requires at.nodes[name].beat.None? && Protocol.InFlight(at.nodes[name].phase) == inFlight
      modifies `sent, `at, rdb`pel
      ensures rdb.Valid() && sent == old(sent) + (if inFlight.Some? then 1 else 0)
      ensures ok == (inFlight.None? || fate(old(sent)) == Fine)
      // An entry that is still pending is its own again, whoever has it, and has been idle for no time.
      ensures rdb.pel.Keys == old(rdb.pel).Keys
      ensures forall id :: id in rdb.pel ==>
                rdb.pel[id] == if inFlight == Some(id) && fate(old(sent)) != Refused
                               then Pending(name, rdb.now) else old(rdb.pel)[id]
      ensures Follows() && SamePhase(old(at), at, name)
    {
      at := TakeSide(Cfg(), start, at, name, Protocol.BeatLoad);
      ok := true;
      if inFlight.Some? {
        var f := Send();
        ok := f == Fine;
        if f != Refused {
          var _ := rdb.XClaim([inFlight.value], name, 0);
          at := TakeSide(Cfg(), start, at, name, Protocol.BeatClaim);
        } else {
          at := TakeSide(Cfg(), start, at, name, Protocol.BeatFail);
        }
      }
    }

    /** A consumer gcConsumers removes: not this one, idle for consumerGCTimeout, nothing pending. */
    ghost predicate Garbage(n: Name, seen: map<Name, Time>, pel: Pel)
      reads rdb`now
    {
      n in seen && n != name && rdb.now - seen[n] >= gcTimeout && Owned(pel, n) == {}
    }

    /** One line of XINFO: a DELCONSUMER for another consumer that is idle and owns nothing. */
    method Collect(info: Info, ghost infos: seq<Info>) returns (gone: bool)
      requires rdb.Valid() && info.pending == |Owned(rdb.pel, info.name)|
      requires Follows() && Collects(infos) && infos != [] && infos[0] == info
      modifies `sent, `at, rdb`pel, rdb`seen
      ensures rdb.Valid() && rdb.pel == old(rdb.pel)
      ensures sent == old(sent) + if Collectable(gcTimeout, info, name) then 1 else 0
      ensures gone == (Collectable(gcTimeout, info, name) && fate(old(sent)) != Refused)
      ensures rdb.seen == if gone then old(rdb.seen) - {info.name} else old(rdb.seen)
      ensures Follows() && Collects(infos[1..]) && SamePhase(old(at), at, name)
    {
      gone := false;
      if Collectable(gcTimeout, info, name) {
        DelIdleConsumer(rdb.pel, info.name);
        var f := Send();
        gone := f != Refused;
        if gone { rdb.XGroupDelConsumer(info.name); }
      }
      at := TakeSide(Cfg(), start, at, name, Protocol.GcNext(gone));
    }

    /** gcConsumers, without interference: no entry is lost, and exactly the garbage goes unless a DELCONSUMER fails. */
    method GcConsumers() returns (r: Exit)
      requires rdb.Valid() && Follows() && Collects([])
      modifies `sent, `at, rdb`pel, rdb`seen
      ensures rdb.Valid() && rdb.pel == old(rdb.pel)
      // Only a failed XINFO is reported; a failed DELCONSUMER is logged and passed over.
      ensures r == if fate(old(sent)) == Fine then Nothing else RedisError
      ensures forall n :: n in rdb.seen ==> n in old(rdb.seen) && rdb.seen[n] == old(rdb.seen)[n]
      ensures forall n :: n in old(rdb.seen) && n !in rdb.seen ==> Garbage(n, old(rdb.seen), rdb.pel)
      ensures (forall k :: old(sent) <= k < sent ==> fate(k) == Fine) ==>
                r == Nothing && forall n :: n in rdb.seen ==> !Garbage(n, old(rdb.seen), rdb.pel)
      ensures Follows() && Collects([]) && SamePhase(old(at), at, name)
    {
      var infos;
      r, infos := AskInfos();
      if r == Nothing {
        ghost var gone := CollectAll(infos);
        assert forall j :: 0 <= j < |infos| ==>
            (Collectable(gcTimeout, infos[j], name) <==> Garbage(infos[j].name, old(rdb.seen), rdb.pel));
      }
    }

    /** XINFO CONSUMERS. */
    method AskInfos() returns (r: Exit, infos: seq<Info>)
      requires rdb.Valid() && Follows() && Collects([])
      modifies `sent, `at
      ensures sent == old(sent) + 1 && r == if fate(old(sent)) == Fine then Nothing else RedisError
      ensures r == Nothing ==> Told(infos)
      ensures Follows() && Collects(if r == Nothing then infos else []) && SamePhase(old(at), at, name)
    {
      var f := Send();
      if f != Fine { return RedisError, []; }
      infos := rdb.XInfoConsumers();
      at := TakeSide(Cfg(), start, at, name, Protocol.GcInfo(infos));
      r := Nothing;
    }

    /** What XINFO tells of every consumer: how long it has been idle, and how much it owns. */
    ghost predicate Told(infos: seq<Info>)
      reads rdb
    {
      && (forall i :: 0 <= i < |infos| ==>
            infos[i].name in rdb.seen && infos[i].idle == rdb.now - rdb.seen[infos[i].name] &&
              infos[i].pending == |Owned(rdb.pel, infos[i].name)|)
      && forall n :: n in rdb.seen ==> exists i :: 0 <= i < |infos| && infos[i].name == n
    }

    /** The lines of XINFO one after the other. */
    method CollectAll(infos: seq<Info>) returns (ghost gone: set<Name>)
      requires rdb.Valid() && forall j :: 0 <= j < |infos| ==> infos[j].pending == |Owned(rdb.pel, infos[j].name)|
      requires Follows() && Collects(infos)
      modifies `sent, `at, rdb`pel, rdb`seen
      ensures rdb.Valid() && rdb.pel == old(rdb.pel) && sent >= old(sent) && rdb.seen == old(rdb.seen) - gone
      ensures forall n :: n in gone ==>
                exists j :: 0 <= j < |infos| && infos[j].name == n && Collectable(gcTimeout, infos[j], name)
      ensures (forall k :: old(sent) <= k < sent ==> fate(k) == Fine) ==>
                forall j :: 0 <= j < |infos| && Collectable(gcTimeout, infos[j], name) ==> infos[j].name in gone
      ensures Follows() && Collects([]) && SamePhase(old(at), at, name)
    {
      gone := {};
      var i := 0;
      while i < |infos|
        invariant 0 <= i <= |infos| && rdb.Valid() && rdb.pel == old(rdb.pel) && sent >= old(sent)
        invariant rdb.seen == old(rdb.seen) - gone
        invariant forall n :: n in gone ==>
                    exists j :: 0 <= j < |infos| && infos[j].name == n && Collectable(gcTimeout, infos[j], name)
        invariant (forall k :: old(sent) <= k < sent ==> fate(k) == Fine) ==>
                    forall j :: 0 <= j < i && Collectable(gcTimeout, infos[j], name) ==> infos[j].name in gone
        invariant Follows() && Collects(infos[i..]) && SamePhase(old(at), at, name)
      {
        TailStep(infos, i);
        var ok := Collect(infos[i], infos[i..]);
        if ok { gone := gone + {infos[i].name}; }
        i := i + 1;
      }
    }

    /** Everything this consumer has acknowledged, holds, or can still be given, in that order. */
    ghost function Ahead(): seq<Id>
      reads this, rdb
      requires rdb.cursor <= |rdb.log|
    {
      rdb.done + Own() + Range(rdb.cursor, |rdb.log|)
    }

    /** XREADGROUP, sent with an empty queue: the new entries become the queue. */
    method ReadNew() returns (r: Exit, ids: seq<Id>)
      requires rdb.Valid() && count > 0 && Own() == [] && Follows() && In(Protocol.Reading)
      modifies `sent, `at, rdb`pel, rdb`cursor
      // A command that fails because the context is over is not reported as a Redis error.
      ensures rdb.Valid() && sent == old(sent) + 1
      ensures r == if fate(old(sent)) == Fine then Nothing else if Done() then Cancelled else RedisError
      ensures r == Nothing && ids == [] ==> rdb.cursor == |rdb.log|
      ensures Ahead() == old(Ahead()) && SameForOthers(old(rdb.pel), rdb.pel, name)
      ensures r == Nothing ==> ids == Own() && rdb.cursor == old(rdb.cursor) + |ids|
      ensures Follows() && (r == Nothing ==> In(Protocol.Working(ids, Protocol.Again)))
    {
      var f := Send();
      if f == Refused { return if Done() then Cancelled else RedisError, []; }
      ghost var pel, cursor := rdb.pel, rdb.cursor;
      ids := rdb.XReadGroup(name, count);
      NewQueue(pel, rdb.done, name, cursor, rdb.cursor, |rdb.log|, rdb.now);
      DeliverForOthers(pel, name, cursor, rdb.cursor, rdb.now);
      at := TakeMain(Cfg(), start, at, name, Protocol.ReadNew);
      r := if f != ReplyLost then Nothing else if Done() then Cancelled else RedisError;
    }

    /** One turn of Run's loop: selfReclaim, XREADGROUP, and the entries it brought or the end of its BLOCK. */
    method Turn() returns (r: Exit)
      requires rdb.Valid() && inFlight == None && failLoud && count > 0 && Follows() && In(Protocol.Top)
      modifies this, rdb`pel, rdb`done, rdb`cursor
      ensures rdb.Valid() && inFlight == None && |waits| >= |old(waits)|
      ensures Ahead() == old(Ahead()) && SameForOthers(old(rdb.pel), rdb.pel, name)
      ensures rdb.cursor >= old(rdb.cursor) && (r == Nothing ==> rdb.cursor > old(rdb.cursor) || |waits| > |old(waits)|)
      ensures sent >= old(sent) && (r == Cancelled ==> Done())
      ensures r == RedisError ==> Failed(old(sent), sent)
      ensures Failed(old(sent), sent) ==> r == RedisError || r == Cancelled
      ensures r == FailedLoud ==> exists id :: id in old(Ahead()) && StoppedAt(id)
      ensures Smooth() ==> r == Nothing && (waits == old(waits) || (Own() == [] && rdb.cursor == |rdb.log|))
      ensures Follows() && (r == Nothing ==> In(Protocol.Top))
    {
      r := SelfReclaim();
      if r != Nothing { return; }
      r := ReadAndProcess();
    }

    /** The second half of a turn, with an empty queue. */
    method ReadAndProcess() returns (r: Exit)
      requires rdb.Valid() && inFlight == None && failLoud && count > 0 && Own() == []
      requires Follows() && In(Protocol.Reading)
      modifies this, rdb`pel, rdb`done, rdb`cursor
      ensures rdb.Valid() && inFlight == None && |waits| >= |old(waits)|
      ensures Ahead() == old(Ahead()) && SameForOthers(old(rdb.pel), rdb.pel, name)
      ensures rdb.cursor >= old(rdb.cursor) && (r == Nothing ==> rdb.cursor > old(rdb.cursor) || |waits| > |old(waits)|)
      ensures sent == old(sent) + 1 && (r == Cancelled ==> Done())
      ensures r == RedisError ==> fate(old(sent)) != Fine
      ensures fate(old(sent)) != Fine ==> r == RedisError || r == Cancelled
      ensures r == FailedLoud ==> exists id :: id in old(Ahead()) && StoppedAt(id)
      ensures Smooth() ==> r == Nothing && (waits == old(waits) || (Own() == [] && rdb.cursor == |rdb.log|))
      ensures Follows() && (r == Nothing ==> In(Protocol.Top))
    {
      var ids;
      r, ids := ReadNew();
      if r != Nothing { return; }
      if ids == [] {
        waits := waits + [BLOCK];  // BLOCK ran out with nothing to read
        Leave(Protocol.Again);
      } else {
        assert forall id :: id in Own() ==> id in Ahead();
        r := ProcessAll(ids, Protocol.Again);
      }
    }

    /**
     Run, on a stream nobody else reads while it runs: it only ends with an error, and whatever that
     is, what it has acknowledged is a prefix of what it held and then of the stream, in order.
     */
    method RunLoop() returns (r: Exit)
      requires rdb.Valid() && inFlight == None && failLoud && count > 0 && Follows() && In(Protocol.Top)
      modifies this, rdb`pel, rdb`done, rdb`cursor
      ensures rdb.Valid() && inFlight == None && r != Nothing
      ensures Ahead() == old(Ahead())
      ensures rdb.done <= old(Ahead())
      ensures SameForOthers(old(rdb.pel), rdb.pel, name)
      // A failed command ends it, with a Redis error unless the context is over; else it ends when the context
      // is over, or an entry stops it.
      ensures sent >= old(sent) && (r == Cancelled ==> Done())
      ensures r == RedisError ==> Failed(old(sent), sent)
      ensures Failed(old(sent), sent) ==> r == RedisError || r == Cancelled
      ensures r == FailedLoud ==> exists id :: id in old(Ahead()) && StoppedAt(id)
      // When all goes well it works through the stream to its end, and then waits until the context is over.
      ensures Smooth() && !old(Done()) ==> r == Cancelled && rdb.done == old(Ahead())
      // All it has done is a run of the protocol, at the end of which this process is down.
      ensures Follows() && name !in at.nodes
    {
      while true
        invariant Follows() && In(Protocol.Top)
        invariant rdb.Valid() && inFlight == None
        invariant Ahead() == old(Ahead())
        invariant SameForOthers(old(rdb.pel), rdb.pel, name)
        invariant sent >= old(sent) && !Failed(old(sent), sent)
        invariant Smooth() && !old(Done()) && Done() ==> Own() == [] && rdb.cursor == |rdb.log|
        decreases |rdb.log| - rdb.cursor, patience - |waits|
      {
        if Done() {
          assert Own() == [] && rdb.cursor == |rdb.log| ==> Ahead() == rdb.done by {
            assert rdb.cursor == |rdb.log| ==> Range(rdb.cursor, |rdb.log|) == [];
            assert rdb.done + [] + [] == rdb.done;
          }
          r := Cancelled;
          break;
        }
        r := Turn();
        if r != Nothing { break; }
      }
      at := Stop(Cfg(), start, at, name);
    }
  }
}
