/** A consumer's own pending entries in stream order: the queue selfReclaim works off. */
module OwnEntries {
  import opened Wrappers
  import opened PendingList

  function OwnIds(pel: Pel, who: Name, from: Id, end: Id): (ids: seq<Id>)
    ensures forall id :: id in ids <==> from <= id < end && id in pel && pel[id].owner == who
    decreases if from < end then end - from else 0
  {
    if from >= end then []
    else if from in pel && pel[from].owner == who then [from] + OwnIds(pel, who, from + 1, end)
    else OwnIds(pel, who, from + 1, end)
  }

  /** XPENDING for a consumer answers a prefix of its queue, cut only by COUNT. */
  lemma {:induction false} PageOfOwn(pel: Pel, who: Name, from: Id, end: Id, count: nat, q: Query)
    requires q.consumer == Some(who) && q.minIdle == 0 && forall id :: id in pel ==> pel[id].since <= q.now
    ensures List(pel, from, end, count, q) <= OwnIds(pel, who, from, end)
    ensures |List(pel, from, end, count, q)| == count || List(pel, from, end, count, q) == OwnIds(pel, who, from, end)
    decreases if from < end then end - from else 0
  {
    if from < end && count > 0 {
      PageOfOwn(pel, who, from + 1, end, if Wanted(pel, from, q) then count - 1 else count, q);
    }
  }

  /** The queue depends only on which entries are owned. */
  lemma {:induction false} OwnIdsSame(pel: Pel, qel: Pel, who: Name, from: Id, end: Id)
    requires forall id :: from <= id < end ==>
             ((id in pel && pel[id].owner == who) <==> (id in qel && qel[id].owner == who))
    ensures OwnIds(pel, who, from, end) == OwnIds(qel, who, from, end)
    decreases if from < end then end - from else 0
  {
    if from < end { OwnIdsSame(pel, qel, who, from + 1, end); }
  }

  /** Acknowledging the first entry of the queue leaves the rest of it. */
  lemma {:induction false} OwnIdsAck(pel: Pel, who: Name, from: Id, end: Id)
    requires OwnIds(pel, who, from, end) != []
    ensures var ids := OwnIds(pel, who, from, end); OwnIds(Ack(pel, ids[0]), who, from, end) == ids[1..]
    decreases if from < end then end - from else 0
  {
    if from in pel && pel[from].owner == who {
      OwnIdsSame(pel, Ack(pel, from), who, from + 1, end);
    } else {
      OwnIdsAck(pel, who, from + 1, end);
    }
  }

  lemma {:induction false} OwnIdsSplit(pel: Pel, who: Name, from: Id, mid: Id, end: Id)
    requires from <= mid <= end
    ensures OwnIds(pel, who, from, end) == OwnIds(pel, who, from, mid) + OwnIds(pel, who, mid, end)
    decreases if from < end then end - from else 0
  {
    if from < mid { OwnIdsSplit(pel, who, from + 1, mid, end); }
  }

  lemma {:induction false} OwnInterval(pel: Pel, who: Name, from: Id, end: Id)
    requires forall id :: from <= id < end ==> id in pel && pel[id].owner == who
    ensures OwnIds(pel, who, from, end) == Range(from, end)
    decreases if from < end then end - from else 0
  {
    if from < end {
      OwnInterval(pel, who, from + 1, end);
      assert Range(from, end) == [from] + Range(from + 1, end);
    }
  }

  /** XREADGROUP adds the new entries at the end of the queue. */
  lemma OwnIdsDeliver(pel: Pel, who: Name, cursor: Id, end: Id, now: Time)
    requires cursor <= end && forall id :: id in pel ==> id < cursor
    ensures OwnIds(Deliver(pel, cursor, end, who, now), who, 0, end) == OwnIds(pel, who, 0, cursor) + Range(cursor, end)
  {
    var after := Deliver(pel, cursor, end, who, now);
    OwnIdsSplit(after, who, 0, cursor, end);
    OwnIdsSame(pel, after, who, 0, cursor);
    OwnInterval(after, who, cursor, end);
  }

  /** Entries owned by anyone else are the same in both. */
  ghost predicate SameForOthers(pel: Pel, qel: Pel, who: Name) {
    forall id :: (id in pel && pel[id].owner != who) || (id in qel && qel[id].owner != who) ==>
                   id in pel && id in qel && pel[id] == qel[id]
  }

  /** One entry leaves the head of the queue for the acknowledged ones, or nothing happens. */
  lemma QueueStep(pel: Pel, done: seq<Id>, qel: Pel, qone: seq<Id>, who: Name, end: Id, id: Id)
    requires OwnIds(pel, who, 0, end) != [] && OwnIds(pel, who, 0, end)[0] == id
    requires (qel == pel && qone == done) || (qel == Ack(pel, id) && qone == done + [id])
    ensures qone + OwnIds(qel, who, 0, end) == done + OwnIds(pel, who, 0, end)
    ensures qel == Ack(pel, id) ==> OwnIds(qel, who, 0, end) == OwnIds(pel, who, 0, end)[1..]
    ensures SameForOthers(pel, qel, who)
  {
    var ids := OwnIds(pel, who, 0, end);
    assert id in ids;
    OwnIdsAck(pel, who, 0, end);
    assert ids == [id] + ids[1..];
    assert (done + [id]) + ids[1..] == done + ([id] + ids[1..]);
  }

  lemma {:induction false} ClaimedAll(pel: Pel, ids: seq<Id>, now: Time)
    requires forall i :: 0 <= i < |ids| ==> Claimable(pel, ids[i], 0, now)
    ensures Claimed(pel, ids, 0, now) == ids
  {
    if ids != [] {
      ClaimedAll(pel, ids[1..], now);
      assert ids == [ids[0]] + ids[1..];
    }
  }

  /** Claiming the head of one's own queue answers all of it, and moves no entry between consumers. */
  lemma ClaimOwnHead(pel: Pel, ids: seq<Id>, who: Name, end: Id, now: Time)
    requires ids <= OwnIds(pel, who, 0, end)
    requires forall id :: id in pel ==> pel[id].since <= now
    ensures Claimed(pel, ids, 0, now) == ids
    ensures OwnIds(Claim(pel, ids, who, 0, now), who, 0, end) == OwnIds(pel, who, 0, end)
    ensures SameForOthers(pel, Claim(pel, ids, who, 0, now), who)
  {
    var own := OwnIds(pel, who, 0, end);
    assert forall id :: id in ids ==> id in own;
    assert forall i :: 0 <= i < |ids| ==> ids[i] in ids;
    ClaimedAll(pel, ids, now);
    OwnIdsSame(pel, Claim(pel, ids, who, 0, now), who, 0, end);
  }

  /** An entry peerReclaim is after: someone else's, idle for long enough. */
  predicate Stealable(pel: Pel, id: Id, who: Name, minIdle: Time, now: Time) {
    Claimable(pel, id, minIdle, now) && pel[id].owner != who
  }

  /** The pending list after every stealable entry below `bound` has been taken over. */
  function TakeOverBelow(pel: Pel, who: Name, minIdle: Time, now: Time, bound: Id): Pel {
    map id | id in pel :: if id < bound && Stealable(pel, id, who, minIdle, now) then Pending(who, now) else pel[id]
  }

  /** The next cursor of the pagination: just past a full page, or the end. */
  function NextCursor(page: seq<Id>, count: nat, from: Id, end: Id): Id {
    if page == [] || |page| < count then (if from < end then end else from) else page[|page| - 1] + 1
  }

  /** A page, less the caller's own entries, holds exactly what is stealable between the two cursors. */
  lemma PageIsExact(at: Pel, who: Name, minIdle: Time, now: Time, from: Id, end: Id, count: nat, id: Id)
    requires count > 0 && id in at
    ensures var page := List(at, from, end, count, Query(None, minIdle, now));
            var next := NextCursor(page, count, from, end);
            id in Foreign(at, page, who) <==> from <= id < next && id < end && Stealable(at, id, who, minIdle, now)
  {
    var q := Query(None, minIdle, now);
    var page := List(at, from, end, count, q);
    assert Wanted(at, id, q) <==> Claimable(at, id, minIdle, now);
    if id in page {
      var i :| 0 <= i < |page| && page[i] == id;
      assert i < |page| - 1 ==> page[i] < page[|page| - 1];
    }
  }

  lemma ClaimExtends(pel: Pel, ids: seq<Id>, who: Name, minIdle: Time, now: Time, from: Id, next: Id)
    requires from <= next
    requires var at := TakeOverBelow(pel, who, minIdle, now, from);
             forall id :: id in at ==> (id in ids <==> from <= id < next && Stealable(at, id, who, minIdle, now))
    ensures Claim(TakeOverBelow(pel, who, minIdle, now, from), ids, who, minIdle, now) ==
            TakeOverBelow(pel, who, minIdle, now, next)
  {
  }

  /** Claiming one page takes over everything stealable that the pagination has got past. */
  lemma PageTakesOver(pel: Pel, who: Name, minIdle: Time, now: Time, from: Id, end: Id, count: nat)
    requires count > 0 && forall id :: id in pel ==> id < end
    ensures var at := TakeOverBelow(pel, who, minIdle, now, from);
            var page := List(at, from, end, count, Query(None, minIdle, now));
            Claim(at, Foreign(at, page, who), who, minIdle, now) ==
              TakeOverBelow(pel, who, minIdle, now, NextCursor(page, count, from, end))
  {
    var at := TakeOverBelow(pel, who, minIdle, now, from);
    var page := List(at, from, end, count, Query(None, minIdle, now));
    forall id | id in at
      ensures id in Foreign(at, page, who) <==>
              from <= id < NextCursor(page, count, from, end) && Stealable(at, id, who, minIdle, now)
    {
      PageIsExact(at, who, minIdle, now, from, end, count, id);
    }
    ClaimExtends(pel, Foreign(at, page, who), who, minIdle, now, from, NextCursor(page, count, from, end));
  }

  lemma CursorAdvances(page: seq<Id>, count: nat, from: Id, end: Id)
    requires count > 0 && from <= end && forall i :: 0 <= i < |page| ==> from <= page[i] < end
    ensures var next := NextCursor(page, count, from, end);
            from <= next <= end && if |page| >= count then from < next else next == end
  {
  }

  lemma ClaimNothing(pel: Pel, who: Name, minIdle: Time, now: Time)
    ensures Claim(pel, [], who, minIdle, now) == pel
  {
  }

  lemma TakeOverNothing(pel: Pel, who: Name, minIdle: Time, now: Time)
    ensures TakeOverBelow(pel, who, minIdle, now, 0) == pel
  {
  }

  /** A complete takeover leaves nothing to steal, changes no entry of the caller, and drops none. */
  lemma NothingLeftToSteal(pel: Pel, who: Name, minIdle: Time, now: Time, end: Id)
    requires forall id :: id in pel ==> id < end
    ensures var qel := TakeOverBelow(pel, who, minIdle, now, end);
            && qel.Keys == pel.Keys
            && (forall id :: id in qel ==> !Stealable(qel, id, who, minIdle, now))
            && (forall id :: id in pel && pel[id].owner == who ==> qel[id] == pel[id])
            && (forall id :: id in pel && qel[id] != pel[id] ==>
               now - pel[id].since >= minIdle && qel[id] == Pending(who, now))
  {
  }

  /** Deleting a consumer that owns nothing costs no entry. */
  lemma DelIdleConsumer(pel: Pel, victim: Name)
    requires Owned(pel, victim) == {}
    ensures DelConsumer(pel, victim) == pel
  {
    assert forall id :: id in pel && pel[id].owner == victim ==> id in Owned(pel, victim);
  }

  lemma DeliverForOthers(pel: Pel, who: Name, cursor: Id, end: Id, now: Time)
    requires forall id :: id in pel ==> id < cursor
    ensures SameForOthers(pel, Deliver(pel, cursor, end, who, now), who)
  {
  }

  /** XREADGROUP on an empty queue: the new entries become the queue, in stream order, ahead of those not yet read. */
  lemma NewQueue(pel: Pel, done: seq<Id>, who: Name, cursor: Id, end: Id, len: Id, now: Time)
    requires cursor <= end <= len && OwnIds(pel, who, 0, cursor) == [] && forall id :: id in pel ==> id < cursor
    ensures var queue := OwnIds(Deliver(pel, cursor, end, who, now), who, 0, end);
            queue == Range(cursor, end) && done + queue + Range(end, len) == done + [] + Range(cursor, len)
  {
    OwnIdsDeliver(pel, who, cursor, end, now);
    RangeSplit(cursor, end, len);
    assert [] + Range(cursor, end) == Range(cursor, end);
    assert done + (Range(cursor, end) + Range(end, len)) == done + Range(cursor, end) + Range(end, len);
    assert done + [] == done;
  }

  lemma RangeSplit(from: Id, mid: Id, end: Id)
    requires from <= mid <= end
    ensures Range(from, end) == Range(from, mid) + Range(mid, end)
  {
  }
}
