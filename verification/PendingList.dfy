/**
 The Redis consumer-group commands the consumer uses, each as one atomic function on the
 pending-entries list (PEL). Entry ids are positions in the stream, so id order is stream order.
 */
module PendingList {
  import opened Wrappers

  type Id = nat
  type Name = string
  type Time = int

  datatype Pending = Pending(owner: Name, since: Time)
  type Pel = map<Id, Pending>

  function Span(from: Id, to: Id): (ids: set<Id>)
    ensures forall id :: id in ids <==> from <= id < to
    decreases if from < to then to - from else 0
  {
    if from < to then {from} + Span(from + 1, to) else {}
  }

  /** The ids from..end in stream order. */
  function Range(from: Id, to: Id): (ids: seq<Id>)
    ensures |ids| == if from < to then to - from else 0
    ensures forall i :: 0 <= i < |ids| ==> ids[i] == from + i
  {
    if from < to then seq(to - from, i requires 0 <= i => from + i) else []
  }

  /** XREADGROUP ">": the new entries from..to become pending for `who`. */
  function Deliver(pel: Pel, from: Id, to: Id, who: Name, now: Time): Pel {
    pel + map id | id in Span(from, to) :: Pending(who, now)
  }

  /** XCLAIM's own re-check, at the moment the command runs. */
  predicate Claimable(pel: Pel, id: Id, minIdle: Time, now: Time) {
    id in pel && now - pel[id].since >= minIdle
  }

  /** XCLAIM (also with JUSTID): takes the claimable ids over and resets their idle time; ignores ids not pending. */
  function Claim(pel: Pel, ids: seq<Id>, who: Name, minIdle: Time, now: Time): Pel {
    map id | id in pel :: if id in ids && Claimable(pel, id, minIdle, now) then Pending(who, now) else pel[id]
  }

  /** The ids XCLAIM answers with, in request order. */
  function Claimed(pel: Pel, ids: seq<Id>, minIdle: Time, now: Time): (r: seq<Id>)
    ensures forall id :: id in r <==> id in ids && Claimable(pel, id, minIdle, now)
    ensures |r| <= |ids|
  {
    if ids == [] then [] else
      (if Claimable(pel, ids[0], minIdle, now) then [ids[0]] else []) + Claimed(pel, ids[1..], minIdle, now)
  }

  /** XACK removes the entry whoever owns it. */
  function Ack(pel: Pel, id: Id): Pel {
    pel - {id}
  }

  /** XGROUP DELCONSUMER drops the victim's pending entries. */
  function DelConsumer(pel: Pel, victim: Name): Pel {
    map id | id in pel && pel[id].owner != victim :: pel[id]
  }

  function Owned(pel: Pel, who: Name): set<Id> {
    set id | id in pel && pel[id].owner == who
  }

  /** XPENDING's filters: a consumer name, and a minimum idle time at `now`. */
  datatype Query = Query(consumer: Option<Name>, minIdle: Time, now: Time)

  predicate Wanted(pel: Pel, id: Id, q: Query) {
    && id in pel
    && (q.consumer.Some? ==> pel[id].owner == q.consumer.value)
    && q.now - pel[id].since >= q.minIdle
  }

  /** XPENDING from to COUNT: the first `count` wanted ids in [from, to), in id order. */
  function List(pel: Pel, from: Id, to: Id, count: nat, q: Query): (ids: seq<Id>)
    ensures |ids| <= count
    ensures forall i :: 0 <= i < |ids| ==> from <= ids[i] < to && Wanted(pel, ids[i], q)
    ensures forall i, j :: 0 <= i < j < |ids| ==> ids[i] < ids[j]
    // Nothing wanted is skipped: a short page is complete, a full page is complete up to its last id.
    ensures forall id: Id :: from <= id < to && Wanted(pel, id, q) && id !in ids ==>
              |ids| == count && (forall i :: 0 <= i < |ids| ==> ids[i] < id)
    decreases if from < to then to - from else 0
  {
    if from >= to || count == 0 then []
    else if Wanted(pel, from, q) then [from] + List(pel, from + 1, to, count - 1, q)
    else List(pel, from + 1, to, count, q)
  }

  predicate Distinct(ids: seq<Id>) {
    forall i, j :: 0 <= i < j < |ids| ==> ids[i] != ids[j]
  }

  /** The ids of a page that someone else owns. */
  function Foreign(pel: Pel, ids: seq<Id>, c: Name): (r: seq<Id>)
    ensures forall id :: id in r <==> id in ids && id in pel && pel[id].owner != c
    ensures Distinct(ids) ==> Distinct(r)
  {
    if ids == [] then [] else
      var rest := Foreign(pel, ids[1..], c);
      if ids[0] in pel && pel[ids[0]].owner != c then [ids[0]] + rest else rest
  }

  /** One line of XINFO CONSUMERS. */
  datatype Info = Info(name: Name, idle: Time, pending: nat)

  /** The line of XINFO that gcConsumers acts on. */
  predicate Collectable(gcTimeout: Time, info: Info, self: Name) {
    info.name != self && info.idle >= gcTimeout && info.pending == 0
  }
}
