/**
 * The `devicecommand` collection as a set of per-device FIFO queues: a push
 * appends a stamped command, a poll finds the device's command with the earliest
 * `created_at` and deletes it.
 */
module CommandQueue {
  import opened Wrappers
  import opened Documents
  import opened Schemas

  /**
   * A stored command: `cmd.model_dump(exclude_none=True)` keeps only the fields
   * that were given (a None field is absent, not null), plus the enqueue time.
   */
  datatype QueuedCommand = QueuedCommand(command: DeviceCommand, createdAt: Time)

  type CommandDoc = Doc<QueuedCommand>

  function DeviceOf(c: CommandDoc): string {
    c.body.command.deviceId
  }

  /** The commands pending for device `d`, in collection order. */
  function Pending(docs: seq<CommandDoc>, d: string): (q: seq<CommandDoc>)
    ensures |q| <= |docs|
    ensures forall k :: 0 <= k < |q| ==> q[k] in docs && DeviceOf(q[k]) == d
  {
    if docs == [] then []
    else
      var last := docs[|docs| - 1];
      assert docs == docs[..|docs| - 1] + [last];
      Pending(docs[..|docs| - 1], d) + (if DeviceOf(last) == d then [last] else [])
  }

  /** The queue of a device is empty exactly when no stored command targets it. */
  lemma {:induction false} PendingEmpty(docs: seq<CommandDoc>, d: string)
    ensures Pending(docs, d) == [] <==> forall k :: 0 <= k < |docs| ==> DeviceOf(docs[k]) != d
  {
    if docs != [] {
      var front := docs[..|docs| - 1];
      PendingEmpty(front, d);
      assert forall k :: 0 <= k < |front| ==> front[k] == docs[k];
    }
  }

  /** Appending one command extends its own device's queue and no other. */
  lemma PendingAppend(docs: seq<CommandDoc>, x: CommandDoc, d: string)
    ensures Pending(docs + [x], d) == Pending(docs, d) + (if DeviceOf(x) == d then [x] else [])
  {
    assert (docs + [x])[..|docs|] == docs;
  }

  /** A queue over two stretches of the collection is the first stretch's queue followed by the second's. */
  lemma {:induction false} PendingConcat(a: seq<CommandDoc>, b: seq<CommandDoc>, d: string)
    ensures Pending(a + b, d) == Pending(a, d) + Pending(b, d)
  {
    if b == [] {
      assert a + b == a;
    } else {
      var front := b[..|b| - 1];
      var last := b[|b| - 1];
      assert a + b == (a + front) + [last];
      assert b == front + [last];
      PendingConcat(a, front, d);
      PendingAppend(a + front, last, d);
      PendingAppend(front, last, d);
    }
  }

  /**
   * `find_one({"device_id": d}, sort=[("created_at", 1)])`: the position of the
   * command for `d` with the earliest `created_at`; among equal stamps, the
   * earliest in collection order.
   */
  function Oldest(docs: seq<CommandDoc>, d: string): (r: Option<nat>)
    ensures r.None? <==> forall k :: 0 <= k < |docs| ==> DeviceOf(docs[k]) != d
    ensures r.Some? ==> r.value < |docs| && DeviceOf(docs[r.value]) == d
    ensures r.Some? ==> forall k :: 0 <= k < |docs| && DeviceOf(docs[k]) == d ==>
      docs[r.value].body.createdAt <= docs[k].body.createdAt
  {
    if docs == [] then None
    else
      var n := |docs| - 1;
      var best := Oldest(docs[..n], d);
      assert forall k :: 0 <= k < n ==> docs[..n][k] == docs[k];
      if DeviceOf(docs[n]) != d then best
      else if best.Some? && docs[best.value].body.createdAt <= docs[n].body.createdAt then best
      else Some(n)
  }

  /** Commands stored in the order of their `created_at` stamps, no two alike. */
  predicate Chronological(docs: seq<CommandDoc>) {
    forall i, j :: 0 <= i < j < |docs| ==> docs[i].body.createdAt < docs[j].body.createdAt
  }

  /** Every stamp in the collection is earlier than `now`. */
  predicate StampedBefore(docs: seq<CommandDoc>, now: Time) {
    forall k :: 0 <= k < |docs| ==> docs[k].body.createdAt < now
  }

  /** The queue over a collection split around one command, and over the same collection without it. */
  lemma PendingAround(before: seq<CommandDoc>, x: CommandDoc, after: seq<CommandDoc>, e: string)
    ensures Pending(before + [x] + after, e) == Pending(before, e) + (if DeviceOf(x) == e then [x] else []) + Pending(after, e)
    ensures Pending(before + after, e) == Pending(before, e) + Pending(after, e)
  {
    PendingConcat(before + [x], after, e);
    PendingAppend(before, x, e);
    PendingConcat(before, after, e);
  }

  /**
   * With stamps in collection order, the command a poll finds for `d` is the head
   * of `d`'s queue; removing it pops exactly that head and leaves the queue of
   * every other device as it was.
   */
  lemma OldestIsHead(docs: seq<CommandDoc>, d: string)
    requires Chronological(docs) && Oldest(docs, d).Some?
    ensures var i := Oldest(docs, d).value;
      && Pending(docs, d) != []
      && Pending(docs, d)[0] == docs[i]
      && Pending(docs[..i] + docs[i + 1..], d) == Pending(docs, d)[1..]
      && forall e :: e != d ==> Pending(docs[..i] + docs[i + 1..], e) == Pending(docs, e)
  {
    var i := Oldest(docs, d).value;
    var before, x, after := docs[..i], docs[i], docs[i + 1..];
    assert docs == before + [x] + after;
    assert forall k :: 0 <= k < |before| ==> DeviceOf(before[k]) != d by {
      forall k | 0 <= k < |before| ensures DeviceOf(before[k]) != d {
        assert before[k] == docs[k];
      }
    }
    PendingEmpty(before, d);
    PendingAround(before, x, after, d);
    forall e | e != d
      ensures Pending(before + after, e) == Pending(docs, e)
    {
      PendingAround(before, x, after, e);
    }
  }

  /** The collection's invariant at time `now` with `next` the next free id. */
  predicate QueueValid(docs: seq<CommandDoc>, now: Time, next: DocId) {
    && IdsIncreasing(docs) && IdsBelow(docs, next)
    && Chronological(docs) && StampedBefore(docs, now)
    && forall k :: 0 <= k < |docs| ==> ValidCommand(docs[k].body.command)
  }

  lemma QueueValidLater(docs: seq<CommandDoc>, now: Time, next: DocId, now': Time, next': DocId)
    requires QueueValid(docs, now, next) && now <= now' && next <= next'
    ensures QueueValid(docs, now', next')
  {
  }

  /** Removing a command keeps the invariant. */
  lemma RemoveKeepsValid(docs: seq<CommandDoc>, i: nat, now: Time, next: DocId)
    requires QueueValid(docs, now, next) && i < |docs|
    ensures QueueValid(docs[..i] + docs[i + 1..], now, next)
  {
    var r := docs[..i] + docs[i + 1..];
    RemoveKeepsIds(docs, i, next);
    forall k | 0 <= k < |r| ensures r[k] == docs[if k < i then k else k + 1] { }
  }

  /** A command stamped `now`, later than everything stored, goes to the back of its device's queue. */
  lemma PushKeepsChronological(docs: seq<CommandDoc>, x: CommandDoc, now: Time)
    requires Chronological(docs) && StampedBefore(docs, now) && x.body.createdAt == now
    ensures Chronological(docs + [x]) && StampedBefore(docs + [x], now + 1)
  {
  }

  /**
   * A push stamped `now` with the id `next` keeps the invariant, joins the back
   * of its own device's queue and leaves every other queue as it was.
   */
  lemma PushSpec(docs: seq<CommandDoc>, cmd: DeviceCommand, now: Time, next: DocId)
    requires QueueValid(docs, now, next) && ValidCommand(cmd)
    ensures var x := Doc(next, QueuedCommand(cmd, now));
      && QueueValid(docs + [x], now + 1, next + 1)
      && Pending(docs + [x], cmd.deviceId) == Pending(docs, cmd.deviceId) + [x]
      && forall e :: e != cmd.deviceId ==> Pending(docs + [x], e) == Pending(docs, e)
  {
    var x := Doc(next, QueuedCommand(cmd, now));
    PushKeepsChronological(docs, x, now);
    PendingAppend(docs, x, cmd.deviceId);
    forall e | e != cmd.deviceId ensures Pending(docs + [x], e) == Pending(docs, e) {
      PendingAppend(docs, x, e);
    }
  }

  /**
   * A poll for `d` that finds a command deletes exactly that command, the head of
   * `d`'s queue: the invariant holds afterwards, the other queues are as they
   * were, and the command's id is no longer in the collection.
   */
  lemma PollSpec(docs: seq<CommandDoc>, d: string, now: Time, next: DocId)
    requires QueueValid(docs, now, next) && Oldest(docs, d).Some?
    ensures var x := docs[Oldest(docs, d).value];
      var after := DeleteById(docs, x.id);
      && QueueValid(after, now, next)
      && Pending(docs, d) != [] && x == Pending(docs, d)[0]
      && Pending(after, d) == Pending(docs, d)[1..]
      && (forall e :: e != d ==> Pending(after, e) == Pending(docs, e))
      && multiset(after) == multiset(docs) - multiset{x}
      && forall c :: c in after ==> c.id != x.id
  {
    var i := Oldest(docs, d).value;
    DeleteByIdAt(docs, i);
    OldestIsHead(docs, d);
    RemoveKeepsValid(docs, i, now, next);
    RemoveKeepsIds(docs, i, next);
    RemoveOne(docs, i);
  }

  lemma RemoveOne(docs: seq<CommandDoc>, i: nat)
    requires i < |docs|
    ensures multiset(docs[..i] + docs[i + 1..]) == multiset(docs) - multiset{docs[i]}
  {
    assert docs == docs[..i] + [docs[i]] + docs[i + 1..];
  }
}
