/** The run loop's timer list, as values.
    The list is singly linked and threaded through the timers in port/nrf5-zephyr/main.c.
    Here it is a sequence of timers, and a timer's identity (its address in C) is `id`.
    Insert and Remove are the specifications of the scans done by add_timer and
    remove_timer; the lemmas state what those scans guarantee. */
module TimerList {

  /** uint32_t: deadlines and the clock are raw 32-bit millisecond counts. */
  newtype uint32 = x: int | 0 <= x < 0x1_0000_0000

  type TimerId = nat
  type CallbackId = nat

  /** btstack_timer_source_t: its deadline and its `process` callback. */
  datatype Timer = Timer(id: TimerId, timeout: uint32, process: CallbackId)

  /** The list is in non-decreasing order of deadline. */
  ghost predicate Sorted(list: seq<Timer>) {
    forall i, j :: 0 <= i < j < |list| ==> list[i].timeout <= list[j].timeout
  }

  /** No timer is in the list twice. */
  ghost predicate Distinct(list: seq<Timer>) {
    forall i, j :: 0 <= i < j < |list| ==> list[i].id != list[j].id
  }

  /** The timer with identity `id` is in the list. */
  predicate Has(list: seq<Timer>, id: TimerId) {
    list != [] && (list[0].id == id || Has(list[1..], id))
  }

  /** Any queued copy of `ts` still carries the deadline it was queued with. */
  ghost predicate NotStale(list: seq<Timer>, ts: Timer) {
    forall i :: 0 <= i < |list| && list[i].id == ts.id ==> list[i].timeout == ts.timeout
  }

  /** What add_timer does to the list: scan from the head, give up on meeting `ts`
      itself, and link `ts` in before the first entry with a strictly later deadline. */
  function Insert(list: seq<Timer>, ts: Timer): seq<Timer>
  {
    if list == [] then [ts]
    else if list[0].id == ts.id then list
    else if ts.timeout < list[0].timeout then [ts] + list
    else [list[0]] + Insert(list[1..], ts)
  }

  /** Where a timer with this deadline is linked in: after the longest prefix of
      entries whose deadlines are not later than it. */
  function Position(list: seq<Timer>, deadline: uint32): (k: nat)
    ensures k <= |list|
    ensures forall i :: 0 <= i < k ==> list[i].timeout <= deadline
    ensures k < |list| ==> deadline < list[k].timeout
  {
    if list == [] || deadline < list[0].timeout then 0
    else 1 + Position(list[1..], deadline)
  }

  /** What btstack_linked_list_remove does to the list: unlink the first entry
      with identity `id`, if there is one. */
  function Remove(list: seq<Timer>, id: TimerId): (r: seq<Timer>)
    ensures multiset(r) <= multiset(list)
    ensures Has(list, id) ==> |r| + 1 == |list|
    ensures !Has(list, id) ==> r == list
  {
    if list == [] then []
    else
      assert list == [list[0]] + list[1..];
      if list[0].id == id then list[1..] else [list[0]] + Remove(list[1..], id)
  }

  /** The index of the first entry with identity `id`. */
  function IndexOf(list: seq<Timer>, id: TimerId): (k: nat)
    requires Has(list, id)
    ensures k < |list| && list[k].id == id
    ensures forall i :: 0 <= i < k ==> list[i].id != id
  {
    if list[0].id == id then 0 else 1 + IndexOf(list[1..], id)
  }

  /** Has, by index. */
  lemma {:induction false} HasAt(list: seq<Timer>, id: TimerId)
    ensures Has(list, id) <==> exists i :: 0 <= i < |list| && list[i].id == id
  {
    if list != [] {
      HasAt(list[1..], id);
      if exists i :: 0 <= i < |list| && list[i].id == id {
        var i :| 0 <= i < |list| && list[i].id == id;
        if i > 0 { assert list[1..][i - 1].id == id; }
      }
      if Has(list[1..], id) {
        var i :| 0 <= i < |list[1..]| && list[1..][i].id == id;
        assert list[i + 1].id == id;
      }
    }
  }

  lemma NotHasAt(list: seq<Timer>, id: TimerId)
    requires forall i :: 0 <= i < |list| ==> list[i].id != id
    ensures !Has(list, id)
  {
    HasAt(list, id);
  }

  /** Splicing `x` in at index `k`: where every entry ends up. */
  lemma SpliceAt(list: seq<Timer>, k: nat, x: Timer)
    requires k <= |list|
    ensures |list[..k] + [x] + list[k..]| == |list| + 1
    ensures (list[..k] + [x] + list[k..])[k] == x
    ensures forall i :: 0 <= i < k ==> (list[..k] + [x] + list[k..])[i] == list[i]
    ensures forall i :: k < i <= |list| ==> (list[..k] + [x] + list[k..])[i] == list[i - 1]
  {
  }

  /** The timers queued after a splice are the old ones and `x`. */
  lemma SpliceHas(list: seq<Timer>, k: nat, x: Timer, id: TimerId)
    requires k <= |list|
    ensures Has(list[..k] + [x] + list[k..], id) <==> x.id == id || Has(list, id)
  {
    var r := list[..k] + [x] + list[k..];
    SpliceAt(list, k, x);
    HasAt(r, id);
    HasAt(list, id);
    if Has(list, id) {
      var i :| 0 <= i < |list| && list[i].id == id;
      if i < k { assert r[i].id == id; } else { assert r[i + 1].id == id; }
    }
    if Has(r, id) && x.id != id {
      var i :| 0 <= i < |r| && r[i].id == id;
      if i < k { assert list[i].id == id; } else { assert list[i - 1].id == id; }
    }
  }

  /** Splicing in a timer that is not queued keeps every timer queued once. */
  lemma SpliceKeepsDistinct(list: seq<Timer>, k: nat, x: Timer)
    requires k <= |list| && Distinct(list) && !Has(list, x.id)
    ensures Distinct(list[..k] + [x] + list[k..])
  {
    var r := list[..k] + [x] + list[k..];
    SpliceAt(list, k, x);
    HasAt(list, x.id);
    forall i, j | 0 <= i < j < |r| ensures r[i].id != r[j].id {
      if j < k { assert r[i] == list[i] && r[j] == list[j]; }
      else if j == k { assert r[i] == list[i]; }
      else if i < k { assert r[i] == list[i] && r[j] == list[j - 1]; }
      else if i == k { assert r[j] == list[j - 1]; }
      else { assert r[i] == list[i - 1] && r[j] == list[j - 1]; }
    }
  }

  /** add_timer either leaves the list alone or adds `ts` to it, nothing else. */
  lemma {:induction false} InsertAddsAtMostTs(list: seq<Timer>, ts: Timer)
    ensures multiset(Insert(list, ts)) == multiset(list)
         || multiset(Insert(list, ts)) == multiset(list) + multiset{ts}
  {
    if list != [] && list[0].id != ts.id && !(ts.timeout < list[0].timeout) {
      InsertAddsAtMostTs(list[1..], ts);
      assert list == [list[0]] + list[1..];
    }
  }

  lemma MemberOfInsert(x: Timer, list: seq<Timer>, ts: Timer)
    requires x in Insert(list, ts)
    ensures x in list || x == ts
  {
    InsertAddsAtMostTs(list, ts);
    assert x in multiset(Insert(list, ts));
  }

  /** add_timer keeps the list sorted ("keep list sorted"). */
  lemma {:induction false} InsertKeepsSorted(list: seq<Timer>, ts: Timer)
    requires Sorted(list)
    ensures Sorted(Insert(list, ts))
  {
    if list == [] || list[0].id == ts.id || ts.timeout < list[0].timeout {
    } else {
      var rest := Insert(list[1..], ts);
      InsertKeepsSorted(list[1..], ts);
      forall j | 0 <= j < |rest| ensures list[0].timeout <= rest[j].timeout {
        MemberOfInsert(rest[j], list[1..], ts);
      }
    }
  }

  /** Adding a timer that is already queued, with the deadline it was queued
      with, leaves the list as it was. */
  lemma {:induction false} InsertExistingIsNoOp(list: seq<Timer>, ts: Timer)
    requires Sorted(list)
    requires Has(list, ts.id) && NotStale(list, ts)
    ensures Insert(list, ts) == list
  {
    var k := IndexOf(list, ts.id);
    if list[0].id != ts.id {
      assert list[0].timeout <= list[k].timeout;
      assert list[1..][k - 1].id == ts.id;
      InsertExistingIsNoOp(list[1..], ts);
      assert list == [list[0]] + list[1..];
    }
  }

  /** Adding a timer that is not queued splices it in exactly once, at
      Position: the other timers keep their order and the list grows by one. */
  lemma {:induction false} InsertFreshSplices(list: seq<Timer>, ts: Timer)
    requires !Has(list, ts.id)
    ensures Insert(list, ts) == list[..Position(list, ts.timeout)] + [ts] + list[Position(list, ts.timeout)..]
  {
    if list == [] || ts.timeout < list[0].timeout {
      assert Position(list, ts.timeout) == 0;
      assert list[..0] == [] && list[0..] == list;
    } else {
      var tail := list[1..];
      InsertFreshSplices(tail, ts);
      var k := Position(tail, ts.timeout);
      assert Position(list, ts.timeout) == k + 1;
      var before, after := tail[..k], tail[k..];
      assert list[..k + 1] == [list[0]] + before;
      assert list[k + 1..] == after;
      calc {
        Insert(list, ts);
        [list[0]] + (before + [ts] + after);
        ([list[0]] + before) + [ts] + after;
        list[..k + 1] + [ts] + list[k + 1..];
      }
    }
  }

  /** One step of add_timer's scan: an entry that is neither `ts` itself nor
      later than it is passed over. */
  lemma InsertScanStep(list: seq<Timer>, i: nat, ts: Timer)
    requires i < |list| && list[i].id != ts.id && !(ts.timeout < list[i].timeout)
    ensures list[..i] + Insert(list[i..], ts) == list[..i + 1] + Insert(list[i + 1..], ts)
  {
    var rest := Insert(list[i + 1..], ts);
    assert list[i..][1..] == list[i + 1..];
    assert Insert(list[i..], ts) == [list[i]] + rest;
    assert list[..i + 1] == list[..i] + [list[i]];
  }

  /** After add_timer's scan has passed `i` entries, none of them `ts` itself
      and none later than it, what is left to do is Insert on the rest. */
  lemma {:induction false} InsertAfterScan(list: seq<Timer>, i: nat, ts: Timer)
    requires i <= |list|
    requires forall k :: 0 <= k < i ==> list[k].id != ts.id && list[k].timeout <= ts.timeout
    ensures Insert(list, ts) == list[..i] + Insert(list[i..], ts)
  {
    if i == 0 {
      assert list[..0] + Insert(list[0..], ts) == Insert(list, ts);
    } else {
      InsertAfterScan(list, i - 1, ts);
      InsertScanStep(list, i - 1, ts);
    }
  }

  /** Where add_timer's scan stops decides the outcome: on `ts` itself the
      list stays as it was; anywhere else `ts` is spliced in there. Either way
      the list stays sorted, without duplicates, and holds `ts`. */
  lemma ScanOutcome(list: seq<Timer>, i: nat, ts: Timer)
    requires Sorted(list) && Distinct(list) && NotStale(list, ts)
    requires i <= |list|
    requires forall k :: 0 <= k < i ==> list[k].id != ts.id && list[k].timeout <= ts.timeout
    requires i < |list| ==> list[i].id == ts.id || ts.timeout < list[i].timeout
    ensures i < |list| && list[i].id == ts.id ==> Insert(list, ts) == list && Has(list, ts.id)
    ensures !(i < |list| && list[i].id == ts.id) ==>
              Insert(list, ts) == list[..i] + [ts] + list[i..] && !Has(list, ts.id)
    ensures Sorted(Insert(list, ts)) && Distinct(Insert(list, ts)) && Has(Insert(list, ts), ts.id)
  {
    InsertAfterScan(list, i, ts);
    if i < |list| {
      assert list[i..][0] == list[i];
    }
    if i < |list| && list[i].id == ts.id {
      assert list[..i] + list[i..] == list;
    }
    InsertGrowsIffFresh(list, ts);
    InsertKeepsSorted(list, ts);
    InsertKeepsDistinct(list, ts);
  }

  /** add_timer lengthens the list exactly when the timer was not queued. */
  lemma InsertGrowsIffFresh(list: seq<Timer>, ts: Timer)
    requires Sorted(list) && NotStale(list, ts)
    ensures |Insert(list, ts)| == |list| + 1 <==> !Has(list, ts.id)
    ensures Has(list, ts.id) ==> Insert(list, ts) == list
  {
    if Has(list, ts.id) {
      InsertExistingIsNoOp(list, ts);
    } else {
      InsertFreshSplices(list, ts);
    }
  }

  /** In a sorted list the timers before the insertion point are exactly the
      ones whose deadline is not later than the new one: equal deadlines stay
      ahead of the newcomer (strict `<` in the scan). */
  lemma PositionSplitsByDeadline(list: seq<Timer>, deadline: uint32)
    requires Sorted(list)
    ensures forall i :: 0 <= i < |list| ==> (i < Position(list, deadline) <==> list[i].timeout <= deadline)
  {
    var k := Position(list, deadline);
    forall i | 0 <= i < |list| && k <= i ensures deadline < list[i].timeout {
      assert list[k].timeout <= list[i].timeout;
    }
  }

  /** Two timers added with equal deadlines end up in the order they were added,
      so they fire first-in, first-out. */
  lemma EqualDeadlinesKeepInsertionOrder(list: seq<Timer>, a: Timer, b: Timer)
    requires Sorted(list)
    requires !Has(list, a.id) && !Has(list, b.id) && a.id != b.id
    requires a.timeout == b.timeout
    ensures exists i, j :: 0 <= i < j < |Insert(Insert(list, a), b)|
                           && Insert(Insert(list, a), b)[i] == a && Insert(Insert(list, a), b)[j] == b
  {
    var ka := Position(list, a.timeout);
    InsertFreshSplices(list, a);
    var once := Insert(list, a);
    SpliceAt(list, ka, a);
    SpliceHas(list, ka, a, b.id);
    InsertKeepsSorted(list, a);
    InsertFreshSplices(once, b);
    PositionSplitsByDeadline(once, b.timeout);
    var kb := Position(once, b.timeout);
    assert ka < kb by { assert once[ka].timeout <= b.timeout; }
    var twice := Insert(once, b);
    SpliceAt(once, kb, b);
    assert twice[ka] == a && twice[kb] == b;
  }

  /** Adding a timer, queued or not (a queued one with its queued deadline),
      keeps every timer in the list once, and leaves it queued. */
  lemma InsertKeepsDistinct(list: seq<Timer>, ts: Timer)
    requires Sorted(list) && Distinct(list) && NotStale(list, ts)
    ensures Distinct(Insert(list, ts)) && Has(Insert(list, ts), ts.id)
  {
    if Has(list, ts.id) {
      InsertExistingIsNoOp(list, ts);
    } else {
      InsertFreshSplices(list, ts);
      var k := Position(list, ts.timeout);
      SpliceKeepsDistinct(list, k, ts);
      SpliceHas(list, k, ts, ts.id);
    }
  }

  /** remove_timer unlinks exactly the first entry with that identity; the
      others keep their order. */
  lemma {:induction false} RemoveSplices(list: seq<Timer>, id: TimerId)
    requires Has(list, id)
    ensures Remove(list, id) == list[..IndexOf(list, id)] + list[IndexOf(list, id) + 1..]
  {
    if list[0].id != id {
      RemoveSplices(list[1..], id);
      var k := IndexOf(list[1..], id);
      assert list[..k + 1] == [list[0]] + list[1..][..k];
      assert list[k + 2..] == list[1..][k + 1..];
    }
  }

  /** remove_timer keeps the list sorted. */
  lemma {:induction false} RemoveKeepsSorted(list: seq<Timer>, id: TimerId)
    requires Sorted(list)
    ensures Sorted(Remove(list, id))
  {
    if list != [] && list[0].id != id {
      var rest := Remove(list[1..], id);
      RemoveKeepsSorted(list[1..], id);
      forall j | 0 <= j < |rest| ensures list[0].timeout <= rest[j].timeout {
        assert rest[j] in multiset(rest);
        assert rest[j] in list[1..];
      }
    }
  }

  /** Unlinking entry `k` from a list without duplicates leaves none, and
      leaves that timer unqueued. */
  lemma UnlinkKeepsDistinct(list: seq<Timer>, k: nat)
    requires Distinct(list) && k < |list|
    ensures Distinct(list[..k] + list[k + 1..]) && !Has(list[..k] + list[k + 1..], list[k].id)
  {
    var r := list[..k] + list[k + 1..];
    assert |r| + 1 == |list|;
    assert forall i :: 0 <= i < k ==> r[i] == list[i];
    assert forall i :: k <= i < |r| ==> r[i] == list[i + 1];
    forall i, j | 0 <= i < j < |r| ensures r[i].id != r[j].id {
      if j < k { assert r[i] == list[i] && r[j] == list[j]; }
      else if i < k { assert r[i] == list[i] && r[j] == list[j + 1]; }
      else { assert r[i] == list[i + 1] && r[j] == list[j + 1]; }
    }
    forall i | 0 <= i < |r| ensures r[i].id != list[k].id {
      if i < k { assert r[i] == list[i]; } else { assert r[i] == list[i + 1]; }
    }
    NotHasAt(r, list[k].id);
  }

  /** After remove_timer the timer is no longer queued, and no other timer is
      queued twice. */
  lemma RemoveKeepsDistinct(list: seq<Timer>, id: TimerId)
    requires Distinct(list)
    ensures Distinct(Remove(list, id)) && !Has(Remove(list, id), id)
  {
    if Has(list, id) {
      RemoveSplices(list, id);
      UnlinkKeepsDistinct(list, IndexOf(list, id));
    }
  }

  /** Removing a timer just added undoes the add. */
  lemma {:induction false} RemoveUndoesInsert(list: seq<Timer>, ts: Timer)
    requires !Has(list, ts.id)
    ensures Remove(Insert(list, ts), ts.id) == list
  {
    if list != [] && !(ts.timeout < list[0].timeout) {
      RemoveUndoesInsert(list[1..], ts);
      assert list == [list[0]] + list[1..];
    }
  }

  /** The head of a sorted list has the earliest deadline. */
  lemma HeadIsEarliest(list: seq<Timer>)
    requires Sorted(list) && list != []
    ensures forall i :: 0 <= i < |list| ==> list[0].timeout <= list[i].timeout
  {
  }

  /** A timer taken off the head of the list can be added again at once,
      whatever deadline its callback gives it first (`t` is the fired timer,
      possibly with a new deadline): it is no longer queued, so the add is not
      refused as a duplicate and the list grows back to its old length. */
  lemma ReAddAfterFire(list: seq<Timer>, t: Timer)
    requires Sorted(list) && Distinct(list) && list != [] && t.id == list[0].id
    ensures Remove(list, list[0].id) == list[1..]
    ensures !Has(list[1..], t.id)
    ensures |Insert(list[1..], t)| == |list|
    ensures Sorted(Insert(list[1..], t)) && Distinct(Insert(list[1..], t))
  {
    var tail := list[1..];
    forall i | 0 <= i < |tail| ensures tail[i].id != t.id {
      assert tail[i] == list[i + 1];
    }
    NotHasAt(tail, t.id);
    InsertFreshSplices(tail, t);
    InsertKeepsSorted(tail, t);
    InsertKeepsDistinct(tail, t);
  }
}
