/** The cooperative run loop of port/nrf5-zephyr/main.c ("btstack_run_loop_zephyr.c"):
    a sorted list of software timers and a loop that, on each pass, either fires
    the overdue head timer or waits for one inbound controller packet for at most
    the time left until the head's deadline.
    The clock (k_uptime_get_32) is the parameter `now`; deadlines and the clock
    are raw uint32 millisecond counts compared with plain `<`, as in the C code,
    with no handling of the counter wrapping around. */
module RunLoopZephyr {
  import opened TimerList
  import opened HciTransport

  /** Zephyr's K_FOREVER: a wait with no time limit. */
  const K_FOREVER: int := -1

  /** 2^32, the modulus of uint32_t arithmetic. */
  const TWO_TO_THE_32: int := 0x1_0000_0000

  /** Conversion of a uint32_t to int32_t (two's complement wrap, as GCC does it). */
  function ToInt32(x: uint32): (r: int)
    ensures -0x8000_0000 <= r < 0x8000_0000
    ensures (r - x as int) % TWO_TO_THE_32 == 0
  {
    if x < 0x8000_0000 then x as int else x as int - TWO_TO_THE_32
  }

  /** set_timer: the new deadline is `timeoutInMs + 1` milliseconds after `now`,
      counted modulo 2^32; nothing else about the timer changes. */
  function SetTimer(ts: Timer, now: uint32, timeoutInMs: uint32): (r: Timer)
    ensures r.id == ts.id && r.process == ts.process
    ensures (r.timeout as int - now as int) % TWO_TO_THE_32 == (timeoutInMs as int + 1) % TWO_TO_THE_32
  {
    ts.(timeout := ((now as int + 1 + timeoutInMs as int) % TWO_TO_THE_32) as uint32)
  }

  /** What the top of one pass of execute decides: fire the head timer, or
      wait for a packet for at most `ticks` milliseconds. */
  datatype Wake = Fire(timer: Timer) | Wait(ticks: int)

  /** Lines 240-251 of main.c: with no timers, wait forever; if the head timer's
      deadline is before `now`, fire it; otherwise wait the difference,
      narrowed to int32_t. */
  function Schedule(timers: seq<Timer>, now: uint32): Wake
  {
    if timers == [] then Wait(K_FOREVER)
    else if timers[0].timeout < now then Fire(timers[0])
    else Wait(ToInt32(timers[0].timeout - now))
  }

  /** A timer fires exactly when some queued timer is overdue, and the one that
      fires is the head, whose deadline is the earliest. */
  lemma FiresIffSomeTimerOverdue(timers: seq<Timer>, now: uint32)
    requires Sorted(timers)
    ensures Schedule(timers, now).Fire? <==> exists i :: 0 <= i < |timers| && timers[i].timeout < now
    ensures Schedule(timers, now).Fire? ==>
              && Schedule(timers, now).timer == timers[0]
              && forall i :: 0 <= i < |timers| ==> timers[0].timeout <= timers[i].timeout
  {
    if exists i :: 0 <= i < |timers| && timers[i].timeout < now {
      var i :| 0 <= i < |timers| && timers[i].timeout < now;
      assert timers[0].timeout <= timers[i].timeout;
    }
  }

  /** When nothing is overdue the loop waits for a packet until the earliest
      deadline, or with no limit when no timer is queued (as long as that
      deadline is less than 2^31 ms away). */
  lemma WaitsUntilEarliestDeadline(timers: seq<Timer>, now: uint32)
    requires Sorted(timers) && Schedule(timers, now).Wait?
    ensures timers == [] ==> Schedule(timers, now).ticks == K_FOREVER
    ensures timers != [] && timers[0].timeout as int < now as int + 0x8000_0000 ==>
              && 0 <= Schedule(timers, now).ticks
              && now as int + Schedule(timers, now).ticks == timers[0].timeout as int
              && forall i :: 0 <= i < |timers| ==> now as int + Schedule(timers, now).ticks <= timers[i].timeout as int
  {
    if timers != [] {
      forall i | 0 <= i < |timers| ensures timers[0].timeout <= timers[i].timeout {
        if i > 0 { assert timers[0].timeout <= timers[i].timeout; }
      }
    }
  }

  /** A head deadline 2^31 ms or more ahead does not fit the int32_t budget:
      the budget turns negative, and a deadline 2^32 - 1 ms ahead turns into
      K_FOREVER, so the loop then waits for a packet with no time limit. */
  lemma FarDeadlineNarrowsBudget(timers: seq<Timer>, now: uint32)
    requires timers != [] && now as int + 0x8000_0000 <= timers[0].timeout as int
    ensures Schedule(timers, now).Wait? && Schedule(timers, now).ticks < 0
    ensures timers[0].timeout as int - now as int == 0xFFFF_FFFF ==> Schedule(timers, now) == Wait(K_FOREVER)
  {
  }

  /** A deadline set without wrapping is `timeoutInMs + 1` ms ahead, so the
      timer is not due yet and the loop's budget is exactly that long. */
  lemma SetTimerAhead(ts: Timer, now: uint32, timeoutInMs: uint32)
    requires now as int + 1 + timeoutInMs as int < TWO_TO_THE_32
    ensures SetTimer(ts, now, timeoutInMs).timeout as int == now as int + 1 + timeoutInMs as int
    ensures timeoutInMs < 0x7FFF_FFFF ==>
              Schedule([SetTimer(ts, now, timeoutInMs)], now) == Wait(timeoutInMs as int + 1)
  {
  }

  /** The TODO of main.c line 188: when `now + 1 + timeoutInMs` passes 2^32
      (and `timeoutInMs` is below 2^32 - 1) the deadline wraps to a value
      strictly before `now`, and a lone timer is then fired on the very next
      pass instead of `timeoutInMs` ms later (WrappedTimerJumpsQueue covers
      a list of other timers). */
  lemma SetTimerWrapsIntoThePast(ts: Timer, now: uint32, timeoutInMs: uint32)
    requires TWO_TO_THE_32 <= now as int + 1 + timeoutInMs as int
    requires timeoutInMs as int < TWO_TO_THE_32 - 1
    ensures SetTimer(ts, now, timeoutInMs).timeout < now
    ensures Schedule([SetTimer(ts, now, timeoutInMs)], now) == Fire(SetTimer(ts, now, timeoutInMs))
  {
  }

  /** The same wrap with other timers queued: as long as none of them is
      overdue, the wrapped deadline lies before all of theirs, so add_timer
      links it at the head and the next pass fires it ahead of them. */
  lemma WrappedTimerJumpsQueue(list: seq<Timer>, ts: Timer, now: uint32, timeoutInMs: uint32)
    requires !Has(list, ts.id)
    requires forall i :: 0 <= i < |list| ==> now <= list[i].timeout
    requires TWO_TO_THE_32 <= now as int + 1 + timeoutInMs as int
    requires timeoutInMs as int < TWO_TO_THE_32 - 1
    ensures Insert(list, SetTimer(ts, now, timeoutInMs)) == [SetTimer(ts, now, timeoutInMs)] + list
    ensures Schedule(Insert(list, SetTimer(ts, now, timeoutInMs)), now) == Fire(SetTimer(ts, now, timeoutInMs))
  {
    var t := SetTimer(ts, now, timeoutInMs);
    SetTimerWrapsIntoThePast(ts, now, timeoutInMs);
    if list != [] {
      assert t.timeout < list[0].timeout;
    }
  }

  /** The converse: a queued timer whose deadline is at or before the wrapped
      one stays at the head, since add_timer's strict `<` passes over it, and
      the next pass fires that timer first. */
  lemma EarlierDeadlineFiresBeforeWrapped(list: seq<Timer>, ts: Timer, now: uint32, timeoutInMs: uint32)
    requires !Has(list, ts.id)
    requires list != [] && list[0].timeout <= SetTimer(ts, now, timeoutInMs).timeout
    requires TWO_TO_THE_32 <= now as int + 1 + timeoutInMs as int
    requires timeoutInMs as int < TWO_TO_THE_32 - 1
    ensures Insert(list, SetTimer(ts, now, timeoutInMs))[0] == list[0]
    ensures Schedule(Insert(list, SetTimer(ts, now, timeoutInMs)), now) == Fire(list[0])
  {
    SetTimerWrapsIntoThePast(ts, now, timeoutInMs);
  }

  /** The one wrapping delay that does not fire at once: `timeoutInMs` of
      2^32 - 1 wraps the deadline to exactly `now`, which the strict `<` does
      not treat as overdue, so the pass waits a budget of 0 ticks. */
  lemma SetTimerFullWrapWaitsZero(ts: Timer, now: uint32)
    ensures SetTimer(ts, now, 0xFFFF_FFFF).timeout == now
    ensures Schedule([SetTimer(ts, now, 0xFFFF_FFFF)], now) == Wait(0)
  {
  }

  /** What one pass of execute did: fired a timer (and went straight on to the
      next pass), or waited with the given budget and either timed out or got a
      packet, which it delivered. */
  datatype Action = Fired(timer: Timer) | TimedOut(ticks: int) | Delivered(ticks: int, buf: NetBuf)

  /** The run loop's global state: the timer list `timers` of main.c. */
  class RunLoop {
    var timers: seq<Timer>
    /** The timers whose add was refused with "timer to add already in list!". */
    ghost var duplicateAdds: seq<TimerId>

    /** The list is sorted by deadline and holds each timer at most once. */
    ghost predicate Valid()
      reads this
    {
      Sorted(timers) && Distinct(timers)
    }

    /** Static initialisation: the list is empty. */
    constructor ()
      ensures Valid() && timers == [] && duplicateAdds == []
    {
      timers := [];
      duplicateAdds := [];
    }

    /** btstack_run_loop_zephyr_btstack_run_loop_init: empties the list. */
    method Init()
      modifies this
      ensures Valid() && timers == [] && duplicateAdds == old(duplicateAdds)
    {
      timers := [];
    }

    /** add_timer: scan from the head; stop with an error if `ts` is already
        queued; otherwise link it in before the first timer with a strictly
        later deadline. The caller must not have changed the deadline of a
        queued timer (see NotStale). */
    method AddTimer(ts: Timer)
      requires Valid() && NotStale(timers, ts)
      modifies this
      ensures Valid()
      ensures timers == Insert(old(timers), ts)
      ensures Has(timers, ts.id)
      ensures duplicateAdds == old(duplicateAdds) + (if Has(old(timers), ts.id) then [ts.id] else [])
    {
      var i := 0;
      while i < |timers|
        invariant 0 <= i <= |timers|
        invariant forall k :: 0 <= k < i ==> timers[k].id != ts.id && timers[k].timeout <= ts.timeout
      {
        if timers[i].id == ts.id {
          // ts is already queued: record the refused add and leave the list alone
          ScanOutcome(timers, i, ts);
          duplicateAdds := duplicateAdds + [ts.id];
          return;
        }
        if ts.timeout < timers[i].timeout {
          break;
        }
        i := i + 1;
      }
      ScanOutcome(timers, i, ts);
      timers := timers[..i] + [ts] + timers[i..];
    }

    /** remove_timer: btstack_linked_list_remove unlinks the timer by identity
        and reports whether it was queued. */
    method RemoveTimer(ts: Timer) returns (found: bool)
      requires Valid()
      modifies this
      ensures Valid()
      ensures found == Has(old(timers), ts.id)
      ensures timers == Remove(old(timers), ts.id) && !Has(timers, ts.id)
      ensures duplicateAdds == old(duplicateAdds)
    {
      RemoveKeepsSorted(timers, ts.id);
      RemoveKeepsDistinct(timers, ts.id);
      found := Has(timers, ts.id);
      timers := Remove(timers, ts.id);
    }

    /** One pass of execute's `while (1)`. If the head timer is overdue it is
        unlinked and returned as Fired; its callback runs after Step returns,
        against the list Step leaves, so it may add the timer again, and the
        next pass starts without waiting. Otherwise the pass waits for a
        packet; `incoming` is what net_buf_get returns (None: the budget ran
        out), and a packet is delivered to the transport. A due timer wins over
        a waiting packet, which stays queued for a later pass. */
    method Step(now: uint32, incoming: Option<NetBuf>, transport: Transport) returns (a: Action)
      requires Valid() && transport.Valid()
      requires Schedule(timers, now) == Wait(K_FOREVER) ==> incoming.Some?
      requires Schedule(timers, now).Wait? && incoming.Some? && InboundPacketType(incoming.value.kind).Some?
               ==> transport.handler.Some?
      modifies this, transport
      ensures Valid() && transport.Valid()
      ensures duplicateAdds == old(duplicateAdds)
      ensures Schedule(old(timers), now).Fire? ==>
                && a == Fired(old(timers)[0])
                && timers == old(timers)[1..]
                && unchanged(transport)
      ensures Schedule(old(timers), now).Wait? && incoming.None? ==>
                && a == TimedOut(Schedule(old(timers), now).ticks)
                && timers == old(timers)
                && unchanged(transport)
      ensures Schedule(old(timers), now).Wait? && incoming.Some? ==>
                && a == Delivered(Schedule(old(timers), now).ticks, incoming.value)
                && timers == old(timers)
                && transport.handlerCalls == old(transport.handlerCalls)
                                             + HandlerCallsFor(old(transport.handler), incoming.value)
                && transport.released == old(transport.released) + [incoming.value]
                && transport.log == old(transport.log)
                                    + (if InboundPacketType(incoming.value.kind).None?
                                       then [UnknownType(incoming.value.kind)] else [])
                && transport.handler == old(transport.handler)
                && transport.sent == old(transport.sent)
                && transport.hardwareErrors == old(transport.hardwareErrors)
                && transport.inFlight == old(transport.inFlight)
                && transport.cmdFree == old(transport.cmdFree)
                && transport.aclFree == old(transport.aclFree)
    {
      if timers != [] {
        var ts := timers[0];
        if ts.timeout < now {
          // remove the timer before its callback runs, so the callback can add it again
          var _ := RemoveTimer(ts);
          return Fired(ts);
        }
      }
      var ticks := if timers == [] then K_FOREVER else ToInt32(timers[0].timeout - now);
      match incoming {
        case None =>
          a := TimedOut(ticks);
        case Some(buf) =>
          transport.DeliverControllerPacket(buf);
          a := Delivered(ticks, buf);
      }
    }
  }

  /** Three timers with deadlines 100, 100 and 150, added in that order, fire
      in that order once the clock is past 150, one per pass. */
  method EqualDeadlinesFireInOrder() returns (fired: seq<Action>)
    ensures fired == [Fired(Timer(1, 100, 7)), Fired(Timer(2, 100, 8)), Fired(Timer(3, 150, 9))]
  {
    var a, b, c := Timer(1, 100, 7), Timer(2, 100, 8), Timer(3, 150, 9);
    var loop := new RunLoop();
    var transport := new Transport(1, TX_BUF_COUNT);
    loop.AddTimer(a);
    assert loop.timers == [a];
    loop.AddTimer(b);
    assert loop.timers == [a] + Insert([], b) == [a, b];
    loop.AddTimer(c);
    assert [a, b][1..] == [b] && [b][1..] == [];
    assert loop.timers == [a] + ([b] + Insert([], c)) == [a, b, c];
    var first := loop.Step(151, None, transport);
    assert loop.timers == [b, c];
    var second := loop.Step(151, None, transport);
    assert loop.timers == [c];
    var third := loop.Step(151, None, transport);
    fired := [first, second, third];
  }
}
