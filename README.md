# BTstack nRF5 / Zephyr port: run loop, timer list and HCI transport

This project models the core of BTstack's nRF5-on-Zephyr port
(`port/nrf5-zephyr/main.c`). There are three parts:

- **The run loop's timer registry** (`timer_list.dfy`, module `TimerList`).
  Timers wait in a singly linked list kept in ascending order of their
  32-bit millisecond deadline. `add_timer` walks the list and refuses a
  timer that is already linked. It stops at the first entry whose deadline
  is strictly later than the new one, so timers with equal deadlines are
  served first in, first out. `remove_timer` unlinks a timer if it is
  queued. The list is modelled as a `seq<Timer>`. A timer's identity (the
  address of its C struct) is its `id`. The specification functions
  `Insert`, `Remove` and `Position` are what the imperative methods are
  proved against, and the list invariants (sorted, no timer twice) are
  proved about them.
- **The run loop** (`run_loop.dfy`, module `RunLoopZephyr`, class `RunLoop`).
  The class holds the list. `AddTimer` keeps the C scan loop, with its
  invariants. `Step` is one pass of `btstack_run_loop_zephyr_execute`'s
  endless loop:
  - with no timer queued, it waits forever (`K_FOREVER`) for a controller
    packet;
  - if the head timer's deadline is strictly before `now`, it unlinks that
    timer and reports it fired;
  - otherwise it waits `ToInt32(head.timeout - now)` ticks, where the
    `uint32` difference is narrowed into an `int32`, and delivers a
    controller packet if one arrives.

  `SetTimer` computes the deadline `now + 1 + ms` with 32-bit wrap-around.
- **The HCI transport** (`hci_transport.dfy`, module `HciTransport`, class
  `Transport`).
  - `SendPacket` takes a buffer from the command pool or the ACL pool and
    hands it to the controller. When the pool is empty it logs an error. An
    unknown packet type is passed to `send_hardware_error(0x01)` (invalid
    HCI packet), whose body is empty.
  - `DeliverControllerPacket` passes inbound ACL data and events to the
    registered handler. It logs any other buffer type.
  - The two pools are counters. A ghost multiset of buffers in flight keeps
    the count conserved: free + in flight == capacity.

The deadline arithmetic is the code's own. Deadlines are compared with a
plain `<` on raw `uint32` values, and an overdue head timer always runs
before the receive queue is polled (main.c:244, 255). When `now + 1 + ms`
passes 2^32 and `ms` is below 2^32 - 1, the deadline wraps to a value
before `now`. A lone timer then fires on the next pass
(`SetTimerWrapsIntoThePast`). If other timers are queued and none of them
is overdue, the wrapped timer goes to the head and fires ahead of them
(`WrappedTimerJumpsQueue`). A queued timer fires before the wrapped one
only when its deadline is at or before the wrapped deadline
(`EarlierDeadlineFiresBeforeWrapped`). An overdue timer with a later
deadline is overtaken. For example, with a timer queued at deadline 100,
`now` = 0xFFFF_FFF0 and `ms` = 0x20, the new deadline wraps to 0x11 and the
new timer fires first. With `ms` equal to 2^32 - 1 the deadline wraps
to exactly `now`: it is not overdue, and the pass waits 0 ticks
(`SetTimerFullWrapWaitsZero`). A timer due more than 2^31 ms ahead narrows
to a negative wait (`FarDeadlineNarrowsBudget`).

## Model

| member | source | states |
|---|---|---|
| TimerList.Position | port/nrf5-zephyr/main.c:202-210 | where add_timer's scan stops: every entry before the point has a deadline at or before the new one, and the entry at the point (if any) is strictly later |
| TimerList.Remove | port/nrf5-zephyr/main.c:219-221 | removing a queued timer takes out exactly one entry and adds nothing; removing a timer that is not queued leaves the list as it was |
| TimerList.InsertAddsAtMostTs | port/nrf5-zephyr/main.c:200-214 | add_timer adds nothing but the timer itself: the result's multiset is the old one, possibly plus that one timer |
| TimerList.InsertKeepsSorted | port/nrf5-zephyr/main.c:200-214 | adding a timer to a list sorted by deadline leaves it sorted |
| TimerList.InsertExistingIsNoOp | port/nrf5-zephyr/main.c:202-207 | adding a timer that is already queued (with its queued deadline) leaves the list unchanged |
| TimerList.InsertFreshSplices | port/nrf5-zephyr/main.c:208-213 | a timer that is not queued is linked in once, at the scan's stopping point, and all other entries keep their order |
| TimerList.InsertGrowsIffFresh | port/nrf5-zephyr/main.c:202-213 | the list grows by one exactly when the timer was not queued, and otherwise stays identical |
| TimerList.InsertKeepsDistinct | port/nrf5-zephyr/main.c:202-213 | no timer is ever linked twice, and the added timer is queued afterwards |
| TimerList.InsertScanStep | port/nrf5-zephyr/main.c:202-211 | one scan step past an earlier-or-equal entry of another timer does not change where the timer ends up |
| TimerList.InsertAfterScan | port/nrf5-zephyr/main.c:202-213 | after the scan has passed i entries, adding the timer keeps those i entries and adds the timer to the rest |
| TimerList.ScanOutcome | port/nrf5-zephyr/main.c:202-213 | where the scan stops decides add_timer's outcome: at the timer itself the list stays unchanged; elsewhere the timer is spliced in at the stop, and the list is still sorted, with no duplicates, and holds the timer |
| TimerList.PositionSplitsByDeadline | port/nrf5-zephyr/main.c:208 | in a sorted list, an entry lies before the insertion point if and only if its deadline is at or before the new deadline (the strict `<` of the scan) |
| TimerList.EqualDeadlinesKeepInsertionOrder | port/nrf5-zephyr/main.c:208 | two new timers with the same deadline are queued in the order they were added |
| TimerList.RemoveSplices | port/nrf5-zephyr/main.c:219-221 | removing a queued timer drops the entry at its index and keeps the rest in order |
| TimerList.RemoveKeepsSorted | port/nrf5-zephyr/main.c:219-221 | removing a timer leaves a sorted list sorted |
| TimerList.RemoveKeepsDistinct | port/nrf5-zephyr/main.c:219-221 | removing a timer keeps every timer linked at most once, and that timer is no longer queued |
| TimerList.RemoveUndoesInsert | port/nrf5-zephyr/main.c:200-221 | removing a timer that was just added restores the list |
| TimerList.HeadIsEarliest | port/nrf5-zephyr/main.c:241-244 | in a sorted list, the head's deadline is the earliest, so looking only at the head is enough |
| TimerList.ReAddAfterFire | port/nrf5-zephyr/main.c:244-249 | unlinking the head leaves exactly the rest of the list, in which the fired timer is no longer queued. The callback can re-add that timer, with any deadline it sets: the list gets its old length back, stays sorted and has no timer twice |
| RunLoopZephyr.ToInt32 | port/nrf5-zephyr/main.c:251 | storing the uint32 difference into an int32 keeps it congruent modulo 2^32, within the int32 range |
| RunLoopZephyr.SetTimer | port/nrf5-zephyr/main.c:193-195 | set_timer changes only the deadline, which becomes now + 1 + ms modulo 2^32 |
| RunLoopZephyr.SetTimerAhead | port/nrf5-zephyr/main.c:193-195 | when now + 1 + ms does not overflow, the deadline is exactly now + 1 + ms, and for a lone timer the loop waits exactly ms + 1 ticks (when ms + 1 fits an int32) |
| RunLoopZephyr.SetTimerWrapsIntoThePast | port/nrf5-zephyr/main.c:188-195 | when now + 1 + ms overflows and ms is below 2^32 - 1, the stored deadline lies strictly before now, and for a lone timer the next pass of the run loop fires it at once |
| RunLoopZephyr.WrappedTimerJumpsQueue | port/nrf5-zephyr/main.c:193-213 | with the same wrap and no queued timer overdue, add_timer links the wrapped timer at the head of the list, and the next pass fires it ahead of every other timer |
| RunLoopZephyr.EarlierDeadlineFiresBeforeWrapped | port/nrf5-zephyr/main.c:193-213 | with the same wrap, a queued head whose deadline is at or before the wrapped deadline stays at the head (the strict `<` of line 208), and the next pass fires it first |
| RunLoopZephyr.SetTimerFullWrapWaitsZero | port/nrf5-zephyr/main.c:193-195 | a delay of 2^32 - 1 ms wraps the deadline to exactly now, so the strict `<` of line 244 does not fire it and a lone timer's pass waits 0 ticks |
| RunLoopZephyr.FiresIffSomeTimerOverdue | port/nrf5-zephyr/main.c:240-250 | with a sorted list, a pass fires a timer exactly when some queued deadline is before now, and the one it fires is the head |
| RunLoopZephyr.WaitsUntilEarliestDeadline | port/nrf5-zephyr/main.c:240-255 | with no overdue timer, the pass waits forever on an empty list, or otherwise the narrowed distance to the earliest deadline |
| RunLoopZephyr.FarDeadlineNarrowsBudget | port/nrf5-zephyr/main.c:240-251 | a head deadline 2^31 ms or more ahead gives a negative wait, and 2^32-1 ms ahead gives exactly K_FOREVER |
| RunLoopZephyr.RunLoop.constructor | port/nrf5-zephyr/main.c:186 | the timer list starts empty |
| RunLoopZephyr.RunLoop.Init | port/nrf5-zephyr/main.c:262-264 | init empties the timer list |
| RunLoopZephyr.RunLoop.AddTimer | port/nrf5-zephyr/main.c:200-214 | the new list is Insert of the old one: the timer is queued afterwards, and an add of a timer that is already queued is logged and changes nothing; sorted order and no duplicates are preserved |
| RunLoopZephyr.RunLoop.RemoveTimer | port/nrf5-zephyr/main.c:219-221 | reports whether the timer was queued, and the new list is Remove of the old one, without that timer |
| RunLoopZephyr.RunLoop.Step | port/nrf5-zephyr/main.c:237-260 | one pass of execute: it unlinks and reports the head when it is overdue; otherwise it waits the scheduled ticks and delivers an arriving packet (handler calls, release, log), or times out; nothing else changes |
| RunLoopZephyr.EqualDeadlinesFireInOrder | port/nrf5-zephyr/main.c:200-260 | timers added with deadlines 100, 100 and 150 fire in the order 1, 2, 3 |
| HciTransport.InboundPacketType | port/nrf5-zephyr/main.c:167-177 | ACL-in buffers map to the ACL data packet type and event buffers to the event packet type; every other buffer type has no packet type |
| HciTransport.HandlerCallsFor | port/nrf5-zephyr/main.c:164-178 | the handler is called once, with the buffer's bytes and packet type, exactly when the buffer is ACL-in or an event, and is not called otherwise |
| HciTransport.UnknownInboundTypeUnrefdTwice | port/nrf5-zephyr/main.c:174-179 | as written, a buffer of unknown type is unreferenced twice and a known one once |
| HciTransport.Transport.constructor | port/nrf5-zephyr/main.c:52-78 | both pools start full, with nothing in flight and no handler registered |
| HciTransport.Transport.RegisterPacketHandler | port/nrf5-zephyr/main.c:106-108 | the handler is replaced and nothing else changes |
| HciTransport.Transport.SendPacket | port/nrf5-zephyr/main.c:117-146 | a command or ACL packet takes one buffer from its own pool and is sent with its bytes, or else logs that pool's error; any other type is passed to send_hardware_error(0x01), whose body is empty, and the call is recorded; the result is always 0, and the pool counts stay conserved |
| HciTransport.Transport.ControllerFreed | port/nrf5-zephyr/main.c:121-135 | a buffer the controller is finished with returns to the pool it came from |
| HciTransport.Transport.DeliverControllerPacket | port/nrf5-zephyr/main.c:164-180 | the handler receives ACL data and events; other types are logged; every delivered buffer is released exactly once |
| HciTransport.PoolExhaustion | port/nrf5-zephyr/main.c:117-129 | sending one command more than the command pool holds sends the first ones and logs "no command buffers" once, leaving the ACL pool untouched |

## Left out

- `port/macos+bt400/discovery.c` is an application on another port. It is not part of this model.
- `main()`, the assert handler, `btstack_run_loop_zephyr_dump_timer` (logging only) and the run loop's vtable are not modelled.
- `transport_init`, `transport_open` and `transport_close` are not modelled: they start the controller (`bt_enable_raw`) or return 0.
- The clock (`k_uptime_get_32`) is the parameter `now` of `Step` and `SetTimer`.
- The receive FIFO filled by Zephyr's controller thread is the parameter `incoming` of `Step`. The thread and its concurrency are not modelled.
- What Zephyr does with a negative wait other than `K_FOREVER` is not modelled. `Step` reports the ticks it would wait.
- A timer's callback is an identifier. `Step` reports the fired timer, and the callback runs afterwards in the caller. Its effects (for example, re-adding the timer) are later calls on `RunLoop`.
- The packet handler is an identifier too. In C it runs inside the pass (main.c:169 and 172, reached from line 257) and may add timers or send packets. `Step` records the call in a ghost log, and its effects are not modelled. That is why `Step`'s delivery case can promise the timer list is unchanged.
- The endless `while (1)` of execute is modelled as one `Step`. A run is a sequence of `Step` calls.
- Timers are values, not linked nodes. In C, `set_timer` on a queued timer changes the queued node in place. The model keeps a copy.
- RunLoopZephyr.RunLoop.AddTimer: requires that a queued timer is re-added with its queued deadline (`NotStale`). In C, re-adding a timer whose deadline changed after it was queued can link the same node twice and make the list cyclic.
- RunLoopZephyr.RunLoop.RemoveTimer: returns a `bool` for the `int` that `btstack_linked_list_remove` returns. That function's source is not part of this model.
- HciTransport.Transport.SendPacket: does not model buffer capacity (`CMD_BUF_SIZE`, `BT_BUF_ACL_SIZE`). An oversized `memcpy` into `net_buf_add` is not detected. The byte count is the payload's length.
- HciTransport.Transport.SendPacket: `send_hardware_error` has an empty body in the source. The model records each call in a ghost log and changes nothing else.
- HciTransport.Transport.DeliverControllerPacket: requires a registered handler for ACL-in and event buffers. In C, a missing handler is a call through a null pointer.
- Error logging is recorded as ghost entries. The message text is not modelled.
- The values of the HCI packet types (0x01, 0x02, 0x04) are BTstack's standard ones. The headers that define them are not part of this model.

## Findings

| source | as written | input that shows it | evidently intended | confidence | as-written member | corrected member |
|---|---|---|---|---|---|---|
| port/nrf5-zephyr/main.c:174-179 | for a buffer type other than ACL-in or event, the default branch unreferences the buffer, and then the unconditional unref after the switch drops it again | an inbound `net_buf` of type `BT_BUF_CMD` or `BT_BUF_ACL_OUT` | each delivered buffer is released exactly once | high; not executed | HciTransport.UnknownInboundTypeUnrefdTwice | HciTransport.Transport.DeliverControllerPacket |
