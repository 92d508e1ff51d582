# libusbbox macOS transport, modelled in Dafny

This project models the core of the ioLab USB box driver for macOS
(`usbbox_macosx.c`, with the types and constants of `usbbox.h`). The box is a
HID device that exchanges 8-byte messages with the host. The model covers:

- the message queue (`MessageQueues`): a growable block of 8-byte messages
  with a capacity and a length. It starts at 100 messages. It doubles when
  full, and drops the message when `realloc` fails. It pops the head and moves
  the rest down with `memmove`;
- the handle (`Driver.Box`): `is_open`, the device reference `dev` and the
  owned queue. It also covers `open_box`, `close_box`, `push_msg`, `pop_msg`
  and the IOKit report callback that pushes the first 8 bytes of the
  338-byte report buffer;
- `usb_box_open` (`Driver.Library.Open`, `Driver.FindBoxDevice`). It selects
  the first enumerated device that reads as vendor 0x19BC, product 0x0001,
  with a missing property read as 0. It releases the devices it passes over
  and sets the process-wide `_last_error` (a field of `Driver.Library`;
  `usb_box_last_error` is `Driver.Library.LastError`);
- `usb_box_close`, and `usb_box_write`, which returns 0 for every input;
- `usb_box_read` (`Driver.Read`): a poll of the queue, repeated until a pop
  succeeds or `time_diff_micro(begin, end)` reaches `timeout * 1000`. A
  timeout of 0 or less means exactly one poll. The clock is a trace of
  `gettimeofday` readings. The device's reports are an arrival trace: the
  report, if any, that the callback pushes while the reader sleeps;
- the text codec (`Codec`): `usb_box_sprintf_message` (`0x%X` fields,
  upper case, not zero-padded) and `usb_box_sscanf_message` (`0x%2X`
  fields). The round trip they promise is proved.

Where the code and its own comments disagree, the model follows the code:

- The comment at usbbox.h:62 speaks of 2-digit hex numbers. The printer's
  `%X` writes one digit for bytes below 0x10. The parser accepts one or two
  digits, so the round trip still holds.
- usbbox.h:42-47 says a nonzero result of `usb_box_write` means an error. The
  code ignores `setReport`'s outcome and always returns 0.
- The comment at usbbox_macosx.c:78 promises that the messages move down by
  one. The code moves `length` bytes, not `length` messages; see Findings.

Modules: `UsbBox` (usbbox.dfy), `MessageQueues` (queue.dfy), `Clock`
(clock.dfy), `Codec` (codec.dfy), `Driver` (driver.dfy).

## Model

| member | source | states |
|---|---|---|
| MessageQueues.MessageQueue.Allocate | usbbox_macosx.c:40-44 | a new queue has capacity 100, length 0 and no messages |
| MessageQueues.MessageQueue.Push | usbbox_macosx.c:50-69 | with room: the message is copied into slot `length`, length grows by one, capacity and every other byte are unchanged; full and realloc succeeds: capacity doubles, the old bytes are kept and the message appended; full and realloc fails: nothing changes; the queue invariant 100 <= capacity, 0 <= length <= capacity is kept; the abstract message list gains the message exactly when it was stored |
| MessageQueues.MessageQueue.PopAsWritten | usbbox_macosx.c:71-81 | queue_pop as written: on an empty queue returns 0 and changes nothing; otherwise returns 1 with bytes 0..7, length drops by one, new byte k is old byte 8+k for k below the new length only, and every other byte is unchanged |
| MessageQueues.MessageQueue.Pop | usbbox_macosx.c:71-81 | queue_pop with the move of length messages its comment intends: returns 1 exactly when the queue is non-empty, yields the head and leaves the rest of the messages in order (FIFO) |
| MessageQueues.MessageQueue.ShiftDown | usbbox_macosx.c:79 | memmove down by one message: new byte k is old byte k+8 below the count, others unchanged |
| MessageQueues.WriteSlot | usbbox_macosx.c:67 | the memcpy into slot n changes exactly bytes 8n..8n+7, to the message |
| MessageQueues.MemmoveDown | usbbox_macosx.c:79 | the memmove of count bytes from one message up changes exactly bytes 0..count-1, each to the byte 8 further on |
| MessageQueues.WriteSlotAppends | usbbox_macosx.c:66-68 | writing slot `length` appends the message to the queue's message list |
| MessageQueues.SlotsOfPrefix | usbbox_macosx.c:53-57 | growing the buffer by realloc keeps the stored messages |
| MessageQueues.ShiftDropsHead | usbbox_macosx.c:77-79 | moving length-1 messages' worth of bytes down removes exactly the head message |
| MessageQueues.AsWrittenSecondPop | usbbox_macosx.c:75-79 | with a then b queued, the as-written pop returns a, then b's first byte followed by a's bytes 1..7 |
| MessageQueues.PushPushPopPopAsWritten | usbbox_macosx.c:50-81 | push a, push b, pop, pop through the as-written queue: the second message returned equals b exactly when a and b agree on bytes 1..7 |
| MessageQueues.AsWrittenBreaksFifo | usbbox_macosx.c:78-79 | a concrete pair of messages for which the second pop is not the second message pushed |
| MessageQueues.PushPushPopPop | usbbox_macosx.c:50-81 | push a, push b, pop, pop through the corrected queue returns a then b |
| MessageQueues.FillThenDrain | usbbox_macosx.c:40-81 | up to 100 messages pushed into a new queue need no realloc and pop back out all, in order, none lost or repeated |
| Driver.Box.OpenBox | usbbox_macosx.c:142-170 | open_box on a new handle: is_open set, dev recorded, a fresh empty queue of capacity 100 |
| Driver.Box.PushMsg | usbbox_macosx.c:94-98 | push_msg has queue_push's effect on the handle's queue: with room the message fills slot `length` in the same buffer at the same capacity; full with realloc succeeding, the capacity doubles and the old bytes are kept with the message after them; full with realloc failing, the buffer, capacity, length and bytes are unchanged; the message list gains the message exactly when it is stored |
| Driver.Box.PopMsg | usbbox_macosx.c:84-92 | pop_msg returns 0 and the head when the queue is non-empty, -1 with nothing written and the queue unchanged when it is empty |
| Driver.Box.MessageCallback | usbbox_macosx.c:106-111 | the report callback pushes the first 8 bytes of the 338-byte report buffer, with queue_push's effect on buffer, capacity and length in each of the room, grow and drop cases |
| Driver.Box.CloseBox | usbbox_macosx.c:172-185 | close_box leaves is_open cleared and dev unchanged |
| Driver.Close | usbbox_macosx.c:267-281 | usb_box_close of null does nothing; otherwise close_box runs exactly when is_open was set, is_open ends cleared, and a non-null dev is released and set to null |
| Driver.Write | usbbox_macosx.c:289-306 | usb_box_write returns 0 for every input, hands the message to setReport only for a non-null handle, and modifies nothing, so the queue is untouched |
| Driver.Read | usbbox_macosx.c:325-356 | usb_box_read returns only 0 or -1, and 0 exactly when a message is delivered; -1 for null; a non-empty queue gives its head in one poll; with timeout <= 0 an empty queue gives -1 after exactly one poll; otherwise the result is the first report that arrives before the first clock reading at least timeout*1000 microseconds after the first, or -1 after as many polls as readings up to that one |
| Driver.FirstArrival | usbbox_macosx.c:330-351 | the first sleep gap with a delivered report, or none if no gap before n has one |
| Driver.FirstMatch | usbbox_macosx.c:219-245 | the position of the first device whose vendor and product (0 when absent) are 0x19BC and 0x0001, or none exactly when no device matches |
| Driver.FindBoxDevice | usbbox_macosx.c:219-245 | the iterator loop finds a device exactly when one matches, stops at the first, and has released exactly the devices before it (all devices when none matches) |
| Driver.Library.constructor | usbbox_macosx.c:100 | the last error starts at 0 |
| Driver.Library.LastError | usbbox_macosx.c:190-192 | usb_box_last_error returns the code the last usb_box_open recorded (-1 on iterator failure, 0 otherwise, as Driver.Library.Open states) |
| Driver.Library.Open | usbbox_macosx.c:202-261 | usb_box_open: iterator failure sets the last error to -1 and returns null; otherwise the last error is 0 whether or not the box is found, and the first matching device gets a fresh open handle |
| Clock.TimeDiffMicro | usbbox_macosx.c:308-313 | time_diff_micro is the difference of the two instants in microseconds, and fits in a long for gettimeofday readings |
| Clock.TimeDiffPositive | usbbox_macosx.c:308-313 | the difference is positive exactly when the end reading is later than the begin reading |
| Clock.DeadlineIndex | usbbox_macosx.c:351 | the first clock reading at least `limit` microseconds after the first reading: every earlier one is below it |
| Codec.HexDigit | usbbox_macosx.c:364 | the digit %X prints for a value below 16 is an upper-case hex digit with that value |
| Codec.HexOf | usbbox_macosx.c:364 | %X of a byte is 1 or 2 upper-case hex digits, 1 exactly when the byte is below 0x10, whose value is the byte |
| Codec.SprintfMessage | usbbox_macosx.c:358-365 | sprintf's return value is the length of the text written, 31 to 39 characters |
| Codec.FormatLength | usbbox_macosx.c:364 | each field is 3 or 4 characters, with commas between fields |
| Codec.ScanFields | usbbox_macosx.c:371-382 | sscanf converts at most as many fields as the pattern has |
| Codec.ScanFormatted | usbbox_macosx.c:358-387 | scanning the formatted fields of any bytes with as many directives gives back those bytes |
| Codec.SprintfSscanfRoundTrip | usbbox.h:59-63 | sscanf of sprintf's output converts all 8 fields and reproduces the message |
| Codec.SscanfMessage | usbbox_macosx.c:368-387 | returns sscanf's result: EOF (-1) exactly when the input ends before the first field is converted (`""`, `"0"`, `"0x"`), otherwise the count of converted fields; the first count bytes of the message are the converted values and the rest keep the indeterminate contents of the local array |
| Codec.EofConvertsNothing | usbbox_macosx.c:370-381 | input that ends before the first field is converted yields no field at all |

## Left out

- Threads and locks: the mutex around push and pop, the reader thread, `pthread_cancel`/`pthread_join`, and the `CFRunLoopRunInMode` loop of `read_messages`. Push and pop are plain sequential calls. `pop_msg` holds the mutex, so a producer can only act between two polls. `Driver.Read` therefore takes the device's reports as pushes between polls.
- Driver.Read: at most one report arrives between two polls. A second report in the same sleep would only stay queued after the read returns.
- IOKit and CoreFoundation calls: plugin creation, `QueryInterface`, interface open and close, `createAsyncPort`, callback registration, `setReport`, and the registry property lookups. Enumeration is an input sequence of devices with optional properties. `CFNumberGetValue`'s conversion is not modelled.
- Reference counting: the `CFRelease` calls on the looked-up numbers, the property dictionary that is never released, and the release of the iterator.
- Memory: `malloc` in `queue_allocate` and `usb_box_open` is taken to succeed, since the code does not check it. `queue_free` and `free(box)` are not modelled; a closed `Driver.Box` stays a closed object.
- Bytes from `malloc` and `realloc` are indeterminate in C, and the elements of a new Dafny array are arbitrary too. No contract says what they hold. The queue never returns them.
- Real time: `gettimeofday` becomes a trace of readings and `usleep` a gap in which a report may arrive. Read latency in wall-clock time cannot be stated.
- `perror` diagnostics.
- C integer overflow is excluded by preconditions, not modelled. Push requires that doubling a full queue's capacity fits in an int. Read requires that `timeout * 1000` fits in an int. Clock readings are bounded so that `time_diff_micro` fits in a long.
- Driver.Box.PopMsg: uses the corrected pop, which moves `length` messages; the as-written move of `length` bytes is modelled separately (see Findings).
- Driver.Read: polls through `Driver.Box.PopMsg`, so it too uses the corrected pop.
- Codec.SscanfMessage: EOF after skipped whitespace (input such as `"0x "`) is not modelled, because whitespace skipping is not; the model returns 0 there.
- Codec.ScanFields: models only the literal `0x` followed by one or two hex digits per field. scanf's leading-whitespace skipping, optional sign and optional `0x` prefix inside `%2X` are not modelled.

## Findings

| source | as written | input that shows it | evidently intended | confidence | as-written member | corrected member |
|---|---|---|---|---|---|---|
| usbbox_macosx.c:79 | `memmove(queue->msgs, queue->msgs+1, queue->length)` moves `length` bytes after a pop | push 00 00 00 00 00 00 00 00, push 01 01 01 01 01 01 01 01, pop, pop: the second pop yields 01 00 00 00 00 00 00 00 | move `length` messages (`length * 8` bytes), as the comment at :78 says, so pops come out in push order | high (not executed) | MessageQueues.MessageQueue.PopAsWritten | MessageQueues.MessageQueue.Pop |

The discrepancy is exhibited by `MessageQueues.PushPushPopPopAsWritten`, which
takes the scenario through the as-written methods. `MessageQueues.AsWrittenSecondPop`
states it on bytes, and `MessageQueues.AsWrittenBreaksFifo` gives the concrete
pair of messages. The corrected pop is proved FIFO
(`MessageQueues.MessageQueue.Pop`, `MessageQueues.PushPushPopPop`,
`MessageQueues.FillThenDrain`), and `Driver.Box.PopMsg` and `Driver.Read`
use it.
