/**
 * The macOS transport handle (usb_box_macosx in usbbox_macosx.c): device
 * selection in usb_box_open, the handle's lifecycle, the report callback
 * that feeds the queue, the timeout-bounded read loop and the write call.
 */
module Driver {
  import opened UsbBox
  import opened MessageQueues
  import opened Clock

  /** Size of the report buffer IOKit fills before each callback. */
  const ReadBufferSize: nat := 338

  /** IO_OBJECT_NULL. */
  const NullObject: int := 0

  /** The registry properties of one enumerated HID device; a property may be absent. */
  datatype Properties = Properties(vendor: Option<int>, product: Option<int>)

  /**
   * One device the IOKit iterator yields: its registry entry and, when
   * IORegistryEntryCreateCFProperties succeeds, its properties.
   */
  datatype HidDevice = HidDevice(handle: int, properties: Option<Properties>)

  /** The vendor id usb_box_open reads, 0 when it cannot be read. */
  function VendorOf(d: HidDevice): int
  {
    match d.properties
    case Some(Properties(Some(v), _)) => v
    case _ => 0
  }

  /** The product id usb_box_open reads, 0 when it cannot be read. */
  function ProductOf(d: HidDevice): int
  {
    match d.properties
    case Some(Properties(_, Some(p))) => p
    case _ => 0
  }

  predicate IsBox(d: HidDevice)
  {
    VendorOf(d) == VendorId && ProductOf(d) == ProductId
  }

  /** The registry entries of a run of devices, in enumeration order. */
  function Handles(devices: seq<HidDevice>): seq<int>
  {
    seq(|devices|, i requires 0 <= i < |devices| => devices[i].handle)
  }

  /** The position of the first device that is the box, if any. */
  function FirstMatch(devices: seq<HidDevice>): (r: Option<nat>)
    ensures r.None? <==> forall i :: 0 <= i < |devices| ==> !IsBox(devices[i])
    ensures r.Some? ==> && r.value < |devices| && IsBox(devices[r.value])
                        && forall i :: 0 <= i < r.value ==> !IsBox(devices[i])
  {
    if |devices| == 0 then None
    else if IsBox(devices[0]) then Some(0)
    else match FirstMatch(devices[1..])
      case None => None
      case Some(i) => Some(i + 1)
  }

  /**
   * The search loop of usb_box_open: walk the iterator until a device reads
   * as vendor 0x19BC, product 0x0001, releasing every device passed over.
   */
  method FindBoxDevice(devices: seq<HidDevice>) returns (found: bool, hidDevice: int, released: seq<int>)
    requires forall i :: 0 <= i < |devices| ==> devices[i].handle != NullObject
    ensures found <==> FirstMatch(devices).Some?
    ensures found ==> && hidDevice == devices[FirstMatch(devices).value].handle
                      && released == Handles(devices[.. FirstMatch(devices).value])
    ensures !found ==> hidDevice == NullObject && released == Handles(devices)
  {
    found, released := false, [];
    var next := 0;
    hidDevice := NullObject;
    while next < |devices|
      invariant 0 <= next <= |devices|
      invariant forall i :: 0 <= i < next ==> !IsBox(devices[i])
      invariant released == Handles(devices[.. next])
    {
      hidDevice := devices[next].handle;
      next := next + 1;
      var d := devices[next - 1];
      if VendorOf(d) == VendorId && ProductOf(d) == ProductId {
        found := true;
        break;
      } else {
        released := released + [hidDevice];
      }
    }
    if !found {
      hidDevice := NullObject;
    } else {
      assert FirstMatch(devices) == Some(next - 1);
    }
  }

  class Box {
    var isOpen: bool
    var dev: int
    var queue: MessageQueue

    ghost predicate Valid()
      reads this, queue
    {
      queue.Valid()
    }

    /**
     * usb_box_open's construction of a handle for device dev, followed by
     * open_box: the queue is allocated and is_open set.
     */
    constructor OpenBox(dev: int)
      ensures Valid() && isOpen && this.dev == dev
      ensures fresh(queue) && fresh(queue.msgs)
      ensures queue.capacity == InitialCapacity && queue.length == 0 && queue.Messages() == []
    {
      isOpen := true;
      this.dev := dev;
      queue := new MessageQueue.Allocate();
    }

    /** push_msg: queue_push on the handle's queue (the mutex is not modelled). */
    method PushMsg(m: Message, growOk: bool)
      requires Valid() && isOpen
      requires queue.length < queue.capacity || 2 * queue.capacity <= IntMax
      modifies queue, queue.msgs
      ensures Valid()
      ensures old(queue.length) < old(queue.capacity) ==>
        && queue.msgs == old(queue.msgs) && queue.capacity == old(queue.capacity)
        && queue.length == old(queue.length) + 1
        && queue.msgs[..] == WriteSlot(old(queue.msgs[..]), old(queue.length), m)
      ensures old(queue.length) >= old(queue.capacity) && growOk ==>
        && fresh(queue.msgs) && queue.capacity == 2 * old(queue.capacity)
        && queue.length == old(queue.length) + 1
        && queue.msgs[.. old(queue.length) * 8 + 8] == old(queue.msgs[..]) + m
      ensures old(queue.length) >= old(queue.capacity) && !growOk ==>
        && queue.msgs == old(queue.msgs) && queue.capacity == old(queue.capacity)
        && queue.length == old(queue.length) && queue.msgs[..] == old(queue.msgs[..])
      ensures queue.Messages() == if old(queue.length) < old(queue.capacity) || growOk
                                  then old(queue.Messages()) + [m] else old(queue.Messages())
    {
      queue.Push(m, growOk);
    }

    /** pop_msg: 0 with the head message when the queue has one, -1 otherwise. */
    method PopMsg() returns (result: int, msg: Option<Message>)
      requires Valid() && isOpen
      modifies queue, queue.msgs
      ensures Valid() && queue.msgs == old(queue.msgs)
      ensures result == 0 || result == -1
      ensures result == 0 <==> old(queue.Messages()) != []
      ensures old(queue.Messages()) == [] ==> msg == None && queue.Messages() == []
      ensures old(queue.Messages()) != [] ==>
        msg == Some(old(queue.Messages())[0]) && queue.Messages() == old(queue.Messages())[1..]
    {
      result := -1;
      var popped;
      popped, msg := queue.Pop();
      if popped == 1 {
        result := 0;
      }
    }

    /**
     * message_callback: IOKit has filled the report buffer; its first 8
     * bytes become a message pushed onto the queue.
     */
    method MessageCallback(buffer: seq<byte>, growOk: bool)
      requires Valid() && isOpen && |buffer| == ReadBufferSize
      requires queue.length < queue.capacity || 2 * queue.capacity <= IntMax
      modifies queue, queue.msgs
      ensures Valid()
      ensures old(queue.length) < old(queue.capacity) ==>
        && queue.msgs == old(queue.msgs) && queue.capacity == old(queue.capacity)
        && queue.length == old(queue.length) + 1
        && queue.msgs[..] == WriteSlot(old(queue.msgs[..]), old(queue.length), buffer[.. MessageSize])
      ensures old(queue.length) >= old(queue.capacity) && growOk ==>
        && fresh(queue.msgs) && queue.capacity == 2 * old(queue.capacity)
        && queue.length == old(queue.length) + 1
        && queue.msgs[.. old(queue.length) * 8 + 8] == old(queue.msgs[..]) + buffer[.. MessageSize]
      ensures old(queue.length) >= old(queue.capacity) && !growOk ==>
        && queue.msgs == old(queue.msgs) && queue.capacity == old(queue.capacity)
        && queue.length == old(queue.length) && queue.msgs[..] == old(queue.msgs[..])
      ensures queue.Messages() == if old(queue.length) < old(queue.capacity) || growOk
                                  then old(queue.Messages()) + [buffer[.. MessageSize]]
                                  else old(queue.Messages())
    {
      var msg: Message := buffer[.. MessageSize];
      PushMsg(msg, growOk);
    }

    /** close_box: clears is_open before the teardown that is not modelled. */
    method CloseBox()
      requires Valid()
      modifies this
      ensures Valid() && !isOpen && dev == old(dev) && queue == old(queue)
    {
      isOpen := false;
    }
  }

  /**
   * usb_box_close: nothing for a null handle; otherwise close_box runs only
   * when is_open is set, and a non-null device is released and nulled.
   * tornDown says whether close_box ran, released which device was released.
   */
  method Close(box: Box?) returns (tornDown: bool, released: Option<int>)
    requires box != null ==> box.Valid()
    modifies box
    ensures box == null ==> !tornDown && released == None
    ensures box != null ==>
      && box.Valid() && !box.isOpen && box.dev == NullObject && box.queue == old(box.queue)
      && tornDown == old(box.isOpen)
      && released == if old(box.dev) != NullObject then Some(old(box.dev)) else None
  {
    tornDown, released := false, None;
    if box != null {
      if box.isOpen {
        box.CloseBox();
        tornDown := true;
      }
      if box.dev != NullObject {
        released := Some(box.dev);
        box.dev := NullObject;
      }
    }
  }

  /**
   * usb_box_write: a non-null handle hands msg to setReport, whose outcome
   * is ignored; the result is 0 for every input. `sent` is what reached
   * setReport. The queue is not touched (nothing is modified).
   */
  method Write(box: Box?, msg: Message) returns (status: int, sent: Option<Message>)
    ensures status == 0
    ensures sent == if box != null then Some(msg) else None
  {
    sent := None;
    if box != null {
      sent := Some(msg);
    }
    status := 0;
  }

  /** The report the device delivers during sleep gap g of a read, if any. */
  function ArrivalAt(arrivals: seq<Option<Message>>, g: nat): Option<Message>
  {
    if g < |arrivals| then arrivals[g] else None
  }

  /** The queue contents after a delivery into an empty queue during gap g. */
  function ArrivalList(arrivals: seq<Option<Message>>, g: nat): seq<Message>
  {
    match ArrivalAt(arrivals, g)
    case Some(m) => [m]
    case None => []
  }

  /** The first gap before gap n in which a report arrives, if any. */
  function FirstArrival(arrivals: seq<Option<Message>>, n: nat): (r: Option<nat>)
    ensures r.None? <==> forall g :: 0 <= g < n ==> ArrivalAt(arrivals, g).None?
    ensures r.Some? ==> && r.value < n && ArrivalAt(arrivals, r.value).Some?
                        && forall g :: 0 <= g < r.value ==> ArrivalAt(arrivals, g).None?
  {
    if n == 0 then None
    else match FirstArrival(arrivals, n - 1)
      case Some(g) => Some(g)
      case None => if ArrivalAt(arrivals, n - 1).Some? then Some(n - 1) else None
  }

  /**
   * usb_box_read. `clock` is the sequence of gettimeofday readings in the
   * order the loop takes them; `arrivals[g]` is the report, if any, that the
   * device delivers through message_callback while the reader sleeps after
   * its (g+1)-th failed pop. A null handle gives -1. Otherwise the queue is
   * polled once; with timeout <= 0 that is all, else polling repeats until a
   * pop succeeds or the elapsed time since the first failed poll, read just
   * before each sleep, reaches timeout * 1000 microseconds. `attempts`
   * counts the pops.
   */
  method Read(box: Box?, timeout: int, clock: seq<TimeVal>, arrivals: seq<Option<Message>>)
    returns (result: int, msg: Option<Message>, ghost attempts: nat)
    requires box != null ==> box.Valid() && box.isOpen
    requires IntMin <= timeout * 1000 <= IntMax
    requires forall k :: 0 <= k < |clock| ==> ValidTime(clock[k])
    requires box != null && timeout > 0 ==> Reaches(clock, timeout * 1000, 1)
    modifies if box != null then {box.queue, box.queue.msgs} else {}
    ensures result == 0 || result == -1
    ensures result == 0 <==> msg.Some?
    ensures box == null ==> result == -1 && attempts == 0
    ensures box != null ==> box.Valid() && (box.queue.msgs == old(box.queue.msgs) || fresh(box.queue.msgs))
    ensures box != null && old(box.queue.Messages()) != [] ==>
      && result == 0 && attempts == 1 && msg == Some(old(box.queue.Messages())[0])
      && box.queue.Messages() == old(box.queue.Messages())[1..]
    ensures box != null && old(box.queue.Messages()) == [] && timeout <= 0 ==>
      result == -1 && attempts == 1 && box.queue.Messages() == []
    ensures box != null && old(box.queue.Messages()) == [] && timeout > 0 ==>
      var deadline := DeadlineIndex(clock, timeout * 1000, 1);
      match FirstArrival(arrivals, deadline - 1)
      case Some(g) =>
        result == 0 && msg == ArrivalAt(arrivals, g) && attempts == g + 2 && box.queue.Messages() == []
      case None =>
        result == -1 && attempts == deadline && box.queue.Messages() == ArrivalList(arrivals, deadline - 1)
  {
    if box == null {
      return -1, None, 0;
    }
    ghost var initial := box.queue.Messages();
    ghost var limit := timeout * 1000;
    ghost var deadline := if timeout > 0 then DeadlineIndex(clock, limit, 1) else 0;
    result, msg, attempts := -1, None, 0;
    var repeat := 0;
    // C leaves begin and end uninitialised; they are read only after being set.
    var begin, end := TimeVal(0, 0), TimeVal(0, 0);
    var looping := true;
    while looping
      invariant box.Valid() && (box.queue.msgs == old(box.queue.msgs) || fresh(box.queue.msgs))
      invariant result == 0 <==> msg.Some?
      invariant result == 0 || result == -1
      invariant repeat == 0 ==>
        || (looping && attempts == 0 && box.queue.Messages() == initial)
        || (!looping && attempts == 1 && result == 0 && initial != []
            && msg == Some(initial[0]) && box.queue.Messages() == initial[1..])
      invariant repeat > 0 ==>
        && timeout > 0 && initial == [] && begin == clock[0] && 1 <= repeat <= deadline
        && end == clock[repeat]
        && (forall i :: 1 <= i < repeat ==> Elapsed(clock, i) < limit)
        && (forall g :: 0 <= g < repeat - 1 ==> ArrivalAt(arrivals, g).None?)
      invariant repeat > 0 && looping ==>
        && attempts == repeat && result == -1 && Elapsed(clock, repeat) < limit
        && box.queue.Messages() == ArrivalList(arrivals, repeat - 1)
      invariant repeat > 0 && !looping ==>
        || (result == 0 && attempts == repeat + 1 && repeat < deadline
            && msg == ArrivalAt(arrivals, repeat - 1) && box.queue.Messages() == [])
        || (result == -1 && attempts == repeat && Elapsed(clock, repeat) >= limit
            && box.queue.Messages() == ArrivalList(arrivals, repeat - 1))
      decreases if looping then deadline + 1 - repeat else 0
    {
      result, msg := box.PopMsg();
      attempts := attempts + 1;
      if result != 0 {
        // nothing on the queue
        if timeout <= 0 {
          // no timeout: one poll only
          break;
        }
        if repeat == 0 {
          // first time through
          begin := clock[0];
        }
        end := clock[repeat + 1];
        // usleep(100): the device may deliver a report meanwhile; the queue
        // is empty, so queue_push stores it without reaching realloc
        match ArrivalAt(arrivals, repeat) {
          case Some(m) => box.PushMsg(m, false);
          case None =>
        }
        repeat := repeat + 1;
      }
      looping := result != 0 && TimeDiffMicro(begin, end) < timeout * 1000;
    }
    if repeat > 0 {
      if result == 0 {
        assert FirstArrival(arrivals, deadline - 1) == Some(repeat - 1);
      } else {
        assert repeat == deadline;
      }
    }
  }

  /** The driver's process-wide state: the code usb_box_last_error returns. */
  class Library {
    var lastError: int

    /** _last_error starts at 0. */
    constructor ()
      ensures lastError == 0
    {
      lastError := 0;
    }

    /** usb_box_last_error: the error code the last usb_box_open recorded. */
    function LastError(): (e: int)
      reads this
      ensures e == lastError
    {
      lastError
    }

    /**
     * usb_box_open. iteratorOk is whether IOServiceGetMatchingServices gave
     * an iterator; devices is what the iterator yields. On iterator failure
     * the last error becomes -1 and no handle is returned; otherwise it
     * becomes 0, found or not, and the first device that is the box gets a
     * freshly opened handle. `released` lists the devices released on the way.
     */
    method Open(iteratorOk: bool, devices: seq<HidDevice>) returns (box: Box?, released: seq<int>)
      requires forall i :: 0 <= i < |devices| ==> devices[i].handle != NullObject
      modifies this
      ensures lastError == if iteratorOk then 0 else -1
      ensures !iteratorOk ==> box == null && released == []
      ensures iteratorOk && FirstMatch(devices).None? ==> box == null && released == Handles(devices)
      ensures iteratorOk && FirstMatch(devices).Some? ==>
        var i := FirstMatch(devices).value;
        && box != null && fresh(box) && fresh(box.queue) && box.Valid() && box.isOpen
        && box.dev == devices[i].handle
        && box.queue.capacity == InitialCapacity && box.queue.Messages() == []
        && released == Handles(devices[.. i])
    {
      if !iteratorOk {
        lastError := -1;
        return null, [];
      }
      var found, hidDevice;
      found, hidDevice, released := FindBoxDevice(devices);
      // no error: the box was either found or not
      lastError := 0;
      box := null;
      if found {
        box := new Box.OpenBox(hidDevice);
      }
    }
  }
}
