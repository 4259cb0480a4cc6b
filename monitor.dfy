/**
 * goudev's Monitor: a Go object holding one udev_monitor pointer; its filter methods,
 * each an add (or remove) followed at once by a filter update; its receive; and
 * DeviceChan, which sets up epoll on the monitor's socket and starts a goroutine that
 * pumps received devices into a channel until the context is done or epoll_wait fails.
 * The goroutine is the class Pump, run over a scripted sequence of loop turns and proved
 * against PumpSpec.Pumped.
 */
module UdevMonitor {
  import opened Wrappers
  import opened Libudev
  import opened UdevErrors
  import opened UdevDevice
  import opened Unix
  import opened PumpSpec

  lemma SplitHead(a: seq<Record>, q: seq<Record>)
    requires q != []
    ensures a + [q[0]] + q[1..] == a + q
  {
    assert [q[0]] + q[1..] == q;
  }

  lemma UpdateTwice(ms: map<nat, MonitorState>, k: nat, a: MonitorState, b: MonitorState)
    ensures ms[k := a][k := b] == ms[k := b]
  {
  }

  /** The objects after receiving the records rs: one new object per record, holding one
      reference and no cached parent, under consecutive identities from base. */
  function Extend(objs: map<nat, Obj>, base: nat, rs: seq<Record>): map<nat, Obj>
    decreases |rs|
  {
    if rs == [] then objs
    else Extend(objs, base, rs[..|rs| - 1])[base + |rs| - 1 := Obj(rs[|rs| - 1], 1, None)]
  }

  lemma ExtendSnoc(objs: map<nat, Obj>, base: nat, rs: seq<Record>, r: Record)
    ensures Extend(objs, base, rs + [r]) == Extend(objs, base, rs)[base + |rs| := Obj(r, 1, None)]
  {
    assert (rs + [r])[..|rs|] == rs;
  }

  /** Receiving a then b is receiving a + b. */
  lemma {:induction false} ExtendAppend(objs: map<nat, Obj>, base: nat, a: seq<Record>, b: seq<Record>)
    ensures Extend(objs, base, a + b) == Extend(Extend(objs, base, a), base + |a|, b)
    decreases |b|
  {
    if b == [] {
      assert a + b == a;
    } else {
      var b' := b[..|b| - 1];
      ExtendAppend(objs, base, a, b');
      assert (a + b)[..|a + b| - 1] == a + b';
    }
  }

  /** ExtendAppend for a first stretch whose result is already known. */
  lemma ExtendAppendAt(objs0: map<nat, Obj>, next0: nat, a: seq<Record>, objs1: map<nat, Obj>, next1: nat, b: seq<Record>)
    requires objs1 == Extend(objs0, next0, a) && next1 == next0 + |a|
    ensures Extend(objs1, next1, b) == Extend(objs0, next0, a + b)
  {
    ExtendAppend(objs0, next0, a, b);
  }

  /** When every object is below base, receiving rs keeps every object as it was, adds
      exactly one live object per record, for that record, with one reference, and
      nothing else. */
  lemma {:induction false} ExtendHolds(objs: map<nat, Obj>, base: nat, rs: seq<Record>)
    requires forall id :: id in objs ==> id < base
    ensures forall id :: id in objs ==> id in Extend(objs, base, rs) && Extend(objs, base, rs)[id] == objs[id]
    ensures forall j :: 0 <= j < |rs| ==> base + j in Extend(objs, base, rs) && Extend(objs, base, rs)[base + j] == Obj(rs[j], 1, None)
    ensures forall id :: id in Extend(objs, base, rs) ==> id in objs || base <= id < base + |rs|
    decreases |rs|
  {
    if rs != [] {
      ExtendHolds(objs, base, rs[..|rs| - 1]);
      forall j | 0 <= j < |rs| - 1
        ensures rs[..|rs| - 1][j] == rs[j]
      {
      }
    }
  }

  /** The devices from position from on hold the handles base, base + 1, ... in order. */
  ghost predicate Numbered(items: seq<Device>, from: nat, base: nat)
    reads items
  {
    forall j :: from <= j < |items| ==> items[j].handle == Some(base + (j - from))
  }

  /** Sending one more device, holding the next handle, keeps the devices numbered. */
  lemma NumberedSnoc(items: seq<Device>, d: Device, from: nat, base: nat)
    requires from <= |items| && Numbered(items, from, base)
    requires d.handle == Some(base + (|items| - from))
    ensures Numbered(items + [d], from, base)
  {
    forall j | from <= j < |items| + 1
      ensures (items + [d])[j].handle == Some(base + (j - from))
    {
      if j < |items| {
        assert (items + [d])[j] == items[j];
      }
    }
  }

  /** Where the drain loop stands, in values: of the queue it started from, got has been
      received (each into a new object) and the rest is still queued; every received record
      has been sent except, while a device is pending, the last. */
  ghost predicate Drained(queue0: seq<Record>, objs0: map<nat, Obj>, next0: nat, sent0: seq<Record>,
                          got: seq<Record>, queue: seq<Record>, objs: map<nat, Obj>, next: nat,
                          sent: seq<Record>, pending: bool)
  {
    && queue0 == got + queue
    && objs == Extend(objs0, next0, got) && next == next0 + |got|
    && (pending ==> |got| > 0 && sent + [got[|got| - 1]] == sent0 + got)
    && (!pending ==> queue == [] && sent == sent0 + got)
  }

  /** One turn of the drain loop: the pending device is sent, then the next one is
      received if anything is queued. */
  lemma DrainStep(queue0: seq<Record>, objs0: map<nat, Obj>, next0: nat, sent0: seq<Record>,
                  got: seq<Record>, queue: seq<Record>, objs: map<nat, Obj>, next: nat, sent: seq<Record>,
                  queue': seq<Record>, objs': map<nat, Obj>, next': nat, sent': seq<Record>, pending': bool)
    requires Drained(queue0, objs0, next0, sent0, got, queue, objs, next, sent, true)
    requires sent' == sent + [got[|got| - 1]]
    requires pending' ==> queue != [] && objs' == objs[next := Obj(queue[0], 1, None)] && next' == next + 1 && queue' == queue[1..]
    requires !pending' ==> queue == [] && objs' == objs && next' == next && queue' == queue
    ensures Drained(queue0, objs0, next0, sent0, if pending' then got + [queue[0]] else got,
                    queue', objs', next', sent', pending')
  {
    if pending' {
      ExtendSnoc(objs0, next0, got, queue[0]);
      SplitHead(got, queue);
    } else {
      assert got + queue == got;
    }
  }

  /** What the drain loop started from. */
  datatype DrainStart = DrainStart(mh: nat, monitors: map<nat, MonitorState>, queue: seq<Record>,
                                   objs: map<nat, Obj>, next: nat, sent: seq<Record>, items: seq<Device>)

  /** What the pump loop started from: the monitor's handle, the monitors, the objects and
      the next identity, and the kernel's closed descriptors and epoll instances. */
  datatype RunStart = RunStart(mh: nat, monitors: map<nat, MonitorState>, objs: map<nat, Obj>, next: nat,
                               closed: seq<int>, epolls: map<int, map<int, EpollEvent>>)

  /** Two numbered stretches, the second starting where the first ends, make one. */
  lemma NumberedJoin(prefix: seq<Device>, items: seq<Device>, from: nat, base: nat, base': nat)
    requires from <= |prefix| <= |items| && items[..|prefix|] == prefix
    requires Numbered(prefix, from, base) && Numbered(items, |prefix|, base')
    requires base' == base + (|prefix| - from)
    ensures Numbered(items, from, base)
  {
    forall j | from <= j < |items|
      ensures items[j].handle == Some(base + (j - from))
    {
      if j < |prefix| {
        assert items[..|prefix|][j] == items[j];
      }
    }
  }

  /** The j-th device holds identity base + j, a live object for the j-th record with
      one reference and no cached parent. */
  ghost predicate Delivered(items: seq<Device>, sent: seq<Record>, objs: map<nat, Obj>, base: nat)
    reads items
  {
    && |items| == |sent|
    && forall j :: 0 <= j < |items| ==>
         && items[j].handle == Some(base + j)
         && base + j in objs && objs[base + j] == Obj(sent[j], 1, None)
  }

  /** Every object of objs0 is still there, unchanged, in objs. */
  ghost predicate Keeps(objs0: map<nat, Obj>, objs: map<nat, Obj>) {
    forall id :: id in objs0 ==> id in objs && objs[id] == objs0[id]
  }

  /** Devices numbered from base, one per record received from base on, each hold their
      own live object for that record, with one reference. */
  lemma Deliveries(objs: map<nat, Obj>, base: nat, items: seq<Device>, sent: seq<Record>)
    requires forall id :: id in objs ==> id < base
    requires |items| == |sent| && Numbered(items, 0, base)
    ensures Delivered(items, sent, Extend(objs, base, sent), base)
    ensures Keeps(objs, Extend(objs, base, sent))
  {
    ExtendHolds(objs, base, sent);
    var objs' := Extend(objs, base, sent);
    forall j | 0 <= j < |items|
      ensures items[j].handle == Some(base + j)
      ensures base + j in objs' && objs'[base + j] == Obj(sent[j], 1, None)
    {
      assert items[j].handle == Some(base + (j - 0));
      assert j < |sent| && sent[j] == sent[j];  // mentions sent[j], which ExtendHolds hangs its facts on
    }
  }

  /** The unbuffered Go channel DeviceChan returns, seen from its consumer: the devices
      sent so far, the records they held when sent, and whether it was closed. */
  class Channel {
    var items: seq<Device>
    ghost var sent: seq<Record>
    var closed: bool

    constructor ()
      ensures items == [] && sent == [] && !closed
    {
      items, sent, closed := [], [], false;
    }

    /** ch <- d: the consumer gets d, which holds r. */
    method Send(d: Device, ghost u: Udev, ghost r: Record)
      requires !closed && u.View(d.handle) == r
      modifies this
      ensures items == old(items) + [d] && sent == old(sent) + [r] && !closed
    {
      items, sent := items + [d], sent + [r];
    }

    /** close(ch): the consumer sees the end of the stream. */
    method Close()
      requires !closed
      modifies this
      ensures closed && items == old(items) && sent == old(sent)
    {
      closed := true;
    }
  }

  class Monitor {
    var handle: Option<nat>   // udevMoniter; None is the NULL pointer

    constructor (h: Option<nat>)
      ensures handle == h
    {
      handle := h;
    }

    /** Free: one udev_monitor_unref, and only for a non-NULL handle, which must still name
        a live monitor. */
    method Free(u: Udev)
      requires u.Valid() && (handle.Some? ==> handle.value in u.monitors)
      modifies u`monitors
      ensures u.Valid()
      ensures handle.Some? ==> u.monitors == old(u.monitors) - {handle.value}
      ensures handle.None? ==> u.monitors == old(u.monitors)
    {
      if handle.Some? {
        u.MonitorUnref(handle.value);
      }
    }

    /** FilterBy: add a subsystem criterion, with the first device type if one was given,
        then update the socket filter; the update runs only after a successful add, and
        success means both calls succeeded. */
    method FilterBy(u: Udev, subsystem: string, deviceType: seq<string>) returns (err: Option<Error>)
      requires u.Valid()
      modifies u`monitors
      ensures u.Valid()
      ensures var added := old(u.IsMonitor(handle)) && Call.FilterAddMatchSubsystemDevtype !in u.failing;
              && (err == Some(CallFailed("udev_monitor_filter_add_match_subsystem_devtype")) <==> !added)
              && (err == Some(CallFailed("udev_monitor_filter_update")) <==> added && Call.FilterUpdate in u.failing)
              && (err.None? <==> added && Call.FilterUpdate !in u.failing)
      ensures err.Some? && err.value == CallFailed("udev_monitor_filter_add_match_subsystem_devtype") ==>
                u.monitors == old(u.monitors)
      ensures err != Some(CallFailed("udev_monitor_filter_add_match_subsystem_devtype")) ==>
                var crit := SubsystemDevtype(subsystem, if |deviceType| > 0 then Some(deviceType[0]) else None);
                var s := old(u.monitors)[handle.value];
                var staged := s.staged + [crit];
                u.monitors == old(u.monitors)[handle.value := s.(staged := staged, installed := if err.None? then staged else s.installed)]
    {
      var devtype := if |deviceType| > 0 then Some(deviceType[0]) else None;
      var rc := u.FilterAddMatchSubsystemDevtype(handle, subsystem, devtype);
      if rc != 0 {
        return Some(CallFailed("udev_monitor_filter_add_match_subsystem_devtype"));
      }
      rc := u.FilterUpdate(handle);
      if rc != 0 {
        return Some(CallFailed("udev_monitor_filter_update"));
      }
      return None;
    }

    /** FilterByTag: the same chain with a tag criterion. */
    method FilterByTag(u: Udev, tag: string) returns (err: Option<Error>)
      requires u.Valid()
      modifies u`monitors
      ensures u.Valid()
      ensures var added := old(u.IsMonitor(handle)) && Call.FilterAddMatchTag !in u.failing;
              && (err == Some(CallFailed("udev_monitor_filter_add_match_tag")) <==> !added)
              && (err == Some(CallFailed("udev_monitor_filter_update")) <==> added && Call.FilterUpdate in u.failing)
              && (err.None? <==> added && Call.FilterUpdate !in u.failing)
      ensures err.Some? && err.value == CallFailed("udev_monitor_filter_add_match_tag") ==>
                u.monitors == old(u.monitors)
      ensures err != Some(CallFailed("udev_monitor_filter_add_match_tag")) ==>
                var s := old(u.monitors)[handle.value];
                var staged := s.staged + [Tag(tag)];
                u.monitors == old(u.monitors)[handle.value := s.(staged := staged, installed := if err.None? then staged else s.installed)]
    {
      var rc := u.FilterAddMatchTag(handle, tag);
      if rc != 0 {
        return Some(CallFailed("udev_monitor_filter_add_match_tag"));
      }
      rc := u.FilterUpdate(handle);
      if rc != 0 {
        return Some(CallFailed("udev_monitor_filter_update"));
      }
      return None;
    }

    /** RemoveFilter: remove every criterion, then update; the update runs only after a
        successful remove. */
    method RemoveFilter(u: Udev) returns (err: Option<Error>)
      requires u.Valid()
      modifies u`monitors
      ensures u.Valid()
      ensures var removed := old(u.IsMonitor(handle)) && Call.FilterRemove !in u.failing;
              && (err == Some(CallFailed("udev_monitor_filter_remove")) <==> !removed)
              && (err == Some(CallFailed("udev_monitor_filter_update")) <==> removed && Call.FilterUpdate in u.failing)
              && (err.None? <==> removed && Call.FilterUpdate !in u.failing)
      ensures err.Some? && err.value == CallFailed("udev_monitor_filter_remove") ==> u.monitors == old(u.monitors)
      ensures err != Some(CallFailed("udev_monitor_filter_remove")) ==>
                u.monitors == old(u.monitors)[handle.value := old(u.monitors)[handle.value].(staged := [], installed := [])]
    {
      var rc := u.FilterRemove(handle);
      if rc != 0 {
        return Some(CallFailed("udev_monitor_filter_remove"));
      }
      rc := u.FilterUpdate(handle);
      if rc != 0 {
        return Some(CallFailed("udev_monitor_filter_update"));
      }
      return None;
    }

    /** receiveDevice: nil when nothing is queued, otherwise a new Device for the first
        queued uevent, which leaves the queue. */
    method ReceiveDevice(u: Udev) returns (d: Device?)
      requires u.Valid()
      modifies u`monitors, u`objs, u`next
      ensures u.Valid()
      ensures !old(u.IsMonitor(handle)) || old(u.monitors)[handle.value].queue == [] ==>
                d == null && u.monitors == old(u.monitors) && u.objs == old(u.objs) && u.next == old(u.next)
      ensures old(u.IsMonitor(handle)) && old(u.monitors)[handle.value].queue != [] ==>
                && d != null && fresh(d) && d.handle == Some(old(u.next)) && u.next == old(u.next) + 1
                && u.objs == old(u.objs)[old(u.next) := Obj(old(u.monitors)[handle.value].queue[0], 1, None)]
                && u.monitors == old(u.monitors)[handle.value := old(u.monitors)[handle.value].(queue := old(u.monitors)[handle.value].queue[1..])]
    {
      var h := u.ReceiveDevice(handle);
      if h.None? {
        return null;
      }
      d := new Device(h);
    }

    /** DeviceChan: enable receiving, make the socket non-blocking, create an epoll
        instance and register the socket with EPOLLIN|EPOLLET, in that order; the first
        failure returns no channel and its error, and nothing after it runs (an epoll
        instance already created stays open). On success the goroutine is returned as a
        Pump, ready to run, with a new channel and a 32-event buffer. */
    method DeviceChan(u: Udev, k: Kernel, epollTimeout: int) returns (ch: Channel?, pump: Pump?, err: Option<Error>)
      requires u.Valid() && k.Valid()
      modifies u`monitors, k`nonblocking, k`epolls, k`nextFd
      ensures u.Valid() && k.Valid()
      ensures (ch == null <==> err.Some?) && (pump == null <==> err.Some?)
      ensures var enabled := old(u.IsMonitor(handle)) && Call.EnableReceiving !in u.failing;
              && (err == Some(CallFailed("udev_monitor_enable_receiving")) <==> !enabled)
              && (!enabled ==> u.monitors == old(u.monitors) && k.nonblocking == old(k.nonblocking) &&
                               k.epolls == old(k.epolls) && k.nextFd == old(k.nextFd))
              && (enabled ==> u.monitors == old(u.monitors)[handle.value := old(u.monitors)[handle.value].(receiving := true, installed := old(u.monitors)[handle.value].staged)])
              && (enabled ==> WatchedAs(k, old(u.monitors)[handle.value].fd, old(k.failing), old(k.nonblocking), old(k.epolls),
                                        old(k.nextFd), err))
      ensures err.None? ==>
                var fd := old(u.monitors)[handle.value].fd;
                && fresh(ch) && fresh(pump) && fresh(pump.events)
                && pump.m == this && pump.ch == ch && pump.fd == fd && pump.epfd == old(k.nextFd)
                && pump.epollTimeout == epollTimeout
                && ch.items == [] && ch.sent == []
                && pump.Ready(u, k)
    {
      var rc := u.MonitorEnableReceiving(handle);
      if rc != 0 {
        return null, null, Some(CallFailed("udev_monitor_enable_receiving"));
      }
      var fd := u.MonitorFd(handle);
      var epfd;
      epfd, err := Watch(k, fd);
      if err.Some? {
        return null, null, err;
      }
      var events := new EpollEvent[MaxEpollEvents](_ => EpollEvent(0, 0));
      ch := new Channel();
      pump := new Pump(this, epfd, fd, events, ch, epollTimeout);
    }
  }

  /** What the syscall half of DeviceChan did to the kernel for the monitor fd, given the
      kernel before it: SetNonblock, EpollCreate1 and EpollCtl with EPOLLIN|EPOLLET, in
      that order, the first failure naming its call and stopping the rest; an epoll
      descriptor already created when EpollCtl fails stays open. */
  ghost predicate WatchedAs(k: Kernel, fd: int, failing: set<Syscall>, nonblocking0: set<int>,
                            epolls0: map<int, map<int, EpollEvent>>, nextFd0: int, err: Option<Error>)
    reads k
  {
    var nonblocking := Syscall.SetNonblock !in failing;
    var created := nonblocking && Syscall.EpollCreate1 !in failing;
    && (err == Some(CallFailed("unix.SetNonblock")) <==> !nonblocking)
    && (err == Some(CallFailed("unix.EpollCreate1")) <==> nonblocking && !created)
    && (err == Some(CallFailed("unix.EpollCtl")) <==> created && Syscall.EpollCtl in failing)
    && (err.None? <==> created && Syscall.EpollCtl !in failing)
    && k.nonblocking == (if nonblocking then nonblocking0 + {fd} else nonblocking0)
    && (!created ==> k.epolls == epolls0 && k.nextFd == nextFd0)
    && (created ==> k.nextFd == nextFd0 + 1)
    && (created && err.Some? ==> k.epolls == epolls0[nextFd0 := map[]])
    && (err.None? ==> k.epolls == epolls0[nextFd0 := map[fd := EpollEvent(EPOLLIN | EPOLLET, fd)]])
  }

  /** The syscall half of DeviceChan: make fd non-blocking, create an epoll instance and
      register fd on it for EPOLLIN|EPOLLET. */
  method Watch(k: Kernel, fd: int) returns (epfd: int, err: Option<Error>)
    requires k.Valid()
    modifies k`nonblocking, k`epolls, k`nextFd
    ensures k.Valid()
    ensures WatchedAs(k, fd, old(k.failing), old(k.nonblocking), old(k.epolls), old(k.nextFd), err)
    ensures err.None? ==> epfd == old(k.nextFd) && epfd in k.epolls
  {
    var ok := k.SetNonblock(fd);
    if !ok {
      return -1, Some(CallFailed("unix.SetNonblock"));
    }
    epfd, ok := k.EpollCreate1();
    if !ok {
      return -1, Some(CallFailed("unix.EpollCreate1"));
    }
    var event := EpollEvent(EPOLLIN | EPOLLET, fd);
    ok := k.EpollCtlAdd(epfd, fd, event);
    if !ok {
      return epfd, Some(CallFailed("unix.EpollCtl"));
    }
    err := None;
  }

  /** The goroutine DeviceChan starts, with what its closure captures. */
  class Pump {
    const m: Monitor
    const epfd: int
    const fd: int
    const events: array<EpollEvent>
    const ch: Channel
    const epollTimeout: int   // handed to epoll_wait; the script decides what each wait reports

    constructor (m: Monitor, epfd: int, fd: int, events: array<EpollEvent>, ch: Channel, epollTimeout: int)
      ensures this.m == m && this.epfd == epfd && this.fd == fd && this.events == events
      ensures this.ch == ch && this.epollTimeout == epollTimeout
    {
      this.m, this.epfd, this.fd, this.events, this.ch, this.epollTimeout := m, epfd, fd, events, ch, epollTimeout;
    }

    /** The goroutine can take another turn: the monitor is receiving on fd, the epoll
        instance is open, and the channel is open. */
    ghost predicate Ready(u: Udev, k: Kernel)
      reads this, m, u, k, ch
    {
      && u.Valid() && k.Valid()
      && u.IsMonitor(m.handle) && u.monitors[m.handle.value].fd == fd && u.monitors[m.handle.value].receiving
      && epfd in k.epolls
      && events.Length == MaxEpollEvents
      && !ch.closed
    }

    ghost function Queue(u: Udev): seq<Record>
      reads this, m, u
      requires u.IsMonitor(m.handle)
    {
      u.monitors[m.handle.value].queue
    }

    /** The goroutine body, over the turns in script: it stops early when a turn returns
        (closing the channel, then the epoll descriptor, exactly once), and otherwise
        leaves everything open when the script ends. What it sends, what stays queued and
        whether it returned are exactly Pumped's. */
    method Run(u: Udev, k: Kernel, script: seq<Step>) returns (exited: bool)
      requires Ready(u, k) && ch.items == [] && ch.sent == [] && Fits(script) && ArrivalsWellFormed(script)
      modifies u`monitors, u`objs, u`next, ch, events, k`epolls, k`closed
      ensures u.Valid() && k.Valid()
      ensures var s := old(u.monitors)[m.handle.value];
              var o := Pumped(fd, s.installed, Outcome([], s.queue, 0, false), script);
              && exited == o.exited
              && ch.sent == o.sent
              && u.monitors == old(u.monitors)[m.handle.value := s.(queue := o.queue)]
      ensures exited ==> ch.closed && k.closed == old(k.closed) + [epfd] && k.epolls == old(k.epolls) - {epfd}
      ensures !exited ==> Ready(u, k) && k.closed == old(k.closed) && k.epolls == old(k.epolls)
      ensures |ch.items| == |ch.sent| && u.next == old(u.next) + |ch.sent|
      ensures u.objs == Extend(old(u.objs), old(u.next), ch.sent)
      ensures Delivered(ch.items, ch.sent, u.objs, old(u.next))
      ensures Keeps(old(u.objs), u.objs)
    {
      ghost var st := RunStart(m.handle.value, u.monitors, u.objs, u.next, k.closed, k.epolls);
      assert forall id :: id in st.objs ==> id < st.next by {
        forall id | id in st.objs
          ensures id < st.next
        {
          assert u.ObjOk(id);
        }
      }
      ghost var o;
      exited, o := Loop(u, k, script, st);
      if exited {
        ch.Close();
        k.Close(epfd);
      }
      Deliveries(st.objs, st.next, ch.items, ch.sent);
    }

    /** The pump loop itself, up to the return: one turn per step of the script until the
        goroutine returns or the script runs out. */
    method Loop(u: Udev, k: Kernel, script: seq<Step>, ghost st: RunStart) returns (exited: bool, ghost o: Outcome)
      requires st.mh in st.monitors
      requires Running(u, k, st, Outcome([], st.monitors[st.mh].queue, 0, false))
      requires Fits(script) && ArrivalsWellFormed(script)
      modifies u`monitors, u`objs, u`next, ch, events
      ensures o == Pumped(fd, st.monitors[st.mh].installed, Outcome([], st.monitors[st.mh].queue, 0, false), script)
      ensures exited == o.exited && Running(u, k, st, o)
    {
      ghost var s0 := st.monitors[st.mh];
      ghost var o0 := Outcome([], s0.queue, 0, false);
      o := o0;
      var i := 0;
      exited := false;
      while i < |script| && !exited
        invariant 0 <= i <= |script|
        invariant o == Pumped(fd, s0.installed, o0, script[..i]) && exited == o.exited
        invariant Running(u, k, st, o)
      {
        PumpedSnoc(fd, s0.installed, o0, script, i);
        exited := Advance(u, k, script[i], st, o);
        o := Effect(fd, s0.installed, o, script[i]);
        i := i + 1;
      }
      if exited {
        NothingAfterExit(fd, s0.installed, o0, script[..i], script[i..]);
        assert script[..i] + script[i..] == script;
      } else {
        assert script[..i] == script;
      }
    }

    /** The pump loop's invariant after a run with outcome o: the monitor's queue is o's,
        each record sent has its own new object, and the channel holds one device per
        record sent, numbered from st.next; the kernel is as it was. */
    ghost predicate Running(u: Udev, k: Kernel, st: RunStart, o: Outcome)
      reads this, m, u, k, ch, ch.items
    {
      && Ready(u, k) && m.handle == Some(st.mh) && st.mh in st.monitors
      && ch.sent == o.sent
      && u.monitors == st.monitors[st.mh := st.monitors[st.mh].(queue := o.queue)]
      && k.closed == st.closed && k.epolls == st.epolls
      && u.objs == Extend(st.objs, st.next, ch.sent) && u.next == st.next + |ch.sent|
      && |ch.items| == |ch.sent| && Numbered(ch.items, 0, st.next)
    }

    /** The body of the pump loop: one turn, taking the outcome o to its effect. */
    method Advance(u: Udev, k: Kernel, s: Step, ghost st: RunStart, ghost o: Outcome) returns (exit: bool)
      requires Running(u, k, st, o) && !o.exited && AllWellFormed(s.arrivals)
      requires s.wait.Ready? ==> |s.wait.events| <= MaxEpollEvents
      modifies u`monitors, u`objs, u`next, ch, events
      ensures var e := Effect(fd, st.monitors[st.mh].installed, o, s);
              exit == e.exited && Running(u, k, st, e)
    {
      ghost var items1, objs1, next1, sent1, ms1 := ch.items, u.objs, u.next, ch.sent, u.monitors;
      exit := Turn(u, k, s, o);
      ghost var e := Effect(fd, st.monitors[st.mh].installed, o, s);
      UpdateTwice(st.monitors, st.mh, st.monitors[st.mh].(queue := o.queue), st.monitors[st.mh].(queue := e.queue));
      assert Numbered(items1, 0, st.next);
      NumberedJoin(items1, ch.items, 0, st.next, next1);
      ExtendAppendAt(st.objs, st.next, sent1, objs1, next1, ch.sent[|sent1|..]);
      assert sent1 + ch.sent[|sent1|..] == ch.sent;
    }

    /** One turn of the loop: the kernel queues what arrived, then epoll_wait reports.
        EINTR goes round again at once; any other error returns; after a successful wait a
        done context returns before any event is looked at; otherwise the events are
        processed. */
    method Turn(u: Udev, k: Kernel, s: Step, ghost o: Outcome) returns (exit: bool)
      requires Ready(u, k) && AllWellFormed(s.arrivals)
      requires s.wait.Ready? ==> |s.wait.events| <= MaxEpollEvents
      requires !o.exited && o.sent == ch.sent && o.queue == Queue(u)
      modifies u`monitors, u`objs, u`next, ch, events
      ensures Ready(u, k) && m.handle == old(m.handle)
      ensures var e := Effect(fd, old(u.monitors)[m.handle.value].installed, o, s);
              && exit == e.exited && ch.sent == e.sent
              && u.monitors == old(u.monitors)[m.handle.value := old(u.monitors)[m.handle.value].(queue := e.queue)]
      ensures |old(ch.sent)| <= |ch.sent|
      ensures u.objs == Extend(old(u.objs), old(u.next), ch.sent[|old(ch.sent)|..])
      ensures u.next == old(u.next) + (|ch.sent| - |old(ch.sent)|)
      ensures |ch.items| == |old(ch.items)| + (|ch.sent| - |old(ch.sent)|) && ch.items[..|old(ch.items)|] == old(ch.items)
      ensures Numbered(ch.items, |old(ch.items)|, old(u.next))
    {
      ghost var sent0 := ch.sent;
      u.Arrive(m.handle, s.arrivals);
      var n, err, failed := k.EpollWait(epfd, events, s.wait);
      if failed {
        if err == Errno(EINTR) {
          return false;
        }
        return true;
      }
      if s.done {
        return true;
      }
      ProcessReady(u, k, n, s.wait.events);
      assert ch.sent[|sent0|..] == ProcessEvents(fd, s.wait.events, o.queue + Admit(old(u.monitors)[m.handle.value].installed, s.arrivals)).0;
      return false;
    }

    /** The `for ev` loop over the n events epoll_wait reported: each one for fd with
        EPOLLIN drains the socket into the channel. */
    method ProcessReady(u: Udev, k: Kernel, n: int, ghost evs: seq<EpollEvent>)
      requires Ready(u, k) && 0 <= n <= events.Length && events[..n] == evs
      modifies u`monitors, u`objs, u`next, ch
      ensures Ready(u, k)
      ensures var r := ProcessEvents(fd, evs, old(Queue(u)));
              && ch.sent == old(ch.sent) + r.0
              && u.monitors == old(u.monitors)[m.handle.value := old(u.monitors)[m.handle.value].(queue := r.1)]
              && u.objs == Extend(old(u.objs), old(u.next), r.0) && u.next == old(u.next) + |r.0|
              && |ch.items| == |old(ch.items)| + |r.0|
      ensures ch.items[..|old(ch.items)|] == old(ch.items)
      ensures Numbered(ch.items, |old(ch.items)|, old(u.next))
    {
      ghost var mh := m.handle.value;
      ghost var target := ProcessEvents(fd, evs, Queue(u));
      ghost var acc: seq<Record> := [];
      ghost var objs0, next0, n0 := u.objs, u.next, |ch.items|;
      assert evs[0..] == evs;
      var ev := 0;
      while ev < n
        invariant 0 <= ev <= n
        invariant Ready(u, k) && m.handle == Some(mh)
        invariant ch.sent == old(ch.sent) + acc
        invariant acc + ProcessEvents(fd, evs[ev..], Queue(u)).0 == target.0
        invariant ProcessEvents(fd, evs[ev..], Queue(u)).1 == target.1
        invariant u.monitors == old(u.monitors)[mh := old(u.monitors)[mh].(queue := Queue(u))]
        invariant u.objs == Extend(objs0, next0, acc) && u.next == next0 + |acc|
        invariant |ch.items| == n0 + |acc| && ch.items[..n0] == old(ch.items)
        invariant Numbered(ch.items, n0, next0)
      {
        ProcessEventsAt(fd, evs, ev, Queue(u));
        if events[ev].fd == fd {
          if events[ev].events & EPOLLIN != 0 {
            ghost var q := Queue(u);
            ghost var rest := ProcessEvents(fd, evs[ev + 1..], []);
            ghost var items1, objs1, next1 := ch.items, u.objs, u.next;
            Drain(u, k);
            assert Numbered(items1, n0, next0);
            NumberedJoin(items1, ch.items, n0, next0, next1);
            ExtendAppendAt(objs0, next0, acc, objs1, next1, q);
            assert ch.items[..n0] == items1[..n0];
            AppendAssoc(acc, q, rest.0);
            AppendAssoc(old(ch.sent), acc, q);
            acc := acc + q;
          }
        }
        ev := ev + 1;
      }
      assert acc + [] == acc;
    }

    /** Where the drain loop stands, started from st, with got received so far and d the
        device received last and not yet sent (null once nothing was left): the monitor's
        queue is what remains of st's, each received record has its own new object, the
        channel holds st's devices followed by the sent ones, numbered from st.next. */
    ghost predicate Draining(u: Udev, k: Kernel, d: Device?, st: DrainStart, got: seq<Record>)
      reads this, m, u, k, ch, ch.items, d
    {
      && Ready(u, k) && m.handle == Some(st.mh) && st.mh in st.monitors
      && u.monitors == st.monitors[st.mh := st.monitors[st.mh].(queue := Queue(u))]
      && Drained(st.queue, st.objs, st.next, st.sent, got, Queue(u), u.objs, u.next, ch.sent, d != null)
      && (d != null ==> d.handle == Some(u.next - 1) && u.View(d.handle) == got[|got| - 1])
      && |ch.items| == |st.items| + |got| - (if d != null then 1 else 0)
      && |st.items| <= |ch.items| && ch.items[..|st.items|] == st.items
      && Numbered(ch.items, |st.items|, st.next)
    }

    /** The body of the drain loop and its step: ch <- d, then d = m.receiveDevice(). */
    method Forward(u: Udev, k: Kernel, d: Device, ghost st: DrainStart, ghost got: seq<Record>)
      returns (d': Device?, ghost got': seq<Record>)
      requires Draining(u, k, d, st, got)
      modifies u`monitors, u`objs, u`next, ch
      ensures Draining(u, k, d', st, got')
      ensures |Queue(u)| + (if d' != null then 1 else 0) <= old(|Queue(u)|)
    {
      ghost var q, objs1, next1, sent1, items1 := Queue(u), u.objs, u.next, ch.sent, ch.items;
      NumberedSnoc(items1, d, |st.items|, st.next);
      assert (items1 + [d])[..|st.items|] == st.items;
      ch.Send(d, u, got[|got| - 1]);
      d' := m.ReceiveDevice(u);
      DrainStep(st.queue, st.objs, st.next, st.sent, got, q, objs1, next1, sent1, Queue(u), u.objs, u.next, ch.sent, d' != null);
      got' := if d' != null then got + [q[0]] else got;
      if d' != null {
        UpdateTwice(st.monitors, st.mh, st.monitors[st.mh].(queue := q), u.monitors[st.mh]);
      }
      assert ch.items == items1 + [d];
    }

    /** The drain loop: receive until nothing is left, sending each device as it comes. */
    method Drain(u: Udev, k: Kernel)
      requires Ready(u, k)
      modifies u`monitors, u`objs, u`next, ch
      ensures Ready(u, k)
      ensures ch.sent == old(ch.sent) + old(Queue(u))
      ensures u.monitors == old(u.monitors)[m.handle.value := old(u.monitors)[m.handle.value].(queue := [])]
      ensures u.objs == Extend(old(u.objs), old(u.next), old(Queue(u))) && u.next == old(u.next) + |old(Queue(u))|
      ensures |ch.items| == |old(ch.items)| + |old(Queue(u))| && ch.items[..|old(ch.items)|] == old(ch.items)
      ensures Numbered(ch.items, |old(ch.items)|, old(u.next))
    {
      ghost var st := DrainStart(m.handle.value, u.monitors, Queue(u), u.objs, u.next, ch.sent, ch.items);
      ghost var got: seq<Record> := [];
      var d := m.ReceiveDevice(u);
      if d != null {
        got := [st.queue[0]];
        ExtendSnoc(st.objs, st.next, [], st.queue[0]);
        assert st.queue == got + Queue(u);
      } else {
        assert got + st.queue == st.queue;
      }
      while d != null
        invariant Draining(u, k, d, st, got)
        decreases |Queue(u)| + (if d != null then 1 else 0)
      {
        d, got := Forward(u, k, d, st, got);
      }
      assert got + [] == got;
      assert ch.items[..|st.items|] == st.items;
    }
  }
}
