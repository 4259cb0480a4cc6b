# goudev, modelled in Dafny

goudev is a thin Go (cgo) binding over libudev. This project models the Go control code
around the C calls:

- the `Device` handle: its constructors with the `/sys` path rule, parent lookup, property
  lookup, the list-to-map conversions and the two enumeration filters;
- the `Devices` constructor facade;
- `Enumerate`: `Devices`, the order-preserving filter over a scanned list, and
  `Device.Children`, which is built on it;
- `Monitor`: the filter methods, `receiveDevice` and `DeviceChan`. `DeviceChan`'s setup chain
  is modelled imperatively. Its goroutine is the class `UdevMonitor.Pump`, proved against the
  step function `PumpSpec.Pumped`.

libudev is an abstract collaborator, class `Libudev.Udev`. It holds:

- a fixed device table standing for sysfs and the udev database;
- the live `udev_device` objects with their reference counts and cached parents;
- the state behind enumerator and monitor handles;
- a set `failing` that chooses which C calls fail.

The syscalls `DeviceChan` makes are class `Unix.Kernel`, with its own `failing` set.
`FilePath` models the lexical rules of Go's `filepath.Join` and `filepath.Clean` on rooted
paths.

Each Go object (`Device`, `Enumerate`, `Monitor`) is a Dafny class with its single pointer
field, written as `Option<nat>` (`None` is NULL). A string field of a `Record` that is
empty stands for one the device does not have (NULL in C). Errors are values of `UdevErrors.Error`.
They carry what the Go message is built from, and `Message` renders the text.

Modules and files:

| module | file |
|---|---|
| `Wrappers` | wrappers.dfy |
| `UdevErrors` | errors.dfy |
| `FilePath` | filepath.dfy |
| `Libudev` | libudev.dfy |
| `Unix` | unix.dfy |
| `UdevDevice` | device.dfy |
| `UdevDevices` | devices.dfy |
| `UdevEnumerate` | enumerate.dfy |
| `PumpSpec` | pumpspec.dfy |
| `UdevMonitor` | monitor.dfy |

Two points of the code's behaviour shape the model:

- `FilterBy`, `FilterByTag` and `RemoveFilter` call `udev_monitor_filter_update` straight
  after each add or remove (monitor.go:49-55, 64-70, 76-82). The abstract libudev keeps
  the staged and installed criteria apart, and the Go methods install after every change.
- The goroutine checks the context after each successful `epoll_wait` and before
  processing its events (monitor.go:154-161). A cancelled turn therefore sends nothing
  from that wait.

## Model

| member | source | states |
|---|---|---|
| UdevDevice.SysPathFor | device.go:49-52 | A path that starts with "/sys" as a string is passed unchanged. Any other path is joined under "/sys" and comes out clean. |
| UdevDevice.SysPathForResolves | device.go:50-52 | A path not starting with "/sys" becomes exactly the elements Clean keeps after "sys", rendered as a rooted path. |
| UdevDevice.SysPathForStaysUnderSys | device.go:50-52 | A path with no ".." element, once joined, is "/sys" or lies below "/sys/". |
| UdevDevice.SysPathForEmpty | device.go:50-52 | The empty path becomes "/sys". |
| UdevDevice.SysPathForClimbsOut | device.go:50-52 | The join is lexical: "../etc" becomes "/etc", outside /sys. |
| UdevDevice.SysPathForRejoins | device.go:50-52 | The prefix test is on strings, so normalising "/etc" again gives "/sys/etc". Normalisation is not idempotent. |
| UdevDevice.Names | device.go:181-218 | A name is in the set iff some entry carries it. |
| UdevDevice.LastValue | device.go:186-187 | The value is that of an entry with the name, and no later entry has the name: the last one wins. |
| UdevDevice.NewListEntryArray | device.go:168-179 | One entry per list node, with the same name and value, in list order. |
| UdevDevice.EntriesToMap | device.go:195-199 | The key set is the set of entry names, and each value is the last entry's value for that name. |
| UdevDevice.WithFilterPciParentChildren | device.go:256-268 | Accepts iff the syspath differs from the parent's and both PCI_SLOT_NAME and PCI_ID are non-empty. An accepted device has both properties and is never the parent. |
| UdevDevice.WithFilterBlockDevtype | device.go:270-274 | Accepts iff DEVTYPE equals the argument. With a non-empty argument an accepted device has DEVTYPE; with "" every device lacking DEVTYPE is accepted. |
| UdevDevice.Device.Free | device.go:24-28 | Takes a NULL handle or one naming a live object. A non-NULL handle is unreferenced once, which releases the cached parent chain. A NULL handle changes nothing. |
| UdevDevice.Device.FromName | device.go:34-47 | Stores the lookup's result. Returns no error iff the handle is set. The error names sysName before subsystem. A failed lookup changes no object; a successful one makes one new object with one reference. |
| UdevDevice.Device.FromSysPath | device.go:57-67 | The same for the lookup by syspath, with the "No device at" error naming the path. |
| UdevDevice.Device.FromPath | device.go:49-55 | FromSysPath on SysPathFor(path). A found device's syspath is that normalised path. A failed lookup changes no object and makes no identity. |
| UdevDevice.Device.Get | device.go:133-138 | "" when the device has no such property (or the handle is NULL). Otherwise the value of the first entry with that name. |
| UdevDevice.Device.Attributes | device.go:183-190 | Keys are the sysattr names; each value is what reading that attribute yields. |
| UdevDevice.Device.DeviceLinks | device.go:192-200 | Keys are the devlink names; values are the last entry values. |
| UdevDevice.Device.Properties | device.go:202-209 | Keys are the property names; values are the last entry values. |
| UdevDevice.Device.Tags | device.go:211-218 | Keys are the tag names; values are the last entry values. |
| UdevDevice.Device.Parent | device.go:220-230 | ErrNoParentDevice iff there is no parent (always for NULL). Otherwise a new Device on the parent object, which is not the child's. Its count is one more than before, or 2 for a parent object made by the lookup (the child's cache and the new Device), so it survives freeing the child. Every other object keeps its record and count; only the child changes, by caching the parent; the parent is the only object that can be new. |
| UdevDevice.Device.FindParent | device.go:232-252 | The same for the nearest ancestor matching the subsystem and the first device type, if one was given. The error case is iff no such ancestor exists. The ancestor's count is stated exactly in the same way, and every other object keeps its record and count. The only new objects are the parents the walk cached, all under identities not used before the call. |
| UdevDevices.FromName | devices.go:14-22 | (nil, err) exactly when the lookup fails, with Device.FromName's error and nothing made. Otherwise (dev, nil), dev holding a new object with the requested subsystem and sysname. |
| UdevDevices.FromPath | devices.go:24-30 | Normalises with the same SysPathFor as Device.FromPath, then behaves as FromSysPath on that path. |
| UdevDevices.FromSysPath | devices.go:32-40 | (nil, "No device at" path) exactly when the lookup fails. Otherwise (dev, nil) with dev's syspath being path. |
| UdevEnumerate.Listed | enumerate.go:35-40 | One lookup per listed syspath, in list order. |
| UdevEnumerate.KeptSnoc | enumerate.go:42-49 | One more listed device adds it to the result iff accepted, and adds one free iff it is rejected and non-NULL. |
| UdevEnumerate.KeptWithoutFilter | enumerate.go:42-49 | With a nil filter every listed device is kept, in list order, and nothing is freed. |
| UdevEnumerate.KeptExactlyAccepted | enumerate.go:42-49 | With a filter every kept device came from the list and is accepted, every accepted listed device is kept, and kept plus freed never exceeds the list. |
| UdevEnumerate.ScannedAreFound | enumerate.go:35-39 | A scanned syspath always names a device of the table, so no NULL device is made. |
| UdevEnumerate.ScanFromTable | enumerate.go:35-39 | Each scanned syspath is found in the table. |
| UdevEnumerate.Handles | enumerate.go:49 | The handles of the returned Devices, position by position. |
| UdevEnumerate.HandlesSnoc | enumerate.go:49 | Proof helper, no property of its own: appending a Device appends its handle. |
| UdevEnumerate.BuiltExtends | enumerate.go:38-49 | A new object under the next identity keeps what was already built and extends it by one handle. |
| UdevEnumerate.FreedExtends | enumerate.go:43-45 | Releasing new objects keeps every recorded release pointing at an identity made since the start and no longer alive. |
| UdevEnumerate.Enumerate.Free | enumerate.go:14-18 | Takes a NULL handle or a live enumerator. A non-NULL handle is unreferenced once. A NULL handle changes nothing. |
| UdevEnumerate.Enumerate.MatchParent | enumerate.go:21-27 | An error iff udev_enumerate_add_match_parent fails. On success the enumerator matches the parent's syspath; a NULL parent changes nothing. |
| UdevEnumerate.Enumerate.Devices | enumerate.go:30-53 | Fails iff scanning fails; then there is no slice, nothing is made and nothing freed. On success there is a slice (possibly empty). Its handles hold exactly the accepted listed devices in list order, one reference each. Every rejected device was made and freed: the releases are distinct, and an identity made during the call is released iff no returned handle holds it. No object is left alive that was not there before or is not held by a handle, and no older object is touched. |
| UdevEnumerate.Collect | enumerate.go:35-50 | The loop over the list establishes Progress for the whole list. |
| UdevEnumerate.Take | enumerate.go:36-49 | One turn of the loop extends Progress by one listed syspath: keep and append, or free. |
| UdevEnumerate.AccountKeep | enumerate.go:49 | Keeping a new device adds its identity to the handles, so no object leaks and no release is owed for it. |
| UdevEnumerate.AccountReject | enumerate.go:42-46 | Releasing a rejected device records its identity once, after every earlier release, and leaves no object behind. |
| UdevEnumerate.PrefixSnoc | enumerate.go:35 | Proof helper, no property of its own: extending the walked prefix of the list by one node. |
| UdevEnumerate.ReleaseFresh | enumerate.go:43-45 | Freeing a device just made with one reference leaves the objects as they were. |
| UdevEnumerate.ProgressStep | enumerate.go:36-49 | A kept device is held by the new handle; a rejected one is made and released. |
| UdevEnumerate.ProgressKeep | enumerate.go:49 | The kept case of one turn. |
| UdevEnumerate.ProgressReject | enumerate.go:42-46 | The rejected case of one turn. |
| UdevEnumerate.DropFresh | device.go:280 | Proof helper, no property of its own: freeing the enumerator Children made gives back the enumerators there were. |
| UdevEnumerate.ChildrenExcludeParent | device.go:287 | Every child handle names a live device whose syspath differs from the parent's. |
| UdevEnumerate.Children | device.go:276-288 | The enumerator is freed on every path. MatchParent's error is returned iff its call fails, with nothing made. The scan error is returned iff MatchParent succeeded and scanning fails. Otherwise the result is Devices with WithFilterPciParentChildren(d) over the parent-matched scan, and d itself is never among the children. |
| UdevEnumerate.ListChildren | device.go:280-287 | Devices with the PCI filter, then the deferred Free of the enumerator. There is no slice iff scanning fails. |
| UdevMonitor.Monitor.Free | monitor.go:23-27 | Takes a NULL handle or a live monitor. A non-NULL handle is unreferenced once. A NULL handle changes nothing. |
| UdevMonitor.Monitor.FilterBy | monitor.go:37-58 | The update runs only after a successful add. Each error names the call that failed, and nil iff both succeed. The criterion carries the first device type, and only when one was given. The filter is installed only when the update succeeds. |
| UdevMonitor.Monitor.FilterByTag | monitor.go:60-73 | The same chain with a tag criterion. |
| UdevMonitor.Monitor.RemoveFilter | monitor.go:75-85 | The same chain after removing every criterion. |
| UdevMonitor.Monitor.ReceiveDevice | monitor.go:87-96 | nil iff nothing is queued. Otherwise a new Device for the first queued uevent, which leaves the queue. |
| UdevMonitor.Monitor.DeviceChan | monitor.go:99-128 | enable_receiving, SetNonblock, EpollCreate1 and EpollCtl run in that order. The first failure returns no channel and its error, and no later step runs. On success the staged filter is installed, the fd is registered with exactly EPOLLIN\|EPOLLET, and a new channel and a 32-event buffer are handed to a ready Pump. |
| UdevMonitor.Watch | monitor.go:104-124 | The syscall half of DeviceChan, per WatchedAs. An epoll descriptor created before an EpollCtl failure stays open. |
| UdevMonitor.Channel.Send | monitor.go:165 | The consumer receives the device, after those sent before. |
| UdevMonitor.Channel.Close | monitor.go:134 | The consumer sees the stream end; nothing sent is lost. |
| UdevMonitor.Pump.Run | monitor.go:130-171 | What is sent, what stays queued and whether the goroutine returned are exactly Pumped's. On return the channel is closed and the epoll fd closed exactly once. Otherwise everything stays open and ready. The channel holds one device per record sent, in order. The j-th device holds a live object of its own for the j-th record, with one reference, under the j-th identity after those that existed. Every object that existed before is unchanged. |
| UdevMonitor.Pump.Loop | monitor.go:136-170 | The `for` loop up to the return: its outcome is Pumped of the whole script, and between turns the invariant Running holds. |
| UdevMonitor.Pump.Advance | monitor.go:136-169 | One turn takes Running for outcome o to Running for Effect of o. The queue, the objects and the numbered devices all follow the records sent. |
| UdevMonitor.Pump.Turn | monitor.go:136-169 | One loop turn is Effect. EINTR continues, another error returns, and a done context returns before any event is processed. The channel keeps its devices and gains one new device per record sent, numbered on from the next identity. The objects gain exactly one new object per record sent. |
| UdevMonitor.Pump.ProcessReady | monitor.go:161-169 | The `for ev` loop sends what ProcessEvents says and leaves its queue. Each record sent gets a new object and a new device on the channel, numbered in order, and earlier devices stay. |
| UdevMonitor.Pump.Forward | monitor.go:164-166 | One round of the drain: the pending device goes onto the channel, then the next one is received. The drain invariant Draining is kept, and the queue shrinks. |
| UdevMonitor.Pump.Drain | monitor.go:164-166 | Receives until nil and sends every queued device in FIFO order, leaving the queue empty. Each device sent holds its own new object for its record, under consecutive identities. Devices already on the channel stay. |
| UdevMonitor.DrainStep | monitor.go:164-166 | Sending the pending device and receiving the next keeps Drained: what was received is a prefix of the queue, and every received record is sent except the pending one. |
| UdevMonitor.ExtendAppend | monitor.go:164 | Receiving a and then b creates the same objects as receiving a + b. |
| UdevMonitor.ExtendHolds | monitor.go:164 | Receiving leaves every existing object unchanged. It adds exactly one object per record received, for that record with one reference, and nothing else. |
| UdevMonitor.NumberedJoin | monitor.go:165 | Two stretches of consecutively numbered devices, the second starting where the first ends, make one numbered stretch. |
| UdevMonitor.Deliveries | monitor.go:164-165 | Consecutively numbered devices, one per record received, each hold a live object of their own for their record. The objects that existed before are kept. |
| UdevMonitor.SplitHead | monitor.go:164 | Proof helper, no property of its own: sending the head of the queue and keeping the tail preserves sent followed by queued. |
| UdevMonitor.UpdateTwice | monitor.go:164 | Proof helper, no property of its own: two updates of one monitor's state amount to the last. |
| PumpSpec.CanonAll | monitor.go:136-169 | The representative of each step, position by position. |
| PumpSpec.ProcessEventsDrains | monitor.go:161-167 | Some event for the monitor fd with EPOLLIN drains the whole queue in order. Otherwise nothing is received. |
| PumpSpec.AdmitAppend | monitor.go:136-138 | The socket filter applies uevent by uevent, so it distributes over concatenation. |
| PumpSpec.ArrivalsAppend | monitor.go:136-138 | The uevents of two stretches of turns are those of the first followed by the second. |
| PumpSpec.ArrivalsFirst | monitor.go:136-138 | The uevents of the first k+1 turns are the first turn's followed by those of the next k. |
| PumpSpec.AppendAssoc | monitor.go:165 | Proof helper, no property of its own: concatenation of sent devices regroups freely. |
| PumpSpec.Exits | monitor.go:141-159 | A turn ends the goroutine iff its wait fails other than with EINTR, or succeeds with the context done. EINTR never ends it, nor does a successful wait with the context live. |
| PumpSpec.ProcessEvents | monitor.go:161-169 | Splits the queue into what is sent and what stays, in order, and one of the two is empty: a pass sends everything queued or nothing. |
| PumpSpec.Effect | monitor.go:138-169 | One turn makes exactly one wait, only appends to what was sent, and returns iff Exits. |
| PumpSpec.Pumped | monitor.go:136-170 | A run over a script makes at most one wait per turn and only appends to what was sent. After the goroutine returned, nothing changes. |
| PumpSpec.EffectConserves | monitor.go:136-169 | One turn loses or duplicates nothing: sent followed by queued grows by exactly the uevents that pass the filter. |
| PumpSpec.PumpedAppend | monitor.go:136 | Running a script in two parts is running it whole. |
| PumpSpec.NothingAfterExit | monitor.go:141-159 | After the goroutine returns, later waits and arrivals change nothing; in particular nothing more is sent. |
| PumpSpec.PumpedProgress | monitor.go:136-138 | A goroutine still running after the script made one wait for every turn of it. |
| PumpSpec.PumpedConserves | monitor.go:136-169 | Sent followed by still-queued equals every uevent that passed the filter during the turns taken, in arrival order. |
| PumpSpec.Splice | monitor.go:165 | The regrouping of one turn in PumpedConserves. |
| PumpSpec.CanonEffect | monitor.go:141-167 | Steps with one representative act alike. EINTR is a no-op turn whatever the context. Another error closes exactly as cancellation does. Only whether an event is for the fd with EPOLLIN matters. |
| PumpSpec.PumpedCanon | monitor.go:136-169 | Replacing every step by its representative does not change the run. |
| PumpSpec.ExitSendsNothing | monitor.go:141-159 | A turn that ends the goroutine sends nothing from its wait, even when its events would have woken the loop. |
| PumpSpec.EmptyWakeSendsNothing | monitor.go:161-167 | A wake with an empty queue sends nothing and the loop goes on. |
| PumpSpec.PumpedSnoc | monitor.go:136 | Running one more turn after a prefix is Effect on the prefix's outcome, unless the goroutine already returned. |
| PumpSpec.ProcessEventsAt | monitor.go:161-162 | Unfolds the event loop at position ev. |
| UdevErrors.Message | device.go:15-17 | The failed C call's name and a not-found path can be read back out of their messages; the by-name text has the sysname right after "No device " and ends with the subsystem. |
| FilePath.Fields | device.go:51 | The split of a string on separators has at least one piece. |
| FilePath.Clean | device.go:51 | The result is clean: the root alone or the root followed by normal elements. |
| FilePath.Join | device.go:51 | Join of a rooted directory and an element is clean. |
| FilePath.FieldsHaveNoSeparator | device.go:51 | No piece of a split contains a separator. |
| FilePath.FieldsOfWordThen | device.go:51 | A word without separators joins the first piece of what follows. |
| FilePath.FieldsAfterSeparator | device.go:51 | A leading separator contributes an empty first piece. |
| FilePath.FieldsOfRooted | device.go:51 | Splitting a rendered path gives back its elements. |
| FilePath.ResolveKeepsNormal | device.go:51 | Clean keeps only normal elements. |
| FilePath.ResolveNormal | device.go:51 | Normal elements pass through Clean's rule unchanged. |
| FilePath.ResolveExtends | device.go:51 | Without ".." nothing already kept is removed. |
| FilePath.CleanIdempotent | device.go:51 | Cleaning a clean path changes nothing. |
| FilePath.RootedSingleSeparators | device.go:51 | A rendered path has no doubled separator and no trailing one. |
| FilePath.CleanSingleSeparators | device.go:51 | Clean's result has no doubled separator, and no trailing one unless it is the root. |
| Libudev.Lookup | device.go:61 | The device found has that syspath and is in the table. None iff no device has that syspath. |
| Libudev.LookupByName | device.go:41 | The device found has that subsystem and sysname. None iff none has both. |
| Libudev.PropertyValue | device.go:137 | "" when no entry has the name; otherwise the first such entry's value. |
| Libudev.FindAncestor | device.go:244 | A found ancestor is in the table and matches the subsystem and the device type. An ancestor without a subsystem, or without a devtype when one is asked for, never matches, even for "". |
| Libudev.Release | device.go:25 | Unref never adds objects and keeps records and cached parents. It lowers a count by at most one, and every object with two or more references survives. |
| Libudev.Admit | monitor.go:53 | The queue holds exactly the sent uevents that pass the installed filter. |
| Libudev.Scan | enumerate.go:31 | Every listed syspath is under the parent, and every table device under the parent is listed. |
| Libudev.Udev.Unref | device.go:25 | The objects become Release of the old ones, and the call is recorded. |
| Libudev.Udev.Ref | device.go:228 | One more reference on the object and no other change. |
| Libudev.Udev.GetParent | device.go:221 | Returns the parent iff the record has one. The parent object is cached on the child, borrowed, and nothing else changes. |
| Libudev.Udev.ReceiveDevice | monitor.go:88 | NULL iff nothing is queued; otherwise a new object for the queue head, which is popped. |
| Libudev.Udev.MonitorEnableReceiving | monitor.go:100 | Succeeds iff the handle is a live monitor and the call does not fail. Success installs the staged filter and starts receiving. Failure changes nothing. |
| Libudev.Udev.Arrive | monitor.go:138 | While receiving, the uevents that pass the installed filter join the queue in order. |
| Unix.Kernel.SetNonblock | monitor.go:106 | Succeeds iff not failing; then the fd is non-blocking. |
| Unix.Kernel.EpollCreate1 | monitor.go:111 | Succeeds iff not failing; then there is a new descriptor with an empty interest list. |
| Unix.Kernel.EpollCtlAdd | monitor.go:122 | Succeeds iff the epoll fd is open and the call is not failing; then the fd is registered with the event. |
| Unix.Kernel.EpollWait | monitor.go:138 | Reports the scripted outcome: the error, or the n ready events in the buffer. |
| Unix.Kernel.Close | monitor.go:132 | The epoll descriptor is closed and the close recorded. |

## Left out

- core.go (NewContext, Context.Free, NewEnumerate, NewMonitor) is a set of single C-call wrappers. `Libudev.Udev.NewEnumerate`, `NewMonitor` and the constructor stand for them.
- Monitor.SetReceiveBufferSize, Device.SetAttribute and the single-call getters (Action, DeviceNode, DeviceNumber, HasTag, IsInitialized, SequenceNumber, TimeSinceInitialized and the like) are left out. Each is one foreign call with no Go logic.
- Devnum's major/minor encoding is not part of this model; its defining source is not among the files modelled.
- libudev internals are abstract: netlink, the kernel BPF filter, sysfs reads and the udev database. The abstract filter (`Libudev.Passes`) is an approximation of libudev's.
- Goroutine concurrency, channel blocking and backpressure are left out. The goroutine runs sequentially over a script of turns, and every channel send completes at once.
- UdevMonitor.Pump.Run: `epollTimeout` is carried but unused, because the script decides what each wait reports.
- UdevMonitor.Pump.Run: uevents arrive only between waits, not during a drain.
- UdevMonitor.Pump.Run: the context's Done channel is a per-turn flag in the script.
- UdevMonitor.Pump.Run requires a channel on which nothing has been sent yet, as DeviceChan makes it.
- UdevMonitor.Channel records, in ghost state, the device records sent; the Go channel carries only the pointers.
- Go's `filepath.Join`/`Clean` are modelled only for a rooted first argument, which is the only way the code calls them.
- C string conversion (CString, GoString, free) is left out; a NULL C string reads as "".
- UdevDevice.Device.Free, UdevEnumerate.Enumerate.Free and UdevMonitor.Monitor.Free require a NULL handle or a live object, because Go does not clear the pointer and a second Free would be a use after free in C. A second Free of a Device whose object is still alive through another reference is not ruled out, because libudev counts references, not owners.
- Libudev.Udev.Unref, EnumerateUnref and MonitorUnref require a live object for the same reason.
- UdevEnumerate.Accepts, Kept and Freed are specification functions with no contract of their own. KeptSnoc, KeptWithoutFilter and KeptExactlyAccepted state their properties.
- Libudev.FindAncestor: a SUBSYSTEM or DEVTYPE that is present but empty counts as absent, because a `Record` does not tell the two apart.
- Libudev.Udev.MonitorEnableReceiving: installing the filter while enabling cannot fail on its own; the one `EnableReceiving` entry in `failing` stands for every way the call fails.
- Libudev.Udev.ReceiveDevice: a receive never fails while datagrams are queued, so NULL means the queue is empty. In C a failed receive also returns NULL and the datagrams stay; monitor.go:164 then ends the drain early, and with EPOLLET the rest waits for the next edge. The drain-to-exhaustion results (`UdevMonitor.Monitor.ReceiveDevice`, `UdevMonitor.Pump.Drain` leaving the queue empty, `PumpSpec.ProcessEventsDrains`, `PumpSpec.PumpedConserves`) hold under this assumption.
- UdevEnumerate.Enumerate.Devices: a filter is a pure predicate on the device's record. A Go `FilterFn` is any closure and may keep state or call methods on the device; one that calls `Parent()` and then rejects the device would leave a parent object no returned handle holds, which the no-leak clause rules out. The package's own filters, `WithFilterPciParentChildren` and `WithFilterBlockDevtype`, are pure.
- Integer widths are not modelled. `int32(fd)` in the epoll registration is taken as the fd itself.
