/**
 * An abstract libudev: the C library the Go package wraps, reduced to what the Go code can
 * observe. The device table stands for sysfs and the udev database; `objs` holds the live
 * udev_device objects with their reference counts; enumerators and monitors hold the state
 * behind udev_enumerate and udev_monitor handles. Which C calls fail is chosen by `failing`.
 */
module Libudev {
  import opened Wrappers

  datatype ListEntry = ListEntry(name: string, value: string)

  /** One device as libudev reports it: the sysfs view of it, or what one uevent carried. */
  datatype Record = Record(
    syspath: string,
    sysname: string,
    subsystem: string,
    devtype: string,
    action: string,
    parent: Option<string>,            // syspath of the parent device, if any
    properties: seq<ListEntry>,        // udev_device_get_properties_list_entry
    sysattrs: seq<ListEntry>,          // udev_device_get_sysattr_list_entry
    attrValues: map<string, string>,   // what reading each sysfs attribute yields
    devlinks: seq<ListEntry>,          // udev_device_get_devlinks_list_entry
    tags: seq<ListEntry>)              // udev_device_get_tags_list_entry

  /** What every getter reports for a NULL device: NULL strings and empty lists. */
  const NoDevice: Record := Record("", "", "", "", "", None, [], [], map[], [], [])

  /** In sysfs a parent's path is a proper prefix of its child's, so it is shorter. */
  predicate WellFormed(r: Record) {
    r.parent.Some? ==> |r.parent.value| < |r.syspath|
  }

  predicate AllWellFormed(rs: seq<Record>) {
    forall i :: 0 <= i < |rs| ==> WellFormed(rs[i])
  }

  /** udev_device_new_from_syspath's lookup: the first device with that syspath. */
  function Lookup(table: seq<Record>, path: string): (r: Option<Record>)
    ensures r.Some? ==> r.value in table && r.value.syspath == path
    ensures r.None? <==> forall i :: 0 <= i < |table| ==> table[i].syspath != path
  {
    if table == [] then None
    else if table[0].syspath == path then Some(table[0])
    else Lookup(table[1..], path)
  }

  /** udev_device_new_from_subsystem_sysname's lookup. */
  function LookupByName(table: seq<Record>, subsystem: string, sysname: string): (r: Option<Record>)
    ensures r.Some? ==> r.value in table && r.value.subsystem == subsystem && r.value.sysname == sysname
    ensures r.None? <==> forall i :: 0 <= i < |table| ==>
                           !(table[i].subsystem == subsystem && table[i].sysname == sysname)
  {
    if table == [] then None
    else if table[0].subsystem == subsystem && table[0].sysname == sysname then Some(table[0])
    else LookupByName(table[1..], subsystem, sysname)
  }

  /** udev_device_get_property_value: the value of the first entry with that name, and
      the empty string (Go's GoString of NULL) when no entry has it. */
  function PropertyValue(entries: seq<ListEntry>, name: string): (v: string)
    ensures || (v == "" && forall i :: 0 <= i < |entries| ==> entries[i].name != name)
            || exists i :: 0 <= i < |entries| && entries[i].name == name && entries[i].value == v &&
                 forall j :: 0 <= j < i ==> entries[j].name != name
  {
    if entries == [] then ""
    else if entries[0].name == name then entries[0].value
    else
      var v := PropertyValue(entries[1..], name);
      assert forall i :: 1 <= i < |entries| ==> entries[i] == entries[1..][i - 1];
      v
  }

  /** udev_device_get_sysattr_value, with NULL read as the empty string. */
  function AttrValue(r: Record, name: string): string {
    if name in r.attrValues then r.attrValues[name] else ""
  }

  /** The record's subsystem is the one asked for and, when a devtype is asked for, so is
      its devtype. An empty field in a record is one the device does not have (NULL in C),
      which matches nothing, not even "". */
  predicate MatchesSubsystemDevtype(r: Record, subsystem: string, devtype: Option<string>) {
    && r.subsystem != "" && r.subsystem == subsystem
    && (devtype.None? || (r.devtype != "" && r.devtype == devtype.value))
  }

  /** udev_device_get_parent_with_subsystem_devtype: the nearest proper ancestor that
      matches, walking parent links through the device table. */
  function FindAncestor(table: seq<Record>, r: Record, subsystem: string, devtype: Option<string>)
    : (a: Option<Record>)
    requires AllWellFormed(table) && WellFormed(r)
    ensures a.Some? ==> a.value in table && MatchesSubsystemDevtype(a.value, subsystem, devtype)
    decreases |r.syspath|
  {
    if r.parent.None? then None
    else
      match Lookup(table, r.parent.value)
      case None => None
      case Some(p) =>
        if MatchesSubsystemDevtype(p, subsystem, devtype) then Some(p)
        else FindAncestor(table, p, subsystem, devtype)
  }

  /** A udev_device object: its data, its reference count and the parent object it caches
      (and holds one reference on) once udev_device_get_parent has been asked for it. */
  datatype Obj = Obj(rec: Record, refs: nat, parent: Option<nat>)

  /** udev_device_unref: drop one reference; an object that loses its last reference is
      destroyed and drops the reference it held on its cached parent. */
  function Release(objs: map<nat, Obj>, h: nat): (r: map<nat, Obj>)
    ensures r.Keys <= objs.Keys
    ensures forall id :: id in r ==>
              r[id].rec == objs[id].rec && r[id].parent == objs[id].parent &&
              objs[id].refs - 1 <= r[id].refs <= objs[id].refs
    ensures forall id :: id in objs && objs[id].refs >= 2 ==> id in r
    ensures forall id :: id in r && objs[id].refs >= 1 ==> r[id].refs >= 1
    decreases objs.Keys
  {
    if h !in objs then objs
    else if objs[h].refs >= 2 then objs[h := objs[h].(refs := objs[h].refs - 1)]
    else
      match objs[h].parent
      case None => objs - {h}
      case Some(p) => Release(objs - {h}, p)
  }

  datatype Criterion = SubsystemDevtype(subsystem: string, devtype: Option<string>) | Tag(tag: string)

  predicate HasTag(r: Record, tag: string) {
    exists i :: 0 <= i < |r.tags| && r.tags[i].name == tag
  }

  /** The socket filter libudev installs: with subsystem criteria a device must match one of
      them, and with tag criteria it must carry one of the tags. */
  predicate Passes(installed: seq<Criterion>, r: Record) {
    && ((forall i :: 0 <= i < |installed| ==> !installed[i].SubsystemDevtype?) ||
        exists i :: 0 <= i < |installed| && installed[i].SubsystemDevtype? &&
          MatchesSubsystemDevtype(r, installed[i].subsystem, installed[i].devtype))
    && ((forall i :: 0 <= i < |installed| ==> !installed[i].Tag?) ||
        exists i :: 0 <= i < |installed| && installed[i].Tag? && HasTag(r, installed[i].tag))
  }

  /** The uevents that reach the socket's receive queue, in the order the kernel sent them. */
  function Admit(installed: seq<Criterion>, rs: seq<Record>): (q: seq<Record>)
    ensures forall i :: 0 <= i < |q| ==> Passes(installed, q[i])
    ensures forall r :: r in rs && Passes(installed, r) ==> r in q
    ensures forall r :: r in q ==> r in rs
  {
    if rs == [] then []
    else (if Passes(installed, rs[0]) then [rs[0]] else []) + Admit(installed, rs[1..])
  }

  datatype MonitorState = MonitorState(
    fd: int,
    receiving: bool,
    staged: seq<Criterion>,      // added by the filter_add calls
    installed: seq<Criterion>,   // what filter_update last put on the socket
    queue: seq<Record>)          // uevents waiting in the socket's receive buffer

  /** A device whose syspath is the parent's own or lies below it (libudev's match_parent). */
  predicate Under(parent: Option<string>, path: string) {
    parent.None? || path == parent.value || parent.value + "/" <= path
  }

  /** udev_enumerate_scan_devices: the syspaths of the devices that match, in table order. */
  function Scan(table: seq<Record>, parent: Option<string>): (paths: seq<string>)
    ensures forall i :: 0 <= i < |paths| ==> Under(parent, paths[i])
    ensures forall i :: 0 <= i < |table| && Under(parent, table[i].syspath) ==> table[i].syspath in paths
  {
    if table == [] then []
    else
      var rest := Scan(table[1..], parent);
      assert forall i :: 1 <= i < |table| ==> table[i] == table[1..][i - 1];
      (if Under(parent, table[0].syspath) then [table[0].syspath] else []) + rest
  }

  datatype Enumerator = Enumerator(matchParent: Option<string>, list: seq<string>)

  /** The C calls whose failure the Go code checks. */
  datatype Call =
    | EnableReceiving
    | FilterAddMatchSubsystemDevtype
    | FilterAddMatchTag
    | FilterUpdate
    | FilterRemove
    | AddMatchParent
    | ScanDevices

  class Udev {
    const sysfs: seq<Record>
    var failing: set<Call>
    var objs: map<nat, Obj>
    var next: nat                    // the next object identity to hand out
    ghost var released: seq<nat>     // every udev_device_unref call, in order
    var enumerators: map<nat, Enumerator>
    var monitors: map<nat, MonitorState>

    ghost predicate ObjOk(id: nat)
      reads this
      requires id in objs
    {
      var o := objs[id];
      && id < next
      && o.refs >= 1
      && WellFormed(o.rec)
      && (o.parent.Some? ==>
            && o.parent.value < next
            && o.rec.parent.Some?
            && Lookup(sysfs, o.rec.parent.value).Some?
            && (o.parent.value in objs ==> objs[o.parent.value].rec == Lookup(sysfs, o.rec.parent.value).value))
    }

    ghost predicate Valid()
      reads this
    {
      && AllWellFormed(sysfs)
      && (forall id :: id in objs ==> ObjOk(id))
      && (forall id :: id in enumerators ==> id < next)
      && (forall id :: id in monitors ==> id < next && AllWellFormed(monitors[id].queue))
    }

    constructor (sysfs: seq<Record>, failing: set<Call>)
      requires AllWellFormed(sysfs)
      ensures Valid()
      ensures this.sysfs == sysfs && this.failing == failing
      ensures objs == map[] && enumerators == map[] && monitors == map[] && released == []
    {
      this.sysfs := sysfs;
      this.failing := failing;
      objs, next, released := map[], 0, [];
      enumerators, monitors := map[], map[];
    }

    /** The data behind a device pointer; a NULL pointer reads as NoDevice. */
    function View(h: Option<nat>): Record
      reads this
    {
      if h.Some? && h.value in objs then objs[h.value].rec else NoDevice
    }

    function ParentRecord(r: Record): Option<Record> {
      if r.parent.Some? then Lookup(sysfs, r.parent.value) else None
    }

    /** A new udev_device holding one reference, owned by the caller. */
    method Alloc(rec: Record) returns (id: nat)
      requires Valid() && WellFormed(rec)
      modifies this`objs, this`next
      ensures Valid()
      ensures id == old(next) && id !in old(objs) && next == old(next) + 1
      ensures objs == old(objs)[id := Obj(rec, 1, None)]
    {
      id := next;
      objs := objs[id := Obj(rec, 1, None)];
      next := next + 1;
      assert forall k :: k in objs && k != id ==> objs[k] == old(objs)[k];
    }

    method NewFromSyspath(path: string) returns (h: Option<nat>)
      requires Valid()
      modifies this`objs, this`next
      ensures Valid()
      ensures Lookup(sysfs, path).None? ==> h.None? && objs == old(objs) && next == old(next)
      ensures Lookup(sysfs, path).Some? ==>
                h == Some(old(next)) && old(next) !in old(objs) && next == old(next) + 1 &&
                objs == old(objs)[old(next) := Obj(Lookup(sysfs, path).value, 1, None)]
    {
      var r := Lookup(sysfs, path);
      if r.None? {
        return None;
      }
      var id := Alloc(r.value);
      h := Some(id);
    }

    method NewFromSubsystemSysname(subsystem: string, sysname: string) returns (h: Option<nat>)
      requires Valid()
      modifies this`objs, this`next
      ensures Valid()
      ensures LookupByName(sysfs, subsystem, sysname).None? ==> h.None? && objs == old(objs) && next == old(next)
      ensures LookupByName(sysfs, subsystem, sysname).Some? ==>
                h == Some(old(next)) && old(next) !in old(objs) && next == old(next) + 1 &&
                objs == old(objs)[old(next) := Obj(LookupByName(sysfs, subsystem, sysname).value, 1, None)]
    {
      var r := LookupByName(sysfs, subsystem, sysname);
      if r.None? {
        return None;
      }
      var id := Alloc(r.value);
      h := Some(id);
    }

    /** udev_device_ref. */
    method Ref(h: nat)
      requires Valid() && h in objs
      modifies this`objs
      ensures Valid()
      ensures objs == old(objs)[h := old(objs)[h].(refs := old(objs)[h].refs + 1)]
    {
      objs := objs[h := objs[h].(refs := objs[h].refs + 1)];
    }

    /** udev_device_unref, including the release of the cached parent chain. */
    method Unref(h: nat)
      requires Valid() && h in objs
      modifies this`objs, this`released
      ensures Valid()
      ensures objs == Release(old(objs), h)
      ensures released == old(released) + [h]
    {
      released := released + [h];
      objs := Release(objs, h);
      assert forall id :: id in objs ==> ObjOk(id) by {
        forall id | id in objs ensures ObjOk(id) {
          assert old(ObjOk(id));
        }
      }
    }

    /** udev_device_get_parent: a borrowed pointer to the parent object, which the child
        caches and keeps alive with the reference it holds on it. */
    method GetParent(h: nat) returns (p: Option<nat>)
      requires Valid() && h in objs
      modifies this`objs, this`next
      ensures Valid()
      ensures p.None? <==> ParentRecord(old(objs)[h].rec).None?
      ensures p.Some? ==> p.value in objs && p.value != h && objs[p.value].rec == ParentRecord(old(objs)[h].rec).value
      ensures h in objs && objs[h].rec == old(objs)[h].rec && objs[h].refs == old(objs)[h].refs
      ensures forall id :: id in old(objs) ==> id in objs && objs[id].rec == old(objs)[id].rec && objs[id].refs == old(objs)[id].refs
      ensures forall id :: id in old(objs) && id != h ==> objs[id] == old(objs)[id]
      ensures forall id :: id in objs ==> id in old(objs) || (p == Some(id) && objs[id].refs == 1)
      ensures old(next) <= next && forall id :: id in objs && id !in old(objs) ==> old(next) <= id < next
    {
      var o := objs[h];
      if o.parent.Some? && o.parent.value in objs {
        p := o.parent;
        return;
      }
      var pr := ParentRecord(o.rec);
      if pr.None? {
        return None;
      }
      var id := Alloc(pr.value);
      objs := objs[h := o.(parent := Some(id))];
      p := Some(id);
      CachedKeeps(old(objs), h, id, pr.value);
      assert ObjOk(h);
      assert forall k :: k in objs && k != h ==> objs[k] == old(objs)[id := Obj(pr.value, 1, None)][k];
    }

    /** Caching a new parent object under h changes no other object and no reference
        count. */
    static lemma CachedKeeps(before: map<nat, Obj>, h: nat, id: nat, rec: Record)
      requires h in before && id !in before
      ensures var after := before[id := Obj(rec, 1, None)][h := before[h].(parent := Some(id))];
              && (forall k :: k in before ==> k in after && after[k].rec == before[k].rec && after[k].refs == before[k].refs)
              && (forall k :: k in before && k != h ==> after[k] == before[k])
              && (forall k :: k in after ==> k in before || (k == id && after[k].refs == 1))
    {
    }

    /** udev_device_get_parent_with_subsystem_devtype: walks up with GetParent, so every
        object on the way is cached by (and kept alive through) its child. */
    method GetParentWithSubsystemDevtype(h: nat, subsystem: string, devtype: Option<string>)
      returns (p: Option<nat>)
      requires Valid() && h in objs
      modifies this`objs, this`next
      ensures Valid()
      ensures p.None? <==> FindAncestor(sysfs, old(objs)[h].rec, subsystem, devtype).None?
      ensures p.Some? ==>
                p.value in objs && objs[p.value].rec == FindAncestor(sysfs, old(objs)[h].rec, subsystem, devtype).value
      ensures forall id :: id in old(objs) ==> id in objs && objs[id].rec == old(objs)[id].rec && objs[id].refs == old(objs)[id].refs
      ensures forall id :: id in objs && id !in old(objs) ==> objs[id].refs == 1
      ensures old(next) <= next && forall id :: id in objs && id !in old(objs) ==> old(next) <= id < next
    {
      assert ObjOk(h);
      var cur := h;
      ghost var target := FindAncestor(sysfs, objs[h].rec, subsystem, devtype);
      while true
        invariant Valid() && cur in objs
        invariant ObjOk(cur)
        invariant FindAncestor(sysfs, objs[cur].rec, subsystem, devtype) == target
        invariant forall id :: id in old(objs) ==> id in objs && objs[id].rec == old(objs)[id].rec && objs[id].refs == old(objs)[id].refs
        invariant forall id :: id in objs && id !in old(objs) ==> objs[id].refs == 1
        invariant old(next) <= next && forall id :: id in objs && id !in old(objs) ==> old(next) <= id < next
        decreases |objs[cur].rec.syspath|
      {
        var q := GetParent(cur);
        if q.None? {
          return None;
        }
        if MatchesSubsystemDevtype(objs[q.value].rec, subsystem, devtype) {
          return q;
        }
        cur := q.value;
        assert ObjOk(cur);
      }
    }

    method NewEnumerate() returns (e: nat)
      requires Valid()
      modifies this`enumerators, this`next
      ensures Valid()
      ensures e == old(next) && e !in old(enumerators) && next == old(next) + 1
      ensures enumerators == old(enumerators)[e := Enumerator(None, [])]
    {
      e := next;
      enumerators := enumerators[e := Enumerator(None, [])];
      next := next + 1;
      assert forall id :: id in objs ==> ObjOk(id);
    }

    predicate IsEnumerator(e: Option<nat>)
      reads this
    {
      e.Some? && e.value in enumerators
    }

    /** udev_enumerate_add_match_parent: a NULL parent is accepted and changes nothing. */
    method EnumerateAddMatchParent(e: Option<nat>, parent: Option<nat>) returns (rc: int)
      requires Valid()
      modifies this`enumerators
      ensures Valid()
      ensures rc != 0 <==> !old(IsEnumerator(e)) || (parent.Some? && Call.AddMatchParent in failing)
      ensures rc == 0 && parent.Some? ==>
                enumerators == old(enumerators)[e.value := old(enumerators)[e.value].(matchParent := Some(View(parent).syspath))]
      ensures rc != 0 || parent.None? ==> enumerators == old(enumerators)
    {
      if !IsEnumerator(e) {
        return -22;
      }
      if parent.None? {
        return 0;
      }
      if Call.AddMatchParent in failing {
        return -1;
      }
      enumerators := enumerators[e.value := enumerators[e.value].(matchParent := Some(View(parent).syspath))];
      rc := 0;
    }

    method EnumerateScanDevices(e: Option<nat>) returns (rc: int)
      requires Valid()
      modifies this`enumerators
      ensures Valid()
      ensures rc != 0 <==> !old(IsEnumerator(e)) || Call.ScanDevices in failing
      ensures rc != 0 ==> enumerators == old(enumerators)
      ensures rc == 0 ==>
                enumerators == old(enumerators)[e.value := old(enumerators)[e.value].(list := Scan(sysfs, old(enumerators)[e.value].matchParent))]
    {
      if !IsEnumerator(e) {
        return -22;
      }
      if Call.ScanDevices in failing {
        return -1;
      }
      var en := enumerators[e.value];
      enumerators := enumerators[e.value := en.(list := Scan(sysfs, en.matchParent))];
      rc := 0;
    }

    /** udev_enumerate_get_list_entry, followed by udev_list_entry_get_next to the end. */
    function EnumerateList(e: Option<nat>): seq<string>
      reads this
    {
      if IsEnumerator(e) then enumerators[e.value].list else []
    }

    method EnumerateUnref(e: nat)
      requires Valid() && e in enumerators
      modifies this`enumerators
      ensures Valid()
      ensures enumerators == old(enumerators) - {e}
    {
      enumerators := enumerators - {e};
    }

    /** udev_monitor_new_from_netlink(udev, "udev") on a socket the kernel numbered fd. */
    method NewMonitor(fd: int) returns (m: nat)
      requires Valid()
      modifies this`monitors, this`next
      ensures Valid()
      ensures m == old(next) && m !in old(monitors) && next == old(next) + 1
      ensures monitors == old(monitors)[m := MonitorState(fd, false, [], [], [])]
    {
      m := next;
      monitors := monitors[m := MonitorState(fd, false, [], [], [])];
      next := next + 1;
      assert forall id :: id in objs ==> ObjOk(id);
    }

    predicate IsMonitor(m: Option<nat>)
      reads this
    {
      m.Some? && m.value in monitors
    }

    method MonitorUnref(m: nat)
      requires Valid() && m in monitors
      modifies this`monitors
      ensures Valid()
      ensures monitors == old(monitors) - {m}
    {
      monitors := monitors - {m};
    }

    /** udev_monitor_enable_receiving: first brings the socket's filter up to date with
        the staged criteria, then binds; from then on uevents are received. */
    method MonitorEnableReceiving(m: Option<nat>) returns (rc: int)
      requires Valid()
      modifies this`monitors
      ensures Valid()
      ensures rc == 0 <==> old(IsMonitor(m)) && Call.EnableReceiving !in failing
      ensures rc == 0 ==> monitors == old(monitors)[m.value := old(monitors)[m.value].(receiving := true, installed := old(monitors)[m.value].staged)]
      ensures rc != 0 ==> monitors == old(monitors)
    {
      if !IsMonitor(m) {
        return -22;
      }
      if Call.EnableReceiving in failing {
        return -1;
      }
      monitors := monitors[m.value := monitors[m.value].(receiving := true, installed := monitors[m.value].staged)];
      rc := 0;
    }

    /** udev_monitor_get_fd: the socket's descriptor, or -EINVAL for no monitor. */
    function MonitorFd(m: Option<nat>): int
      reads this
    {
      if IsMonitor(m) then monitors[m.value].fd else -22
    }

    method FilterAddMatchSubsystemDevtype(m: Option<nat>, subsystem: string, devtype: Option<string>)
      returns (rc: int)
      requires Valid()
      modifies this`monitors
      ensures Valid()
      ensures rc == 0 <==> old(IsMonitor(m)) && Call.FilterAddMatchSubsystemDevtype !in failing
      ensures rc == 0 ==>
                monitors == old(monitors)[m.value := old(monitors)[m.value].(
                  staged := old(monitors)[m.value].staged + [SubsystemDevtype(subsystem, devtype)])]
      ensures rc != 0 ==> monitors == old(monitors)
    {
      if !IsMonitor(m) {
        return -22;
      }
      if Call.FilterAddMatchSubsystemDevtype in failing {
        return -1;
      }
      var s := monitors[m.value];
      monitors := monitors[m.value := s.(staged := s.staged + [SubsystemDevtype(subsystem, devtype)])];
      rc := 0;
    }

    method FilterAddMatchTag(m: Option<nat>, tag: string) returns (rc: int)
      requires Valid()
      modifies this`monitors
      ensures Valid()
      ensures rc == 0 <==> old(IsMonitor(m)) && Call.FilterAddMatchTag !in failing
      ensures rc == 0 ==>
                monitors == old(monitors)[m.value := old(monitors)[m.value].(
                  staged := old(monitors)[m.value].staged + [Tag(tag)])]
      ensures rc != 0 ==> monitors == old(monitors)
    {
      if !IsMonitor(m) {
        return -22;
      }
      if Call.FilterAddMatchTag in failing {
        return -1;
      }
      var s := monitors[m.value];
      monitors := monitors[m.value := s.(staged := s.staged + [Tag(tag)])];
      rc := 0;
    }

    /** udev_monitor_filter_update: put the staged criteria on the socket. */
    method FilterUpdate(m: Option<nat>) returns (rc: int)
      requires Valid()
      modifies this`monitors
      ensures Valid()
      ensures rc == 0 <==> old(IsMonitor(m)) && Call.FilterUpdate !in failing
      ensures rc == 0 ==>
                monitors == old(monitors)[m.value := old(monitors)[m.value].(installed := old(monitors)[m.value].staged)]
      ensures rc != 0 ==> monitors == old(monitors)
    {
      if !IsMonitor(m) {
        return -22;
      }
      if Call.FilterUpdate in failing {
        return -1;
      }
      var s := monitors[m.value];
      monitors := monitors[m.value := s.(installed := s.staged)];
      rc := 0;
    }

    /** udev_monitor_filter_remove: forget every criterion and detach the socket filter. */
    method FilterRemove(m: Option<nat>) returns (rc: int)
      requires Valid()
      modifies this`monitors
      ensures Valid()
      ensures rc == 0 <==> old(IsMonitor(m)) && Call.FilterRemove !in failing
      ensures rc == 0 ==>
                monitors == old(monitors)[m.value := old(monitors)[m.value].(staged := [], installed := [])]
      ensures rc != 0 ==> monitors == old(monitors)
    {
      if !IsMonitor(m) {
        return -22;
      }
      if Call.FilterRemove in failing {
        return -1;
      }
      var s := monitors[m.value];
      monitors := monitors[m.value := s.(staged := [], installed := [])];
      rc := 0;
    }

    /** The kernel side: uevents sent while the socket listens reach its receive queue
        through the installed filter. */
    method Arrive(m: Option<nat>, rs: seq<Record>)
      requires Valid() && AllWellFormed(rs)
      modifies this`monitors
      ensures Valid()
      ensures old(IsMonitor(m)) && old(monitors)[m.value].receiving ==>
                monitors == old(monitors)[m.value := old(monitors)[m.value].(
                  queue := old(monitors)[m.value].queue + Admit(old(monitors)[m.value].installed, rs))]
      ensures !(old(IsMonitor(m)) && old(monitors)[m.value].receiving) ==> monitors == old(monitors)
    {
      if IsMonitor(m) && monitors[m.value].receiving {
        var s := monitors[m.value];
        var q := s.queue + Admit(s.installed, rs);
        assert forall i :: 0 <= i < |q| ==> q[i] in s.queue || q[i] in rs;
        monitors := monitors[m.value := s.(queue := q)];
      }
    }

    /** udev_monitor_receive_device on a non-blocking socket: the next queued uevent as a
        new device object, or NULL when the queue is empty. */
    method ReceiveDevice(m: Option<nat>) returns (d: Option<nat>)
      requires Valid()
      modifies this`monitors, this`objs, this`next
      ensures Valid()
      ensures !old(IsMonitor(m)) || old(monitors)[m.value].queue == [] ==>
                d.None? && monitors == old(monitors) && objs == old(objs) && next == old(next)
      ensures old(IsMonitor(m)) && old(monitors)[m.value].queue != [] ==>
                && d == Some(old(next)) && old(next) !in old(objs) && next == old(next) + 1
                && objs == old(objs)[old(next) := Obj(old(monitors)[m.value].queue[0], 1, None)]
                && monitors == old(monitors)[m.value := old(monitors)[m.value].(queue := old(monitors)[m.value].queue[1..])]
    {
      if !IsMonitor(m) || monitors[m.value].queue == [] {
        return None;
      }
      var s := monitors[m.value];
      var id := Alloc(s.queue[0]);
      monitors := monitors[m.value := s.(queue := s.queue[1..])];
      d := Some(id);
    }
  }
}
