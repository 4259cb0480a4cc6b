/**
 * goudev's Device: a Go object holding one udev_device pointer, the /sys path rule its
 * constructors use, the list-to-slice and slice-to-map conversions, parent lookup, and
 * the two filter predicates the package offers for enumeration.
 */
module UdevDevice {
  import opened Wrappers
  import opened Libudev
  import opened UdevErrors
  import opened FilePath

  const SysRoot: string := "/sys"

  /** The path FromPath hands to FromSysPath: unchanged when it starts with "/sys" as a
      string (so "/sysfoo" too), otherwise joined under "/sys" and cleaned. */
  function SysPathFor(path: string): (p: string)
    ensures SysRoot <= path ==> p == path
    ensures !(SysRoot <= path) ==> IsClean(p)
  {
    if SysRoot <= path then path else Join(SysRoot, path)
  }

  /** What Clean makes of the elements it keeps. */
  function RootedOrRoot(es: seq<string>): string {
    if es == [] then [Separator] else Rooted(es)
  }

  lemma CleanKeeps(p: string)
    requires IsRooted(p)
    ensures Clean(p) == RootedOrRoot(Resolve([], Fields(p)))
  {
  }

  /** A path not starting with "/sys" ends up as the elements Clean keeps after "sys". */
  lemma SysPathForResolves(path: string)
    requires !(SysRoot <= path)
    ensures SysPathFor(path) == RootedOrRoot(Resolve(["sys"], Fields(path)))
  {
    if path == "" {
      SysRootFields();
      var l := Fields(SysRoot);
      assert SysPathFor(path) == Clean(SysRoot);
      CleanKeeps(SysRoot);
      assert Resolve([], l) == Resolve([], l[1..]);
      assert l[1..][1..] == [];
      assert Resolve([], l[1..]) == Resolve(["sys"], []);
      assert Fields(path) == [""];
      assert Resolve(["sys"], Fields(path)) == Resolve(["sys"], []);
    } else {
      SysFields(path);
      var t := SysRoot + [Separator] + path;
      assert SysPathFor(path) == Clean(t);
      CleanKeeps(t);
      var l := Fields(t);
      assert l[0] == "" && l[1..][0] == "sys" && l[1..][1..] == Fields(path);
      assert Resolve([], l) == Resolve([], l[1..]);
      var l1: seq<string> := l[1..];
      var none: seq<string> := [];
      assert l1 != [] && l1[0] == "sys" && l1[0] != "" && l1[0] != "." && l1[0] != "..";
      assert Resolve(none, l1) == Resolve(none + [l1[0]], l1[1..]);
      assert none + [l1[0]] == ["sys"];
    }
  }

  /** A path without a ".." element, once joined under /sys, stays inside /sys. */
  lemma {:induction false} SysPathForStaysUnderSys(path: string)
    requires !(SysRoot <= path)
    requires forall i :: 0 <= i < |Fields(path)| ==> Fields(path)[i] != ".."
    ensures SysPathFor(path) == SysRoot || SysRoot + [Separator] <= SysPathFor(path)
  {
    SysPathForResolves(path);
    ResolveExtends(["sys"], Fields(path));
    var es := Resolve(["sys"], Fields(path));
    assert es[0] == "sys";
    assert Rooted(es) == SysRoot + Rooted(es[1..]);
    if es[1..] != [] {
      assert Rooted(es[1..])[0] == Separator;
      assert (SysRoot + Rooted(es[1..]))[..5] == SysRoot + [Separator];
    } else {
      assert Rooted(es[1..]) == "";
      assert SysRoot + "" == SysRoot;
    }
  }

  /** The fields of "/sys/" + path: the root, "sys", then those of path; and of "/sys". */
  lemma SysFields(path: string)
    ensures Fields(SysRoot + [Separator] + path) == ["", "sys"] + Fields(path)
  {
    FieldsAfterSeparator(path);
    FieldsOfWordThen("sys", [Separator] + path);
    assert "sys" + "" == "sys";
    assert SysRoot + [Separator] + path == [Separator] + ("sys" + ([Separator] + path));
    FieldsAfterSeparator("sys" + ([Separator] + path));
  }

  lemma SysRootFields()
    ensures Fields(SysRoot) == ["", "sys"]
  {
    FieldsOfWordThen("sys", "");
    assert SysRoot == [Separator] + ("sys" + "");
    FieldsAfterSeparator("sys" + "");
  }

  lemma FieldsOfEtc()
    ensures Fields("/etc") == ["", "etc"]
    ensures Fields("../etc") == ["..", "etc"]
  {
    FieldsOfWordThen("etc", "");
    assert "etc" + "" == "etc";
    FieldsAfterSeparator("etc");
    assert "/etc" == [Separator] + "etc";
    assert Fields("/etc") == ["", "etc"];
    FieldsOfWordThen("..", "/etc");
    assert "../etc" == ".." + "/etc";
    assert ".." + "" == "..";
  }

  /** An empty path names /sys itself. */
  lemma SysPathForEmpty()
    ensures SysPathFor("") == "/sys"
  {
    SysPathForResolves("");
    var kept: seq<string> := ["sys"];
    assert Fields("") == [""];
    assert Resolve(kept, [""]) == Resolve(kept, []) == kept;
    assert Rooted(kept) == "/sys";
  }

  /** The join is lexical: ".." climbs out of /sys. */
  lemma SysPathForClimbsOut()
    ensures SysPathFor("../etc") == "/etc"
  {
    FieldsOfEtc();
    var up := "../etc";
    assert !(SysRoot <= up);
    SysPathForResolves(up);
    var kept: seq<string> := ["sys"];
    assert Resolve(kept, ["..", "etc"]) == Resolve([], ["etc"]) == Resolve(["etc"], []);
    assert Rooted(["etc"]) == "/etc";
  }

  /** The prefix test is on strings: a path that climbed out of /sys is joined under it
      once more when it is looked up again. */
  lemma SysPathForRejoins()
    ensures SysPathFor(SysPathFor("../etc")) == "/sys/etc"
  {
    SysPathForClimbsOut();
    FieldsOfEtc();
    var etc := "/etc";
    assert !(SysRoot <= etc);
    SysPathForResolves(etc);
    var kept: seq<string> := ["sys"];
    assert Resolve(kept, ["", "etc"]) == Resolve(kept, ["etc"]) == Resolve(["sys", "etc"], []);
    assert Rooted(["sys", "etc"]) == "/sys/etc";
  }

  /** The device's properties by name, as Device.Get reads them. */
  predicate HasProperty(r: Record, name: string) {
    exists i :: 0 <= i < |r.properties| && r.properties[i].name == name
  }

  /** The names in a list of entries. */
  function Names(entries: seq<ListEntry>): (ns: set<string>)
    ensures forall n :: n in ns <==> exists i :: 0 <= i < |entries| && entries[i].name == n
  {
    set i | 0 <= i < |entries| :: entries[i].name
  }

  /** The value a Go map ends up with when the entries are stored in order: that of the
      last entry with the name. */
  function LastValue(entries: seq<ListEntry>, name: string): (v: string)
    requires name in Names(entries)
    ensures exists i :: 0 <= i < |entries| && entries[i].name == name && entries[i].value == v &&
              forall j :: i < j < |entries| ==> entries[j].name != name
    decreases |entries|
  {
    var last := entries[|entries| - 1];
    if last.name == name then last.value
    else
      var front := entries[..|entries| - 1];
      assert name in Names(front) by {
        var i :| 0 <= i < |entries| && entries[i].name == name;
        assert front[i].name == name;
      }
      LastValue(front, name)
  }

  /** NewListEntryArray on a udev_list_entry list: one entry per node, in list order. */
  method NewListEntryArray(list: seq<ListEntry>) returns (le: seq<ListEntry>)
    ensures le == list
  {
    le := [];
    var ptr := 0;
    while ptr < |list|
      invariant 0 <= ptr <= |list|
      invariant le == list[..ptr]
    {
      le := le + [ListEntry(list[ptr].name, list[ptr].value)];
      ptr := ptr + 1;
    }
  }

  /** The loop shared by DeviceLinks, Properties and Tags: every entry stored under its
      name, a later entry replacing an earlier one with the same name. */
  method EntriesToMap(entries: seq<ListEntry>) returns (m: map<string, string>)
    ensures m.Keys == Names(entries)
    ensures forall n :: n in m ==> m[n] == LastValue(entries, n)
  {
    m := map[];
    var i := 0;
    while i < |entries|
      invariant 0 <= i <= |entries|
      invariant m.Keys == Names(entries[..i])
      invariant forall n :: n in m ==> m[n] == LastValue(entries[..i], n)
    {
      var e := entries[i];
      assert entries[..i + 1][..i] == entries[..i];
      assert entries[..i + 1][i] == e;
      m := m[e.name := e.value];
      i := i + 1;
    }
    assert entries[..i] == entries;
  }

  /** A filter over the device a candidate handle refers to. */
  type Filter = Record -> bool

  /** WithFilterPciParentChildren(p): keeps a device unless it is p (same syspath) or it
      lacks a non-empty PCI_SLOT_NAME or PCI_ID property. */
  function WithFilterPciParentChildren(p: Record): (f: Filter)
    ensures forall td :: f(td) ==> td.syspath != p.syspath
    ensures forall td :: f(td) ==> HasProperty(td, "PCI_SLOT_NAME") && HasProperty(td, "PCI_ID")
    ensures forall td :: f(td) <==>
              td.syspath != p.syspath &&
              PropertyValue(td.properties, "PCI_SLOT_NAME") != "" && PropertyValue(td.properties, "PCI_ID") != ""
  {
    (td: Record) =>
      if p.syspath == td.syspath then false
      else if PropertyValue(td.properties, "PCI_SLOT_NAME") == "" || PropertyValue(td.properties, "PCI_ID") == "" then false
      else true
  }

  /** WithFilterBlockDevtype(t): keeps exactly the devices whose DEVTYPE property is t;
      with t empty that includes every device without a DEVTYPE property. */
  function WithFilterBlockDevtype(devtype: string): (f: Filter)
    ensures forall td :: f(td) <==> PropertyValue(td.properties, "DEVTYPE") == devtype
    ensures devtype != "" ==> forall td :: f(td) ==> HasProperty(td, "DEVTYPE")
    ensures devtype == "" ==> forall td :: !HasProperty(td, "DEVTYPE") ==> f(td)
  {
    (td: Record) => PropertyValue(td.properties, "DEVTYPE") == devtype
  }

  /** Taking one more reference on q after a walk that kept every old object's record
      and count, and made new objects with one reference each, under identities in
      [lo, hi). */
  lemma RefKeeps(before: map<nat, Obj>, walked: map<nat, Obj>, q: nat, after: map<nat, Obj>, lo: nat, hi: nat)
    requires forall id :: id in before ==> id in walked && walked[id].rec == before[id].rec && walked[id].refs == before[id].refs
    requires q in walked && (q !in before ==> walked[q].refs == 1) && (q in before ==> before[q].refs >= 1)
    requires forall id :: id in walked && id !in before ==> lo <= id < hi
    requires after == walked[q := walked[q].(refs := walked[q].refs + 1)]
    ensures after[q].refs == (if q in before then before[q].refs + 1 else 2) && after[q].refs >= 2
    ensures forall id :: id in before && id != q ==>
              id in after && after[id].rec == before[id].rec && after[id].refs == before[id].refs
    ensures forall id :: id in after && id !in before ==> lo <= id < hi
  {
  }

  class Device {
    var handle: Option<nat>   // udevDevice; None is the NULL pointer

    /** &Device{udevDevice: h}; NewDevice() is the one with None. */
    constructor (h: Option<nat>)
      ensures handle == h
    {
      handle := h;
    }

    /** The handle is NULL or a live object: what every udev_device call demands. */
    predicate Usable(u: Udev)
      reads this, u
    {
      handle.Some? ==> handle.value in u.objs
    }

    /** Free: one udev_device_unref, and only for a non-NULL handle, which must still name
        a live object (Go does not clear the pointer, so a second Free would unref a
        destroyed object). */
    method Free(u: Udev)
      requires u.Valid() && Usable(u)
      modifies u`objs, u`released
      ensures u.Valid()
      ensures handle.Some? ==> u.objs == Release(old(u.objs), handle.value) && u.released == old(u.released) + [handle.value]
      ensures handle.None? ==> u.objs == old(u.objs) && u.released == old(u.released)
    {
      if handle.Some? {
        u.Unref(handle.value);
      }
    }

    /** FromName: stores whatever the lookup by subsystem and sysname yields, and fails,
        naming sysName before subsystem, exactly when that is NULL. */
    method FromName(u: Udev, subsystem: string, sysName: string) returns (err: Option<Error>)
      requires u.Valid()
      modifies this, u`objs, u`next
      ensures u.Valid()
      ensures err.None? <==> handle.Some?
      ensures err.Some? ==> err.value == NotFoundByName(sysName, subsystem)
      ensures LookupByName(u.sysfs, subsystem, sysName).None? ==>
                handle.None? && u.objs == old(u.objs) && u.next == old(u.next)
      ensures LookupByName(u.sysfs, subsystem, sysName).Some? ==>
                && handle == Some(old(u.next)) && old(u.next) !in old(u.objs)
                && u.objs == old(u.objs)[old(u.next) := Obj(LookupByName(u.sysfs, subsystem, sysName).value, 1, None)]
    {
      handle := u.NewFromSubsystemSysname(subsystem, sysName);
      if handle.None? {
        return Some(NotFoundByName(sysName, subsystem));
      }
      return None;
    }

    /** FromSysPath: the same for a lookup by syspath, the error naming the path. */
    method FromSysPath(u: Udev, path: string) returns (err: Option<Error>)
      requires u.Valid()
      modifies this, u`objs, u`next
      ensures u.Valid()
      ensures err.None? <==> handle.Some?
      ensures err.Some? ==> err.value == NotFoundByPath(path)
      ensures Lookup(u.sysfs, path).None? ==> handle.None? && u.objs == old(u.objs) && u.next == old(u.next)
      ensures Lookup(u.sysfs, path).Some? ==>
                && handle == Some(old(u.next)) && old(u.next) !in old(u.objs)
                && u.objs == old(u.objs)[old(u.next) := Obj(Lookup(u.sysfs, path).value, 1, None)]
    {
      handle := u.NewFromSyspath(path);
      if handle.None? {
        return Some(NotFoundByPath(path));
      }
      return None;
    }

    /** FromPath: FromSysPath on the normalised path. */
    method FromPath(u: Udev, path: string) returns (err: Option<Error>)
      requires u.Valid()
      modifies this, u`objs, u`next
      ensures u.Valid()
      ensures err.None? <==> handle.Some?
      ensures err.Some? ==> err.value == NotFoundByPath(SysPathFor(path))
      ensures handle.Some? ==> handle.value in u.objs && u.objs[handle.value].rec.syspath == SysPathFor(path)
      ensures Lookup(u.sysfs, SysPathFor(path)).None? ==> handle.None? && u.objs == old(u.objs) && u.next == old(u.next)
      ensures Lookup(u.sysfs, SysPathFor(path)).Some? ==>
                && handle == Some(old(u.next)) && old(u.next) !in old(u.objs)
                && u.objs == old(u.objs)[old(u.next) := Obj(Lookup(u.sysfs, SysPathFor(path)).value, 1, None)]
    {
      err := FromSysPath(u, SysPathFor(path));
    }

    /** Get: the property's value, the first entry's when the name repeats, and "" when
        the device has no such property (or the handle is NULL). */
    function Get(u: Udev, property: string): (v: string)
      reads this, u
      ensures !HasProperty(u.View(handle), property) ==> v == ""
      ensures HasProperty(u.View(handle), property) ==>
                exists i :: 0 <= i < |u.View(handle).properties| &&
                  u.View(handle).properties[i] == ListEntry(property, v) &&
                  forall j :: 0 <= j < i ==> u.View(handle).properties[j].name != property
    {
      PropertyValue(u.View(handle).properties, property)
    }

    /** Attributes: every sysfs attribute name mapped to what reading it yields. */
    method Attributes(u: Udev) returns (attributes: map<string, string>)
      ensures attributes.Keys == Names(u.View(handle).sysattrs)
      ensures forall n :: n in attributes ==> attributes[n] == AttrValue(u.View(handle), n)
    {
      var entries := NewListEntryArray(u.View(handle).sysattrs);
      attributes := map[];
      var i := 0;
      while i < |entries|
        invariant 0 <= i <= |entries|
        invariant attributes.Keys == Names(entries[..i])
        invariant forall n :: n in attributes ==> attributes[n] == AttrValue(u.View(handle), n)
      {
        assert entries[..i + 1] == entries[..i] + [entries[i]];
        attributes := attributes[entries[i].name := AttrValue(u.View(handle), entries[i].name)];
        i := i + 1;
      }
      assert entries[..i] == entries;
    }

    /** DeviceLinks: the devlink entries as a map, later duplicates winning. */
    method DeviceLinks(u: Udev) returns (devlinks: map<string, string>)
      ensures devlinks.Keys == Names(u.View(handle).devlinks)
      ensures forall n :: n in devlinks ==> devlinks[n] == LastValue(u.View(handle).devlinks, n)
    {
      var entries := NewListEntryArray(u.View(handle).devlinks);
      devlinks := EntriesToMap(entries);
    }

    /** Properties: the property entries as a map, later duplicates winning. */
    method Properties(u: Udev) returns (properties: map<string, string>)
      ensures properties.Keys == Names(u.View(handle).properties)
      ensures forall n :: n in properties ==> properties[n] == LastValue(u.View(handle).properties, n)
    {
      var entries := NewListEntryArray(u.View(handle).properties);
      properties := EntriesToMap(entries);
    }

    /** Tags: the tag entries as a map, later duplicates winning. */
    method Tags(u: Udev) returns (tags: map<string, string>)
      ensures tags.Keys == Names(u.View(handle).tags)
      ensures forall n :: n in tags ==> tags[n] == LastValue(u.View(handle).tags, n)
    {
      var entries := NewListEntryArray(u.View(handle).tags);
      tags := EntriesToMap(entries);
    }

    /** Parent: ErrNoParentDevice when the device has none; otherwise a new Device on the
        parent object with a reference of its own, so that the parent outlives freeing
        this device. */
    method Parent(u: Udev) returns (p: Device?, err: Option<Error>)
      requires u.Valid() && Usable(u)
      modifies u`objs, u`next
      ensures u.Valid()
      ensures p == null <==> err.Some?
      ensures err.Some? ==> err.value == NoParentDevice
      ensures handle.None? ==> err.Some? && u.objs == old(u.objs)
      ensures handle.Some? ==> (err.Some? <==> u.ParentRecord(old(u.objs)[handle.value].rec).None?)
      ensures p != null ==>
                && fresh(p) && handle.Some? && p.handle.Some? && p.handle.value in u.objs
                && p.handle != handle
                && u.objs[p.handle.value].rec == u.ParentRecord(old(u.objs)[handle.value].rec).value
                && u.objs[p.handle.value].refs ==
                     (if p.handle.value in old(u.objs) then old(u.objs)[p.handle.value].refs + 1 else 2)
                && u.objs[p.handle.value].refs >= 2
                && p.handle.value in Release(u.objs, handle.value)
      ensures forall id :: id in old(u.objs) && (p == null || p.handle != Some(id)) ==>
                id in u.objs && u.objs[id].rec == old(u.objs)[id].rec && u.objs[id].refs == old(u.objs)[id].refs
      ensures forall id :: id in old(u.objs) && handle != Some(id) && (p == null || p.handle != Some(id)) ==>
                u.objs[id] == old(u.objs)[id]
      ensures forall id :: id in u.objs ==> id in old(u.objs) || (p != null && p.handle == Some(id))
    {
      if handle.None? {
        return null, Some(NoParentDevice);
      }
      var q := u.GetParent(handle.value);
      if q.None? {
        return null, Some(NoParentDevice);
      }
      assert u.ObjOk(q.value);
      u.Ref(q.value);
      p := new Device(q);
      err := None;
    }

    /** FindParent: the same for the nearest ancestor in the subsystem, with the first
        device type, if one was given, as the second criterion. */
    method FindParent(u: Udev, subsystem: string, deviceType: seq<string>) returns (p: Device?, err: Option<Error>)
      requires u.Valid() && Usable(u)
      modifies u`objs, u`next
      ensures u.Valid()
      ensures p == null <==> err.Some?
      ensures err.Some? ==> err.value == NoParentDevice
      ensures handle.None? ==> err.Some? && u.objs == old(u.objs)
      ensures handle.Some? ==>
                var devtype := if |deviceType| > 0 then Some(deviceType[0]) else None;
                (err.Some? <==> FindAncestor(u.sysfs, old(u.objs)[handle.value].rec, subsystem, devtype).None?) &&
                (p != null ==>
                   && fresh(p) && p.handle.Some? && p.handle.value in u.objs
                   && u.objs[p.handle.value].rec == FindAncestor(u.sysfs, old(u.objs)[handle.value].rec, subsystem, devtype).value
                   && u.objs[p.handle.value].refs ==
                        (if p.handle.value in old(u.objs) then old(u.objs)[p.handle.value].refs + 1 else 2)
                   && u.objs[p.handle.value].refs >= 2
                   && p.handle.value in Release(u.objs, handle.value))
      ensures forall id :: id in old(u.objs) && (p == null || p.handle != Some(id)) ==>
                id in u.objs && u.objs[id].rec == old(u.objs)[id].rec && u.objs[id].refs == old(u.objs)[id].refs
      ensures old(u.next) <= u.next && forall id :: id in u.objs && id !in old(u.objs) ==> old(u.next) <= id < u.next
    {
      if handle.None? {
        return null, Some(NoParentDevice);
      }
      var devtype := if |deviceType| > 0 then Some(deviceType[0]) else None;
      var q := u.GetParentWithSubsystemDevtype(handle.value, subsystem, devtype);
      if q.None? {
        return null, Some(NoParentDevice);
      }
      assert u.ObjOk(q.value);
      ghost var walked := u.objs;
      assert q.value in old(u.objs) ==> old(u.ObjOk(q.value));
      u.Ref(q.value);
      RefKeeps(old(u.objs), walked, q.value, u.objs, old(u.next), u.next);
      p := new Device(q);
      err := None;
    }
  }
}
