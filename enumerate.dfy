/**
 * goudev's Enumerate: a Go object holding one udev_enumerate pointer, the order-preserving
 * filter Devices runs over the scanned list, and Device.Children, which composes the two
 * (it lives here because the enumerator needs the Device type and not the other way round).
 */
module UdevEnumerate {
  import opened Wrappers
  import opened Libudev
  import opened UdevErrors
  import opened UdevDevice

  /** What udev_device_new_from_syspath yields for each listed syspath, in list order. */
  function Listed(table: seq<Record>, paths: seq<string>): (rs: seq<Option<Record>>)
    ensures |rs| == |paths|
    ensures forall i :: 0 <= i < |paths| ==> rs[i] == Lookup(table, paths[i])
  {
    if paths == [] then [] else [Lookup(table, paths[0])] + Listed(table, paths[1..])
  }

  /** Whether Devices keeps the device made for a listed syspath: always without a
      filter, otherwise when the filter returns true for it (a NULL device reads as
      NoDevice). */
  predicate Accepts(filter: Option<Filter>, r: Option<Record>) {
    filter.None? || filter.value(r.GetOr(NoDevice))
  }

  /** The devices Devices returns, in list order. */
  function Kept(filter: Option<Filter>, rs: seq<Option<Record>>): seq<Option<Record>> {
    if rs == [] then []
    else (if Accepts(filter, rs[0]) then [rs[0]] else []) + Kept(filter, rs[1..])
  }

  /** How many udev_device_unref calls Devices makes: one per rejected non-NULL device. */
  function Freed(filter: Option<Filter>, rs: seq<Option<Record>>): nat {
    if rs == [] then 0
    else (if !Accepts(filter, rs[0]) && rs[0].Some? then 1 else 0) + Freed(filter, rs[1..])
  }

  lemma KeptSnoc(filter: Option<Filter>, rs: seq<Option<Record>>, r: Option<Record>)
    ensures Kept(filter, rs + [r]) == Kept(filter, rs) + (if Accepts(filter, r) then [r] else [])
    ensures Freed(filter, rs + [r]) == Freed(filter, rs) + (if !Accepts(filter, r) && r.Some? then 1 else 0)
    decreases |rs|
  {
    if rs == [] {
      assert rs + [r] == [r];
    } else {
      assert (rs + [r])[0] == rs[0] && (rs + [r])[1..] == rs[1..] + [r];
      KeptSnoc(filter, rs[1..], r);
    }
  }

  /** Without a filter every listed syspath gives one device, in list order, and nothing
      is freed. */
  lemma {:induction false} KeptWithoutFilter(rs: seq<Option<Record>>)
    ensures Kept(None, rs) == rs
    ensures Freed(None, rs) == 0
    decreases |rs|
  {
    if rs != [] {
      KeptWithoutFilter(rs[1..]);
    }
  }

  /** With a filter the result holds exactly the accepted devices, in list order: each
      kept one is accepted and comes from the list, and every accepted one is kept. */
  lemma {:induction false} KeptExactlyAccepted(filter: Option<Filter>, rs: seq<Option<Record>>)
    ensures forall r :: r in Kept(filter, rs) ==> r in rs && Accepts(filter, r)
    ensures forall r :: r in rs && Accepts(filter, r) ==> r in Kept(filter, rs)
    ensures |Kept(filter, rs)| + Freed(filter, rs) <= |rs|
    decreases |rs|
  {
    if rs != [] {
      KeptExactlyAccepted(filter, rs[1..]);
      forall r | r in rs && Accepts(filter, r)
        ensures r in Kept(filter, rs)
      {
        if r != rs[0] {
          assert r in rs[1..];
        }
      }
    }
  }

  /** A scanned syspath always names a device of the table, so no NULL device is made. */
  lemma ScannedAreFound(table: seq<Record>, parent: Option<string>)
    ensures forall i :: 0 <= i < |Listed(table, Scan(table, parent))| ==> Listed(table, Scan(table, parent))[i].Some?
  {
    var paths := Scan(table, parent);
    forall i | 0 <= i < |paths|
      ensures Lookup(table, paths[i]).Some?
    {
      ScanFromTable(table, parent, i);
    }
  }

  lemma {:induction false} ScanFromTable(table: seq<Record>, parent: Option<string>, i: nat)
    requires i < |Scan(table, parent)|
    ensures Lookup(table, Scan(table, parent)[i]).Some?
    decreases |table|
  {
    var rest := Scan(table[1..], parent);
    if Under(parent, table[0].syspath) && i == 0 {
      assert Scan(table, parent)[0] == table[0].syspath;
    } else {
      var j := if Under(parent, table[0].syspath) then i - 1 else i;
      assert Scan(table, parent)[i] == rest[j];
      ScanFromTable(table[1..], parent, j);
      var k :| 0 <= k < |table[1..]| && table[1..][k].syspath == rest[j];
      assert table[k + 1].syspath == rest[j];
    }
  }

  /** The handles of Go Devices. */
  ghost function Handles(ds: seq<Device>): (hs: seq<Option<nat>>)
    reads set j | 0 <= j < |ds| :: ds[j]
    ensures |hs| == |ds| && forall j :: 0 <= j < |ds| ==> hs[j] == ds[j].handle
  {
    if ds == [] then [] else [ds[0].handle] + Handles(ds[1..])
  }

  lemma HandlesSnoc(ds: seq<Device>, d: Device)
    ensures Handles(ds + [d]) == Handles(ds) + [d.handle]
  {
  }

  /** The handles hold the expected devices, each by one reference of its own, as new
      objects made in order since `base`. */
  ghost predicate Built(objs: map<nat, Obj>, base: nat, next: nat, hs: seq<Option<nat>>, rs: seq<Option<Record>>) {
    && |hs| == |rs|
    && (forall j :: 0 <= j < |hs| ==> (rs[j].None? <==> hs[j].None?))
    && (forall j :: 0 <= j < |hs| && hs[j].Some? ==>
          base <= hs[j].value < next && hs[j].value in objs && objs[hs[j].value] == Obj(rs[j].value, 1, None))
    && (forall i, j :: 0 <= i < j < |hs| && hs[i].Some? && hs[j].Some? ==> hs[i].value < hs[j].value)
  }

  /** The object identities released since `from`: all made since `base`, none alive. */
  ghost predicate FreedSince(released: seq<nat>, from: nat, objs: map<nat, Obj>, base: nat, next: nat)
    requires from <= |released|
  {
    forall k :: from <= k < |released| ==> base <= released[k] < next && released[k] !in objs
  }

  lemma BuiltExtends(objs: map<nat, Obj>, objs': map<nat, Obj>, base: nat, next: nat, next': nat,
                     hs: seq<Option<nat>>, rs: seq<Option<Record>>, h: Option<nat>, r: Option<Record>)
    requires Built(objs, base, next, hs, rs) && base <= next <= next'
    requires forall id :: id in objs ==> id in objs' && objs'[id] == objs[id]
    requires r.None? <==> h.None?
    requires h.Some? ==> h.value == next < next' && h.value in objs' && objs'[h.value] == Obj(r.value, 1, None)
    ensures Built(objs', base, next', hs, rs)
    ensures Built(objs', base, next', hs + [h], rs + [r])
  {
  }

  lemma FreedExtends(released: seq<nat>, from: nat, objs: map<nat, Obj>, objs': map<nat, Obj>,
                     base: nat, next: nat, next': nat, extra: seq<nat>)
    requires from <= |released| && FreedSince(released, from, objs, base, next) && base <= next <= next'
    requires forall id :: id in objs' ==> id in objs || next <= id
    requires forall k :: 0 <= k < |extra| ==> next <= extra[k] < next' && extra[k] !in objs'
    ensures FreedSince(released + extra, from, objs', base, next')
  {
  }

  class Enumerate {
    var handle: Option<nat>   // udevEnumerate; None is the NULL pointer

    constructor (h: Option<nat>)
      ensures handle == h
    {
      handle := h;
    }

    /** Free: one udev_enumerate_unref, and only for a non-NULL handle, which must still
        name a live enumerator. */
    method Free(u: Udev)
      requires u.Valid() && (handle.Some? ==> handle.value in u.enumerators)
      modifies u`enumerators
      ensures u.Valid()
      ensures handle.Some? ==> u.enumerators == old(u.enumerators) - {handle.value}
      ensures handle.None? ==> u.enumerators == old(u.enumerators)
    {
      if handle.Some? {
        u.EnumerateUnref(handle.value);
      }
    }

    /** MatchParent: an error exactly when udev_enumerate_add_match_parent fails. */
    method MatchParent(u: Udev, parent: Device) returns (err: Option<Error>)
      requires u.Valid()
      modifies u`enumerators
      ensures u.Valid()
      ensures err.Some? <==> !old(u.IsEnumerator(handle)) || (parent.handle.Some? && Libudev.Call.AddMatchParent in u.failing)
      ensures err.Some? ==> err.value == CallFailed("udev_enumerate_add_match_parent") && u.enumerators == old(u.enumerators)
      ensures err.None? && parent.handle.Some? ==>
                u.enumerators == old(u.enumerators)[handle.value := old(u.enumerators)[handle.value].(matchParent := Some(u.View(parent.handle).syspath))]
      ensures err.None? && parent.handle.None? ==> u.enumerators == old(u.enumerators)
    {
      var rc := u.EnumerateAddMatchParent(handle, parent.handle);
      if rc != 0 {
        return Some(CallFailed("udev_enumerate_add_match_parent"));
      }
      return None;
    }

    /** Devices: scan, then walk the list making one Device per syspath, dropping (and
        freeing) those the filter rejects. A failed scan gives no slice and makes nothing. */
    method Devices(u: Udev, filter: Option<Filter>) returns (m: Option<seq<Device>>, err: Option<Error>)
      requires u.Valid()
      modifies u`enumerators, u`objs, u`next, u`released
      ensures u.Valid()
      ensures m.None? <==> err.Some?
      ensures err.Some? <==> !old(u.IsEnumerator(handle)) || Libudev.Call.ScanDevices in u.failing
      ensures err.Some? ==>
                && err.value == CallFailed("udev_enumerate_scan_devices")
                && u.enumerators == old(u.enumerators) && u.objs == old(u.objs) && u.next == old(u.next)
                && u.released == old(u.released)
      ensures m.Some? ==>
                var under := old(u.enumerators)[handle.value].matchParent;
                && u.enumerators == old(u.enumerators)[handle.value := Enumerator(under, Scan(u.sysfs, under))]
                && Progress(old(u.objs), old(u.next), old(u.released), u.objs, u.next, u.released,
                            Handles(m.value), filter, Listed(u.sysfs, Scan(u.sysfs, under)))
    {
      var rc := u.EnumerateScanDevices(handle);
      if rc != 0 {
        return None, Some(CallFailed("udev_enumerate_scan_devices"));
      }
      var list := u.EnumerateList(handle);
      var out := Collect(u, list, filter);
      m, err := Some(out), None;
    }
  }

  lemma PrefixSnoc<T>(s: seq<T>, l: nat)
    requires l < |s|
    ensures s[..l + 1] == s[..l] + [s[l]]
  {
  }

  /** What Devices' loop has done since it started from objs0, next0 and released0, after
      the syspaths whose devices are rs: the kept ones are held by the handles hs, the
      rejected ones were made and released again, and nothing older was touched. */
  ghost predicate Progress(objs0: map<nat, Obj>, next0: nat, released0: seq<nat>,
                           objs: map<nat, Obj>, next: nat, released: seq<nat>,
                           hs: seq<Option<nat>>, filter: Option<Filter>, rs: seq<Option<Record>>)
  {
    && next0 <= next
    && Built(objs, next0, next, hs, Kept(filter, rs))
    && (forall id :: id in objs0 ==> id in objs && objs[id] == objs0[id])
    && NoLeak(objs0, objs, hs)
    && |released| == |released0| + Freed(filter, rs)
    && released0 <= released
    && FreedSince(released, |released0|, objs, next0, next)
    && FreedOnce(released, |released0|, next0, next, hs)
  }

  /** Every live object is one that was there before or one a handle holds. */
  ghost predicate NoLeak(objs0: map<nat, Obj>, objs: map<nat, Obj>, hs: seq<Option<nat>>) {
    forall id :: id in objs ==> id in objs0 || Some(id) in hs
  }

  /** The identities released since `from` are released once each, and an identity made
      since `base` is released exactly when no handle holds it. */
  ghost predicate FreedOnce(released: seq<nat>, from: nat, base: nat, next: nat, hs: seq<Option<nat>>)
    requires from <= |released|
  {
    && (forall i, j :: from <= i < j < |released| ==> released[i] < released[j])
    && (forall id :: base <= id < next ==> (Some(id) in hs <==> id !in released[from..]))
  }

  /** Keeping the device made under `next`, or the NULL device, accounts for it. */
  lemma AccountKeep(objs0: map<nat, Obj>, objs1: map<nat, Obj>, objs2: map<nat, Obj>, base: nat, next1: nat, next2: nat,
                    released: seq<nat>, from: nat, hs: seq<Option<nat>>, h: Option<nat>)
    requires from <= |released| && base <= next1
    requires NoLeak(objs0, objs1, hs) && FreedOnce(released, from, base, next1, hs)
    requires FreedSince(released, from, objs1, base, next1)
    requires forall j :: 0 <= j < |hs| && hs[j].Some? ==> hs[j].value < next1
    requires h.Some? ==> h.value == next1 && next2 == next1 + 1 && objs2.Keys == objs1.Keys + {next1}
    requires h.None? ==> next2 == next1 && objs2 == objs1
    ensures NoLeak(objs0, objs2, hs + [h]) && FreedOnce(released, from, base, next2, hs + [h])
  {
    forall id | base <= id < next2
      ensures Some(id) in hs + [h] <==> id !in released[from..]
    {
      if id == next1 {
        assert h == Some(id);
        assert id !in released[from..] by {
          forall k | from <= k < |released| ensures released[k] != id { }
        }
      } else {
        assert Some(id) in hs + [h] <==> Some(id) in hs;
      }
    }
  }

  /** Releasing the device made under `next` accounts for it. */
  lemma AccountReject(objs0: map<nat, Obj>, objs: map<nat, Obj>, base: nat, next1: nat,
                      released: seq<nat>, from: nat, hs: seq<Option<nat>>)
    requires from <= |released| && base <= next1
    requires NoLeak(objs0, objs, hs) && FreedOnce(released, from, base, next1, hs)
    requires FreedSince(released, from, objs, base, next1)
    requires forall j :: 0 <= j < |hs| && hs[j].Some? ==> hs[j].value < next1
    ensures FreedOnce(released + [next1], from, base, next1 + 1, hs)
  {
    var r := released + [next1];
    assert r[from..] == released[from..] + [next1];
    forall id | base <= id < next1 + 1
      ensures Some(id) in hs <==> id !in r[from..]
    {
      if id == next1 {
        assert Some(id) !in hs by {
          forall j | 0 <= j < |hs| ensures hs[j] != Some(id) { }
        }
      }
    }
  }

  /** The loop of Devices over the scanned list. */
  method Collect(u: Udev, list: seq<string>, filter: Option<Filter>) returns (out: seq<Device>)
    requires u.Valid()
    modifies u`objs, u`next, u`released
    ensures u.Valid()
    ensures Progress(old(u.objs), old(u.next), old(u.released), u.objs, u.next, u.released,
                     Handles(out), filter, Listed(u.sysfs, list))
  {
    ghost var rs := Listed(u.sysfs, list);
    ghost var objs0, next0, released0 := u.objs, u.next, u.released;
    out := [];
    ghost var hs: seq<Option<nat>> := [];
    ghost var seen: seq<Option<Record>> := [];
    var l := 0;
    while l < |list|
      invariant 0 <= l <= |list|
      invariant seen == rs[..l]
      invariant u.Valid()
      invariant |out| == |hs| && forall j :: 0 <= j < |out| ==> out[j].handle == hs[j]
      invariant Progress(objs0, next0, released0, u.objs, u.next, u.released, hs, filter, seen)
    {
      PrefixSnoc(rs, l);
      assert rs[l] == Lookup(u.sysfs, list[l]);
      out, hs := Take(u, list[l], filter, out, objs0, next0, released0, hs, seen);
      seen := seen + [Lookup(u.sysfs, list[l])];
      l := l + 1;
    }
    assert rs[..l] == rs;
    assert Handles(out) == hs;
  }

  /** One turn of Devices' loop: a new Device for the syspath, appended to out unless the
      filter rejects it, in which case it is freed again. */
  method Take(u: Udev, path: string, filter: Option<Filter>, out: seq<Device>, ghost objs0: map<nat, Obj>,
              ghost next0: nat, ghost released0: seq<nat>, ghost hs: seq<Option<nat>>, ghost rs: seq<Option<Record>>)
    returns (out': seq<Device>, ghost hs': seq<Option<nat>>)
    requires u.Valid()
    requires |out| == |hs| && forall j :: 0 <= j < |out| ==> out[j].handle == hs[j]
    requires Progress(objs0, next0, released0, u.objs, u.next, u.released, hs, filter, rs)
    modifies u`objs, u`next, u`released
    ensures u.Valid()
    ensures |out'| == |hs'| && forall j :: 0 <= j < |out'| ==> out'[j].handle == hs'[j]
    ensures Progress(objs0, next0, released0, u.objs, u.next, u.released, hs', filter, rs + [Lookup(u.sysfs, path)])
  {
    ghost var objs1, next1, released1 := u.objs, u.next, u.released;
    ghost var r := Lookup(u.sysfs, path);
    assert next1 !in objs1 by {
      forall id | id in objs1
        ensures id < next1
      {
        assert u.ObjOk(id);
      }
    }
    var h := u.NewFromSyspath(path);
    var d := new Device(h);
    var keep := filter.None? || filter.value(u.View(d.handle));
    if !keep {
      d.Free(u);
      if h.Some? {
        ReleaseFresh(objs1, next1, r.value);
      }
    }
    ProgressStep(objs0, next0, released0, objs1, next1, released1, hs, filter, rs, Lookup(u.sysfs, path),
                 keep, d.handle, u.objs, u.next, u.released);
    hs' := if keep then hs + [d.handle] else hs;
    out' := if keep then out + [d] else out;
  }

  /** A device made with one reference and no cached parent, released at once, leaves
      the objects as they were. */
  lemma ReleaseFresh(objs: map<nat, Obj>, h: nat, rec: Record)
    requires h !in objs
    ensures Release(objs[h := Obj(rec, 1, None)], h) == objs
  {
    assert objs[h := Obj(rec, 1, None)] - {h} == objs;
  }

  /** One turn of Devices' loop, on values: the device for r, if any, is made under the
      next identity, and kept or released again as the filter says. */
  lemma ProgressStep(objs0: map<nat, Obj>, next0: nat, released0: seq<nat>,
                     objs1: map<nat, Obj>, next1: nat, released1: seq<nat>,
                     hs: seq<Option<nat>>, filter: Option<Filter>, rs: seq<Option<Record>>, r: Option<Record>,
                     keep: bool, h: Option<nat>, objs2: map<nat, Obj>, next2: nat, released2: seq<nat>)
    requires Progress(objs0, next0, released0, objs1, next1, released1, hs, filter, rs)
    requires next1 !in objs1
    requires keep == Accepts(filter, r)
    requires h == (if r.Some? then Some(next1) else None)
    requires objs2 == (if r.Some? && keep then objs1[next1 := Obj(r.value, 1, None)] else objs1)
    requires next2 == (if r.Some? then next1 + 1 else next1)
    requires released2 == (if r.Some? && !keep then released1 + [next1] else released1)
    ensures Progress(objs0, next0, released0, objs2, next2, released2, if keep then hs + [h] else hs, filter, rs + [r])
  {
    if keep {
      ProgressKeep(objs0, next0, released0, objs1, next1, released1, hs, filter, rs, r);
    } else {
      ProgressReject(objs0, next0, released0, objs1, next1, released1, hs, filter, rs, r);
    }
  }

  /** One turn of Devices' loop, on values, when the filter keeps the device for r: it is
      made under the next identity and held by the new handle. */
  lemma ProgressKeep(objs0: map<nat, Obj>, next0: nat, released0: seq<nat>,
                     objs1: map<nat, Obj>, next1: nat, released1: seq<nat>,
                     hs: seq<Option<nat>>, filter: Option<Filter>, rs: seq<Option<Record>>, r: Option<Record>)
    requires Progress(objs0, next0, released0, objs1, next1, released1, hs, filter, rs)
    requires next1 !in objs1 && Accepts(filter, r)
    ensures Progress(objs0, next0, released0,
                     if r.Some? then objs1[next1 := Obj(r.value, 1, None)] else objs1,
                     if r.Some? then next1 + 1 else next1, released1,
                     hs + [if r.Some? then Some(next1) else None], filter, rs + [r])
  {
    KeptSnoc(filter, rs, r);
    var objs2 := if r.Some? then objs1[next1 := Obj(r.value, 1, None)] else objs1;
    var next2 := if r.Some? then next1 + 1 else next1;
    BuiltExtends(objs1, objs2, next0, next1, next2, hs, Kept(filter, rs), if r.Some? then Some(next1) else None, r);
    FreedExtends(released1, |released0|, objs1, objs2, next0, next1, next2, []);
    assert released1 + [] == released1;
    AccountKeep(objs0, objs1, objs2, next0, next1, next2, released1, |released0|, hs, if r.Some? then Some(next1) else None);
  }

  /** One turn of Devices' loop, on values, when the filter rejects the device for r: it
      is made under the next identity and released again, leaving the objects as they
      were. */
  lemma ProgressReject(objs0: map<nat, Obj>, next0: nat, released0: seq<nat>,
                       objs1: map<nat, Obj>, next1: nat, released1: seq<nat>,
                       hs: seq<Option<nat>>, filter: Option<Filter>, rs: seq<Option<Record>>, r: Option<Record>)
    requires Progress(objs0, next0, released0, objs1, next1, released1, hs, filter, rs)
    requires next1 !in objs1 && !Accepts(filter, r)
    ensures Progress(objs0, next0, released0, objs1, if r.Some? then next1 + 1 else next1,
                     if r.Some? then released1 + [next1] else released1, hs, filter, rs + [r])
  {
    KeptSnoc(filter, rs, r);
    var next2 := if r.Some? then next1 + 1 else next1;
    BuiltExtends(objs1, objs1, next0, next1, next2, hs, Kept(filter, rs), None, None);
    var extra := if r.Some? then [next1] else [];
    FreedExtends(released1, |released0|, objs1, objs1, next0, next1, next2, extra);
    assert released1 + extra == (if r.Some? then released1 + [next1] else released1);
    if r.Some? {
      AccountReject(objs0, objs1, next0, next1, released1, |released0|, hs);
    }
  }

  /** Dropping the one identity an enumerator was made under gives back the enumerators
      there were before it. */
  lemma DropFresh(before: map<nat, Enumerator>, after: map<nat, Enumerator>, id: nat)
    requires id !in before && after.Keys == before.Keys + {id}
    requires forall k :: k in before ==> after[k] == before[k]
    ensures after - {id} == before
  {
  }

  /** Every child handle names a live device that is not the parent itself: the filter
      rejects the parent's syspath, and a scan never lists a missing device. */
  lemma ChildrenExcludeParent(objs: map<nat, Obj>, base: nat, next: nat, hs: seq<Option<nat>>,
                              self: Record, rs: seq<Option<Record>>)
    requires Built(objs, base, next, hs, Kept(Some(WithFilterPciParentChildren(self)), rs))
    requires forall i :: 0 <= i < |rs| ==> rs[i].Some?
    ensures forall j :: 0 <= j < |hs| ==>
              hs[j].Some? && hs[j].value in objs && objs[hs[j].value].rec.syspath != self.syspath
  {
    var f := Some(WithFilterPciParentChildren(self));
    var ks := Kept(f, rs);
    KeptExactlyAccepted(f, rs);
    forall j | 0 <= j < |hs|
      ensures hs[j].Some? && hs[j].value in objs && objs[hs[j].value].rec.syspath != self.syspath
    {
      assert ks[j] in ks;
      var i :| 0 <= i < |rs| && rs[i] == ks[j];
      assert Accepts(f, ks[j]);
    }
  }

  /** Device.Children: a new enumerator matched on d as parent, listed through
      WithFilterPciParentChildren(d), and freed on every path; d itself is never among
      the children. */
  method Children(d: Device, u: Udev) returns (m: Option<seq<Device>>, err: Option<Error>)
    requires u.Valid() && d.Usable(u)
    modifies u`enumerators, u`objs, u`next, u`released
    ensures u.Valid()
    ensures m.None? <==> err.Some?
    ensures u.enumerators == old(u.enumerators)
    ensures err.Some? ==> err.value in {CallFailed("udev_enumerate_add_match_parent"), CallFailed("udev_enumerate_scan_devices")}
    ensures err == Some(CallFailed("udev_enumerate_add_match_parent")) <==>
              d.handle.Some? && Libudev.Call.AddMatchParent in u.failing
    ensures err == Some(CallFailed("udev_enumerate_scan_devices")) <==>
              !(d.handle.Some? && Libudev.Call.AddMatchParent in u.failing) && Libudev.Call.ScanDevices in u.failing
    ensures err.Some? ==> u.objs == old(u.objs) && u.released == old(u.released)
    ensures m.Some? ==>
              var self := old(u.View(d.handle));
              var under := if d.handle.Some? then Some(self.syspath) else None;
              && Progress(old(u.objs), old(u.next) + 1, old(u.released), u.objs, u.next, u.released,
                          Handles(m.value), Some(WithFilterPciParentChildren(self)), Listed(u.sysfs, Scan(u.sysfs, under)))
              && forall j :: 0 <= j < |m.value| ==>
                   m.value[j].handle.Some? && m.value[j].handle.value in u.objs &&
                   u.View(m.value[j].handle).syspath != self.syspath
  {
    var id := u.NewEnumerate();
    var e := new Enumerate(Some(id));
    var self := u.View(d.handle);
    ghost var made := u.enumerators;
    err := e.MatchParent(u, d);
    assert u.enumerators == made[id := u.enumerators[id]];
    DropFresh(old(u.enumerators), u.enumerators, id);
    if err.Some? {
      e.Free(u);
      return None, err;
    }
    ghost var under := if d.handle.Some? then Some(self.syspath) else None;
    assert self == old(u.View(d.handle));
    assert u.objs == old(u.objs) && u.next == old(u.next) + 1 && u.released == old(u.released);
    m, err := ListChildren(e, u, self, under);
  }

  /** The rest of Children once the match succeeded: Devices with the PCI filter, then the
      deferred Free of the enumerator. */
  method ListChildren(e: Enumerate, u: Udev, self: Record, ghost under: Option<string>)
    returns (m: Option<seq<Device>>, err: Option<Error>)
    requires u.Valid() && e.handle.Some? && e.handle.value in u.enumerators
    requires u.enumerators[e.handle.value].matchParent == under
    requires under.Some? ==> under.value == self.syspath
    modifies u`enumerators, u`objs, u`next, u`released
    ensures u.Valid()
    ensures m.None? <==> err.Some?
    ensures u.enumerators == old(u.enumerators) - {e.handle.value}
    ensures m.None? <==> Libudev.Call.ScanDevices in u.failing
    ensures err.Some? ==>
              err.value == CallFailed("udev_enumerate_scan_devices") && u.objs == old(u.objs) && u.released == old(u.released)
    ensures m.Some? ==>
              && Progress(old(u.objs), old(u.next), old(u.released), u.objs, u.next, u.released,
                          Handles(m.value), Some(WithFilterPciParentChildren(self)), Listed(u.sysfs, Scan(u.sysfs, under)))
              && forall j :: 0 <= j < |m.value| ==>
                   m.value[j].handle.Some? && m.value[j].handle.value in u.objs &&
                   u.View(m.value[j].handle).syspath != self.syspath
  {
    m, err := e.Devices(u, Some(WithFilterPciParentChildren(self)));
    ghost var hs := if m.Some? then Handles(m.value) else [];
    ghost var objs1, next1, released1 := u.objs, u.next, u.released;
    e.Free(u);
    assert u.objs == objs1 && u.next == next1 && u.released == released1;
    if m.Some? {
      assert Handles(m.value) == hs;
      ScannedAreFound(u.sysfs, under);
      ChildrenExcludeParent(u.objs, old(u.next), u.next, hs, self, Listed(u.sysfs, Scan(u.sysfs, under)));
    }
  }
}
