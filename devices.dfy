/**
 * goudev's Devices facade: each constructor makes a fresh Device, runs the matching
 * Device lookup on it, and returns either (nil, the lookup's error) or (the device, nil).
 */
module UdevDevices {
  import opened Wrappers
  import opened Libudev
  import opened UdevErrors
  import opened UdevDevice

  /** Devices.FromName: a device exactly when the lookup by subsystem and sysname finds
      one, holding a new object for that record; otherwise nil and the "No device %s in
      %s" error, with nothing made. */
  method FromName(u: Udev, subsystem: string, sysName: string) returns (dev: Device?, err: Option<Error>)
    requires u.Valid()
    modifies u`objs, u`next
    ensures u.Valid()
    ensures dev == null <==> err.Some?
    ensures err.Some? <==> LookupByName(u.sysfs, subsystem, sysName).None?
    ensures err.Some? ==>
              err.value == NotFoundByName(sysName, subsystem) && u.objs == old(u.objs) && u.next == old(u.next)
    ensures dev != null ==>
              && fresh(dev) && dev.handle == Some(old(u.next)) && dev.Usable(u)
              && u.objs == old(u.objs)[old(u.next) := Obj(LookupByName(u.sysfs, subsystem, sysName).value, 1, None)]
              && u.View(dev.handle).subsystem == subsystem && u.View(dev.handle).sysname == sysName
  {
    var d := new Device(None);
    err := d.FromName(u, subsystem, sysName);
    if err.Some? {
      return null, err;
    }
    return d, None;
  }

  /** Devices.FromPath: FromSysPath on the same normalised path Device.FromPath uses, so
      a device found either way has SysPathFor(path) as its syspath. */
  method FromPath(u: Udev, path: string) returns (dev: Device?, err: Option<Error>)
    requires u.Valid()
    modifies u`objs, u`next
    ensures u.Valid()
    ensures dev == null <==> err.Some?
    ensures err.Some? <==> Lookup(u.sysfs, SysPathFor(path)).None?
    ensures err.Some? ==>
              err.value == NotFoundByPath(SysPathFor(path)) && u.objs == old(u.objs) && u.next == old(u.next)
    ensures dev != null ==>
              && fresh(dev) && dev.handle == Some(old(u.next)) && dev.Usable(u)
              && u.objs == old(u.objs)[old(u.next) := Obj(Lookup(u.sysfs, SysPathFor(path)).value, 1, None)]
              && u.View(dev.handle).syspath == SysPathFor(path)
  {
    dev, err := FromSysPath(u, SysPathFor(path));
  }

  /** Devices.FromSysPath: a device exactly when the lookup by syspath finds one, holding
      a new object for that record; otherwise nil and the "No device at %s" error. */
  method FromSysPath(u: Udev, path: string) returns (dev: Device?, err: Option<Error>)
    requires u.Valid()
    modifies u`objs, u`next
    ensures u.Valid()
    ensures dev == null <==> err.Some?
    ensures err.Some? <==> Lookup(u.sysfs, path).None?
    ensures err.Some? ==> err.value == NotFoundByPath(path) && u.objs == old(u.objs) && u.next == old(u.next)
    ensures dev != null ==>
              && fresh(dev) && dev.handle == Some(old(u.next)) && dev.Usable(u)
              && u.objs == old(u.objs)[old(u.next) := Obj(Lookup(u.sysfs, path).value, 1, None)]
              && u.View(dev.handle).syspath == path
  {
    var d := new Device(None);
    err := d.FromSysPath(u, path);
    if err.Some? {
      return null, err;
    }
    return d, None;
  }
}
