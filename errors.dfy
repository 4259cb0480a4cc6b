/** The errors the Go package returns, as values that carry what the message is built from. */
module UdevErrors {

  datatype Error =
    | CallFailed(call: string)                          // errors.New("udev: <call> failed")
    | NotFoundByName(sysName: string, subsystem: string) // ErrDeviceNotFoundByNameTmpl
    | NotFoundByPath(path: string)                      // ErrDeviceNotFoundByPathTmpl
    | NoParentDevice                                    // the sentinel ErrNoParentDevice

  /** The text Go's Error() gives for each error. The failed call's name and the path
      can be read back out of their messages, and the two templates' texts begin and end
      with the names they were given. */
  function Message(e: Error): (m: string)
    ensures e.CallFailed? ==> |m| == |e.call| + 13 && m[..6] == "udev: " && m[6..|m| - 7] == e.call
    ensures e.NotFoundByName? ==> |m| == |e.sysName| + |e.subsystem| + 14 && m[..10] == "No device " && m[10..10 + |e.sysName|] == e.sysName
                                  && m[|m| - |e.subsystem|..] == e.subsystem
    ensures e.NotFoundByPath? ==> |m| == |e.path| + 13 && m[..13] == "No device at " && m[13..] == e.path
    ensures e.NoParentDevice? ==> m == "NoParentDevice"
  {
    match e
    case CallFailed(call) => "udev: " + call + " failed"
    case NotFoundByName(sysName, subsystem) => "No device " + sysName + " in " + subsystem
    case NotFoundByPath(path) => "No device at " + path
    case NoParentDevice => "NoParentDevice"
  }
}
