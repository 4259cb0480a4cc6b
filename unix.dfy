/**
 * The system calls the monitor uses through golang.org/x/sys/unix: non-blocking mode,
 * epoll instances with their interest lists, epoll_wait and close. Which calls fail is
 * chosen by `failing`; what epoll_wait reports is given to it as its outcome.
 */
module Unix {

  const EINTR: int := 4
  const EPOLLIN: bv32 := 0x0000_0001
  const EPOLLET: bv32 := 0x8000_0000

  /** unix.EpollEvent: the ready (or requested) event bits and the descriptor. */
  datatype EpollEvent = EpollEvent(events: bv32, fd: int)

  /** The error epoll_wait returns: a syscall.Errno, or some other error value. */
  datatype WaitError = Errno(code: int) | OtherError

  /** What one epoll_wait call reports: the ready events, or an error. */
  datatype WaitResult = Ready(events: seq<EpollEvent>) | Failed(error: WaitError)

  datatype Syscall = SetNonblock | EpollCreate1 | EpollCtl

  class Kernel {
    var failing: set<Syscall>
    var nonblocking: set<int>
    var epolls: map<int, map<int, EpollEvent>>   // open epoll descriptors and their interest lists
    var nextFd: int
    ghost var closed: seq<int>                    // every close(2), in order

    ghost predicate Valid()
      reads this
    {
      forall fd :: fd in epolls ==> fd < nextFd
    }

    constructor (failing: set<Syscall>, firstFd: int)
      ensures Valid()
      ensures this.failing == failing && nonblocking == {} && epolls == map[] && closed == []
      ensures nextFd == firstFd
    {
      this.failing := failing;
      nonblocking, epolls, nextFd, closed := {}, map[], firstFd, [];
    }

    /** unix.SetNonblock(fd, true). */
    method SetNonblock(fd: int) returns (ok: bool)
      requires Valid()
      modifies this`nonblocking
      ensures Valid()
      ensures ok <==> Syscall.SetNonblock !in failing
      ensures nonblocking == if ok then old(nonblocking) + {fd} else old(nonblocking)
    {
      ok := Syscall.SetNonblock !in failing;
      if ok {
        nonblocking := nonblocking + {fd};
      }
    }

    /** unix.EpollCreate1(0): a new descriptor with an empty interest list. */
    method EpollCreate1() returns (epfd: int, ok: bool)
      requires Valid()
      modifies this`epolls, this`nextFd
      ensures Valid()
      ensures ok <==> Syscall.EpollCreate1 !in failing
      ensures !ok ==> epolls == old(epolls) && nextFd == old(nextFd)
      ensures ok ==> epfd == old(nextFd) && epfd !in old(epolls) && epolls == old(epolls)[epfd := map[]] && nextFd == old(nextFd) + 1
    {
      if Syscall.EpollCreate1 in failing {
        return -1, false;
      }
      epfd := nextFd;
      epolls := epolls[epfd := map[]];
      nextFd := nextFd + 1;
      ok := true;
    }

    /** unix.EpollCtl(epfd, EPOLL_CTL_ADD, fd, &event). */
    method EpollCtlAdd(epfd: int, fd: int, event: EpollEvent) returns (ok: bool)
      requires Valid()
      modifies this`epolls
      ensures Valid()
      ensures ok <==> epfd in old(epolls) && Syscall.EpollCtl !in failing
      ensures ok ==> epolls == old(epolls)[epfd := old(epolls)[epfd][fd := event]]
      ensures !ok ==> epolls == old(epolls)
    {
      if epfd !in epolls || Syscall.EpollCtl in failing {
        return false;
      }
      epolls := epolls[epfd := epolls[epfd][fd := event]];
      ok := true;
    }

    /** unix.EpollWait(epfd, events[:], timeout): the outcome is what the kernel reports;
        on success it fills the front of the buffer and returns how many it filled. */
    method EpollWait(epfd: int, events: array<EpollEvent>, outcome: WaitResult)
      returns (n: int, err: WaitError, failed: bool)
      requires epfd in epolls
      requires outcome.Ready? ==> |outcome.events| <= events.Length
      modifies events
      ensures failed <==> outcome.Failed?
      ensures failed ==> err == outcome.error && events[..] == old(events[..])
      ensures !failed ==> n == |outcome.events| && events[..n] == outcome.events &&
                          events[n..] == old(events[n..])
    {
      match outcome
      case Failed(e) =>
        return -1, e, true;
      case Ready(evs) =>
        n := |evs|;
        var i := 0;
        while i < n
          invariant 0 <= i <= n
          invariant events[..i] == evs[..i]
          invariant events[n..] == old(events[n..])
        {
          events[i] := evs[i];
          i := i + 1;
        }
        err, failed := OtherError, false;
    }

    /** unix.Close on an open epoll descriptor. */
    method Close(fd: int)
      requires Valid() && fd in epolls
      modifies this`epolls, this`closed
      ensures Valid()
      ensures epolls == old(epolls) - {fd}
      ensures closed == old(closed) + [fd]
    {
      epolls := epolls - {fd};
      closed := closed + [fd];
    }
  }
}
