/**
 * The goroutine started by Monitor.DeviceChan, as a step function. One step is one turn of
 * its endless loop: the uevents the kernel queued on the monitor socket since the previous
 * turn, what epoll_wait reported, and whether the context was done when the loop looked.
 * The outcome is what the consumer of the channel has been sent, what still waits on the
 * socket, how many waits were made and whether the goroutine has returned.
 */
module PumpSpec {
  import opened Libudev
  import opened Unix

  /** maxEpollEvents: the size of the buffer epoll_wait fills. */
  const MaxEpollEvents: nat := 32

  datatype Step = Step(arrivals: seq<Record>, wait: WaitResult, done: bool)

  datatype Outcome = Outcome(sent: seq<Record>, queue: seq<Record>, waits: nat, exited: bool)

  /** epoll_wait never reports more events than the buffer it was given holds. */
  predicate Fits(script: seq<Step>) {
    forall i :: 0 <= i < |script| && script[i].wait.Ready? ==> |script[i].wait.events| <= MaxEpollEvents
  }

  /** A ready event makes the loop receive: it is for the monitor's fd and has EPOLLIN. */
  predicate Wakes(fd: int, ev: EpollEvent) {
    ev.fd == fd && ev.events & EPOLLIN != 0
  }

  predicate AnyWakes(fd: int, evs: seq<EpollEvent>) {
    exists i :: 0 <= i < |evs| && Wakes(fd, evs[i])
  }

  /** The inner `for ev` loop: each waking event drains the socket, receiving until the
      receive yields nothing; the result is what was sent and what is left queued. */
  function ProcessEvents(fd: int, evs: seq<EpollEvent>, queue: seq<Record>): (r: (seq<Record>, seq<Record>))
    ensures r.0 + r.1 == queue
    ensures r.0 == [] || r.1 == []
  {
    if evs == [] then ([], queue)
    else if Wakes(fd, evs[0]) then
      var rest := ProcessEvents(fd, evs[1..], []);
      (queue + rest.0, rest.1)
    else ProcessEvents(fd, evs[1..], queue)
  }

  /** A wait outcome that ends the goroutine: an error other than EINTR, or a successful
      wait after which the context is found done. */
  predicate Exits(s: Step)
    ensures s.wait == Failed(Errno(EINTR)) ==> !Exits(s)
    ensures s.wait.Ready? && !s.done ==> !Exits(s)
  {
    match s.wait
    case Failed(e) => e != Errno(EINTR)
    case Ready(_) => s.done
  }

  /** One turn of the loop. */
  function Effect(fd: int, installed: seq<Criterion>, o: Outcome, s: Step): (r: Outcome)
    ensures o.sent <= r.sent && r.waits == o.waits + 1
    ensures r.exited <==> Exits(s)
  {
    var q := o.queue + Admit(installed, s.arrivals);
    if Exits(s) then Outcome(o.sent, q, o.waits + 1, true)
    else if s.wait.Failed? then Outcome(o.sent, q, o.waits + 1, false)
    else
      var r := ProcessEvents(fd, s.wait.events, q);
      Outcome(o.sent + r.0, r.1, o.waits + 1, false)
  }

  /** The goroutine run over a script until it returns or the script ends. */
  function Pumped(fd: int, installed: seq<Criterion>, o: Outcome, script: seq<Step>): (r: Outcome)
    ensures o.waits <= r.waits <= o.waits + |script|
    ensures o.sent <= r.sent
    ensures o.exited ==> r == o
    decreases |script|
  {
    if o.exited || script == [] then o
    else Pumped(fd, installed, Effect(fd, installed, o, script[0]), script[1..])
  }

  /** All uevents the kernel sent during the given turns, in order. */
  function Arrivals(script: seq<Step>): seq<Record> {
    if script == [] then [] else script[0].arrivals + Arrivals(script[1..])
  }

  /** The representative of a step's class: steps with the same representative have the
      same effect on every outcome. */
  function Canon(fd: int, s: Step): Step {
    if Exits(s) then Step(s.arrivals, Ready([]), true)
    else if s.wait.Ready? && AnyWakes(fd, s.wait.events) then Step(s.arrivals, Ready([EpollEvent(EPOLLIN, fd)]), false)
    else Step(s.arrivals, Ready([]), false)
  }

  function CanonAll(fd: int, script: seq<Step>): (c: seq<Step>)
    ensures |c| == |script|
    ensures forall i :: 0 <= i < |script| ==> c[i] == Canon(fd, script[i])
  {
    if script == [] then [] else [Canon(fd, script[0])] + CanonAll(fd, script[1..])
  }

  /** Processing the events of one wait drains the whole queue, in order, when some event
      is for the monitor fd with EPOLLIN, and receives nothing otherwise. */
  lemma {:induction false} ProcessEventsDrains(fd: int, evs: seq<EpollEvent>, queue: seq<Record>)
    ensures AnyWakes(fd, evs) ==> ProcessEvents(fd, evs, queue) == (queue, [])
    ensures !AnyWakes(fd, evs) ==> ProcessEvents(fd, evs, queue) == ([], queue)
    decreases |evs|
  {
    if evs != [] {
      ProcessEventsDrains(fd, evs[1..], if Wakes(fd, evs[0]) then [] else queue);
      if AnyWakes(fd, evs[1..]) {
        var i :| 0 <= i < |evs[1..]| && Wakes(fd, evs[1..][i]);
        assert Wakes(fd, evs[i + 1]);
      }
      if AnyWakes(fd, evs) && !Wakes(fd, evs[0]) {
        var i :| 0 <= i < |evs| && Wakes(fd, evs[i]);
        assert i > 0 && evs[1..][i - 1] == evs[i];
      }
      if !AnyWakes(fd, evs) {
        assert !Wakes(fd, evs[0]);
      }
      if Wakes(fd, evs[0]) {
        assert queue + [] == queue;
      }
    }
  }

  /** Admit distributes over the order in which uevents arrive. */
  lemma {:induction false} AdmitAppend(installed: seq<Criterion>, a: seq<Record>, b: seq<Record>)
    ensures Admit(installed, a + b) == Admit(installed, a) + Admit(installed, b)
    decreases |a|
  {
    if a == [] {
      assert a + b == b;
    } else {
      assert (a + b)[0] == a[0] && (a + b)[1..] == a[1..] + b;
      AdmitAppend(installed, a[1..], b);
    }
  }

  lemma {:induction false} ArrivalsAppend(s1: seq<Step>, s2: seq<Step>)
    ensures Arrivals(s1 + s2) == Arrivals(s1) + Arrivals(s2)
    decreases |s1|
  {
    if s1 == [] {
      assert s1 + s2 == s2;
    } else {
      assert (s1 + s2)[0] == s1[0] && (s1 + s2)[1..] == s1[1..] + s2;
      ArrivalsAppend(s1[1..], s2);
    }
  }

  lemma AppendAssoc(x: seq<Record>, y: seq<Record>, z: seq<Record>)
    ensures x + y + z == x + (y + z)
  {
  }

  lemma ArrivalsFirst(script: seq<Step>, k: nat)
    requires k < |script|
    ensures Arrivals(script[..k + 1]) == script[0].arrivals + Arrivals(script[1..][..k])
  {
    assert script[..k + 1][0] == script[0];
    assert script[..k + 1][1..] == script[1..][..k];
  }

  /** Every step of the loop loses and duplicates nothing: sent followed by queued is the
      old sent and queued followed by the uevents that passed the filter. */
  lemma EffectConserves(fd: int, installed: seq<Criterion>, o: Outcome, s: Step)
    ensures var r := Effect(fd, installed, o, s);
      r.sent + r.queue == o.sent + o.queue + Admit(installed, s.arrivals)
  {
    var q := o.queue + Admit(installed, s.arrivals);
    AppendAssoc(o.sent, o.queue, Admit(installed, s.arrivals));
    if !Exits(s) && s.wait.Ready? {
      ProcessEventsDrains(fd, s.wait.events, q);
      if AnyWakes(fd, s.wait.events) {
        assert o.sent + q + [] == o.sent + q;
      } else {
        assert o.sent + [] == o.sent;
      }
    }
  }

  /** Running a script in two parts is running it whole. */
  lemma {:induction false} PumpedAppend(fd: int, installed: seq<Criterion>, o: Outcome, s1: seq<Step>, s2: seq<Step>)
    ensures Pumped(fd, installed, o, s1 + s2) == Pumped(fd, installed, Pumped(fd, installed, o, s1), s2)
    decreases |s1|
  {
    if o.exited {
    } else if s1 == [] {
      assert s1 + s2 == s2;
    } else {
      assert (s1 + s2)[0] == s1[0] && (s1 + s2)[1..] == s1[1..] + s2;
      PumpedAppend(fd, installed, Effect(fd, installed, o, s1[0]), s1[1..], s2);
    }
  }

  /** Once the goroutine has returned, later waits, wakes and arrivals change nothing: in
      particular nothing more is sent. */
  lemma NothingAfterExit(fd: int, installed: seq<Criterion>, o: Outcome, s1: seq<Step>, s2: seq<Step>)
    requires Pumped(fd, installed, o, s1).exited
    ensures Pumped(fd, installed, o, s1 + s2) == Pumped(fd, installed, o, s1)
  {
    PumpedAppend(fd, installed, o, s1, s2);
  }

  /** A goroutine still running after a run made one wait per step: it consumed the
      whole script. */
  lemma {:induction false} PumpedProgress(fd: int, installed: seq<Criterion>, o: Outcome, script: seq<Step>)
    ensures !o.exited && !Pumped(fd, installed, o, script).exited ==>
              Pumped(fd, installed, o, script).waits == o.waits + |script|
    decreases |script|
  {
    if !o.exited && script != [] {
      PumpedProgress(fd, installed, Effect(fd, installed, o, script[0]), script[1..]);
    }
  }

  /** Over a whole run the consumer is sent every uevent that passed the filter before the
      goroutine returned, in arrival order, except those still queued, and nothing else. */
  lemma {:induction false} PumpedConserves(fd: int, installed: seq<Criterion>, o: Outcome, script: seq<Step>)
    ensures Pumped(fd, installed, o, script).sent + Pumped(fd, installed, o, script).queue ==
              o.sent + o.queue + Admit(installed, Arrivals(script[..Pumped(fd, installed, o, script).waits - o.waits]))
    decreases |script|
  {
    if o.exited || script == [] {
      assert script[..0] == [];
    } else {
      var a0 := script[0].arrivals;
      var o1 := Effect(fd, installed, o, script[0]);
      var r := Pumped(fd, installed, o1, script[1..]);
      assert Pumped(fd, installed, o, script) == r;
      EffectConserves(fd, installed, o, script[0]);
      PumpedConserves(fd, installed, o1, script[1..]);
      var k := r.waits - o1.waits;
      var later := Arrivals(script[1..][..k]);
      ArrivalsFirst(script, k);
      AdmitAppend(installed, a0, later);
      Splice(o.sent + o.queue, Admit(installed, a0), Admit(installed, later),
             Admit(installed, Arrivals(script[..k + 1])), o1.sent + o1.queue, r.sent + r.queue);
    }
  }

  /** The sequence bookkeeping of one step of PumpedConserves. */
  lemma Splice(x: seq<Record>, y: seq<Record>, z: seq<Record>, yz: seq<Record>, xy: seq<Record>, xyz: seq<Record>)
    requires xy == x + y && yz == y + z && xyz == xy + z
    ensures xyz == x + yz
  {
    AppendAssoc(x, y, z);
  }

  /** Steps with the same representative are interchangeable. In particular a wait
      interrupted by EINTR is a wake with nothing to do, whether or not the context is
      done; another wait error ends the goroutine just as cancellation does; after
      cancellation the events of that wait are ignored; and of a wait's events all that
      matters is whether one of them is for the monitor fd with EPOLLIN. */
  lemma CanonEffect(fd: int, installed: seq<Criterion>, o: Outcome, s: Step)
    ensures Effect(fd, installed, o, Canon(fd, s)) == Effect(fd, installed, o, s)
  {
    var q := o.queue + Admit(installed, s.arrivals);
    if !Exits(s) && s.wait.Ready? {
      ProcessEventsDrains(fd, s.wait.events, q);
      ProcessEventsDrains(fd, Canon(fd, s).wait.events, q);
      if AnyWakes(fd, s.wait.events) {
        assert Wakes(fd, Canon(fd, s).wait.events[0]);
      }
    }
  }

  lemma {:induction false} PumpedCanon(fd: int, installed: seq<Criterion>, o: Outcome, script: seq<Step>)
    ensures Pumped(fd, installed, o, CanonAll(fd, script)) == Pumped(fd, installed, o, script)
    decreases |script|
  {
    if !o.exited && script != [] {
      var c := CanonAll(fd, script);
      CanonEffect(fd, installed, o, script[0]);
      assert c[1..] == CanonAll(fd, script[1..]);
      PumpedCanon(fd, installed, Effect(fd, installed, o, script[0]), script[1..]);
    }
  }

  /** A turn that ends the goroutine sends nothing from that wait, even when its events
      would have woken the loop. */
  lemma ExitSendsNothing(fd: int, installed: seq<Criterion>, o: Outcome, s: Step, rest: seq<Step>)
    requires !o.exited && Exits(s)
    ensures Pumped(fd, installed, o, [s] + rest) ==
              Outcome(o.sent, o.queue + Admit(installed, s.arrivals), o.waits + 1, true)
  {
    assert ([s] + rest)[0] == s && ([s] + rest)[1..] == rest;
  }

  /** A wake with nothing queued and nothing arriving sends nothing and the loop goes on
      to the next wait. */
  lemma EmptyWakeSendsNothing(fd: int, installed: seq<Criterion>, o: Outcome, s: Step)
    requires o.queue == [] && Admit(installed, s.arrivals) == []
    requires s.wait.Ready? && !s.done
    ensures Effect(fd, installed, o, s) == Outcome(o.sent, [], o.waits + 1, false)
  {
    ProcessEventsDrains(fd, s.wait.events, []);
    assert o.queue + Admit(installed, s.arrivals) == [];
    assert o.sent + [] == o.sent;
  }

  /** The kernel only queues well-formed uevents. */
  predicate ArrivalsWellFormed(script: seq<Step>) {
    forall i :: 0 <= i < |script| ==> AllWellFormed(script[i].arrivals)
  }

  /** One more turn of the loop, unless the goroutine has already returned. */
  lemma PumpedSnoc(fd: int, installed: seq<Criterion>, o: Outcome, script: seq<Step>, i: nat)
    requires i < |script|
    ensures var p := Pumped(fd, installed, o, script[..i]);
            Pumped(fd, installed, o, script[..i + 1]) == if p.exited then p else Effect(fd, installed, p, script[i])
  {
    assert script[..i + 1] == script[..i] + [script[i]];
    PumpedAppend(fd, installed, o, script[..i], [script[i]]);
    assert [script[i]][1..] == [];
  }

  /** The events from position ev on, processed against queue q. */
  lemma ProcessEventsAt(fd: int, evs: seq<EpollEvent>, ev: nat, q: seq<Record>)
    requires ev < |evs|
    ensures ProcessEvents(fd, evs[ev..], q) ==
              if Wakes(fd, evs[ev]) then
                (q + ProcessEvents(fd, evs[ev + 1..], []).0, ProcessEvents(fd, evs[ev + 1..], []).1)
              else ProcessEvents(fd, evs[ev + 1..], q)
  {
    assert evs[ev..][0] == evs[ev] && evs[ev..][1..] == evs[ev + 1..];
  }
}
