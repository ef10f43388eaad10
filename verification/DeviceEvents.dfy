/** The event queues of the input devices in qbx.cpp: every device keeps a previous event, a
    current one and those not yet asked for, in a buffer that doubles up to a limit and then
    drops its oldest event; one counter numbers the events of all devices. */
module DeviceEvents {

  const LIMIT: nat := 1024

  /** The values of the axes, wheels and buttons, and the number of the event. */
  datatype Event = Event(values: seq<int>, order: int)

  /** The buffer with room for |events| events, the first `queued` of which are in use. */
  datatype Device = Device(events: seq<Event>, queued: nat)

  function Zero(n: nat): Event {
    Event(seq(n, _ => 0), 0)
  }

  /** The events in use: previous, current, and those waiting. */
  function Window(d: Device): seq<Event>
    requires d.queued <= |d.events|
  {
    d.events[..d.queued]
  }

  /** The buffer has a size that doubling from 2 reaches, and holds at least two events. */
  predicate Sized(d: Device) {
    2 <= d.queued <= |d.events| && |d.events| in {2, 4, 8, 16, 32, 64, 128, 256, 512, 1024}
  }

  /** Setting a device up: two events that stand for nothing having happened. */
  function NewDevice(n: nat): Device {
    Device([Zero(n), Zero(n)], 2)
  }

  /** Room for one more event: the buffer is doubled, or at the limit its oldest event goes. */
  function Roomy(d: Device): Device
    requires Sized(d)
  {
    if d.queued < |d.events| then d
    else if |d.events| >= LIMIT then Device(d.events[1..] + [d.events[d.queued - 1]], d.queued - 1)
    else Device(d.events + seq(|d.events|, _ => Zero(|d.events[0].values|)), d.queued)
  }

  /** A new event, not yet committed, starts as a copy of the last one under the next number. */
  function Created(d: Device, order: int): Device
    requires Sized(d)
  {
    var r := Roomy(d);
    r.(events := r.events[r.queued := r.events[r.queued - 1].(order := order)])
  }

  /** Moving on: the current event becomes the previous one. */
  function Shifted(d: Device): Device
    requires Sized(d)
  {
    Device(d.events[1..d.queued] + d.events[d.queued - 1..], d.queued - 1)
  }

  /** The window is the most recent part of everything the device has reported. */
  ghost predicate Recent(d: Device, hist: seq<Event>) {
    d.queued <= |d.events| && d.queued <= |hist| && Window(d) == hist[|hist| - d.queued..]
  }

  /** The number has been given to an event of device i, and is above what has been delivered. */
  ghost predicate Numbered(order: int, i: nat, delivered: int, owner: seq<nat>) {
    -1 <= delivered < order < |owner| && owner[order] == i
  }

  /** The waiting events are numbered upwards with numbers of this device, above what has been
      delivered. `owner` says to which device each number has been given. */
  ghost predicate Waiting(d: Device, i: nat, delivered: int, owner: seq<nat>)
    requires d.queued <= |d.events|
  {
    && (forall k, l :: 2 <= k < l < d.queued ==> d.events[k].order < d.events[l].order)
    && (forall k :: 2 <= k < d.queued ==> Numbered(d.events[k].order, i, delivered, owner))
  }

  /** The event after the window may be committed. */
  ghost predicate Staged(d: Device, i: nat, delivered: int, owner: seq<nat>) {
    && d.queued < |d.events| && Numbered(d.events[d.queued].order, i, delivered, owner)
    && (forall k :: 2 <= k < d.queued ==> d.events[k].order < d.events[d.queued].order)
  }

  lemma RoomyKeeps(d: Device, hist: seq<Event>, i: nat, delivered: int, owner: seq<nat>)
    requires Sized(d) && Recent(d, hist) && Waiting(d, i, delivered, owner)
    ensures var r := Roomy(d); Sized(r) && r.queued < |r.events| && Recent(r, hist) && Waiting(r, i, delivered, owner)
    ensures Roomy(d).queued == if d.queued == 1024 then 1023 else d.queued
  {
    var r := Roomy(d);
    if d.queued == |d.events| && |d.events| >= LIMIT {
      assert Window(r) == Window(d)[1..];
    } else {
      assert Window(r) == Window(d);
    }
  }

  /** Creating an event keeps the window, but for the oldest event of a full buffer, and stages
      a copy of the last one. */
  lemma CreatedKeeps(d: Device, hist: seq<Event>, i: nat, delivered: int, owner: seq<nat>)
    requires Sized(d) && Recent(d, hist) && Waiting(d, i, delivered, owner) && -1 <= delivered < |owner|
    ensures var r := Created(d, |owner|);
            && Sized(r) && Recent(r, hist) && Waiting(r, i, delivered, owner + [i]) && Staged(r, i, delivered, owner + [i])
            && r.events[r.queued] == hist[|hist| - 1].(order := |owner|)
    ensures Created(d, |owner|).queued == if d.queued == 1024 then 1023 else d.queued
  {
    RoomyKeeps(d, hist, i, delivered, owner);
    var m := Roomy(d);
    assert Window(m)[m.queued - 1] == hist[|hist| - 1];
    hide Roomy, Recent, Waiting, Sized;
    assert 2 <= m.queued < |m.events| by { SizedFacts(m); }
    StagedKeeps(m, hist, i, delivered, owner, m.events[m.queued - 1].(order := |owner|));
    hide Staged;
  }

  lemma SizedFacts(d: Device)
    requires Sized(d)
    ensures 2 <= d.queued <= |d.events|
  {}

  /** Behind the window an event of the next number is put. */
  lemma StagedKeeps(d: Device, hist: seq<Event>, i: nat, delivered: int, owner: seq<nat>, e: Event)
    requires Sized(d) && d.queued < |d.events| && Recent(d, hist) && Waiting(d, i, delivered, owner)
    requires -1 <= delivered < |owner| == e.order
    ensures var r := d.(events := d.events[d.queued := e]);
            Sized(r) && Recent(r, hist) && Waiting(r, i, delivered, owner + [i]) && Staged(r, i, delivered, owner + [i])
  {
    var r := d.(events := d.events[d.queued := e]);
    assert Window(r) == Window(d);
    hide Recent, Window;
  }

  lemma ShiftedKeeps(d: Device, hist: seq<Event>, i: nat, delivered: int, owner: seq<nat>)
    requires Sized(d) && 2 < d.queued && Recent(d, hist) && Waiting(d, i, delivered, owner)
    ensures var r := Shifted(d);
            && Sized(r) && Recent(r, hist) && Waiting(r, i, d.events[2].order, owner) && Waiting(r, i, delivered, owner)
            && r.events[1] == d.events[2] && r.events[0] == d.events[1]
  {
    var r := Shifted(d);
    assert Window(r) == Window(d)[1..];
    assert r.events[..r.queued] == d.events[1..d.queued];
    hide Recent, Window;
    assert forall k :: 2 <= k < r.queued ==> r.events[k] == d.events[k + 1];
  }

  lemma CommitKeeps(d: Device, hist: seq<Event>, i: nat, delivered: int, owner: seq<nat>)
    requires Sized(d) && Recent(d, hist) && Waiting(d, i, delivered, owner) && Staged(d, i, delivered, owner)
    ensures var r := d.(queued := d.queued + 1);
            Sized(r) && Recent(r, hist + [d.events[d.queued]]) && Waiting(r, i, delivered, owner)
  {
    var r := d.(queued := d.queued + 1);
    assert Window(r) == Window(d) + [d.events[d.queued]];
  }

  ghost predicate DeviceOk(d: Device, hist: seq<Event>, i: nat, delivered: int, owner: seq<nat>) {
    Sized(d) && Recent(d, hist) && Waiting(d, i, delivered, owner)
  }

  lemma NewDeviceOk(n: nat, i: nat, delivered: int, owner: seq<nat>)
    ensures DeviceOk(NewDevice(n), [Zero(n), Zero(n)], i, delivered, owner)
  {
    hide Zero;
  }

  /** Every event waiting at the device has at least this number. */
  ghost predicate AtLeast(d: Device, order: int)
    requires d.queued <= |d.events|
  {
    forall l :: 2 <= l < d.queued ==> order <= d.events[l].order
  }

  ghost predicate AllAtLeast(devices: seq<Device>, order: int) {
    forall k :: 0 <= k < |devices| ==> devices[k].queued <= |devices[k].events| && AtLeast(devices[k], order)
  }

  predicate Idle(d: Device) {
    d.queued == 2
  }

  /** The oldest waiting event of device i has become its current one; nothing else changed. */
  ghost predicate MovedOn(before: seq<Device>, after: seq<Device>, i: int) {
    && 0 <= i < |before| && Sized(before[i]) && before[i].queued > 2
    && after == before[i := Shifted(before[i])] && after[i].queued == before[i].queued - 1
    && |after[i].events| > 1 && after[i].events[1] == before[i].events[2] && after[i].events[0] == before[i].events[1]
  }

  lemma HeadLowest(d: Device, hist: seq<Event>, i: nat, delivered: int, owner: seq<nat>)
    requires DeviceOk(d, hist, i, delivered, owner)
    ensures 2 <= d.queued <= |d.events| && AtLeast(d, -1) && (2 < d.queued ==> AtLeast(d, d.events[2].order))
  {}

  /** Numbers are given to one device only: the others' waiting events are later than the lowest. */
  lemma AboveDelivered(d: Device, hist: seq<Event>, k: nat, delivered: int, owner: seq<nat>, i: nat, order: int)
    requires DeviceOk(d, hist, k, delivered, owner) && AtLeast(d, order) && k != i && Numbered(order, i, delivered, owner)
    ensures DeviceOk(d, hist, k, order, owner) && AtLeast(d, order + 1)
  {}

  /** All devices. Device i of the program is devices[i - 1]. */
  class Input {
    var devices: seq<Device>
    var index: nat
    var selected: int

    /** Everything each device has reported, from the two events of its set-up on, and the
        numbers that func__deviceinput without an argument has delivered. */
    ghost var hist: seq<seq<Event>>
    ghost var delivered: seq<int>
    ghost var owner: seq<nat>

    ghost function Last(): int
      reads this
    {
      if delivered == [] then -1 else delivered[|delivered| - 1]
    }

    /** The events that wait are later than all that has been delivered without an argument,
        and those deliveries were in order. */
    ghost predicate Valid()
      reads this
    {
      && |devices| == |hist|
      && (forall i :: 0 <= i < |devices| ==> DeviceOk(devices[i], hist[i], i, Last(), owner))
      && (forall k, l :: 0 <= k < l < |delivered| ==> delivered[k] < delivered[l])
      && -1 <= Last() < index == |owner|
    }

    constructor ()
      ensures Valid() && devices == [] && delivered == []
    {
      devices, index, selected, hist, delivered, owner := [], 0, 0, [], [], [];
    }

    /** A device is connected. */
    method Connect(n: nat)
      requires Valid()
      modifies this
      ensures Valid() && devices == old(devices) + [NewDevice(n)] && hist == old(hist) + [[Zero(n), Zero(n)]]
      ensures hist[|devices| - 1][0] == hist[|devices| - 1][1] == Event(seq(n, _ => 0), 0)
      ensures index == old(index) && delivered == old(delivered) && owner == old(owner)
    {
      NewDeviceOk(n, |devices|, Last(), owner);
      hide DeviceOk, NewDevice, Zero;
      devices := devices + [NewDevice(n)];
      hist := hist + [[Zero(n), Zero(n)]];
    }

    /** createDeviceEvent */
    method Create(i: nat) returns (at: nat)
      requires Valid() && i < |devices|
      modifies this
      ensures |devices| == |old(devices)| && devices == old(devices)[i := devices[i]]
      ensures Valid() && Staged(devices[i], i, Last(), owner) && at == devices[i].queued
      ensures devices[i].queued == if old(devices[i].queued) == 1024 then 1023 else old(devices[i].queued)
      ensures devices[i].events[at] == old(hist[i])[|old(hist[i])| - 1].(order := old(index))
      ensures hist == old(hist) && index == old(index) + 1 && delivered == old(delivered) && owner == old(owner) + [i]
    {
      CreatedKeeps(devices[i], hist[i], i, Last(), owner);
      devices := devices[i := Created(devices[i], index)];
      index := index + 1;
      owner := owner + [i];
      at := devices[i].queued;
    }

    /** setDeviceEventButtonValue and its fellows, on the event that is being made. */
    method SetValue(i: nat, part: nat, value: int)
      requires Valid() && i < |devices| && Staged(devices[i], i, Last(), owner)
      requires part < |devices[i].events[devices[i].queued].values|
      modifies this
      ensures var d, at := old(devices[i]), old(devices[i].queued);
              devices == old(devices)[i := d.(events := d.events[at := d.events[at].(values := d.events[at].values[part := value])])]
      ensures Valid() && Staged(devices[i], i, Last(), owner)
      ensures hist == old(hist) && index == old(index) && delivered == old(delivered) && owner == old(owner)
    {
      var d, at := devices[i], devices[i].queued;
      var e := d.events[at];
      ghost var w := Window(d);
      devices := devices[i := d.(events := d.events[at := e.(values := e.values[part := value])])];
      assert Window(devices[i]) == w;
    }

    /** commitDeviceEvent */
    method Commit(i: nat)
      requires Valid() && i < |devices| && Staged(devices[i], i, Last(), owner)
      modifies this
      ensures Valid() && devices == old(devices)[i := old(devices[i]).(queued := old(devices[i]).queued + 1)]
      ensures hist == old(hist)[i := old(hist[i]) + [old(devices[i]).events[old(devices[i]).queued]]]
      ensures index == old(index) && delivered == old(delivered) && owner == old(owner)
    {
      CommitKeeps(devices[i], hist[i], i, Last(), owner);
      hist := hist[i := hist[i] + [devices[i].events[devices[i].queued]]];
      devices := devices[i := devices[i].(queued := devices[i].queued + 1)];
    }

    lemma AllSized()
      requires Valid()
      ensures forall k :: 0 <= k < |devices| ==> 2 <= devices[k].queued <= |devices[k].events|
      ensures AllAtLeast(devices, -1)
    {
      forall k | 0 <= k < |devices|
        ensures 2 <= devices[k].queued <= |devices[k].events| && AtLeast(devices[k], -1)
      {
        HeadLowest(devices[k], hist[k], k, Last(), owner);
      }
    }

    /** The device with the oldest waiting event, counted from 1, or -1. */
    method Oldest() returns (best: int)
      requires Valid()
      ensures forall k :: 0 <= k < |devices| ==> 2 <= devices[k].queued <= |devices[k].events|
      ensures best == -1 ==> forall k :: 0 <= k < |devices| ==> Idle(devices[k])
      ensures best != -1 ==> 1 <= best <= |devices| && devices[best - 1].queued > 2
      ensures best != -1 ==> AllAtLeast(devices, devices[best - 1].events[2].order)
    {
      AllSized();
      best := -1;
      var lowest := 0;
      var i := 1;
      while i <= |devices|
        invariant 1 <= i <= |devices| + 1
        invariant best == -1 ==> forall k :: 0 <= k < i - 1 ==> Idle(devices[k])
        invariant best != -1 ==> 1 <= best < i && devices[best - 1].queued > 2 && lowest == devices[best - 1].events[2].order
        invariant best != -1 ==> forall k :: 0 <= k < i - 1 ==> AtLeast(devices[k], lowest)
      {
        var d := devices[i - 1];
        HeadLowest(d, hist[i - 1], i - 1, Last(), owner);
        if d.queued > 2 {
          var first := d.events[2].order;
          if best == -1 || first < lowest {
            best, lowest := i, first;
          }
        }
        i := i + 1;
      }
    }

    /** func__deviceinput: without an argument the oldest waiting event of all devices becomes
        its device's current one; with one, the oldest of that device. A number of no device is an
        error, but the code goes on to select the record of that number, and to find that it,
        cleared when it was allocated, has no events; there are records up to 1000. */
    method DeviceInput(which: int, passed: bool) returns (r: int, error: bool)
      requires Valid()
      modifies this`devices, this`selected, this`delivered
      ensures Valid() && (error <==> passed && !(1 <= which <= |devices|))
      ensures error || r == 0 ==> devices == old(devices) && delivered == old(delivered)
      ensures selected == if passed then which else if r == 0 then -1 else r
      ensures error && 0 <= which <= 1000 ==> r == 0 && selected == which
      ensures !error && r == 0 ==> if passed then Idle(devices[which - 1]) else forall k :: 0 <= k < |devices| ==> Idle(devices[k])
      ensures !error && r != 0 ==> r == (if passed then -1 else selected) && (passed ==> selected == which)
      ensures !error && r != 0 ==> MovedOn(old(devices), devices, selected - 1)
      ensures !error && r != 0 ==> delivered == old(delivered) + if passed then [] else [devices[selected - 1].events[1].order]
      ensures !error && r != 0 && !passed ==> AllAtLeast(devices, devices[selected - 1].events[1].order + 1)
    {
      hide DeviceOk, AtLeast, AllAtLeast, Shifted;
      r, error, selected := -1, false, -1;
      var i := which;
      if !passed {
        var best := Oldest();
        if best == -1 {
          r := 0;
          return;
        }
        r, i := best, best;
      }
      if i < 1 || i > |devices| {
        error := true;
      }
      selected := i;
      if error {
        r := 0;
        return;
      }
      var served := Serve(i - 1, passed);
      if !served {
        r := 0;
      }
    }

    /** The oldest waiting event of a device, if there is one. */
    method Serve(i: nat, passed: bool) returns (served: bool)
      requires Valid() && i < |devices|
      requires !passed ==> 2 < devices[i].queued <= |devices[i].events| && AllAtLeast(devices, devices[i].events[2].order)
      modifies this`devices, this`delivered
      ensures Valid() && (!passed ==> served)
      ensures !served ==> Idle(old(devices[i])) && devices == old(devices) && delivered == old(delivered)
      ensures served ==> MovedOn(old(devices), devices, i)
      ensures served ==> delivered == old(delivered) + if passed then [] else [devices[i].events[1].order]
      ensures served && !passed ==> AllAtLeast(devices, devices[i].events[1].order + 1)
    {
      AllSized();
      served := devices[i].queued > 2;
      if served {
        Deliver(i, passed);
      }
    }

    method Deliver(i: nat, passed: bool)
      requires Valid() && i < |devices| && devices[i].queued > 2
      requires AllAtLeast(devices, -1) && (!passed ==> AllAtLeast(devices, devices[i].events[2].order))
      modifies this`devices, this`delivered
      ensures Valid() && MovedOn(old(devices), devices, i)
      ensures delivered == old(delivered) + if passed then [] else [devices[i].events[1].order]
      ensures !passed ==> AllAtLeast(devices, devices[i].events[1].order + 1)
    {
      ghost var o := devices[i].events[2].order;
      ShiftedKeeps(devices[i], hist[i], i, Last(), owner);
      if !passed {
        forall k | 0 <= k < |devices| && k != i
          ensures DeviceOk(devices[k], hist[k], k, o, owner) && AtLeast(devices[k], o + 1)
        {
          AboveDelivered(devices[k], hist[k], k, Last(), owner, i, o);
        }
        assert AtLeast(Shifted(devices[i]), o + 1);
      }
      hide Shifted, Recent, Waiting, AtLeast;
      devices := devices[i := Shifted(devices[i])];
      if !passed {
        delivered := delivered + [o];
      }
    }
  }
}
