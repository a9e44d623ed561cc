/** The external device manager as an observer protocol. `logs` records, per registered listener,
    the events its callback received. */
module ExternalDevices {
  type Address = string

  datatype Device = Device(tag: string, ip: Address, byMavlinkTcp: bool)
  datatype Event = Event(device: Device, connected: bool)
  type Devices = map<Address, Device>

  /** What a listener knows after the events it received. */
  function Fold(log: seq<Event>): Devices {
    if log == [] then map[] else
      Apply(Fold(log[..|log| - 1]), log[|log| - 1])
  }

  function Apply(m: Devices, e: Event): Devices {
    if e.connected then m[e.device.ip := e.device] else m - {e.device.ip}
  }

  lemma ApplySize(m: Devices, e: Event)
    requires e.connected <==> e.device.ip !in m
    ensures |Apply(m, e)| == if e.connected then |m| + 1 else |m| - 1
  {
    var ip := e.device.ip;
    assert m.Keys == (m - {ip}).Keys + if ip in m then {ip} else {};
  }

  /** Only unknown devices connect and only known ones disconnect. */
  predicate Proper(log: seq<Event>) {
    log == [] ||
    var before, e := log[..|log| - 1], log[|log| - 1];
    Proper(before) && (e.connected <==> e.device.ip !in Fold(before))
  }

  lemma FoldOneMore(log: seq<Event>, e: Event)
    ensures Fold(log + [e]) == Apply(Fold(log), e)
    ensures Proper(log + [e]) <==> Proper(log) && (e.connected <==> e.device.ip !in Fold(log))
  {
    assert (log + [e])[..|log|] == log;
  }

  function About(log: seq<Event>, ip: Address): seq<bool> {
    if log == [] then [] else
      var e := log[|log| - 1];
      About(log[..|log| - 1], ip) + if e.device.ip == ip then [e.connected] else []
  }

  /** For each identifier the events alternate, beginning with a connect, and end on a connect
      exactly when the device is known. */
  lemma {:induction false} EventsAlternate(log: seq<Event>, ip: Address)
    requires Proper(log)
    ensures forall k | 0 <= k < |About(log, ip)| :: About(log, ip)[k] == (k % 2 == 0)
    ensures ip in Fold(log) <==> |About(log, ip)| % 2 == 1
  {
    if log != [] {
      EventsAlternate(log[..|log| - 1], ip);
    }
  }

  /** Event `k` is the latest one about its identifier. */
  predicate Latest(log: seq<Event>, k: nat)
    requires k < |log|
  {
    forall j | k < j < |log| :: log[j].device.ip != log[k].device.ip
  }

  /** What a listener knows: exactly the devices whose latest event is a connect, as that event
      described them. */
  lemma {:induction false} KnownIff(log: seq<Event>, d: Device)
    ensures d.ip in Fold(log) && Fold(log)[d.ip] == d <==>
      exists k | 0 <= k < |log| && log[k] == Event(d, true) :: Latest(log, k)
  {
    if log != [] {
      var n := |log| - 1;
      var before, e := log[..n], log[n];
      KnownIff(before, d);
      assert log == before + [e];
      FoldOneMore(before, e);
      if e.device.ip == d.ip {
        assert e == Event(d, true) ==> Latest(log, n);
        assert forall k | 0 <= k < n && log[k].device.ip == d.ip :: !Latest(log, k);
      } else {
        forall k | 0 <= k < n && log[k].device.ip == d.ip
          ensures Latest(log, k) <==> Latest(before, k)
        {
          assert forall j | k < j < n :: log[j] == before[j];
        }
        if k :| 0 <= k < n && before[k] == Event(d, true) && Latest(before, k) {
          assert log[k] == before[k];
        }
      }
    }
  }

  /** Every listener's events replay to `m`. */
  ghost predicate Replay(logs: seq<seq<Event>>, m: Devices) {
    forall i | 0 <= i < |logs| :: Proper(logs[i]) && Fold(logs[i]) == m
  }

  /** All callbacks received one more event. */
  ghost predicate Notified(logs: seq<seq<Event>>, before: seq<seq<Event>>, e: Event) {
    |logs| == |before| && forall i | 0 <= i < |logs| :: logs[i] == before[i] + [e]
  }

  lemma ReplayOneMore(logs: seq<seq<Event>>, before: seq<seq<Event>>, e: Event, m: Devices)
    requires Replay(before, m) && Notified(logs, before, e)
    requires e.connected <==> e.device.ip !in m
    ensures Replay(logs, Apply(m, e))
  {
    forall i | 0 <= i < |logs| {
      FoldOneMore(before[i], e);
    }
  }

  function Restrict(m: Devices, ips: set<Address>): Devices {
    map ip | ip in m && ip in ips :: m[ip]
  }

  lemma NothingKnown(m: Devices)
    ensures Proper([]) && Fold([]) == Restrict(m, {})
    ensures Restrict(m, m.Keys) == m
  {
  }

  lemma RestrictGrows(m: Devices, ips: set<Address>, ip: Address)
    requires ip in m && ip !in ips
    ensures ip !in Restrict(m, ips)
    ensures Restrict(m, ips + {ip}) == Restrict(m, ips)[ip := m[ip]]
  {
  }

  /** The counter is a uint8_t. */
  lemma CountWraps(n: nat)
    ensures (n % 256 + 1) % 256 == (n + 1) % 256
    ensures n > 0 ==> (n % 256 + 255) % 256 == (n - 1) % 256
  {
  }

  class ExternalDeviceManager {
    var devices: Devices
    var count: nat
    var removeAllCalled: bool
    var logs: seq<seq<Event>>

    /** Every listener's events replay to the current map, the counter is the size modulo 256. */
    ghost predicate Valid()
      reads this
    {
      && Replay(logs, devices)
      && (forall ip | ip in devices :: devices[ip].ip == ip)
      && count == |devices| % 256
      && (removeAllCalled ==> devices == map[])
    }

    constructor ()
      ensures Valid() && logs == [] && devices == map[] && !removeAllCalled
    {
      devices, count, removeAllCalled, logs := map[], 0, false, [];
    }

    /** Calls every callback. */
    method Notify(e: Event)
      modifies this`logs
      ensures Notified(logs, old(logs), e)
    {
      var i := 0;
      while i < |logs|
        invariant i <= |logs| == |old(logs)|
        invariant forall j | 0 <= j < i :: logs[j] == old(logs)[j] + [e]
        invariant forall j | i <= j < |logs| :: logs[j] == old(logs)[j]
      {
        logs := logs[i := logs[i] + [e]];
        i := i + 1;
      }
    }

    method OnNewExternalDevice(device: Device, connected: bool)
      requires Valid()
      modifies this
      ensures Valid() && removeAllCalled == old(removeAllCalled)
      ensures var e := Event(device, connected);
        if !removeAllCalled && (connected <==> device.ip !in old(devices))
        then devices == Apply(old(devices), e) && Notified(logs, old(logs), e)
        else unchanged(this)
    {
      hide Replay, Notified;
      if removeAllCalled {
        return;
      }
      var id := device.ip;
      if connected {
        if id in devices {
          return;
        }
        devices := devices[id := device];
        count := (count + 1) % 256;
      } else {
        if id !in devices {
          return;
        }
        devices := devices - {id};
        count := (count + 255) % 256;
      }
      Notify(Event(device, connected));
      ApplySize(old(devices), Event(device, connected));
      CountWraps(|old(devices)|);
      ReplayOneMore(logs, old(logs), Event(device, connected), old(devices));
    }

    /** Calls a new callback with every known device. */
    method NotifyOfKnown() returns (log: seq<Event>)
      requires Valid()
      ensures Proper(log) && Fold(log) == devices
      ensures |log| == |devices| && forall e | e in log :: e.connected
    {
      hide Fold, Proper, Restrict;
      log := [];
      NothingKnown(devices);
      var rest := devices.Keys;
      assert devices.Keys - rest == {};
      while rest != {}
        invariant rest <= devices.Keys && |log| + |rest| == |devices.Keys|
        invariant Proper(log) && Fold(log) == Restrict(devices, devices.Keys - rest)
        invariant forall e | e in log :: e.connected
        decreases |rest|
      {
        var id :| id in rest;
        FoldOneMore(log, Event(devices[id], true));
        RestrictGrows(devices, devices.Keys - rest, id);
        log := log + [Event(devices[id], true)];
        assert devices.Keys - rest + {id} == devices.Keys - (rest - {id});
        rest := rest - {id};
      }
      assert devices.Keys - rest == devices.Keys;
    }

    method RegisterListener() returns (index: nat)
      requires Valid()
      modifies this`logs
      ensures Valid() && index == |old(logs)| && |logs| == index + 1
      ensures logs[..index] == old(logs)
      ensures |logs[index]| == |devices| && forall e | e in logs[index] :: e.connected
    {
      var log := NotifyOfKnown();
      index := |logs|;
      logs := logs + [log];
    }

    method RemoveAll()
      requires Valid()
      modifies this
      ensures Valid() && removeAllCalled && devices == map[] && count == 0
      ensures |logs| == |old(logs)|
      ensures forall i | 0 <= i < |logs| ::
        old(logs)[i] <= logs[i] && |logs[i]| == |old(logs)[i]| + |old(devices)|
    {
      hide Fold, Proper;
      var rest := devices.Keys;
      assert Restrict(devices, rest) == devices;
      while rest != {}
        invariant rest <= devices.Keys && devices == old(devices)
        invariant Replay(logs, Restrict(devices, rest)) && |logs| == |old(logs)|
        invariant forall i | 0 <= i < |logs| ::
          old(logs)[i] <= logs[i] && |logs[i]| + |rest| == |old(logs)[i]| + |devices.Keys|
        decreases |rest|
      {
        var id :| id in rest;
        ghost var before := logs;
        Notify(Event(devices[id], false));
        ReplayOneMore(logs, before, Event(devices[id], false), Restrict(devices, rest));
        assert Restrict(devices, rest) - {id} == Restrict(devices, rest - {id});
        rest := rest - {id};
      }
      devices := map[];
      count := 0;
      removeAllCalled := true;
    }
  }
}
