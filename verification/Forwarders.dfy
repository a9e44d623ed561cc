/** The lists of UDP destinations, and how the air and the ground unit keep them in step with the
    external devices. */
module Forwarders {
  import opened ExternalDevices

  const VIDEO_PORT := 5600
  const AUDIO_PORT := 5610
  const LOCALHOST: Address := "127.0.0.1"

  datatype Target = Target(address: Address, port: nat)

  predicate Distinct(s: seq<Target>) {
    forall i, j | 0 <= i < j < |s| :: s[i] != s[j]
  }

  /** `s` lists every address of `addresses` exactly once, on this port, and nothing else. */
  ghost predicate Lists(s: seq<Target>, addresses: set<Address>, port: nat) {
    && Distinct(s)
    && forall t :: t in s <==> t.port == port && t.address in addresses
  }

  /** `s` without its first `t`. */
  function Without(s: seq<Target>, t: Target): (r: seq<Target>)
    requires t in s
  {
    if s[0] == t then s[1..] else [s[0]] + Without(s[1..], t)
  }

  lemma {:induction false} WithoutAt(s: seq<Target>, k: nat)
    requires k < |s| && s[k] !in s[..k]
    ensures Without(s, s[k]) == s[..k] + s[k + 1..]
  {
    if k > 0 {
      assert s[1..][..k - 1] == s[1..k];
      WithoutAt(s[1..], k - 1);
    }
  }

  lemma ListsOneMore(s: seq<Target>, t: Target, addresses: set<Address>)
    requires Lists(s, addresses, t.port)
    ensures Lists(if t in s then s else s + [t], addresses + {t.address}, t.port)
  {
  }

  lemma CutMembers(s: seq<Target>, k: nat, u: Target)
    requires k < |s| && Distinct(s)
    ensures u in s[..k] + s[k + 1..] <==> u in s && u != s[k]
  {
    var cut := s[..k] + s[k + 1..];
    if u in cut {
      var i :| 0 <= i < |cut| && cut[i] == u;
      assert u == s[if i < k then i else i + 1];
    }
    if u in s && u != s[k] {
      var i :| 0 <= i < |s| && s[i] == u;
      assert cut[if i < k then i else i - 1] == u;
    }
  }

  lemma ListsOneLess(s: seq<Target>, t: Target, addresses: set<Address>)
    requires Lists(s, addresses, t.port) && t.address in addresses
    ensures t in s && Lists(Without(s, t), addresses - {t.address}, t.port)
  {
    hide Without, Distinct;
    assert t in s;
    var k :| 0 <= k < |s| && s[k] == t;
    FirstOf(s, k);
    WithoutAt(s, k);
    CutStaysDistinct(s, k);
    forall u {
      CutMembers(s, k, u);
    }
  }

  lemma FirstOf(s: seq<Target>, k: nat)
    requires k < |s| && Distinct(s)
    ensures s[k] !in s[..k]
  {
  }

  lemma CutStaysDistinct(s: seq<Target>, k: nat)
    requires k < |s| && Distinct(s)
    ensures Distinct(s[..k] + s[k + 1..])
  {
    var cut := s[..k] + s[k + 1..];
    assert forall i | 0 <= i < |cut| :: cut[i] == s[if i < k then i else i + 1];
  }

  class UdpMultiForwarder {
    var targets: seq<Target>

    constructor ()
      ensures targets == []
    {
      targets := [];
    }

    /** Starts forwarding to a destination unless that is already done. */
    method AddForwarder(target: Target)
      modifies this
      ensures targets == if target in old(targets) then old(targets) else old(targets) + [target]
    {
      var i := 0;
      while i < |targets|
        invariant i <= |targets| && targets == old(targets)
        invariant target !in targets[..i]
      {
        if targets[i] == target {
          return;
        }
        i := i + 1;
      }
      targets := targets + [target];
    }

    /** Erases the first entry that matches. Erasing at the end of the list is undefined, so there
        has to be one, although the declaration promises to do nothing otherwise. */
    method RemoveForwarder(target: Target)
      requires target in targets
      modifies this
      ensures targets == Without(old(targets), target)
    {
      var i := 0;
      while targets[i] != target
        invariant i < |targets| && targets == old(targets)
        invariant target in targets[i..] && target !in targets[..i]
        decreases |targets| - i
      {
        i := i + 1;
      }
      WithoutAt(targets, i);
      targets := targets[..i] + targets[i + 1..];
    }
  }

  /** The flag without which the air unit forwards to nobody follows the last event alone. */
  predicate Forwarding(log: seq<Event>) {
    log != [] && log[|log| - 1].connected
  }

  /** The air unit's forwarders. `log` holds the events handled so far. */
  class VideoAir {
    const primary: UdpMultiForwarder
    const audio: UdpMultiForwarder
    var localhostForwarding: bool
    ghost var log: seq<Event>

    /** Both lists hold each connected device exactly once and nothing else. */
    ghost predicate Valid()
      reads this, primary, audio
    {
      && primary != audio
      && Proper(log)
      && Lists(primary.targets, Fold(log).Keys, VIDEO_PORT)
      && Lists(audio.targets, Fold(log).Keys, AUDIO_PORT)
      && localhostForwarding == Forwarding(log)
    }

    constructor ()
      ensures Valid() && log == [] && fresh(primary) && fresh(audio)
    {
      primary := new UdpMultiForwarder();
      audio := new UdpMultiForwarder();
      localhostForwarding, log := false, [];
    }

    method StartStopForwarding(e: Event)
      requires Valid() && Proper(log + [e])
      modifies this, primary, audio
      ensures Valid() && log == old(log) + [e]
    {
      hide Fold, Proper, Lists;
      FoldOneMore(log, e);
      KeysOneMore(Fold(log), e);
      var video, sound := Target(e.device.ip, VIDEO_PORT), Target(e.device.ip, AUDIO_PORT);
      ghost var addresses := Fold(log).Keys;
      if e.connected {
        ListsOneMore(primary.targets, video, addresses);
        ListsOneMore(audio.targets, sound, addresses);
        primary.AddForwarder(video);
        audio.AddForwarder(sound);
        localhostForwarding := true;
      } else {
        ListsOneLess(primary.targets, video, addresses);
        ListsOneLess(audio.targets, sound, addresses);
        localhostForwarding := false;
        primary.RemoveForwarder(video);
        audio.RemoveForwarder(sound);
      }
      log := log + [e];
    }
  }

  lemma KeysOneMore(m: Devices, e: Event)
    ensures m[e.device.ip := e.device].Keys == m.Keys + {e.device.ip}
    ensures (m - {e.device.ip}).Keys == m.Keys - {e.device.ip}
  {
  }

  lemma {:induction false} ProperPrefix(log: seq<Event>, n: nat)
    requires Proper(log) && n <= |log|
    ensures Proper(log[..n])
  {
    if n < |log| {
      assert log[..|log| - 1][..n] == log[..n];
      ProperPrefix(log[..|log| - 1], n);
    } else {
      assert log[..n] == log;
    }
  }

  /** Hands the air unit what the manager sent its callback since event `seen`. Every removal finds
      its entry, and the lists hold exactly the manager's devices again. */
  method Deliver(manager: ExternalDeviceManager, index: nat, air: VideoAir, seen: nat)
    requires manager.Valid() && index < |manager.logs|
    requires seen <= |manager.logs[index]| && air.Valid() && air.log == manager.logs[index][..seen]
    modifies air, air.primary, air.audio
    ensures air.Valid() && air.log == manager.logs[index]
    ensures Lists(air.primary.targets, manager.devices.Keys, 5600)
    ensures Lists(air.audio.targets, manager.devices.Keys, 5610)
  {
    hide Fold, Proper, Lists;
    var events := manager.logs[index];
    assert Proper(events) && Fold(events) == manager.devices;
    for n := seen to |events|
      invariant air.Valid() && air.log == events[..n]
    {
      ProperPrefix(events, n + 1);
      assert events[..n + 1] == events[..n] + [events[n]];
      air.StartStopForwarding(events[n]);
    }
    assert events[..|events|] == events;
  }

  /** The flag says that some device is connected. */
  ghost predicate FlagRight(log: seq<Event>) {
    Forwarding(log) <==> Fold(log) != map[]
  }

  /** No device ever left while another one stayed. */
  ghost predicate OneAtATime(log: seq<Event>) {
    forall n | 0 <= n < |log| && !log[n].connected :: Fold(log[..n]).Keys == {log[n].device.ip}
  }

  lemma FlagRightNext(log: seq<Event>, n: nat)
    requires Proper(log) && n < |log|
    ensures FlagRight(log[..n + 1]) <==>
            (!log[n].connected ==> Fold(log[..n]).Keys == {log[n].device.ip})
  {
    hide Fold;
    ProperPrefix(log, n + 1);
    assert log[..n + 1] == log[..n] + [log[n]];
    FoldOneMore(log[..n], log[n]);
    KeysOneMore(Fold(log[..n]), log[n]);
    var m, ip := Fold(log[..n]), log[n].device.ip;
    assert m - {ip} == map[] <==> m.Keys - {ip} == {};
    assert ip in m[ip := log[n].device];
  }

  /** The flag is right throughout a run exactly when devices only leave one at a time. */
  lemma FlagRightIff(log: seq<Event>)
    requires Proper(log)
    ensures (forall n | 0 <= n <= |log| :: FlagRight(log[..n])) <==> OneAtATime(log)
  {
    forall n | 0 <= n < |log| {
      FlagRightNext(log, n);
    }
    if OneAtATime(log) {
      forall n | 0 <= n <= |log|
        ensures FlagRight(log[..n])
      {
        if n > 0 {
          FlagRightNext(log, n - 1);
        } else {
          assert log[..0] == [];
        }
      }
    }
    if forall n | 0 <= n <= |log| :: FlagRight(log[..n]) {
      forall n | 0 <= n < |log| && !log[n].connected
        ensures Fold(log[..n]).Keys == {log[n].device.ip}
      {
        assert FlagRight(log[..n + 1]);
      }
    }
  }

  /** Two devices connect and one leaves: the air unit stops forwarding to the other one. */
  lemma FlagWrongWhenOneStays(a: Device, b: Device)
    requires a.ip != b.ip
    ensures var log := [Event(a, true), Event(b, true), Event(a, false)];
      Proper(log) && !FlagRight(log) && Fold(log) == map[b.ip := b] && !Forwarding(log)
  {
    var x, y, z := Event(a, true), Event(b, true), Event(a, false);
    FoldOneMore([], x);
    FoldOneMore([x], y);
    FoldOneMore([x, y], z);
    assert [] + [x] == [x] && [x] + [y] == [x, y] && [x, y] + [z] == [x, y, z];
  }

  // ----- the ground unit -----

  /** An event together with the addresses that count as this host's own when it is handled; the
      source asks the system anew every time. */
  datatype GroundEvent = GroundEvent(event: Event, self: set<Address>)

  /** A ground control application on the same host announces itself to the telemetry server, and
      is already served. */
  predicate Skipped(g: GroundEvent) {
    var device := g.event.device;
    device.byMavlinkTcp && (device.ip == LOCALHOST || device.ip in g.self)
  }

  function VideoAddresses(log: seq<GroundEvent>): set<Address> {
    if log == [] then {LOCALHOST} else
      var before, g := VideoAddresses(log[..|log| - 1]), log[|log| - 1];
      if Skipped(g) then before
      else if g.event.connected then before + {g.event.device.ip}
      else before - {g.event.device.ip}
  }

  function AudioAddresses(log: seq<GroundEvent>): set<Address> {
    if log == [] then {LOCALHOST} else
      var before, g := AudioAddresses(log[..|log| - 1]), log[|log| - 1];
      if !Skipped(g) && g.event.connected then before + {g.event.device.ip} else before
  }

  /** Removing what an event asks for finds an entry. */
  predicate Finds(before: seq<GroundEvent>, g: GroundEvent) {
    Skipped(g) || g.event.connected || g.event.device.ip in VideoAddresses(before)
  }

  /** The ground unit's forwarders. Video and sound always go to the ground control application on
      the same host. */
  class VideoGround {
    const primary: UdpMultiForwarder
    const audio: UdpMultiForwarder
    ghost var log: seq<GroundEvent>

    ghost predicate Valid()
      reads this, primary, audio
    {
      && primary != audio
      && Lists(primary.targets, VideoAddresses(log), VIDEO_PORT)
      && Lists(audio.targets, AudioAddresses(log), AUDIO_PORT)
    }

    constructor ()
      ensures Valid() && log == [] && fresh(primary) && fresh(audio)
    {
      primary := new UdpMultiForwarder();
      audio := new UdpMultiForwarder();
      log := [];
      new;
      primary.AddForwarder(Target(LOCALHOST, VIDEO_PORT));
      audio.AddForwarder(Target(LOCALHOST, AUDIO_PORT));
    }

    method StartStopForwarding(g: GroundEvent)
      requires Valid() && Finds(log, g)
      modifies this, primary, audio
      ensures Valid() && log == old(log) + [g]
    {
      hide Lists;
      assert (log + [g])[..|log|] == log;
      ghost var seen, e := log, g.event;
      log := log + [g];
      if Skipped(g) {
        return;
      }
      var video := Target(g.event.device.ip, VIDEO_PORT);
      var sound := Target(g.event.device.ip, AUDIO_PORT);
      if g.event.connected {
        ListsOneMore(primary.targets, video, VideoAddresses(seen));
        ListsOneMore(audio.targets, sound, AudioAddresses(seen));
        primary.AddForwarder(video);
        audio.AddForwarder(sound);
      } else {
        ListsOneLess(primary.targets, video, VideoAddresses(seen));
        primary.RemoveForwarder(video);
      }
    }
  }

  /** Event `k` is about `ip` and is not skipped. */
  predicate Counts(log: seq<GroundEvent>, ip: Address, k: nat)
    requires k < |log|
  {
    log[k].event.device.ip == ip && !Skipped(log[k])
  }

  /** The latest event about `ip` that is not skipped is a connect, or there is none and `ip` is
      this host. */
  predicate Served(log: seq<GroundEvent>, ip: Address) {
    || (ip == LOCALHOST && forall j | 0 <= j < |log| :: !Counts(log, ip, j))
    || exists k | 0 <= k < |log| && Counts(log, ip, k) ::
         log[k].event.connected && forall j | k < j < |log| :: !Counts(log, ip, j)
  }

  lemma ServedOneMore(before: seq<GroundEvent>, g: GroundEvent, ip: Address)
    ensures Served(before + [g], ip) <==>
      if g.event.device.ip == ip && !Skipped(g) then g.event.connected else Served(before, ip)
  {
    var log := before + [g];
    assert forall j | 0 <= j < |before| :: Counts(log, ip, j) <==> Counts(before, ip, j);
    assert Counts(log, ip, |before|) <==> g.event.device.ip == ip && !Skipped(g);
    if Counts(log, ip, |before|) {
      if g.event.connected {
        assert Served(log, ip);
      }
    } else if Served(before, ip) {
      if k :| 0 <= k < |before| && Counts(before, ip, k) && before[k].event.connected
              && forall j | k < j < |before| :: !Counts(before, ip, j) {
        assert Counts(log, ip, k) && log[k].event.connected;
      }
    }
  }

  /** Video goes exactly to the addresses whose latest event that was not skipped is a connect, and
      to this host as long as there is none about it. */
  lemma {:induction false} GroundVideo(log: seq<GroundEvent>, ip: Address)
    ensures ip in VideoAddresses(log) <==> Served(log, ip)
  {
    if log != [] {
      var before, g := log[..|log| - 1], log[|log| - 1];
      GroundVideo(before, ip);
      ServedOneMore(before, g, ip);
      assert before + [g] == log;
    }
  }

  /** What the telemetry server reports about this host changes nothing, and what another discovery
      reports is never skipped. */
  lemma OwnHostIsSkipped(log: seq<GroundEvent>, e: Event, self: set<Address>)
    requires e.device.byMavlinkTcp && (e.device.ip == "127.0.0.1" || e.device.ip in self)
    ensures VideoAddresses(log + [GroundEvent(e, self)]) == VideoAddresses(log)
    ensures AudioAddresses(log + [GroundEvent(e, self)]) == AudioAddresses(log)
  {
    assert (log + [GroundEvent(e, self)])[..|log|] == log;
  }

  lemma OthersAreHandled(log: seq<GroundEvent>, e: Event, self: set<Address>)
    requires !e.device.byMavlinkTcp || (e.device.ip != "127.0.0.1" && e.device.ip !in self)
    ensures var after := log + [GroundEvent(e, self)];
      && VideoAddresses(after) == (if e.connected then VideoAddresses(log) + {e.device.ip}
                                   else VideoAddresses(log) - {e.device.ip})
      && AudioAddresses(after) == AudioAddresses(log) + if e.connected then {e.device.ip} else {}
  {
    assert (log + [GroundEvent(e, self)])[..|log|] == log;
  }

  /** Every removal of a whole run finds its entry. */
  predicate AllFound(log: seq<GroundEvent>) {
    forall n | 0 <= n < |log| :: Finds(log[..n], log[n])
  }

  /** The exact condition: every disconnect that is not skipped is about an address whose latest
      event that was not skipped is a connect, or about this host before any such event. */
  lemma AllFoundIff(log: seq<GroundEvent>)
    ensures AllFound(log) <==>
      forall n | 0 <= n < |log| && !log[n].event.connected && !Skipped(log[n]) ::
        Served(log[..n], log[n].event.device.ip)
  {
    forall n | 0 <= n < |log|
      ensures Finds(log[..n], log[n]) <==>
        log[n].event.connected || Skipped(log[n]) || Served(log[..n], log[n].event.device.ip)
    {
      GroundVideo(log[..n], log[n].event.device.ip);
    }
  }

  function Events(log: seq<GroundEvent>): seq<Event> {
    if log == [] then [] else Events(log[..|log| - 1]) + [log[|log| - 1].event]
  }

  lemma {:induction false} EventsPrefix(log: seq<GroundEvent>, n: nat)
    requires n <= |log|
    ensures |Events(log)| == |log| && Events(log)[..n] == Events(log[..n])
  {
    if n < |log| {
      EventsPrefix(log[..|log| - 1], n);
      assert log[..|log| - 1][..n] == log[..n];
      assert Events(log)[..n] == Events(log[..|log| - 1])[..n];
    } else if n > 0 {
      EventsPrefix(log[..n - 1], n - 1);
      assert log[..n] == log;
    }
  }

  lemma {:induction false} KnownIsServed(log: seq<GroundEvent>, ip: Address)
    requires forall g | g in log && g.event.device.ip == ip :: !Skipped(g)
    ensures ip in Fold(Events(log)) ==> ip in VideoAddresses(log)
  {
    if log != [] {
      var before, g := log[..|log| - 1], log[|log| - 1];
      assert g in log;
      KnownIsServed(before, ip);
      FoldOneMore(Events(before), g.event);
    }
  }

  /** In particular, with the manager's events every removal finds its entry as long as all events
      about one address are skipped or none is. */
  lemma SteadyRunFinds(log: seq<GroundEvent>)
    requires Proper(Events(log))
    requires forall g, h | g in log && h in log && g.event.device.ip == h.event.device.ip ::
      Skipped(g) == Skipped(h)
    ensures AllFound(log)
  {
    forall n | 0 <= n < |log|
      ensures Finds(log[..n], log[n])
    {
      var g := log[n];
      if !Skipped(g) && !g.event.connected {
        assert forall h | h in log[..n] :: h in log;
        KnownIsServed(log[..n], g.event.device.ip);
        EventsPrefix(log, n + 1);
        ProperPrefix(Events(log), n + 1);
        assert log[..n + 1][..n] == log[..n];
        FoldOneMore(Events(log[..n]), g.event);
      }
    }
  }

  /** Hands the ground unit a whole run of events that meets the exact condition. */
  method DeliverToGround(log: seq<GroundEvent>) returns (ground: VideoGround)
    requires forall n | 0 <= n < |log| && !log[n].event.connected && !Skipped(log[n]) ::
      Served(log[..n], log[n].event.device.ip)
    ensures ground.Valid() && ground.log == log
    ensures Lists(ground.primary.targets, VideoAddresses(log), 5600)
    ensures Lists(ground.audio.targets, AudioAddresses(log), 5610)
  {
    AllFoundIff(log);
    ground := new VideoGround();
    for n := 0 to |log|
      invariant ground.Valid() && ground.log == log[..n]
      invariant fresh(ground) && fresh(ground.primary) && fresh(ground.audio)
    {
      assert log[..n + 1] == log[..n] + [log[n]];
      ground.StartStopForwarding(log[n]);
    }
    assert log[..|log|] == log;
  }

  /** The manager passes on a device that came over the telemetry server and leaves by another
      discovery: the entry to remove was never made. */
  lemma OtherDiscoveryMisses(ip: Address)
    requires ip != LOCALHOST
    ensures var came, left := Event(Device("", ip, true), true), Event(Device("", ip, false), false);
      Proper([came, left]) && !AllFound([GroundEvent(came, {ip}), GroundEvent(left, {ip})])
  {
    Misses(ip, false, {ip});
  }

  /** The same with one discovery, when the address is this host's at the connect and no longer at
      the disconnect. */
  lemma AddressChangeMisses(ip: Address)
    requires ip != LOCALHOST
    ensures var came, left := Event(Device("", ip, true), true), Event(Device("", ip, true), false);
      Proper([came, left]) && !AllFound([GroundEvent(came, {ip}), GroundEvent(left, {})])
  {
    Misses(ip, true, {});
  }

  lemma Misses(ip: Address, byTcp: bool, self: set<Address>)
    requires ip != LOCALHOST && (byTcp ==> ip !in self)
    ensures var came, left := Event(Device("", ip, true), true), Event(Device("", ip, byTcp), false);
      Proper([came, left]) && !AllFound([GroundEvent(came, {ip}), GroundEvent(left, self)])
  {
    var came, left := Event(Device("", ip, true), true), Event(Device("", ip, byTcp), false);
    FoldOneMore([], came);
    FoldOneMore([came], left);
    assert [] + [came] == [came] && [came] + [left] == [came, left];
    var log := [GroundEvent(came, {ip}), GroundEvent(left, self)];
    assert log[..1] == [log[0]] && [log[0]][..0] == [];
    assert VideoAddresses([log[0]]) == {LOCALHOST};
    assert !Finds(log[..1], log[1]);
  }

  /** Sound keeps going to every address that ever connected without being skipped. */
  lemma {:induction false} GroundSound(log: seq<GroundEvent>, ip: Address)
    ensures ip in AudioAddresses(log) <==>
            ip == LOCALHOST ||
            exists g | g in log :: g.event.device.ip == ip && g.event.connected && !Skipped(g)
  {
    if log != [] {
      var before := log[..|log| - 1];
      GroundSound(before, ip);
      assert log == before + [log[|log| - 1]];
    }
  }
}
