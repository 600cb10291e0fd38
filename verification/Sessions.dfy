/**
 The data-plane server's session tables and routes (internal/dataplane/server.go, internal/routing/router.go).
 */
module Sessions {
  import opened Words

  type IPv4 = s: bytes | |s| == 4 witness [0, 0, 0, 0]

  datatype Session = Session(device: string, address: IPv4, id: u64)

  datatype Peer = Adapter | Tunnel(session: Session)

  datatype Tables = Tables(
    serverIP: IPv4,
    sessions: map<u64, Session>,
    byDevice: map<string, Session>,
    peers: map<IPv4, Peer>)

  datatype RegisterError = InvalidPeer

  // ---------------------------------------------------------------- routing decision

  datatype RouteError = InvalidIPv4Packet | SourceSpoofed | UnknownDestination

  function Source(packet: bytes): IPv4
    requires |packet| >= 20
  {
    packet[12..16]
  }

  function Destination(packet: bytes): IPv4
    requires |packet| >= 20
  {
    packet[16..20]
  }

  /** Router.Route up to the point where it hands the packet to the chosen peer. */
  function Route(peers: map<IPv4, Peer>, sender: IPv4, packet: bytes): (r: Result<Peer, RouteError>)
    ensures r.Ok? <==>
              && |packet| >= 20 && packet[0] / 16 == 4 && packet[12..16] == sender && packet[16..20] in peers
    ensures r.Ok? ==> |packet| >= 20 && Source(packet) == sender
                      && Destination(packet) in peers && r.value == peers[Destination(packet)]
    ensures r == Err(InvalidIPv4Packet) <==> |packet| < 20 || packet[0] / 16 != 4
    ensures r == Err(SourceSpoofed) <==> |packet| >= 20 && packet[0] / 16 == 4 && packet[12..16] != sender
  {
    if |packet| < 20 || packet[0] / 16 != 4 then Err(InvalidIPv4Packet)
    else if Source(packet) != sender then Err(SourceSpoofed)
    else if Destination(packet) !in peers then Err(UnknownDestination)
    else Ok(peers[Destination(packet)])
  }

  // ---------------------------------------------------------------- tables as values

  function Started(serverIP: IPv4): Tables {
    Tables(serverIP, map[], map[], map[serverIP := Adapter])
  }

  predicate Registrable(t: Tables, device: string, address: Option<IPv4>) {
    device != "" && address.Some? && address.value != t.serverIP
  }

  function Registered(t: Tables, s: Session): Tables {
    var cleared := if s.device in t.byDevice then
                     var replaced := t.byDevice[s.device];
                     t.(sessions := t.sessions - {replaced.id}, peers := t.peers - {replaced.address})
                   else t;
    cleared.(sessions := cleared.sessions[s.id := s],
             byDevice := cleared.byDevice[s.device := s],
             peers := cleared.peers[s.address := Tunnel(s)])
  }

  function Removed(t: Tables, device: string, id: u64): Tables {
    if device in t.byDevice && t.byDevice[device].id == id then
      t.(byDevice := t.byDevice - {device},
         sessions := t.sessions - {id},
         peers := t.peers - {t.byDevice[device].address})
    else t
  }

  datatype Event =
    | RegisterEvent(device: string, address: Option<IPv4>, id: u64)
    | RemoveEvent(device: string, id: u64)

  function Step(t: Tables, e: Event): Tables {
    match e
    case RegisterEvent(device, address, id) =>
      if Registrable(t, device, address) then Registered(t, Session(device, address.value, id)) else t
    case RemoveEvent(device, id) => Removed(t, device, id)
  }

  function Run(serverIP: IPv4, events: seq<Event>): Tables {
    if events == [] then Started(serverIP)
    else Step(Run(serverIP, events[..|events| - 1]), events[|events| - 1])
  }

  /** Random 64-bit session numbers do not collide. */
  ghost predicate FreshIDs(events: seq<Event>) {
    forall i, j :: 0 <= i < j < |events| && events[i].RegisterEvent? && events[j].RegisterEvent? ==>
      events[i].id != events[j].id
  }

  // ---------------------------------------------------------------- consistency

  /** The two session maps are inverse to each other. */
  ghost predicate Inverse(t: Tables) {
    && (forall d :: d in t.byDevice ==>
          t.byDevice[d].device == d && t.byDevice[d].id in t.sessions && t.sessions[t.byDevice[d].id] == t.byDevice[d])
    && (forall i :: i in t.sessions ==>
          && t.sessions[i].id == i && t.sessions[i].device in t.byDevice
          && t.byDevice[t.sessions[i].device] == t.sessions[i])
  }

  /** The server address routes to the adapter; every other route leads to a live session assigned that address. */
  ghost predicate RoutesLive(t: Tables) {
    && t.serverIP in t.peers && t.peers[t.serverIP] == Adapter
    && (forall i :: i in t.sessions ==> t.sessions[i].address != t.serverIP)
    && (forall a :: a in t.peers && a != t.serverIP ==>
          && t.peers[a].Tunnel?
          && var s := t.peers[a].session; s.address == a && s.id in t.sessions && t.sessions[s.id] == s)
  }

  ghost predicate Consistent(t: Tables) {
    Inverse(t) && RoutesLive(t)
  }

  lemma RegisterKeepsInverse(t: Tables, s: Session)
    requires Inverse(t) && s.id !in t.sessions
    ensures Inverse(Registered(t, s))
  {
  }

  lemma RegisterKeepsRoutesLive(t: Tables, s: Session)
    requires Consistent(t) && s.id !in t.sessions && s.address != t.serverIP
    ensures RoutesLive(Registered(t, s))
  {
    var u := Registered(t, s);
    forall a | a in u.peers && a != u.serverIP
      ensures u.peers[a].Tunnel?
      ensures var p := u.peers[a].session; p.address == a && p.id in u.sessions && u.sessions[p.id] == p
    {
      if a != s.address {
        assert a in t.peers && u.peers[a] == t.peers[a];
        var p := t.peers[a].session;
        assert s.device in t.byDevice ==> p.id != t.byDevice[s.device].id;
      }
    }
  }

  lemma RemoveKeepsConsistent(t: Tables, device: string, id: u64)
    requires Consistent(t)
    ensures Consistent(Removed(t, device, id))
  {
  }

  lemma StepKeepsConsistent(t: Tables, e: Event)
    requires Consistent(t)
    requires e.RegisterEvent? ==> e.id !in t.sessions
    ensures Consistent(Step(t, e)) && Step(t, e).serverIP == t.serverIP
  {
    match e {
      case RegisterEvent(device, address, id) =>
        if Registrable(t, device, address) {
          RegisterKeepsInverse(t, Session(device, address.value, id));
          RegisterKeepsRoutesLive(t, Session(device, address.value, id));
        }
      case RemoveEvent(device, id) => RemoveKeepsConsistent(t, device, id);
    }
  }

  lemma {:induction false} IDsComeFromEvents(serverIP: IPv4, events: seq<Event>, id: u64)
    requires forall i :: 0 <= i < |events| && events[i].RegisterEvent? ==> events[i].id != id
    ensures id !in Run(serverIP, events).sessions
  {
    if events != [] { IDsComeFromEvents(serverIP, events[..|events| - 1], id); }
  }

  /** In every run the session maps stay inverse and every route leads to a live session or the adapter. */
  lemma {:induction false} RunIsConsistent(serverIP: IPv4, events: seq<Event>)
    requires FreshIDs(events)
    ensures Consistent(Run(serverIP, events)) && Run(serverIP, events).serverIP == serverIP
  {
    if events != [] {
      var front, last := events[..|events| - 1], events[|events| - 1];
      RunIsConsistent(serverIP, front);
      if last.RegisterEvent? { IDsComeFromEvents(serverIP, front, last.id); }
      StepKeepsConsistent(Run(serverIP, front), last);
    }
  }

  /** Remove takes out the named session of the named device and nothing else, so a late one does nothing. */
  lemma RemoveTakesOneSession(t: Tables, device: string, id: u64)
    requires Consistent(t)
    ensures
      var u := Removed(t, device, id);
      var hit := id in t.sessions && t.sessions[id].device == device;
      && (!hit ==> u == t)
      && (hit ==> u.sessions == t.sessions - {id} && u.byDevice == t.byDevice - {device})
  {
  }

  /** Replacing a device's session makes the deferred Remove of the old one a no-op. */
  lemma LateRemoveChangesNothing(serverIP: IPv4, events: seq<Event>, device: string, replaced: u64, address: IPv4,
                                 id: u64)
    requires FreshIDs(events + [RegisterEvent(device, Some(address), id)])
    requires replaced != id && device != "" && address != serverIP
    ensures
      var t := Run(serverIP, events + [RegisterEvent(device, Some(address), id)]);
      && Step(t, RemoveEvent(device, replaced)) == t
      && id in t.sessions
  {
    var e := RegisterEvent(device, Some(address), id);
    assert (events + [e])[..|events| + 1 - 1] == events;
    RunIsConsistent(serverIP, events) by { assert forall i :: 0 <= i < |events| ==> (events + [e])[i] == events[i]; }
  }

  // ---------------------------------------------------------------- exactness of the routes

  ghost predicate DistinctAddresses(t: Tables) {
    forall i, j :: i in t.sessions && j in t.sessions && i != j ==> t.sessions[i].address != t.sessions[j].address
  }

  /** Every live session is routed; with Consistent, the route table is then exactly live sessions and adapter. */
  ghost predicate AllRouted(t: Tables) {
    forall i :: i in t.sessions ==>
      t.sessions[i].address in t.peers && t.peers[t.sessions[i].address] == Tunnel(t.sessions[i])
  }

  ghost predicate AddressFree(t: Tables, device: string, address: IPv4) {
    forall i :: i in t.sessions && t.sessions[i].device != device ==> t.sessions[i].address != address
  }

  ghost predicate Routed(t: Tables, i: u64) {
    i in t.sessions ==> t.sessions[i].address in t.peers && t.peers[t.sessions[i].address] == Tunnel(t.sessions[i])
  }

  /** A session of another device that shares no address with the new one keeps its route. */
  lemma RegisterKeepsRoute(t: Tables, s: Session, i: u64)
    requires Inverse(t) && AllRouted(t) && s.id !in t.sessions
    requires i in t.sessions && t.sessions[i].device != s.device ==> t.sessions[i].address != s.address
    ensures Routed(Registered(t, s), i)
  {
    if i in Registered(t, s).sessions && i != s.id {
      assert i in t.sessions && t.sessions[i].device != s.device;
      if s.device in t.byDevice {
        var replaced := t.byDevice[s.device];
        assert t.peers[replaced.address] == Tunnel(replaced) && t.peers[t.sessions[i].address] == Tunnel(t.sessions[i]);
        assert replaced.address != t.sessions[i].address;
      }
    }
  }

  /** Routes are removed by address, so a registration keeps all sessions routed exactly if its address is free. */
  lemma RegisterKeepsRoutesExactlyIfFree(t: Tables, device: string, address: IPv4, id: u64)
    requires Consistent(t) && AllRouted(t)
    requires Registrable(t, device, Some(address)) && id !in t.sessions
    ensures AllRouted(Registered(t, Session(device, address, id))) <==> AddressFree(t, device, address)
  {
    var s := Session(device, address, id);
    var u := Registered(t, s);
    if AddressFree(t, device, address) {
      hide Registered, Inverse, RoutesLive, Registrable;
      forall i | i in u.sessions ensures Routed(u, i) {
        RegisterKeepsRoute(t, s, i);
      }
    } else {
      SharedLosesRoute(t, s);
    }
  }

  lemma SharedLosesRoute(t: Tables, s: Session)
    requires Inverse(t) && s.id !in t.sessions && !AddressFree(t, s.device, s.address)
    ensures !AllRouted(Registered(t, s))
  {
    var i :| i in t.sessions && t.sessions[i].device != s.device && t.sessions[i].address == s.address;
    var u := Registered(t, s);
    assert i in u.sessions && u.sessions[i] == t.sessions[i];
  }

  lemma RemoveKeepsRoutes(t: Tables, device: string, id: u64)
    requires Consistent(t) && AllRouted(t)
    ensures AllRouted(Removed(t, device, id))
  {
  }

  lemma StepKeepsAllRouted(t: Tables, e: Event)
    requires Consistent(t) && AllRouted(t)
    requires e.RegisterEvent? ==> e.id !in t.sessions
    requires DistinctAddresses(Step(t, e))
    ensures AllRouted(Step(t, e))
  {
    match e {
      case RemoveEvent(device, id) => RemoveKeepsRoutes(t, device, id);
      case RegisterEvent(device, address, id) =>
        if Registrable(t, device, address) {
          var u := Step(t, e);
          forall i | i in t.sessions && t.sessions[i].device != device ensures t.sessions[i].address != address.value {
            assert i in u.sessions && u.sessions[i] == t.sessions[i] && u.sessions[id].address == address.value;
          }
          RegisterKeepsRoutesExactlyIfFree(t, device, address.value, id);
        }
    }
  }

  lemma {:induction false} DistinctRunIsAllRouted(serverIP: IPv4, events: seq<Event>)
    requires FreshIDs(events)
    requires forall k :: 0 <= k <= |events| ==> DistinctAddresses(Run(serverIP, events[..k]))
    ensures AllRouted(Run(serverIP, events))
  {
    if events != [] {
      var front, last := events[..|events| - 1], events[|events| - 1];
      assert forall k :: 0 <= k <= |front| ==> front[..k] == events[..k];
      DistinctRunIsAllRouted(serverIP, front);
      RunIsConsistent(serverIP, front);
      if last.RegisterEvent? { IDsComeFromEvents(serverIP, front, last.id); }
      assert events[..|events|] == events;
      StepKeepsAllRouted(Run(serverIP, front), last);
    }
  }

  /** If live sessions always have distinct addresses, the routes are exactly the live sessions and the adapter. */
  lemma DistinctRunIsExact(serverIP: IPv4, events: seq<Event>, address: IPv4)
    requires FreshIDs(events)
    requires forall k :: 0 <= k <= |events| ==> DistinctAddresses(Run(serverIP, events[..k]))
    ensures
      var t := Run(serverIP, events);
      && (address in t.peers <==>
            address == serverIP || exists i :: i in t.sessions && t.sessions[i].address == address)
      && (forall i :: i in t.sessions && t.sessions[i].address == address ==>
            t.peers[address] == Tunnel(t.sessions[i]))
  {
    DistinctRunIsAllRouted(serverIP, events);
    RunIsConsistent(serverIP, events);
    var t := Run(serverIP, events);
    if address in t.peers && address != serverIP {
      var s := t.peers[address].session;
      assert s.id in t.sessions && t.sessions[s.id].address == address;
    }
  }

  /** Without distinct addresses a live session can lose its route: the other holder leaves and takes it along. */
  lemma SharedAddressLosesItsRoute(serverIP: IPv4, a: IPv4, one: string, two: string)
    requires a != serverIP && one != "" && two != "" && one != two
    ensures
      var t := Step(Step(Step(Started(serverIP), RegisterEvent(one, Some(a), 1)), RegisterEvent(two, Some(a), 2)),
                    RemoveEvent(two, 2));
      t.sessions == map[1 := Session(one, a, 1)] && a !in t.peers && !AllRouted(t)
  {
    var t1 := Step(Started(serverIP), RegisterEvent(one, Some(a), 1));
    assert t1.sessions == map[1 := Session(one, a, 1)];
    var t2 := Step(t1, RegisterEvent(two, Some(a), 2));
    var t3 := Step(t2, RemoveEvent(two, 2));
    assert t3.sessions == map[1 := Session(one, a, 1)];
    assert t3.sessions[1].address == a;
  }

  // ---------------------------------------------------------------- the server

  class Router {
    var peers: map<IPv4, Peer>

    constructor ()
      ensures peers == map[]
    {
      peers := map[];
    }

    method Add(address: IPv4, peer: Peer)
      modifies this
      ensures peers == old(peers)[address := peer]
    {
      peers := peers[address := peer];
    }

    method Remove(address: IPv4)
      modifies this
      ensures peers == old(peers) - {address}
    {
      peers := peers - {address};
    }
  }

  class Server {
    const serverIP: IPv4
    const router: Router
    var sessions: map<u64, Session>
    var byDevice: map<string, Session>

    ghost function View(): Tables
      reads this, router
    {
      Tables(serverIP, sessions, byDevice, router.peers)
    }

    constructor (serverIP: IPv4)
      ensures View() == Started(serverIP) && Consistent(View()) && fresh(router)
    {
      this.serverIP := serverIP;
      sessions, byDevice := map[], map[];
      router := new Router();
      new;
      router.Add(serverIP, Adapter);
    }

    /** The session number is drawn at random by the code; here the caller supplies an unused one. */
    method Register(device: string, address: Option<IPv4>, id: u64) returns (r: Result<u64, RegisterError>)
      requires Consistent(View()) && id !in sessions
      modifies this, router
      ensures Consistent(View())
      ensures View() == Step(old(View()), RegisterEvent(device, address, id))
      ensures r.Ok? <==> device != "" && address.Some? && address.value != serverIP
      ensures r.Err? ==> View() == old(View())
      ensures r.Ok? ==>
                var session := Session(device, address.value, id);
                && r.value == id && byDevice == old(byDevice)[device := session]
                && router.peers[address.value] == Tunnel(session)
                && sessions
                   == if device in old(byDevice) then (old(sessions) - {old(byDevice)[device].id})[id := session]
                      else old(sessions)[id := session]
    {
      StepKeepsConsistent(View(), RegisterEvent(device, address, id));
      if device == "" || address.None? || address.value == serverIP {
        return Err(InvalidPeer);
      }
      var session := Session(device, address.value, id);
      if device in byDevice {
        var replaced := byDevice[device];
        sessions := sessions - {replaced.id};
        router.Remove(replaced.address);
      }
      sessions := sessions[id := session];
      byDevice := byDevice[device := session];
      router.Add(session.address, Tunnel(session));
      return Ok(id);
    }

    method Remove(device: string, id: u64)
      requires Consistent(View())
      modifies this, router
      ensures Consistent(View())
      ensures View() == Step(old(View()), RemoveEvent(device, id))
    {
      StepKeepsConsistent(View(), RemoveEvent(device, id));
      if device in byDevice && byDevice[device].id == id {
        var session := byDevice[device];
        byDevice := byDevice - {device};
        sessions := sessions - {session.id};
        router.Remove(session.address);
      }
    }
  }
}
