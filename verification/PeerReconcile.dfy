/**
 Bringing the WireGuard interface in line with the database (apps/worker/src/index.ts,
 reconcileVpnPeers; packages/vpn/src/index.ts; apps/worker/src/peer-state.ts). Every command is
 taken to succeed and nothing else changes the interface during a pass.
 */
module PeerReconcile {
  import opened Options
  import Text

  /** Peers of the interface and the networks routed to each. */
  type Kernel = map<string, set<string>>

  /** Setting a peer's allowed addresses takes them away from whichever peer had them. */
  function AddPeer(k: Kernel, key: string, ips: set<string>): Kernel {
    map p | p in k.Keys + {key} :: if p == key then ips else k[p] - ips
  }

  function RemovePeer(k: Kernel, key: string): Kernel {
    k - {key}
  }

  /** Trimmed, without blanks or repeats, in order of first appearance. */
  function NormalizeIpList(values: seq<string>): seq<string> {
    if values == [] then []
    else
      var init, ip := NormalizeIpList(values[..|values| - 1]), Text.Trim(values[|values| - 1]);
      if ip == "" || ip in init then init else init + [ip]
  }

  function BuildServerPeerAllowedIps(vpnIp: string, routes: seq<string>): seq<string> {
    NormalizeIpList([vpnIp] + routes)
  }

  function SetOf(values: seq<string>): set<string> {
    set i | 0 <= i < |values| :: values[i]
  }

  lemma {:induction false} NormalizedSet(values: seq<string>)
    ensures forall ip :: ip in NormalizeIpList(values) <==>
              ip != "" && exists i :: 0 <= i < |values| && Text.Trim(values[i]) == ip
    ensures forall i, j :: 0 <= i < j < |NormalizeIpList(values)| ==>
            NormalizeIpList(values)[i] != NormalizeIpList(values)[j]
    decreases |values|
  {
    hide Text.Trim;
    if values != [] {
      var init, last := values[..|values| - 1], values[|values| - 1];
      NormalizedSet(init);
      var ip := Text.Trim(last);
      assert NormalizeIpList(values) == if ip == "" || ip in NormalizeIpList(init) then NormalizeIpList(init)
             else NormalizeIpList(init) + [ip];
      forall ip
        ensures ip in NormalizeIpList(values)
                <==> ip != "" && exists i :: 0 <= i < |values| && Text.Trim(values[i]) == ip
      {
        if i :| 0 <= i < |values| && Text.Trim(values[i]) == ip {
          assert i < |init| ==> init[i] == values[i];
        }
        if i :| 0 <= i < |init| && Text.Trim(init[i]) == ip {
          assert values[i] == init[i];
        }
      }
    }
  }

  /** An identity or an admin profile; profiles have no routes. */
  datatype Peer = Peer(id: string, publicKey: string, serverPeerEnabled: bool, revoked: bool, vpnIp: string,
                       routes: seq<string>)

  predicate Wanted(p: Peer) {
    p.serverPeerEnabled && !p.revoked
  }

  function Ips(p: Peer): set<string> {
    SetOf(BuildServerPeerAllowedIps(p.vpnIp, p.routes))
  }

  predicate DistinctKeys(peers: seq<Peer>) {
    forall i, j :: 0 <= i < j < |peers| ==> peers[i].publicKey != peers[j].publicKey
  }

  predicate DistinctIds(peers: seq<Peer>) {
    forall i, j :: 0 <= i < j < |peers| ==> peers[i].id != peers[j].id
  }

  function Known(peers: seq<Peer>): set<string> {
    set i | 0 <= i < |peers| :: peers[i].publicKey
  }

  function WantedKeys(peers: seq<Peer>): set<string> {
    set i | 0 <= i < |peers| && Wanted(peers[i]) :: peers[i].publicKey
  }

  function WantedIds(peers: seq<Peer>): set<string> {
    set i | 0 <= i < |peers| && Wanted(peers[i]) :: peers[i].id
  }

  /** Addresses claimed by wanted peers from place `i` on. */
  function ClaimedFrom(peers: seq<Peer>, i: nat): set<string> {
    set j, ip | i <= j < |peers| && Wanted(peers[j]) && ip in Ips(peers[j]) :: ip
  }

  function Apply(k: Kernel, p: Peer): Kernel {
    if Wanted(p) then AddPeer(k, p.publicKey, Ips(p)) else RemovePeer(k, p.publicKey)
  }

  /** The commands for a list of peers, in order. */
  function ApplyAll(k: Kernel, peers: seq<Peer>): Kernel {
    if peers == [] then k else Apply(ApplyAll(k, peers[..|peers| - 1]), peers[|peers| - 1])
  }

  /** A whole pass: every known peer, then the removal of all others that were there at the start. */
  function AfterPass(k: Kernel, peers: seq<Peer>): Kernel {
    ApplyAll(k, peers) - (k.Keys - Known(peers))
  }

  lemma {:induction false} KeysAfter(k: Kernel, peers: seq<Peer>)
    requires DistinctKeys(peers)
    ensures ApplyAll(k, peers).Keys == (k.Keys - Known(peers)) + WantedKeys(peers)
    decreases |peers|
  {
    if peers != [] {
      var init, last := peers[..|peers| - 1], peers[|peers| - 1];
      KeysAfter(k, init);
      KnownLast(peers);
    }
  }

  lemma KnownLast(peers: seq<Peer>)
    requires peers != []
    ensures var init, last := peers[..|peers| - 1], peers[|peers| - 1];
            && Known(peers) == Known(init) + {last.publicKey}
            && WantedKeys(peers) == WantedKeys(init) + (if Wanted(last) then {last.publicKey} else {})
            && (DistinctKeys(peers) ==> last.publicKey !in Known(init) && last.publicKey !in WantedKeys(init))
  {
    var init, last := peers[..|peers| - 1], peers[|peers| - 1];
    assert forall i :: 0 <= i < |init| ==> init[i] == peers[i];
    forall key | key in Known(peers) ensures key in Known(init) + {last.publicKey} {
      var i :| 0 <= i < |peers| && peers[i].publicKey == key;
      if i < |init| {
        assert init[i].publicKey == key;
      }
    }
    forall key | key in WantedKeys(peers) ensures key in WantedKeys(init) || (Wanted(last) && key == last.publicKey) {
      var i :| 0 <= i < |peers| && Wanted(peers[i]) && peers[i].publicKey == key;
      if i < |init| {
        assert Wanted(init[i]) && init[i].publicKey == key;
      }
    }
  }

  lemma ClaimedLast(peers: seq<Peer>, i: nat)
    requires peers != [] && i < |peers|
    ensures var init, last := peers[..|peers| - 1], peers[|peers| - 1];
            ClaimedFrom(peers, i) == ClaimedFrom(init, i) + if Wanted(last) then Ips(last) else {}
  {
    hide Ips, Wanted;
    var init, last := peers[..|peers| - 1], peers[|peers| - 1];
    assert forall j :: 0 <= j < |init| ==> init[j] == peers[j];
    forall ip | ip in ClaimedFrom(peers, i) ensures ip in ClaimedFrom(init, i) || (Wanted(last) && ip in Ips(last)) {
      var j :| i <= j < |peers| && Wanted(peers[j]) && ip in Ips(peers[j]);
      if j < |init| {
        assert Wanted(init[j]) && ip in Ips(init[j]);
      }
    }
  }

  /** A wanted peer ends up with its addresses less those claimed by a later one. */
  lemma {:induction false} IpsAfter(k: Kernel, peers: seq<Peer>, i: nat)
    requires DistinctKeys(peers) && i < |peers| && Wanted(peers[i])
    ensures peers[i].publicKey in ApplyAll(k, peers)
    ensures ApplyAll(k, peers)[peers[i].publicKey] == Ips(peers[i]) - ClaimedFrom(peers, i + 1)
    decreases |peers|
  {
    hide Ips, Wanted;
    var init, last := peers[..|peers| - 1], peers[|peers| - 1];
    if i == |init| {
      assert ClaimedFrom(peers, |peers|) == {};
    } else {
      IpsAfter(k, init, i);
      assert init[i] == peers[i] && last.publicKey != peers[i].publicKey;
      if i + 1 < |peers| {
        ClaimedLast(peers, i + 1);
      }
    }
  }

  /**
   The interface after a pass, whatever was on it before: each address goes to the last wanted
   peer that claims it.
   */
  lemma PassResult(k: Kernel, peers: seq<Peer>)
    requires DistinctKeys(peers)
    ensures AfterPass(k, peers).Keys == WantedKeys(peers)
    ensures forall i :: 0 <= i < |peers| && Wanted(peers[i]) ==>
              peers[i].publicKey in AfterPass(k, peers)
              && AfterPass(k, peers)[peers[i].publicKey] == Ips(peers[i]) - ClaimedFrom(peers, i + 1)
  {
    hide Ips, Wanted, ClaimedFrom, ApplyAll;
    KeysAfter(k, peers);
    forall i | 0 <= i < |peers| && Wanted(peers[i])
      ensures peers[i].publicKey in AfterPass(k, peers)
      ensures AfterPass(k, peers)[peers[i].publicKey] == Ips(peers[i]) - ClaimedFrom(peers, i + 1)
    {
      IpsAfter(k, peers, i);
      assert peers[i].publicKey in Known(peers);
    }
    assert WantedKeys(peers) <= Known(peers);
  }

  /** Some listed peer has the key, is enabled and is not revoked. */
  ghost predicate Live(peers: seq<Peer>, key: string) {
    exists i :: 0 <= i < |peers| && peers[i].publicKey == key && peers[i].serverPeerEnabled && !peers[i].revoked
  }

  /** The network is one of the peer's own: its address or one of its routes, trimmed and not blank. */
  ghost predicate Asks(p: Peer, ip: string) {
    ip != "" && (Text.Trim(p.vpnIp) == ip || exists i :: 0 <= i < |p.routes| && Text.Trim(p.routes[i]) == ip)
  }

  lemma IpsAsked(p: Peer, ip: string)
    ensures ip in Ips(p) <==> Asks(p, ip)
  {
    var all := [p.vpnIp] + p.routes;
    NormalizedSet(all);
    hide NormalizeIpList, Text.Trim;
    assert ip in Ips(p) <==> ip in NormalizeIpList(all);
    if i :| 0 <= i < |all| && Text.Trim(all[i]) == ip {
      assert i > 0 ==> p.routes[i - 1] == all[i];
    }
    if i :| 0 <= i < |p.routes| && Text.Trim(p.routes[i]) == ip {
      assert all[i + 1] == p.routes[i];
    }
    assert all[0] == p.vpnIp;
  }

  /** Peer `i` asks for the network, and of the enabled and unrevoked peers that do it is the last. */
  ghost predicate LastToAsk(peers: seq<Peer>, i: nat, ip: string) {
    && i < |peers| && peers[i].serverPeerEnabled && !peers[i].revoked && Asks(peers[i], ip)
    && forall j :: i < j < |peers| && peers[j].serverPeerEnabled && !peers[j].revoked ==> !Asks(peers[j], ip)
  }

  /**
   After a pass, whatever was there before, a key is on the interface exactly when some listed
   peer has it, enabled and not revoked; and a network is routed to a peer exactly when that is
   the last such peer to ask for it.
   */
  lemma PassLeaves(k: Kernel, peers: seq<Peer>)
    requires DistinctKeys(peers)
    ensures forall key :: key in AfterPass(k, peers) <==> Live(peers, key)
    ensures forall i, ip :: 0 <= i < |peers| && peers[i].publicKey in AfterPass(k, peers) ==>
              (ip in AfterPass(k, peers)[peers[i].publicKey] <==> LastToAsk(peers, i, ip))
  {
    PassResult(k, peers);
    hide AfterPass, Ips, ApplyAll, Asks;
    forall key ensures key in AfterPass(k, peers) <==> Live(peers, key) {
      assert key in AfterPass(k, peers) <==> key in WantedKeys(peers);
    }
    forall i, ip | 0 <= i < |peers| && peers[i].publicKey in AfterPass(k, peers)
      ensures ip in AfterPass(k, peers)[peers[i].publicKey] <==> LastToAsk(peers, i, ip)
    {
      assert Live(peers, peers[i].publicKey);
      forall j | 0 <= j < |peers| ensures ip in Ips(peers[j]) <==> Asks(peers[j], ip) {
        IpsAsked(peers[j], ip);
      }
      assert Wanted(peers[i]);
    }
  }

  /** The result does not depend on what was there, so a second pass changes nothing. */
  lemma SecondPassChangesNothing(k: Kernel, other: Kernel, peers: seq<Peer>)
    requires DistinctKeys(peers)
    ensures AfterPass(other, peers) == AfterPass(k, peers)
    ensures AfterPass(AfterPass(k, peers), peers) == AfterPass(k, peers)
  {
    SameResult(k, other, peers);
    SameResult(k, AfterPass(k, peers), peers);
  }

  lemma SameResult(k: Kernel, other: Kernel, peers: seq<Peer>)
    requires DistinctKeys(peers)
    ensures AfterPass(other, peers) == AfterPass(k, peers)
  {
    hide AfterPass, Ips, Wanted, ClaimedFrom;
    PassResult(k, peers);
    PassResult(other, peers);
    var a, b := AfterPass(k, peers), AfterPass(other, peers);
    forall key | key in a ensures key in b && a[key] == b[key] {
      var i :| 0 <= i < |peers| && Wanted(peers[i]) && peers[i].publicKey == key;
    }
    assert a.Keys == b.Keys;
  }

  /** No two wanted peers claim one address. */
  predicate NoOverlap(peers: seq<Peer>) {
    forall i, j :: 0 <= i < j < |peers| && Wanted(peers[i]) && Wanted(peers[j]) ==> Ips(peers[i]) !! Ips(peers[j])
  }

  /** Every wanted peer has all the addresses meant for it. */
  predicate AsDesired(k: Kernel, peers: seq<Peer>) {
    && k.Keys == WantedKeys(peers)
    && forall i :: 0 <= i < |peers| && Wanted(peers[i]) ==>
       peers[i].publicKey in k && k[peers[i].publicKey] == Ips(peers[i])
  }

  /** A pass leaves exactly what the database asks for when, and only when, no two wanted peers share an address. */
  lemma PassIsExactIff(k: Kernel, peers: seq<Peer>)
    requires DistinctKeys(peers)
    ensures AsDesired(AfterPass(k, peers), peers) <==> NoOverlap(peers)
  {
    PassResult(k, peers);
    hide AfterPass, Ips, Wanted, ApplyAll, Known;
    var after := AfterPass(k, peers);
    if AsDesired(after, peers) {
      forall i, j | 0 <= i < j < |peers| && Wanted(peers[i]) && Wanted(peers[j])
        ensures Ips(peers[i]) !! Ips(peers[j]) {
        assert Ips(peers[j]) <= ClaimedFrom(peers, i + 1);
      }
    }
    if NoOverlap(peers) {
      forall i | 0 <= i < |peers| && Wanted(peers[i]) ensures after[peers[i].publicKey] == Ips(peers[i]) {
        assert Ips(peers[i]) !! ClaimedFrom(peers, i + 1);
      }
    }
  }

  /** Two devices routed to one network: whichever comes first is left without it. */
  function SharingPeers(): seq<Peer> {
    [Peer("1", "a", true, false, "10.80.0.2/32", ["10.0.0.0/24"]),
      Peer("2", "b", true, false, "10.80.0.3/32", ["10.0.0.0/24"])]
  }

  lemma SharedNetworkGoesToTheLast(k: Kernel)
    ensures var after := AfterPass(k, SharingPeers());
            && "a" in after && "b" in after
            && "10.0.0.0/24" in Ips(SharingPeers()[0]) && after["a"] == {"10.80.0.2/32"}
            && after["b"] == {"10.80.0.3/32", "10.0.0.0/24"}
  {
    hide AfterPass, NormalizeIpList;
    var peers := SharingPeers();
    PlainAddresses("10.80.0.2/32", "10.0.0.0/24");
    PlainAddresses("10.80.0.3/32", "10.0.0.0/24");
    assert Wanted(peers[0]) && Wanted(peers[1]);
    assert Ips(peers[0]) == {"10.80.0.2/32", "10.0.0.0/24"} && Ips(peers[1]) == {"10.80.0.3/32", "10.0.0.0/24"};
    hide Ips;
    PassResult(k, peers);
    assert ClaimedFrom(peers, 1) == Ips(peers[1]);
    assert ClaimedFrom(peers, 2) == {};
    assert "10.80.0.2/32" != "10.80.0.3/32" && "10.80.0.2/32" != "10.0.0.0/24" by {
      assert "10.80.0.2/32"[8] != "10.80.0.3/32"[8] && "10.80.0.2/32"[3] != "10.0.0.0/24"[3];
    }
  }

  lemma PlainAddresses(ip: string, route: string)
    requires ip != route && ip != "" && route != "" && Text.Trimmed(ip) && Text.Trimmed(route)
    ensures SetOf(BuildServerPeerAllowedIps(ip, [route])) == {ip, route}
  {
    hide Text.Trim;
    Text.TrimIsTrimmed(ip);
    Text.TrimIsTrimmed(route);
    var both := [ip] + [route];
    NormalizedSet(both);
    assert both[0] == ip && both[1] == route;
    hide NormalizeIpList;
    var list := NormalizeIpList(both);
    forall v ensures v in SetOf(list) <==> v == ip || v == route {
      assert v in SetOf(list) <==> v in list;
    }
  }

  // ----- stored peer states -----

  /** A stored field; one that does not parse is never loaded. */
  datatype Field<S> = Readable(state: S) | Unreadable

  function Loaded<S>(stored: map<string, Field<S>>): map<string, S> {
    map key | key in stored && stored[key].Readable? :: stored[key].state
  }

  function Unloaded<S>(stored: map<string, Field<S>>): set<string> {
    set key | key in stored && stored[key].Unreadable?
  }

  /** `saveAll`: set the new fields, then delete the retired ones. */
  function SaveAll<S>(
      stored: map<string, Field<S>>, next: map<string, S>, retired: set<string>): map<string, Field<S>> {
    (stored + map key | key in next :: Readable(next[key])) - retired
  }

  function Observed<S>(peers: seq<Peer>, observe: (Peer, Option<S>) -> S, loaded: map<string, S>): map<string, S> {
    if peers == [] then map[]
    else
      var next, last := Observed(peers[..|peers| - 1], observe, loaded), peers[|peers| - 1];
      if Wanted(last) then next[last.id := observe(last, if last.id in loaded then Some(loaded[last.id]) else None)]
      else next
  }

  lemma {:induction false} ObservedKeys<S>(peers: seq<Peer>, observe: (Peer, Option<S>) -> S, loaded: map<string, S>)
    ensures Observed(peers, observe, loaded).Keys == WantedIds(peers)
    decreases |peers|
  {
    if peers != [] {
      var init, last := peers[..|peers| - 1], peers[|peers| - 1];
      ObservedKeys(init, observe, loaded);
      assert forall i :: 0 <= i < |init| ==> init[i] == peers[i];
      forall id | id in WantedIds(peers) ensures id in WantedIds(init) || (Wanted(last) && id == last.id) {
        var i :| 0 <= i < |peers| && Wanted(peers[i]) && peers[i].id == id;
        if i < |init| {
          assert Wanted(init[i]) && init[i].id == id;
        }
      }
    }
  }

  class VpnWorker<S(==)> {
    var kernel: Kernel
    var stored: map<string, Field<S>>

    constructor (kernel: Kernel, stored: map<string, Field<S>>)
      ensures this.kernel == kernel && this.stored == stored
    {
      this.kernel, this.stored := kernel, stored;
    }

    /** The first loop: identities, with the states observed and the states to drop. */
    method ReconcileIdentities(identities: seq<Peer>, previous: map<string, S>, observe: (Peer, Option<S>) -> S)
      returns (known: set<string>, next: map<string, S>, retired: set<string>)
      modifies this`kernel
      ensures kernel == ApplyAll(old(kernel), identities) && known == Known(identities)
      ensures next == Observed(identities, observe, previous) && retired == RetiredIds(identities, previous)
    {
      hide Ips, Wanted, AddPeer, RemovePeer, Known, RetiredIds;
      known, next, retired := {}, map[], {};
      NobodyYet(previous);
      for i := 0 to |identities|
        invariant kernel == ApplyAll(old(kernel), identities[..i]) && known == Known(identities[..i])
        invariant next == Observed(identities[..i], observe, previous)
                  && retired == RetiredIds(identities[..i], previous)
      {
        var identity := identities[i];
        assert identities[..i + 1][..i] == identities[..i];
        KnownOneMore(identities, i);
        RetiredOneMore(identities, i, previous);
        known := known + {identity.publicKey};
        if !Wanted(identity) {
          kernel := RemovePeer(kernel, identity.publicKey);
          if identity.id in previous {
            retired := retired + {identity.id};
          }
          continue;
        }
        kernel := AddPeer(kernel, identity.publicKey, Ips(identity));
        next := next[identity.id :=
          observe(identity, if identity.id in previous then Some(previous[identity.id]) else None)];
      }
      assert identities[..|identities|] == identities;
    }

    /** The second loop: admin profiles. */
    method ReconcileProfiles(profiles: seq<Peer>) returns (known: set<string>)
      modifies this`kernel
      ensures kernel == ApplyAll(old(kernel), profiles) && known == Known(profiles)
    {
      hide Ips, Wanted, AddPeer, RemovePeer, Known;
      known := {};
      NobodyYet<S>(map[]);
      for i := 0 to |profiles|
        invariant kernel == ApplyAll(old(kernel), profiles[..i]) && known == Known(profiles[..i])
      {
        var profile := profiles[i];
        assert profiles[..i + 1][..i] == profiles[..i];
        KnownOneMore(profiles, i);
        known := known + {profile.publicKey};
        if !Wanted(profile) {
          kernel := RemovePeer(kernel, profile.publicKey);
          continue;
        }
        kernel := AddPeer(kernel, profile.publicKey, Ips(profile));
      }
      assert profiles[..|profiles|] == profiles;
    }

    /** One pass; `dump` lists the peers of the interface as read at its start. */
    method ReconcileVpnPeers(
        identities: seq<Peer>, profiles: seq<Peer>, dump: seq<string>, observe: (Peer, Option<S>) -> S)
      requires DistinctIds(identities) && SetOf(dump) == kernel.Keys
      modifies this
      ensures kernel == AfterPass(old(kernel), identities + profiles)
      ensures stored.Keys == WantedIds(identities) + Unloaded(old(stored))
      ensures var states := Observed(identities, observe, Loaded(old(stored)));
              forall id :: id in WantedIds(identities) ==>
                id in states && id in stored && stored[id] == Readable(states[id])
      ensures DistinctKeys(identities + profiles) ==> forall key :: key in kernel <==> Live(identities + profiles, key)
      ensures forall id :: id in stored <==>
                LiveId(identities, id) || (id in old(stored) && old(stored)[id].Unreadable?)
    {
      hide ApplyAll, Known, Observed, SetOf;
      var previous := Loaded(stored);
      var known, next, retired := ReconcileIdentities(identities, previous, observe);
      retired := retired + (previous.Keys - next.Keys);
      StatesAfter(identities, stored, observe);
      stored := SaveAll(stored, next, retired);
      var profileKeys := ReconcileProfiles(profiles);
      ApplyBoth(old(kernel), identities, profiles);
      RemoveUnknown(dump, known + profileKeys);
      hide Wanted, DistinctKeys, AfterPass, Live;
      if DistinctKeys(identities + profiles) {
        PassLeaves(old(kernel), identities + profiles);
      }
      forall id ensures id in WantedIds(identities) <==> LiveId(identities, id) {
        WantedIdsAreLive(identities, id);
      }
    }

    /** The last loop: peers that nobody knows. */
    method RemoveUnknown(dump: seq<string>, known: set<string>)
      modifies this`kernel
      ensures kernel == old(kernel) - (SetOf(dump) - known)
    {
      assert kernel == kernel - (SetOf(dump[..0]) - known);
      for i := 0 to |dump|
        invariant kernel == old(kernel) - (SetOf(dump[..i]) - known)
      {
        assert SetOf(dump[..i + 1]) == SetOf(dump[..i]) + {dump[i]};
        if dump[i] in known {
          continue;
        }
        kernel := RemovePeer(kernel, dump[i]);
      }
      assert dump[..|dump|] == dump;
    }
  }

  /** Some listed identity has the id, is enabled and is not revoked. */
  ghost predicate LiveId(peers: seq<Peer>, id: string) {
    exists i :: 0 <= i < |peers| && peers[i].id == id && peers[i].serverPeerEnabled && !peers[i].revoked
  }

  lemma WantedIdsAreLive(peers: seq<Peer>, id: string)
    ensures id in WantedIds(peers) <==> LiveId(peers, id)
  {
  }

  lemma NobodyYet<S>(loaded: map<string, S>)
    ensures Known([]) == {} && RetiredIds([], loaded) == {}
  {
  }

  lemma {:induction false} ApplyBoth(k: Kernel, first: seq<Peer>, second: seq<Peer>)
    ensures ApplyAll(k, first + second) == ApplyAll(ApplyAll(k, first), second)
    ensures Known(first + second) == Known(first) + Known(second)
    decreases |second|
  {
    hide Apply, Known, WantedKeys, DistinctKeys;
    if second == [] {
      assert first + second == first;
      NobodyYet<int>(map[]);
    } else {
      var n := |second| - 1;
      ApplyBoth(k, first, second[..n]);
      assert (first + second)[..|first| + n] == first + second[..n];
      KnownLast(first + second);
      KnownLast(second);
    }
  }

  /**
   Of the fields stored before, exactly those of wanted identities survive a pass, and those that
   could not even be read.
   */
  lemma {:induction false} StatesAfter<S>(
      identities: seq<Peer>, stored: map<string, Field<S>>, observe: (Peer, Option<S>) -> S)
    requires DistinctIds(identities)
    ensures var loaded := Loaded(stored);
            var next := Observed(identities, observe, loaded);
            var saved := SaveAll(stored, next, RetiredIds(identities, loaded) + (loaded.Keys - next.Keys));
            && saved.Keys == WantedIds(identities) + Unloaded(stored)
            && forall id :: id in WantedIds(identities) ==> id in next && id in saved && saved[id] == Readable(next[id])
  {
    var loaded := Loaded(stored);
    ObservedKeys(identities, observe, loaded);
    RetiredAreUnwanted(identities, loaded);
    hide Observed, WantedIds, RetiredIds;
    var next := Observed(identities, observe, loaded);
    var saved := SaveAll(stored, next, RetiredIds(identities, loaded) + (loaded.Keys - next.Keys));
    forall id ensures id in saved <==> id in WantedIds(identities) || id in Unloaded(stored) {
    }
  }

  /** The state kept of an enabled, unrevoked identity is what observing it makes of the one loaded, if any. */
  lemma {:induction false} ObservedIs<S>(
      peers: seq<Peer>, observe: (Peer, Option<S>) -> S, loaded: map<string, S>, i: nat)
    requires DistinctIds(peers) && i < |peers| && peers[i].serverPeerEnabled && !peers[i].revoked
    ensures var id, states := peers[i].id, Observed(peers, observe, loaded);
            && id in states
            && (id in loaded ==> states[id] == observe(peers[i], Some(loaded[id])))
            && (id !in loaded ==> states[id] == observe(peers[i], None))
    decreases |peers|
  {
    if i < |peers| - 1 {
      ObservedIs(peers[..|peers| - 1], observe, loaded, i);
      assert peers[i].id != peers[|peers| - 1].id;
    }
  }

  /** The stored field of a revoked identity stays where it is when it cannot be read. */
  lemma UnreadableStateStays(observe: (Peer, Option<int>) -> int)
    ensures var identities := [Peer("1", "a", true, true, "10.80.0.2/32", [])];
            var stored: map<string, Field<int>> := map["1" := Unreadable];
            var loaded := Loaded(stored);
            var next := Observed(identities, observe, loaded);
            var saved := SaveAll(stored, next, RetiredIds(identities, loaded) + (loaded.Keys - next.Keys));
            !LiveId(identities, "1") && "1" in saved
  {
    var identities := [Peer("1", "a", true, true, "10.80.0.2/32", [])];
    var stored: map<string, Field<int>> := map["1" := Unreadable];
    StatesAfter(identities, stored, observe);
    assert "1" in Unloaded(stored);
  }

  function RetiredIds<S>(peers: seq<Peer>, loaded: map<string, S>): set<string> {
    set i | 0 <= i < |peers| && !Wanted(peers[i]) && peers[i].id in loaded :: peers[i].id
  }

  lemma KnownOneMore(all: seq<Peer>, i: nat)
    requires i < |all|
    ensures Known(all[..i + 1]) == Known(all[..i]) + {all[i].publicKey}
  {
    assert all[..i + 1][..i] == all[..i];
    KnownLast(all[..i + 1]);
  }

  lemma RetiredOneMore<S>(peers: seq<Peer>, i: nat, loaded: map<string, S>)
    requires i < |peers|
    ensures RetiredIds(peers[..i + 1], loaded)
            == RetiredIds(peers[..i], loaded) + if !Wanted(peers[i]) && peers[i].id in loaded then {peers[i].id} else {}
  {
    hide Wanted;
    var a, b := peers[..i], peers[..i + 1];
    forall id | id in RetiredIds(b, loaded)
      ensures id in RetiredIds(a, loaded) || (!Wanted(peers[i]) && id == peers[i].id) {
      var j :| 0 <= j < |b| && !Wanted(b[j]) && b[j].id in loaded && b[j].id == id;
      if j < i {
        assert a[j] == b[j];
      }
    }
    forall id | id in RetiredIds(a, loaded) ensures id in RetiredIds(b, loaded) {
      var j :| 0 <= j < |a| && !Wanted(a[j]) && a[j].id in loaded && a[j].id == id;
      assert b[j] == a[j];
    }
    if !Wanted(peers[i]) && peers[i].id in loaded {
      assert b[i] == peers[i];
    }
  }

  lemma RetiredAreUnwanted<S>(peers: seq<Peer>, loaded: map<string, S>)
    requires DistinctIds(peers)
    ensures RetiredIds(peers, loaded) !! WantedIds(peers) && RetiredIds(peers, loaded) <= loaded.Keys
  {
    hide Wanted;
    forall id | id in RetiredIds(peers, loaded) ensures id !in WantedIds(peers) && id in loaded {
      var i :| 0 <= i < |peers| && !Wanted(peers[i]) && peers[i].id in loaded && peers[i].id == id;
      forall j | 0 <= j < |peers| && Wanted(peers[j]) ensures peers[j].id != id {
        assert i != j;
      }
    }
  }
}
