/**
 Linking reported devices to unmatched assets (packages/api-contract/src/asset-link.ts, with the
 matcher of packages/shared/src/assets.ts): one device at a time, and in a batch that reads the
 unmatched assets once.
 */
module AssetLink {
  import opened Options

  datatype Asset = Asset(id: string, organizationId: string, serial: Option<string>,
                         hostname: Option<string>, tag: Option<string>)

  /** A device row as the caller read it; its `assetId` may be out of date. */
  datatype Device = Device(id: string, organizationId: string, assetId: Option<string>,
                           serialNumber: Option<string>, hostname: Option<string>)

  datatype Reason = BySerial | ByHostname

  datatype Match = Match(assetId: string, reason: Reason)

  /** How serials and host names are normalised; None for a text that normalises to nothing. */
  datatype Normal = Normal(serial: string -> Option<string>, host: string -> Option<string>)

  function SerialKey(s: Option<string>, n: Normal): Option<string> {
    if s.None? || s.value == "" then None else n.serial(s.value)
  }

  function HostKey(s: Option<string>, n: Normal): Option<string> {
    if s.None? || s.value == "" then None else n.host(s.value)
  }

  predicate SerialHit(a: Asset, serial: string, n: Normal) {
    SerialKey(a.serial, n) == Some(serial)
  }

  predicate HostHit(a: Asset, host: string, n: Normal) {
    || (a.hostname.Some? && a.hostname.value != "" && HostKey(a.hostname, n) == HostKey(Some(host), n))
    || (a.tag.Some? && a.tag.value != "" && HostKey(a.tag, n) == HostKey(Some(host), n))
  }

  function FindSerial(assets: seq<Asset>, serial: string, n: Normal): Option<Asset> {
    if assets == [] then None
    else if SerialHit(assets[0], serial, n) then Some(assets[0]) else FindSerial(assets[1..], serial, n)
  }

  function FindHost(assets: seq<Asset>, host: string, n: Normal): Option<Asset> {
    if assets == [] then None
    else if HostHit(assets[0], host, n) then Some(assets[0]) else FindHost(assets[1..], host, n)
  }

  function MatchAssetToDevice(d: Device, candidates: seq<Asset>, n: Normal): Option<Match> {
    var serial := SerialKey(d.serialNumber, n);
    var bySerial := if serial.Some? then FindSerial(candidates, serial.value, n) else None;
    if bySerial.Some? then Some(Match(bySerial.value.id, BySerial))
    else
      var host := HostKey(d.hostname, n);
      var byHost := if host.Some? then FindHost(candidates, host.value, n) else None;
      if byHost.Some? then Some(Match(byHost.value.id, ByHostname)) else None
  }

  lemma {:induction false} FoundSerial(assets: seq<Asset>, serial: string, n: Normal)
    ensures FindSerial(assets, serial, n).Some? ==> FindSerial(assets, serial, n).value in assets
    ensures FindSerial(assets, serial, n) == None <==> forall a :: a in assets ==> !SerialHit(a, serial, n)
    decreases |assets|
  {
    if assets != [] {
      FoundSerial(assets[1..], serial, n);
    }
  }

  lemma {:induction false} FoundHost(assets: seq<Asset>, host: string, n: Normal)
    ensures FindHost(assets, host, n).Some? ==> FindHost(assets, host, n).value in assets
    ensures FindHost(assets, host, n) == None <==> forall a :: a in assets ==> !HostHit(a, host, n)
    decreases |assets|
  {
    if assets != [] {
      FoundHost(assets[1..], host, n);
    }
  }

  /** A match is one of the candidates; a host-name match means no candidate's serial fits. */
  lemma MatchIsCandidate(d: Device, candidates: seq<Asset>, n: Normal)
    requires MatchAssetToDevice(d, candidates, n).Some?
    ensures exists a :: a in candidates && a.id == MatchAssetToDevice(d, candidates, n).value.assetId
    ensures MatchAssetToDevice(d, candidates, n).value.reason == ByHostname && SerialKey(d.serialNumber, n).Some? ==>
              forall a :: a in candidates ==> !SerialHit(a, SerialKey(d.serialNumber, n).value, n)
  {
    var serial, host := SerialKey(d.serialNumber, n), HostKey(d.hostname, n);
    if serial.Some? {
      FoundSerial(candidates, serial.value, n);
    }
    if host.Some? {
      FoundHost(candidates, host.value, n);
    }
  }

  /** The serials agree: both are given and normalise to the same non-empty text. */
  predicate SerialsAgree(a: Asset, d: Device, n: Normal) {
    && a.serial.Some? && a.serial.value != "" && d.serialNumber.Some? && d.serialNumber.value != ""
    && n.serial(a.serial.value).Some? && n.serial(a.serial.value) == n.serial(d.serialNumber.value)
  }

  /** A text that is given and normalises to the device's host name, normalised once more. */
  predicate NamesHost(text: Option<string>, d: Device, n: Normal) {
    && d.hostname.Some? && d.hostname.value != "" && n.host(d.hostname.value).Some?
    && text.Some? && text.value != ""
    && (var host := n.host(d.hostname.value).value;
        n.host(text.value) == if host == "" then None else n.host(host))
  }

  /** Its host name or its tag names the device's host. */
  predicate HostsAgree(a: Asset, d: Device, n: Normal) {
    NamesHost(a.hostname, d, n) || NamesHost(a.tag, d, n)
  }

  /** The first candidate that agrees with the device on its serial. */
  predicate FirstBySerial(candidates: seq<Asset>, d: Device, n: Normal, i: nat) {
    && i < |candidates| && SerialsAgree(candidates[i], d, n)
    && forall j :: 0 <= j < i ==> !SerialsAgree(candidates[j], d, n)
  }

  predicate FirstByHost(candidates: seq<Asset>, d: Device, n: Normal, i: nat) {
    && i < |candidates| && HostsAgree(candidates[i], d, n)
    && forall j :: 0 <= j < i ==> !HostsAgree(candidates[j], d, n)
  }

  lemma {:induction false} SerialFoundFirst(assets: seq<Asset>, serial: string, n: Normal, i: nat)
    requires i < |assets| && SerialHit(assets[i], serial, n)
    requires forall j :: 0 <= j < i ==> !SerialHit(assets[j], serial, n)
    ensures FindSerial(assets, serial, n) == Some(assets[i])
  {
    if i > 0 {
      assert !SerialHit(assets[0], serial, n);
      SerialFoundFirst(assets[1..], serial, n, i - 1);
    }
  }

  lemma {:induction false} HostFoundFirst(assets: seq<Asset>, host: string, n: Normal, i: nat)
    requires i < |assets| && HostHit(assets[i], host, n)
    requires forall j :: 0 <= j < i ==> !HostHit(assets[j], host, n)
    ensures FindHost(assets, host, n) == Some(assets[i])
  {
    if i > 0 {
      assert !HostHit(assets[0], host, n);
      HostFoundFirst(assets[1..], host, n, i - 1);
    }
  }

  lemma HitsAgree(a: Asset, d: Device, n: Normal)
    ensures var serial, host := SerialKey(d.serialNumber, n), HostKey(d.hostname, n);
            && (SerialsAgree(a, d, n) <==> serial.Some? && SerialHit(a, serial.value, n))
            && (HostsAgree(a, d, n) <==> host.Some? && HostHit(a, host.value, n))
  {
  }

  predicate NoneBySerial(candidates: seq<Asset>, d: Device, n: Normal) {
    forall j :: 0 <= j < |candidates| ==> !SerialsAgree(candidates[j], d, n)
  }

  predicate NoneByHost(candidates: seq<Asset>, d: Device, n: Normal) {
    forall j :: 0 <= j < |candidates| ==> !HostsAgree(candidates[j], d, n)
  }

  /**
   The match is the first candidate whose serial agrees; without any, the first whose host name or
   tag does; and there is none exactly when neither agrees for any candidate.
   */
  lemma MatchIs(d: Device, candidates: seq<Asset>, n: Normal)
    ensures forall i: nat :: FirstBySerial(candidates, d, n, i) ==>
              MatchAssetToDevice(d, candidates, n) == Some(Match(candidates[i].id, BySerial))
    ensures forall i: nat :: NoneBySerial(candidates, d, n) && FirstByHost(candidates, d, n, i) ==>
              MatchAssetToDevice(d, candidates, n) == Some(Match(candidates[i].id, ByHostname))
    ensures MatchAssetToDevice(d, candidates, n) == None
            <==> NoneBySerial(candidates, d, n) && NoneByHost(candidates, d, n)
  {
    hide SerialHit, HostHit, SerialsAgree, HostsAgree, SerialKey, HostKey, FindSerial, FindHost;
    var serial, host := SerialKey(d.serialNumber, n), HostKey(d.hostname, n);
    forall a ensures SerialsAgree(a, d, n) <==> serial.Some? && SerialHit(a, serial.value, n) { HitsAgree(a, d, n); }
    forall a ensures HostsAgree(a, d, n) <==> host.Some? && HostHit(a, host.value, n) { HitsAgree(a, d, n); }
    if serial.Some? {
      FoundSerial(candidates, serial.value, n);
    }
    if host.Some? {
      FoundHost(candidates, host.value, n);
    }
    forall i: nat | FirstBySerial(candidates, d, n, i)
      ensures MatchAssetToDevice(d, candidates, n) == Some(Match(candidates[i].id, BySerial))
    {
      SerialFoundFirst(candidates, serial.value, n, i);
    }
    forall i: nat | NoneBySerial(candidates, d, n) && FirstByHost(candidates, d, n, i)
      ensures MatchAssetToDevice(d, candidates, n) == Some(Match(candidates[i].id, ByHostname))
    {
      HostFoundFirst(candidates, host.value, n, i);
    }
  }

  /** The stored `assetId` of every device. */
  type Links = map<string, Option<string>>

  predicate Linked(links: Links, assetId: string) {
    exists d :: d in links && links[d] == Some(assetId)
  }

  /** The organization's assets no device points at, in table order. */
  function Unmatched(assets: seq<Asset>, links: Links, org: string): seq<Asset> {
    if assets == [] then []
    else
      (if assets[0].organizationId == org && !Linked(links, assets[0].id) then [assets[0]] else [])
      + Unmatched(assets[1..], links, org)
  }

  predicate Free(links: Links, deviceId: string) {
    deviceId in links && links[deviceId] == None
  }

  /** `tryLinkDeviceToAsset`: the new links and what was linked, if anything. */
  function LinkOne(assets: seq<Asset>, links: Links, d: Device, n: Normal): (Links, Option<Match>) {
    if d.assetId.Some? then (links, None)
    else
      match MatchAssetToDevice(d, Unmatched(assets, links, d.organizationId), n)
      case None => (links, None)
      case Some(m) => if Free(links, d.id) then (links[d.id := Some(m.assetId)], Some(m)) else (links, None)
  }

  /** An asset of the device's organization that no device points at yet. */
  ghost predicate Available(a: Asset, links: Links, org: string) {
    a.organizationId == org && forall device :: device in links ==> links[device] != Some(a.id)
  }

  /** The first available asset whose serial agrees with the device's. */
  ghost predicate BestBySerial(assets: seq<Asset>, links: Links, d: Device, n: Normal, i: nat) {
    && i < |assets| && Available(assets[i], links, d.organizationId) && SerialsAgree(assets[i], d, n)
    && forall j :: 0 <= j < i && Available(assets[j], links, d.organizationId) ==> !SerialsAgree(assets[j], d, n)
  }

  /** No available asset's serial agrees, and this is the first whose host name or tag does. */
  ghost predicate BestByHost(assets: seq<Asset>, links: Links, d: Device, n: Normal, i: nat) {
    && i < |assets| && Available(assets[i], links, d.organizationId) && HostsAgree(assets[i], d, n)
    && (forall j :: 0 <= j < i && Available(assets[j], links, d.organizationId) ==> !HostsAgree(assets[j], d, n))
    && forall j :: 0 <= j < |assets| && Available(assets[j], links, d.organizationId) ==> !SerialsAgree(assets[j], d, n)
  }

  ghost predicate Among(a: Asset, assets: seq<Asset>, i: nat)
    requires i <= |assets|
  {
    exists h :: 0 <= h < i && a == assets[h]
  }

  /** Place `k` of a selection is asset `i`, and only assets before it come before. */
  ghost predicate PlacedAt(u: seq<Asset>, k: nat, assets: seq<Asset>, i: nat)
    requires i < |assets|
  {
    && k < |u| && u[k] == assets[i]
    && forall j :: 0 <= j < k ==> Among(u[j], assets, i)
  }

  /** The unmatched assets are the available ones, in table order. */
  lemma {:induction false} UnmatchedPlace(assets: seq<Asset>, links: Links, org: string, i: nat)
    requires i < |assets| && Available(assets[i], links, org)
    ensures exists k: nat :: PlacedAt(Unmatched(assets, links, org), k, assets, i)
    decreases |assets|
  {
    var rest := Unmatched(assets[1..], links, org);
    var head := if assets[0].organizationId == org && !Linked(links, assets[0].id) then [assets[0]] else [];
    assert Unmatched(assets, links, org) == head + rest;
    if i == 0 {
      assert PlacedAt(head + rest, 0, assets, 0);
    } else {
      UnmatchedPlace(assets[1..], links, org, i - 1);
      var k: nat :| PlacedAt(rest, k, assets[1..], i - 1);
      hide Unmatched, Linked, Available;
      PlacedAfter(head, rest, k, assets, i);
    }
  }

  lemma PlacedAfter(head: seq<Asset>, rest: seq<Asset>, k: nat, assets: seq<Asset>, i: nat)
    requires 0 < i < |assets| && PlacedAt(rest, k, assets[1..], i - 1)
    requires head == [] || head == [assets[0]]
    ensures PlacedAt(head + rest, |head| + k, assets, i)
  {
    var u := head + rest;
    forall j | 0 <= j < |head| + k ensures Among(u[j], assets, i) {
      if j < |head| {
        assert u[j] == assets[0];
      } else {
        var r := j - |head|;
        assert u[j] == rest[r];
        var h :| 0 <= h < i - 1 && rest[r] == assets[1..][h];
        assert u[j] == assets[h + 1];
      }
    }
  }

  lemma UnmatchedIsAvailable(assets: seq<Asset>, links: Links, org: string, a: Asset)
    requires a in Unmatched(assets, links, org)
    ensures a in assets && Available(a, links, org)
  {
    UnmatchedMember(assets, links, org, a);
  }

  ghost function FoundFor(assets: seq<Asset>, links: Links, d: Device, n: Normal): Option<Match> {
    MatchAssetToDevice(d, Unmatched(assets, links, d.organizationId), n)
  }

  lemma SerialMatchIsBest(assets: seq<Asset>, links: Links, d: Device, n: Normal, i: nat)
    requires BestBySerial(assets, links, d, n, i)
    ensures FoundFor(assets, links, d, n) == Some(Match(assets[i].id, BySerial))
  {
    hide SerialsAgree, Available, Unmatched, MatchAssetToDevice;
    UnmatchedPlace(assets, links, d.organizationId, i);
    var u := Unmatched(assets, links, d.organizationId);
    var k: nat :| PlacedAt(u, k, assets, i);
    forall j | 0 <= j < k ensures !SerialsAgree(u[j], d, n) {
      UnmatchedIsAvailable(assets, links, d.organizationId, u[j]);
    }
    MatchIs(d, u, n);
    assert FirstBySerial(u, d, n, k);
  }

  lemma HostMatchIsBest(assets: seq<Asset>, links: Links, d: Device, n: Normal, i: nat)
    requires BestByHost(assets, links, d, n, i)
    ensures FoundFor(assets, links, d, n) == Some(Match(assets[i].id, ByHostname))
  {
    hide SerialsAgree, HostsAgree, Available, Unmatched, MatchAssetToDevice;
    UnmatchedPlace(assets, links, d.organizationId, i);
    var u := Unmatched(assets, links, d.organizationId);
    var k: nat :| PlacedAt(u, k, assets, i);
    forall j | 0 <= j < |u| ensures !SerialsAgree(u[j], d, n) && (j < k ==> !HostsAgree(u[j], d, n)) {
      UnmatchedIsAvailable(assets, links, d.organizationId, u[j]);
    }
    MatchIs(d, u, n);
    assert NoneBySerial(u, d, n) && FirstByHost(u, d, n, k);
  }

  /** Some available asset agrees with the device. */
  ghost predicate SomethingFits(assets: seq<Asset>, links: Links, d: Device, n: Normal) {
    exists i :: 0 <= i < |assets| && Available(assets[i], links, d.organizationId)
                && (SerialsAgree(assets[i], d, n) || HostsAgree(assets[i], d, n))
  }

  lemma NoMatchIff(assets: seq<Asset>, links: Links, d: Device, n: Normal)
    ensures FoundFor(assets, links, d, n) == None <==> !SomethingFits(assets, links, d, n)
  {
    hide SerialsAgree, HostsAgree, Unmatched, Available, MatchAssetToDevice;
    var u := Unmatched(assets, links, d.organizationId);
    MatchIs(d, u, n);
    if SomethingFits(assets, links, d, n) {
      var i :| 0 <= i < |assets| && Available(assets[i], links, d.organizationId)
               && (SerialsAgree(assets[i], d, n) || HostsAgree(assets[i], d, n));
      UnmatchedPlace(assets, links, d.organizationId, i);
    }
    forall j | 0 <= j < |u| ensures u[j] in assets && Available(u[j], links, d.organizationId) {
      UnmatchedIsAvailable(assets, links, d.organizationId, u[j]);
    }
  }

  lemma PlacesInTable(assets: seq<Asset>, links: Links, d: Device, n: Normal)
    ensures forall i: nat :: BestBySerial(assets, links, d, n, i) || BestByHost(assets, links, d, n, i) ==> i < |assets|
  {
  }

  /**
   One device: nothing happens when it already has an asset, as read or as stored, or when nothing
   fits; otherwise it gets the first available asset with its serial, or failing that with its host.
   */
  lemma LinkOneDoes(assets: seq<Asset>, links: Links, d: Device, n: Normal)
    ensures var (after, m) := LinkOne(assets, links, d, n);
            && (m == None ==> after == links)
            && (m == None <==> d.assetId != None || d.id !in links || links[d.id] != None
                               || !SomethingFits(assets, links, d, n))
            && (m != None ==> forall i: nat :: BestBySerial(assets, links, d, n, i) ==>
                  m == Some(Match(assets[i].id, BySerial)) && after == links[d.id := Some(assets[i].id)])
            && (m != None ==> forall i: nat :: BestByHost(assets, links, d, n, i) ==>
                  m == Some(Match(assets[i].id, ByHostname)) && after == links[d.id := Some(assets[i].id)])
  {
    NoMatchIff(assets, links, d, n);
    PlacesInTable(assets, links, d, n);
    hide SomethingFits, BestBySerial, BestByHost, Unmatched, MatchAssetToDevice;
    forall i: nat | BestBySerial(assets, links, d, n, i)
      ensures FoundFor(assets, links, d, n) == Some(Match(assets[i].id, BySerial))
    {
      SerialMatchIsBest(assets, links, d, n, i);
    }
    forall i: nat | BestByHost(assets, links, d, n, i)
      ensures FoundFor(assets, links, d, n) == Some(Match(assets[i].id, ByHostname))
    {
      HostMatchIsBest(assets, links, d, n, i);
    }
  }

  datatype LinkedDevice = LinkedDevice(deviceId: string, found: Match)

  /** Linking the rows one device at a time. */
  function LinkEach(assets: seq<Asset>, links: Links, rows: seq<Device>, n: Normal): (Links, seq<LinkedDevice>) {
    if rows == [] then (links, [])
    else
      var last := rows[|rows| - 1];
      var (before, linked) := LinkEach(assets, links, rows[..|rows| - 1], n);
      var (after, m) := LinkOne(assets, before, last, n);
      (after, if m.Some? then linked + [LinkedDevice(last.id, m.value)] else linked)
  }

  /** The rows are linked in turn, and each link made is listed. */
  lemma LinkInTurn(assets: seq<Asset>, links: Links, rows: seq<Device>, d: Device, n: Normal)
    ensures LinkEach(assets, links, [], n) == (links, [])
    ensures var (before, linked) := LinkEach(assets, links, rows, n);
            var (after, m) := LinkOne(assets, before, d, n);
            LinkEach(assets, links, rows + [d], n)
            == (after, if m == None then linked else linked + [LinkedDevice(d.id, m.value)])
  {
    hide LinkOne;
    assert (rows + [d])[..|rows|] == rows;
  }

  function WithoutAsset(assets: seq<Asset>, id: string): seq<Asset> {
    if assets == [] then []
    else (if assets[0].id != id then [assets[0]] else []) + WithoutAsset(assets[1..], id)
  }

  function OfOrganization(assets: seq<Asset>, org: string): seq<Asset> {
    if assets == [] then []
    else OfOrganization(assets[..|assets| - 1], org)
         + if assets[|assets| - 1].organizationId == org then [assets[|assets| - 1]] else []
  }

  /** The unmatched assets of several organizations at once, in table order. */
  function UnmatchedIn(assets: seq<Asset>, links: Links, orgs: set<string>): seq<Asset> {
    if assets == [] then []
    else
      (if assets[0].organizationId in orgs && !Linked(links, assets[0].id) then [assets[0]] else [])
      + UnmatchedIn(assets[1..], links, orgs)
  }

  lemma {:induction false} OfOrganizationSplit(head: Asset, tail: seq<Asset>, org: string)
    ensures OfOrganization([head] + tail, org)
         == (if head.organizationId == org then [head] else []) + OfOrganization(tail, org)
    decreases |tail|
  {
    if tail == [] {
      assert ([head] + tail)[..0] == [];
    } else {
      var all := [head] + tail;
      assert all[..|all| - 1] == [head] + tail[..|tail| - 1];
      OfOrganizationSplit(head, tail[..|tail| - 1], org);
    }
  }

  lemma {:induction false} OneOrganization(assets: seq<Asset>, links: Links, orgs: set<string>, org: string)
    requires org in orgs
    ensures OfOrganization(UnmatchedIn(assets, links, orgs), org) == Unmatched(assets, links, org)
    decreases |assets|
  {
    if assets != [] {
      OneOrganization(assets[1..], links, orgs, org);
      var rest := UnmatchedIn(assets[1..], links, orgs);
      OfOrganizationSplit(assets[0], rest, org);
      assert [] + rest == rest;
    }
  }

  /** Linking one device takes exactly that asset out of every organization's unmatched list. */
  lemma {:induction false} UnmatchedAfterLink(assets: seq<Asset>, links: Links, org: string, device: string, id: string)
    requires Free(links, device)
    ensures Unmatched(assets, links[device := Some(id)], org) == WithoutAsset(Unmatched(assets, links, org), id)
    decreases |assets|
  {
    if assets != [] {
      UnmatchedAfterLink(assets[1..], links, org, device, id);
      var after := links[device := Some(id)];
      var a := assets[0];
      if Linked(links, a.id) {
        var d :| d in links && links[d] == Some(a.id);
        assert after[d] == Some(a.id);
      }
      assert after[device] == Some(id);
      assert Linked(after, a.id) <==> Linked(links, a.id) || a.id == id;
      WithoutHead(a, Unmatched(assets[1..], links, org), id);
    }
  }

  lemma WithoutHead(a: Asset, rest: seq<Asset>, id: string)
    ensures WithoutAsset([a] + rest, id) == (if a.id != id then [a] else []) + WithoutAsset(rest, id)
    ensures WithoutAsset([] + rest, id) == WithoutAsset(rest, id)
  {
    assert ([a] + rest)[1..] == rest && [] + rest == rest;
  }

  lemma {:induction false} NothingToRemove(assets: seq<Asset>, id: string)
    requires forall a :: a in assets ==> a.id != id
    ensures WithoutAsset(assets, id) == assets
    decreases |assets|
  {
    if assets != [] {
      NothingToRemove(assets[1..], id);
    }
  }

  lemma {:induction false} UnmatchedMember(assets: seq<Asset>, links: Links, org: string, a: Asset)
    ensures a in Unmatched(assets, links, org) <==> a in assets && a.organizationId == org && !Linked(links, a.id)
    decreases |assets|
  {
    if assets != [] {
      UnmatchedMember(assets[1..], links, org, a);
    }
  }

  predicate DistinctAssets(assets: seq<Asset>) {
    forall i, j :: 0 <= i < j < |assets| ==> assets[i].id != assets[j].id
  }

  /** An organization's list is unaffected when another organization's asset is linked. */
  lemma OtherOrganization(assets: seq<Asset>, links: Links, org: string, other: string, device: string, id: string)
    requires Free(links, device) && DistinctAssets(assets) && org != other
    requires exists a :: a in Unmatched(assets, links, org) && a.id == id
    ensures Unmatched(assets, links[device := Some(id)], other) == Unmatched(assets, links, other)
  {
    UnmatchedAfterLink(assets, links, other, device, id);
    var a :| a in Unmatched(assets, links, org) && a.id == id;
    UnmatchedMember(assets, links, org, a);
    forall b | b in Unmatched(assets, links, other) ensures b.id != id {
      UnmatchedMember(assets, links, other, b);
    }
    NothingToRemove(Unmatched(assets, links, other), id);
  }

  function Remaining(m: map<string, seq<Asset>>, org: string): seq<Asset> {
    if org in m then m[org] else []
  }

  /** Organizations of the rows still to be linked. */
  function PendingOrganizations(rows: seq<Device>): set<string> {
    set i | 0 <= i < |rows| && rows[i].assetId.None? :: rows[i].organizationId
  }

  lemma PendingListed(rows: seq<Device>, i: nat)
    requires i < |rows| && rows[i].assetId.None?
    ensures rows[i].organizationId in PendingOrganizations(rows)
  {
  }

  lemma AllLinked(rows: seq<Device>)
    ensures PendingOrganizations(rows) == {} ==> forall i :: 0 <= i < |rows| ==> rows[i].assetId.Some?
  {
    forall i | 0 <= i < |rows| && rows[i].assetId.None? ensures rows[i].organizationId in PendingOrganizations(rows) {
      PendingListed(rows, i);
    }
  }

  class LinkTables {
    const assets: seq<Asset>
    var links: Links

    constructor (assets: seq<Asset>, links: Links)
      ensures this.assets == assets && this.links == links
    {
      this.assets := assets;
      this.links := links;
    }

    /** The guarded update: sets the asset only where none is set, and says whether it did. */
    method SetAssetIfNone(deviceId: string, assetId: string) returns (updated: bool)
      modifies this
      ensures updated == Free(old(links), deviceId)
      ensures links == if updated then old(links)[deviceId := Some(assetId)] else old(links)
    {
      updated := Free(links, deviceId);
      if updated {
        links := links[deviceId := Some(assetId)];
      }
    }

    method TryLinkDeviceToAsset(d: Device, n: Normal) returns (found: Option<Match>)
      modifies this
      ensures (links, found) == LinkOne(assets, old(links), d, n)
    {
      if d.assetId.Some? {
        return None;
      }
      var candidates := Unmatched(assets, links, d.organizationId);
      found := MatchAssetToDevice(d, candidates, n);
      if found.None? {
        return;
      }
      var updated := SetAssetIfNone(d.id, found.value.assetId);
      if !updated {
        return None;
      }
    }

    /** The batch: unmatched assets are read once and struck off as they are used. */
    method TryLinkDevicesToAssets(rows: seq<Device>, n: Normal) returns (linked: seq<LinkedDevice>)
      requires DistinctAssets(assets)
      modifies this
      ensures (links, linked) == LinkEach(assets, old(links), rows, n)
    {
      linked := [];
      var organizationIds := PendingOrganizations(rows);
      if organizationIds == {} {
        AllLinked(rows);
        NothingPending(assets, links, rows, n);
        return;
      }
      var remaining := GroupByOrganization(UnmatchedIn(assets, links, organizationIds));
      forall org | org in organizationIds ensures Remaining(remaining, org) == Unmatched(assets, links, org) {
        OneOrganization(assets, links, organizationIds, org);
      }
      hide Unmatched, UnmatchedIn, MatchAssetToDevice, WithoutAsset, LinkOne, PendingOrganizations;
      for i := 0 to |rows|
        invariant ListsCurrent(remaining, organizationIds, assets, links)
        invariant (links, linked) == LinkEach(assets, old(links), rows[..i], n)
      {
        assert rows[..i + 1][..i] == rows[..i];
        var device := rows[i];
        if device.assetId.Some? {
          AlreadyLinked(assets, links, device, n);
          continue;
        }
        PendingListed(rows, i);
        var candidates := Remaining(remaining, device.organizationId);
        ghost var before := links;
        var found := LinkFromList(device, candidates, n);
        if found.Some? {
          ListsStayCurrent(remaining, organizationIds, assets, before, device, found.value, n);
          remaining := remaining[device.organizationId := WithoutAsset(candidates, found.value.assetId)];
          linked := linked + [LinkedDevice(device.id, found.value)];
        }
      }
      assert rows[..|rows|] == rows;
    }

    /** One turn of the batch: match against the given list, then the guarded update. */
    method LinkFromList(d: Device, candidates: seq<Asset>, n: Normal) returns (found: Option<Match>)
      requires d.assetId.None? && candidates == Unmatched(assets, links, d.organizationId)
      modifies this
      ensures (links, found) == LinkOne(assets, old(links), d, n)
      ensures found.Some? ==> Free(old(links), d.id) && links == old(links)[d.id := Some(found.value.assetId)]
                              && found == MatchAssetToDevice(d, candidates, n)
      ensures found.None? ==> links == old(links)
    {
      found := MatchAssetToDevice(d, candidates, n);
      if found.None? {
        return;
      }
      var updated := SetAssetIfNone(d.id, found.value.assetId);
      if !updated {
        return None;
      }
    }
  }

  /** Each organization's remaining list is its list of unmatched assets. */
  ghost predicate ListsCurrent(
      remaining: map<string, seq<Asset>>, orgs: set<string>, assets: seq<Asset>, links: Links) {
    forall org :: org in orgs ==> Remaining(remaining, org) == Unmatched(assets, links, org)
  }

  lemma AlreadyLinked(assets: seq<Asset>, links: Links, d: Device, n: Normal)
    requires d.assetId.Some?
    ensures LinkOne(assets, links, d, n) == (links, None)
  {
  }

  lemma ListsStayCurrent(remaining: map<string, seq<Asset>>, orgs: set<string>, assets: seq<Asset>,
                         links: Links, d: Device, m: Match, n: Normal)
    requires DistinctAssets(assets) && Free(links, d.id) && d.organizationId in orgs
    requires ListsCurrent(remaining, orgs, assets, links)
    requires MatchAssetToDevice(d, Remaining(remaining, d.organizationId), n) == Some(m)
    ensures ListsCurrent(
              remaining[d.organizationId := WithoutAsset(Remaining(remaining, d.organizationId), m.assetId)],
              orgs, assets, links[d.id := Some(m.assetId)])
  {
    StruckOff(assets, links, d, m, n);
  }

  method GroupByOrganization(unmatched: seq<Asset>) returns (remaining: map<string, seq<Asset>>)
    ensures forall org :: Remaining(remaining, org) == OfOrganization(unmatched, org)
  {
    remaining := map[];
    for i := 0 to |unmatched|
      invariant forall org :: Remaining(remaining, org) == OfOrganization(unmatched[..i], org)
    {
      assert unmatched[..i + 1][..i] == unmatched[..i];
      var asset := unmatched[i];
      var list := Remaining(remaining, asset.organizationId);
      remaining := remaining[asset.organizationId := list + [asset]];
    }
    assert unmatched[..|unmatched|] == unmatched;
  }

  lemma {:induction false} NothingPending(assets: seq<Asset>, links: Links, rows: seq<Device>, n: Normal)
    requires forall i :: 0 <= i < |rows| ==> rows[i].assetId.Some?
    ensures LinkEach(assets, links, rows, n) == (links, [])
    decreases |rows|
  {
    if rows != [] {
      NothingPending(assets, links, rows[..|rows| - 1], n);
    }
  }

  /** After one link, striking the asset off its organization's list leaves every list up to date. */
  lemma StruckOff(assets: seq<Asset>, links: Links, d: Device, m: Match, n: Normal)
    requires DistinctAssets(assets) && Free(links, d.id)
    requires MatchAssetToDevice(d, Unmatched(assets, links, d.organizationId), n) == Some(m)
    ensures var after := links[d.id := Some(m.assetId)];
            forall org :: Unmatched(assets, after, org)
                       == if org == d.organizationId then WithoutAsset(Unmatched(assets, links, org), m.assetId)
                          else Unmatched(assets, links, org)
  {
    MatchIsCandidate(d, Unmatched(assets, links, d.organizationId), n);
    forall org
      ensures Unmatched(assets, links[d.id := Some(m.assetId)], org)
           == if org == d.organizationId then WithoutAsset(Unmatched(assets, links, org), m.assetId)
              else Unmatched(assets, links, org)
    {
      UnmatchedAfterLink(assets, links, org, d.id, m.assetId);
      if org != d.organizationId {
        OtherOrganization(assets, links, d.organizationId, org, d.id, m.assetId);
      }
    }
  }

  // ----- what every link keeps -----

  /** No two devices share an asset. */
  ghost predicate OneToOne(links: Links) {
    forall a, b :: a in links && b in links && a != b && links[a].Some? ==> links[a] != links[b]
  }

  /** Every linked asset belongs to its device's organization. */
  ghost predicate SameOrganization(assets: seq<Asset>, links: Links, orgOf: map<string, string>) {
    forall d :: d in links && links[d].Some? && d in orgOf ==>
      exists a :: a in assets && a.id == links[d].value && a.organizationId == orgOf[d]
  }

  lemma LinkOneKeeps(assets: seq<Asset>, links: Links, d: Device, orgOf: map<string, string>, n: Normal)
    requires OneToOne(links) && SameOrganization(assets, links, orgOf)
    requires d.id in orgOf ==> orgOf[d.id] == d.organizationId
    ensures var (after, m) := LinkOne(assets, links, d, n);
            && OneToOne(after) && SameOrganization(assets, after, orgOf)
            && after.Keys == links.Keys
            && (forall x :: x in links && links[x].Some? ==> after[x] == links[x])
            && (m.Some? <==> after != links)
  {
    var (after, m) := LinkOne(assets, links, d, n);
    if m.Some? {
      var candidates := Unmatched(assets, links, d.organizationId);
      MatchIsCandidate(d, candidates, n);
      var a :| a in candidates && a.id == m.value.assetId;
      UnmatchedMember(assets, links, d.organizationId, a);
      assert after[d.id] != links[d.id];
    }
  }

  /**
   Linking any rows, one at a time or in a batch, keeps the links one-to-one and within one
   organization and never changes a link already made.
   */
  lemma {:induction false} LinkEachKeeps(assets: seq<Asset>, links: Links, rows: seq<Device>,
                                         orgOf: map<string, string>, n: Normal)
    requires OneToOne(links) && SameOrganization(assets, links, orgOf)
    requires forall i :: 0 <= i < |rows| && rows[i].id in orgOf ==> orgOf[rows[i].id] == rows[i].organizationId
    ensures var after := LinkEach(assets, links, rows, n).0;
            && OneToOne(after) && SameOrganization(assets, after, orgOf)
            && after.Keys == links.Keys
            && (forall x :: x in links && links[x].Some? ==> after[x] == links[x])
    decreases |rows|
  {
    if rows != [] {
      LinkEachKeeps(assets, links, rows[..|rows| - 1], orgOf, n);
      LinkOneKeeps(assets, LinkEach(assets, links, rows[..|rows| - 1], n).0, rows[|rows| - 1], orgOf, n);
    }
  }
}
