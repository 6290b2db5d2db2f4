/**
 The fan-out of one alert event over an organization's notification channels
 (packages/api-contract/src/alert-deliveries.ts, packages/notifications/src/filters.ts), and that
 each channel by itself sees what `AlertProtocol.Notify` says of the one channel under watch.
 */
module AlertChannels {
  import opened Options
  import opened AlertProtocol

  /** From the least to the most severe; `Noteworthy` is "notice" in the source. */
  datatype Severity = Info | Noteworthy | Warning | Critical

  /** What the fan-out looks at besides the row. */
  datatype Subject = Subject(organizationId: Option<string>, kind: string, severity: Severity, siteId: Option<string>)

  /** Empty lists of kinds or sites let every alert through. */
  datatype Channel = Channel(id: string, organizationId: string, enabled: bool, minSeverity: Severity,
                             alertKinds: seq<string>, siteIds: seq<string>)

  datatype Delivery = Delivery(channelId: string, alert: nat, event: Event)

  function SeverityRank(s: Severity): nat {
    match s
    case Info => 0
    case Noteworthy => 1
    case Warning => 2
    case Critical => 3
  }

  predicate Given(s: Option<string>) {
    s.Some? && s.value != ""
  }

  predicate ChannelMatchesSite(c: Channel, siteId: Option<string>) {
    if c.siteIds == [] then true
    else if !Given(siteId) then false
    else siteId.value in c.siteIds
  }

  predicate ChannelMatchesAlert(c: Channel, a: Subject) {
    if SeverityRank(a.severity) < SeverityRank(c.minSeverity) then false
    else if |c.alertKinds| > 0 && a.kind !in c.alertKinds then false
    else ChannelMatchesSite(c, a.siteId)
  }

  /** The channels of the query that also match. */
  predicate Wants(c: Channel, a: Subject) {
    Given(a.organizationId) && c.organizationId == a.organizationId.value && c.enabled && ChannelMatchesAlert(c, a)
  }

  /** One severity is at least the other, in the order info, notice, warning, critical. */
  predicate AtLeast(a: Severity, b: Severity) {
    a == b || a == Critical || b == Info || (a == Warning && b == Noteworthy)
  }

  /**
   A channel wants an alert of its own organization when it is enabled, the alert is severe enough,
   and its lists of kinds and of sites are empty or name the alert's; an alert without a site is
   named by no list.
   */
  lemma WantsIff(c: Channel, a: Subject)
    ensures Wants(c, a)
            <==> && c.enabled && c.organizationId != "" && a.organizationId == Some(c.organizationId)
                 && AtLeast(a.severity, c.minSeverity)
                 && (c.alertKinds == [] || a.kind in c.alertKinds)
                 && (c.siteIds == [] || (a.siteId != None && a.siteId != Some("") && a.siteId.value in c.siteIds))
  {
  }

  function Matching(channels: seq<Channel>, a: Subject): seq<Channel> {
    if channels == [] then []
    else Matching(channels[..|channels| - 1], a)
         + if Wants(channels[|channels| - 1], a) then [channels[|channels| - 1]] else []
  }

  /** The row is about this subject. */
  predicate Describes(row: Alert, a: Subject) {
    row.hasOrg <==> Given(a.organizationId)
  }

  predicate DistinctChannels(channels: seq<Channel>) {
    forall i, j :: 0 <= i < j < |channels| ==> channels[i].id != channels[j].id
  }

  class DeliveryQueue {
    var deliveries: seq<Delivery>

    constructor ()
      ensures deliveries == []
    {
      deliveries := [];
    }

    /** The number of deliveries queued; what each channel gets is `EveryChannelIsNotified`. */
    method EnqueueAlertNotifications(channels: seq<Channel>, id: nat, row: Alert, a: Subject, event: Event, now: int)
      returns (queued: nat)
      requires Describes(row, a)
      modifies this
      ensures deliveries == old(deliveries) + FanOut(channels, id, row, a, event, now)
      ensures queued == |deliveries| - |old(deliveries)|
    {
      if !ShouldEnqueue(row.status, row.snoozedUntil, event, now) {
        return 0;
      }
      if !Given(a.organizationId) {
        return 0;
      }
      var matching := Matching(channels, a);
      if |matching| == 0 {
        return 0;
      }
      deliveries := deliveries + ForEach(matching, id, event);
      queued := |matching|;
    }
  }

  /** One delivery for each channel, in order. */
  function ForEach(channels: seq<Channel>, id: nat, event: Event): (r: seq<Delivery>)
    ensures |r| == |channels|
  {
    seq(|channels|, i requires 0 <= i < |channels| => Delivery(channels[i].id, id, event))
  }

  function FanOut(channels: seq<Channel>, id: nat, row: Alert, a: Subject, event: Event, now: int): seq<Delivery> {
    if ShouldEnqueue(row.status, row.snoozedUntil, event, now) && Given(a.organizationId)
    then ForEach(Matching(channels, a), id, event) else []
  }

  /** What one channel sees of the queue. */
  function SeenBy(channelId: string, deliveries: seq<Delivery>): seq<Notice> {
    if deliveries == [] then []
    else
      var last := deliveries[|deliveries| - 1];
      SeenBy(channelId, deliveries[..|deliveries| - 1])
      + if last.channelId == channelId then [Notice(last.alert, last.event)] else []
  }

  lemma {:induction false} SeenAppend(channelId: string, before: seq<Delivery>, more: seq<Delivery>)
    ensures SeenBy(channelId, before + more) == SeenBy(channelId, before) + SeenBy(channelId, more)
    decreases |more|
  {
    if more == [] {
      assert before + more == before;
    } else {
      var init, last := more[..|more| - 1], more[|more| - 1];
      SeenAppend(channelId, before, init);
      assert (before + more)[..|before + more| - 1] == before + init && (before + more)[|before + more| - 1] == last;
    }
  }

  /** Some channel of this id wants the alert. */
  predicate SomeWants(channels: seq<Channel>, a: Subject, channelId: string) {
    exists i :: 0 <= i < |channels| && channels[i].id == channelId && Wants(channels[i], a)
  }

  lemma SomeWantsLast(channels: seq<Channel>, a: Subject, channelId: string)
    requires channels != []
    ensures SomeWants(channels, a, channelId)
            <==> SomeWants(channels[..|channels| - 1], a, channelId)
                 || (channels[|channels| - 1].id == channelId && Wants(channels[|channels| - 1], a))
  {
    hide Wants;
    var init := channels[..|channels| - 1];
    if i :| 0 <= i < |init| && init[i].id == channelId && Wants(init[i], a) {
      assert channels[i] == init[i];
    }
    if i :| 0 <= i < |init| && channels[i].id == channelId && Wants(channels[i], a) {
      assert init[i] == channels[i];
    }
  }

  lemma SomeWantsId(channels: seq<Channel>, a: Subject, channelId: string)
    requires SomeWants(channels, a, channelId)
    ensures exists i :: 0 <= i < |channels| && channels[i].id == channelId
  {
  }

  /** Among the matching channels an id occurs once if its channel wants the alert, else not at all. */
  lemma {:induction false} SeenOfMatching(channels: seq<Channel>, a: Subject, id: nat, event: Event, channelId: string)
    requires DistinctChannels(channels)
    ensures SeenBy(channelId, ForEach(Matching(channels, a), id, event))
            == if SomeWants(channels, a, channelId) then [Notice(id, event)] else []
    decreases |channels|
  {
    if channels != [] {
      var init, last := channels[..|channels| - 1], channels[|channels| - 1];
      SomeWantsLast(channels, a, channelId);
      SeenOfMatching(init, a, id, event, channelId);
      var before := Matching(init, a);
      hide Wants, SomeWants;
      if Wants(last, a) {
        assert ForEach(before + [last], id, event) == ForEach(before, id, event) + [Delivery(last.id, id, event)];
        SeenAppend(channelId, ForEach(before, id, event), [Delivery(last.id, id, event)]);
        SeenOne(channelId, Delivery(last.id, id, event));
        if SomeWants(init, a, channelId) {
          SomeWantsId(init, a, channelId);
          assert last.id != channelId;
        }
      } else {
        assert before + [] == before;
      }
    }
  }

  lemma SeenOne(channelId: string, d: Delivery)
    ensures SeenBy(channelId, [d]) == if d.channelId == channelId then [Notice(d.alert, d.event)] else []
  {
    assert [d][..0] == [];
  }

  /** To every channel the whole fan-out is the notice the protocol sends it, or none. */
  lemma EveryChannelIsNotified(
    channels: seq<Channel>, k: nat, before: seq<Delivery>, id: nat, row: Alert, a: Subject, event: Event, now: int)
    requires DistinctChannels(channels) && k < |channels| && Describes(row, a)
    ensures SeenBy(channels[k].id, before + FanOut(channels, id, row, a, event, now))
            == Notify(SeenBy(channels[k].id, before), id, row, event, now, Wants(channels[k], a))
  {
    SeenAppend(channels[k].id, before, FanOut(channels, id, row, a, event, now));
    SeenOfMatching(channels, a, id, event, channels[k].id);
    OwnChannelWants(channels, k, a);
  }

  lemma OwnChannelWants(channels: seq<Channel>, k: nat, a: Subject)
    requires DistinctChannels(channels) && k < |channels|
    ensures SomeWants(channels, a, channels[k].id) <==> Wants(channels[k], a)
  {
    hide Wants;
    if i :| 0 <= i < |channels| && channels[i].id == channels[k].id && Wants(channels[i], a) {
      assert i == k;
    }
  }
}
