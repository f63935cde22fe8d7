/**
 Start-up of the AMQP output: every configured URL is dialled, given a
 channel, recorded in the client map and has the exchange declared on it;
 the URLs that pass all steps become the host pool.
 */
module AmqpClients {
  import opened Wrappers
  import opened OutputAmqp

  /**
   How far one URL got during initialisation. The client entry is written
   before the exchange is declared, so a failed declaration still carries the
   connection that was recorded.
   */
  datatype UrlOutcome =
    | DialFail
    | ChannelFail
    | DeclareFail(conn: AmqpConn, err: Error)
    | Ok(conn: AmqpConn)
  {
    /** A client entry was written for this URL. */
    predicate Recorded() {
      DeclareFail? || Ok?
    }
  }

  /** State of the loop over the URLs: the client map, the healthy hosts so far, and the error that stopped it. */
  datatype Scan = Scan(clients: map<Url, AmqpConn>, hosts: seq<Url>, abort: Option<Error>)

  /** What `initAmqpClients` leaves behind: the (mutated) config and its error result. */
  datatype InitResult = InitResult(conf: OutputConfig, err: Option<Error>)

  /** No exchange declaration fails among the URLs with index in [lo, hi). */
  predicate NoDeclareFail(outcomes: seq<UrlOutcome>, lo: int, hi: int)
    requires 0 <= lo && hi <= |outcomes|
  {
    forall j :: lo <= j < hi ==> !outcomes[j].DeclareFail?
  }

  /** The URLs with index at least `i` that had a client entry written. */
  function RecordedUrls(urls: seq<Url>, outcomes: seq<UrlOutcome>, i: nat): (s: set<Url>)
    requires |outcomes| == |urls|
  {
    set k | i <= k < |urls| && outcomes[k].Recorded() :: urls[k]
  }

  /** URL `k` succeeded and no later URL equal to it succeeds again. */
  predicate LastHealthy(urls: seq<Url>, outcomes: seq<UrlOutcome>, k: int)
    requires |outcomes| == |urls| && 0 <= k < |urls|
  {
    outcomes[k].Ok? && forall j :: k < j < |urls| && urls[j] == urls[k] ==> !outcomes[j].Ok?
  }

  /**
   The indices, at least `i`, of the URLs whose three steps all succeeded,
   in increasing order: the reference for the host list.
   */
  function OkIndices(outcomes: seq<UrlOutcome>, i: nat): (idx: seq<nat>)
    requires i <= |outcomes|
    decreases |outcomes| - i
    ensures forall j :: 0 <= j < |idx| ==> i <= idx[j] < |outcomes| && outcomes[idx[j]].Ok?
    ensures forall j, j' :: 0 <= j < j' < |idx| ==> idx[j] < idx[j']
    ensures forall k :: i <= k < |outcomes| && outcomes[k].Ok? ==> k in idx
  {
    if i == |outcomes| then []
    else if outcomes[i].Ok? then [i] + OkIndices(outcomes, i + 1)
    else OkIndices(outcomes, i + 1)
  }

  /** Without a healthy URL from index `i` on, there is no healthy index. */
  lemma {:induction false} OkIndicesEmpty(outcomes: seq<UrlOutcome>, i: nat)
    requires i <= |outcomes|
    requires forall k :: i <= k < |outcomes| ==> !outcomes[k].Ok?
    decreases |outcomes| - i
    ensures OkIndices(outcomes, i) == []
  {
    if i < |outcomes| {
      OkIndicesEmpty(outcomes, i + 1);
    }
  }

  /** Every host has a client entry. */
  predicate HostsHaveClients(hosts: seq<Url>, clients: map<Url, AmqpConn>)
  {
    forall h :: h in hosts ==> h in clients
  }

  /** `r` is `prefix` followed by the URLs at the indices `idx`, in that order. */
  predicate HostsInOrder(r: seq<Url>, prefix: seq<Url>, urls: seq<Url>, idx: seq<nat>)
  {
    && |r| == |prefix| + |idx|
    && r[..|prefix|] == prefix
    && forall j :: 0 <= j < |idx| ==> idx[j] < |urls| && r[|prefix| + j] == urls[idx[j]]
  }

  /**
   The loop over the URLs from index `i`, with the client map and host list
   built so far: a failed dial or channel skips the URL, a recorded channel
   enters the client map, a failed declaration stops the loop, and a URL
   that passes all steps is appended to the hosts.
   */
  function ScanFrom(urls: seq<Url>, outcomes: seq<UrlOutcome>, i: nat,
                    clients: map<Url, AmqpConn>, hosts: seq<Url>): (r: Scan)
    requires |outcomes| == |urls| && i <= |urls|
    decreases |urls| - i
    ensures clients.Keys <= r.clients.Keys
    ensures |hosts| <= |r.hosts| <= |hosts| + (|urls| - i)
  {
    if i == |urls| then Scan(clients, hosts, None)
    else
      match outcomes[i]
      case DialFail => ScanFrom(urls, outcomes, i + 1, clients, hosts)
      case ChannelFail => ScanFrom(urls, outcomes, i + 1, clients, hosts)
      case DeclareFail(c, e) => Scan(clients[urls[i] := c], hosts, Some(e))
      case Ok(c) => ScanFrom(urls, outcomes, i + 1, clients[urls[i] := c], hosts + [urls[i]])
  }

  /** The loop stops with an error exactly when some declaration fails. */
  lemma {:induction false} ScanAbortsIffDeclareFails(urls: seq<Url>, outcomes: seq<UrlOutcome>, i: nat,
                                                     clients: map<Url, AmqpConn>, hosts: seq<Url>)
    requires |outcomes| == |urls| && i <= |urls|
    decreases |urls| - i
    ensures ScanFrom(urls, outcomes, i, clients, hosts).abort.None? <==> NoDeclareFail(outcomes, i, |urls|)
  {
    if i < |urls| {
      match outcomes[i]
      case DeclareFail(_, _) =>
      case Ok(c) => ScanAbortsIffDeclareFails(urls, outcomes, i + 1, clients[urls[i] := c], hosts + [urls[i]]);
      case DialFail => ScanAbortsIffDeclareFails(urls, outcomes, i + 1, clients, hosts);
      case ChannelFail => ScanAbortsIffDeclareFails(urls, outcomes, i + 1, clients, hosts);
    }
  }

  /** The error that stops the loop is the one of the first failed declaration. */
  lemma {:induction false} ScanStopsAtFirstDeclareFail(urls: seq<Url>, outcomes: seq<UrlOutcome>, i: nat,
                                                       clients: map<Url, AmqpConn>, hosts: seq<Url>, k: nat)
    requires |outcomes| == |urls| && i <= k < |urls|
    requires outcomes[k].DeclareFail? && NoDeclareFail(outcomes, i, k)
    decreases |urls| - i
    ensures ScanFrom(urls, outcomes, i, clients, hosts).abort == Some(outcomes[k].err)
  {
    if i < k {
      if outcomes[i].Ok? {
        ScanStopsAtFirstDeclareFail(urls, outcomes, i + 1, clients[urls[i] := outcomes[i].conn], hosts + [urls[i]], k);
      } else {
        ScanStopsAtFirstDeclareFail(urls, outcomes, i + 1, clients, hosts, k);
      }
    }
  }

  /**
   The loop never looks past the first failed declaration: URLs and outcomes
   after it do not change the result.
   */
  lemma {:induction false} ScanIgnoresUrlsAfterAbort(urls: seq<Url>, outcomes: seq<UrlOutcome>,
                                                     urls': seq<Url>, outcomes': seq<UrlOutcome>, i: nat,
                                                     clients: map<Url, AmqpConn>, hosts: seq<Url>, k: nat)
    requires |outcomes| == |urls| && |outcomes'| == |urls'| && i <= k < |urls| && k < |urls'|
    requires urls[..k + 1] == urls'[..k + 1] && outcomes[..k + 1] == outcomes'[..k + 1]
    requires outcomes[k].DeclareFail?
    decreases |urls| - i
    ensures ScanFrom(urls, outcomes, i, clients, hosts) == ScanFrom(urls', outcomes', i, clients, hosts)
  {
    assert urls[i] == urls[..k + 1][i] == urls'[i];
    assert outcomes[i] == outcomes[..k + 1][i] == outcomes'[i];
    if i < k {
      match outcomes[i]
      case Ok(c) =>
        ScanIgnoresUrlsAfterAbort(urls, outcomes, urls', outcomes', i + 1, clients[urls[i] := c], hosts + [urls[i]], k);
      case DeclareFail(_, _) =>
      case DialFail => ScanIgnoresUrlsAfterAbort(urls, outcomes, urls', outcomes', i + 1, clients, hosts, k);
      case ChannelFail => ScanIgnoresUrlsAfterAbort(urls, outcomes, urls', outcomes', i + 1, clients, hosts, k);
    }
  }

  /** Without a failed declaration, the healthy URLs are appended in their configured order. */
  lemma {:induction false} ScanKeepsHealthyOrder(urls: seq<Url>, outcomes: seq<UrlOutcome>, i: nat,
                                                 clients: map<Url, AmqpConn>, hosts: seq<Url>)
    requires |outcomes| == |urls| && i <= |urls|
    requires NoDeclareFail(outcomes, i, |urls|)
    decreases |urls| - i
    ensures HostsInOrder(ScanFrom(urls, outcomes, i, clients, hosts).hosts, hosts, urls, OkIndices(outcomes, i))
  {
    if i == |urls| {
      assert hosts[..|hosts|] == hosts;
    } else {
      var idx := OkIndices(outcomes, i + 1);
      if outcomes[i].Ok? {
        var clients' := clients[urls[i] := outcomes[i].conn];
        var hosts' := hosts + [urls[i]];
        ScanKeepsHealthyOrder(urls, outcomes, i + 1, clients', hosts');
        assert ScanFrom(urls, outcomes, i, clients, hosts) == ScanFrom(urls, outcomes, i + 1, clients', hosts');
        assert OkIndices(outcomes, i) == [i] + idx;
        HostsInOrderCons(ScanFrom(urls, outcomes, i + 1, clients', hosts').hosts, hosts, urls, idx, i);
      } else {
        ScanKeepsHealthyOrder(urls, outcomes, i + 1, clients, hosts);
        assert ScanFrom(urls, outcomes, i, clients, hosts) == ScanFrom(urls, outcomes, i + 1, clients, hosts);
        assert OkIndices(outcomes, i) == idx;
      }
    }
  }

  /** Moving the last host of the prefix to the front of the index list keeps the order. */
  lemma HostsInOrderCons(r: seq<Url>, hosts: seq<Url>, urls: seq<Url>, idx: seq<nat>, i: nat)
    requires i < |urls| && HostsInOrder(r, hosts + [urls[i]], urls, idx)
    ensures HostsInOrder(r, hosts, urls, [i] + idx)
  {
  }

  /**
   Client entries are only added, only for URLs that reached a channel, and
   entries for other URLs keep their value.
   */
  lemma {:induction false} ScanOnlyRecordsReachedUrls(urls: seq<Url>, outcomes: seq<UrlOutcome>, i: nat,
                                                      clients: map<Url, AmqpConn>, hosts: seq<Url>)
    requires |outcomes| == |urls| && i <= |urls|
    decreases |urls| - i
    ensures var r := ScanFrom(urls, outcomes, i, clients, hosts);
            && clients.Keys <= r.clients.Keys <= clients.Keys + RecordedUrls(urls, outcomes, i)
            && forall u :: u in clients && u !in RecordedUrls(urls, outcomes, i) ==> r.clients[u] == clients[u]
  {
    if i < |urls| {
      assert RecordedUrls(urls, outcomes, i + 1) <= RecordedUrls(urls, outcomes, i);
      match outcomes[i]
      case DeclareFail(c, _) =>
        assert urls[i] in RecordedUrls(urls, outcomes, i);
      case Ok(c) =>
        assert urls[i] in RecordedUrls(urls, outcomes, i);
        ScanOnlyRecordsReachedUrls(urls, outcomes, i + 1, clients[urls[i] := c], hosts + [urls[i]]);
      case DialFail => ScanOnlyRecordsReachedUrls(urls, outcomes, i + 1, clients, hosts);
      case ChannelFail => ScanOnlyRecordsReachedUrls(urls, outcomes, i + 1, clients, hosts);
    }
  }

  /** Every host the loop appends has a client entry, so the lookup when publishing finds one. */
  lemma {:induction false} ScanHostsHaveClients(urls: seq<Url>, outcomes: seq<UrlOutcome>, i: nat,
                                                clients: map<Url, AmqpConn>, hosts: seq<Url>)
    requires |outcomes| == |urls| && i <= |urls|
    requires HostsHaveClients(hosts, clients)
    decreases |urls| - i
    ensures var r := ScanFrom(urls, outcomes, i, clients, hosts);
            HostsHaveClients(r.hosts, r.clients)
  {
    if i < |urls| {
      if outcomes[i].Ok? || outcomes[i].DeclareFail? {
        var clients' := clients[urls[i] := outcomes[i].conn];
        assert HostsHaveClients(hosts + [urls[i]], clients');
        if outcomes[i].Ok? {
          ScanHostsHaveClients(urls, outcomes, i + 1, clients', hosts + [urls[i]]);
        }
      } else {
        ScanHostsHaveClients(urls, outcomes, i + 1, clients, hosts);
      }
    }
  }

  /** Without a failed declaration, a healthy URL maps to the connection of its last successful dial. */
  lemma {:induction false} ScanMapsLastConnection(urls: seq<Url>, outcomes: seq<UrlOutcome>, i: nat,
                                                  clients: map<Url, AmqpConn>, hosts: seq<Url>, k: nat)
    requires |outcomes| == |urls| && i <= k < |urls|
    requires NoDeclareFail(outcomes, i, |urls|) && LastHealthy(urls, outcomes, k)
    decreases |urls| - i
    ensures var r := ScanFrom(urls, outcomes, i, clients, hosts);
            urls[k] in r.clients && r.clients[urls[k]] == outcomes[k].conn
  {
    if i == k {
      var c := outcomes[k].conn;
      var m := clients[urls[k] := c];
      ScanOnlyRecordsReachedUrls(urls, outcomes, i + 1, m, hosts + [urls[k]]);
      assert urls[k] !in RecordedUrls(urls, outcomes, i + 1);
    } else if outcomes[i].Ok? {
      ScanMapsLastConnection(urls, outcomes, i + 1, clients[urls[i] := outcomes[i].conn], hosts + [urls[i]], k);
    } else {
      ScanMapsLastConnection(urls, outcomes, i + 1, clients, hosts, k);
    }
  }

  /**
   Initialisation of the client map and host pool from `o.urls`, where
   `outcomes[k]` is how far `o.urls[k]` got. The starting client map is the
   one in `o`.
   */
  function InitAmqpClients(o: OutputConfig, outcomes: seq<UrlOutcome>): (r: InitResult)
    requires |outcomes| == |o.urls|
    ensures r.err.None? ==> Ready(r.conf)
    ensures r.err.Some? ==> r.conf.hostPool == o.hostPool
    // only the two internal fields are written
    ensures r.conf.(amqpClients := o.amqpClients, hostPool := o.hostPool) == o
  {
    ScanHostsHaveClients(o.urls, outcomes, 0, o.amqpClients, []);
    var s := ScanFrom(o.urls, outcomes, 0, o.amqpClients, []);
    if s.abort.Some? then
      InitResult(o.(amqpClients := s.clients), s.abort)
    else if |s.hosts| == 0 then
      InitResult(o.(amqpClients := s.clients), Some(NoValidConnection))
    else
      InitResult(o.(amqpClients := s.clients, hostPool := Some(s.hosts)), None)
  }

  /** A failed exchange declaration is returned as the error of the whole initialisation. */
  lemma InitFailsOnFirstDeclareFail(o: OutputConfig, outcomes: seq<UrlOutcome>, k: nat)
    requires |outcomes| == |o.urls| && k < |o.urls|
    requires outcomes[k].DeclareFail? && NoDeclareFail(outcomes, 0, k)
    ensures InitAmqpClients(o, outcomes).err == Some(outcomes[k].err)
  {
    ScanStopsAtFirstDeclareFail(o.urls, outcomes, 0, o.amqpClients, [], k);
  }

  /** After a failed exchange declaration no later URL is processed: what follows it does not matter. */
  lemma InitIgnoresUrlsAfterDeclareFail(o: OutputConfig, outcomes: seq<UrlOutcome>,
                                        more: seq<Url>, moreOutcomes: seq<UrlOutcome>, k: nat)
    requires |outcomes| == |o.urls| && k < |o.urls| && |more| == |moreOutcomes|
    requires outcomes[k].DeclareFail?
    ensures var r := InitAmqpClients(o, outcomes);
            var r' := InitAmqpClients(o.(urls := o.urls[..k + 1] + more), outcomes[..k + 1] + moreOutcomes);
            r'.err == r.err && r'.conf.amqpClients == r.conf.amqpClients && r'.conf.hostPool == r.conf.hostPool
  {
    var o' := o.(urls := o.urls[..k + 1] + more);
    var outcomes' := outcomes[..k + 1] + moreOutcomes;
    assert o'.urls[..k + 1] == o.urls[..k + 1];
    assert outcomes'[..k + 1] == outcomes[..k + 1];
    ScanIgnoresUrlsAfterAbort(o.urls, outcomes, o'.urls, outcomes', 0, o.amqpClients, [], k);
    ScanAbortsIffDeclareFails(o.urls, outcomes, 0, o.amqpClients, []);
    ScanHostsHaveClients(o.urls, outcomes, 0, o.amqpClients, []);
  }

  /** Without a failed declaration and without a healthy URL, initialisation reports that no connection was found. */
  lemma InitFailsWithoutHealthyUrl(o: OutputConfig, outcomes: seq<UrlOutcome>)
    requires |outcomes| == |o.urls|
    requires NoDeclareFail(outcomes, 0, |o.urls|)
    requires forall k :: 0 <= k < |o.urls| ==> !outcomes[k].Ok?
    ensures InitAmqpClients(o, outcomes).err == Some(NoValidConnection)
  {
    ScanAbortsIffDeclareFails(o.urls, outcomes, 0, o.amqpClients, []);
    ScanKeepsHealthyOrder(o.urls, outcomes, 0, o.amqpClients, []);
    OkIndicesEmpty(outcomes, 0);
  }

  /** Initialisation succeeds exactly when no declaration fails and some URL passes all three steps. */
  lemma InitSucceedsIff(o: OutputConfig, outcomes: seq<UrlOutcome>)
    requires |outcomes| == |o.urls|
    ensures InitAmqpClients(o, outcomes).err.None?
            <==> (NoDeclareFail(outcomes, 0, |o.urls|) && exists k :: 0 <= k < |o.urls| && outcomes[k].Ok?)
  {
    ScanAbortsIffDeclareFails(o.urls, outcomes, 0, o.amqpClients, []);
    if NoDeclareFail(outcomes, 0, |o.urls|) {
      ScanKeepsHealthyOrder(o.urls, outcomes, 0, o.amqpClients, []);
      var idx := OkIndices(outcomes, 0);
      if exists k :: 0 <= k < |o.urls| && outcomes[k].Ok? {
        var k :| 0 <= k < |o.urls| && outcomes[k].Ok?;
        assert k in idx;
      } else {
        InitFailsWithoutHealthyUrl(o, outcomes);
      }
    }
  }

  /**
   On success the pool holds exactly the healthy URLs in configured order,
   and each maps to the connection of its last successful dial.
   */
  lemma InitPoolIsHealthyUrls(o: OutputConfig, outcomes: seq<UrlOutcome>)
    requires |outcomes| == |o.urls|
    requires InitAmqpClients(o, outcomes).err.None?
    ensures var c := InitAmqpClients(o, outcomes).conf;
            && c.hostPool.Some?
            && HostsInOrder(c.hostPool.value, [], o.urls, OkIndices(outcomes, 0))
            && forall k :: 0 <= k < |o.urls| && LastHealthy(o.urls, outcomes, k)
                 ==> o.urls[k] in c.amqpClients && c.amqpClients[o.urls[k]] == outcomes[k].conn
  {
    ScanAbortsIffDeclareFails(o.urls, outcomes, 0, o.amqpClients, []);
    ScanKeepsHealthyOrder(o.urls, outcomes, 0, o.amqpClients, []);
    forall k | 0 <= k < |o.urls| && LastHealthy(o.urls, outcomes, k)
      ensures var s := ScanFrom(o.urls, outcomes, 0, o.amqpClients, []);
              o.urls[k] in s.clients && s.clients[o.urls[k]] == outcomes[k].conn
    {
      ScanMapsLastConnection(o.urls, outcomes, 0, o.amqpClients, [], k);
    }
  }

  /** Entries are added to the client map only for URLs that reached a channel; none is removed. */
  lemma InitOnlyRecordsReachedUrls(o: OutputConfig, outcomes: seq<UrlOutcome>)
    requires |outcomes| == |o.urls|
    ensures var c := InitAmqpClients(o, outcomes).conf;
            o.amqpClients.Keys <= c.amqpClients.Keys <= o.amqpClients.Keys + RecordedUrls(o.urls, outcomes, 0)
  {
    ScanOnlyRecordsReachedUrls(o.urls, outcomes, 0, o.amqpClients, []);
  }
}
