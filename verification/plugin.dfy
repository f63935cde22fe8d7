/**
 The two halves together: initialisation builds the pool and client map
 that every later publish reads.
 */
module OutputPlugin {
  import opened Wrappers
  import opened OutputAmqp
  import opened AmqpClients
  import opened EventPublish

  /** A URL that passed all three steps has a last successful dial among its repetitions. */
  lemma {:induction false} LastHealthyExists(urls: seq<Url>, outcomes: seq<UrlOutcome>, k: nat)
    requires |outcomes| == |urls| && k < |urls| && outcomes[k].Ok?
    decreases |urls| - k
    ensures exists k' :: k <= k' < |urls| && urls[k'] == urls[k] && LastHealthy(urls, outcomes, k')
  {
    if !LastHealthy(urls, outcomes, k) {
      var j :| k < j < |urls| && urls[j] == urls[k] && outcomes[j].Ok?;
      LastHealthyExists(urls, outcomes, j);
    }
  }

  /**
   After a successful initialisation, every publish goes through the client
   recorded by the last successful dial of its URL, the one on which the
   exchange was declared.
   */
  lemma EventUsesDeclaredChannels<E>(o: OutputConfig, outcomes: seq<UrlOutcome>, ev: E,
                                     marshal: E -> Result<Bytes, Error>, format: (E, string) -> string,
                                     env: seq<Draw>)
    requires |outcomes| == |o.urls| && InitAmqpClients(o, outcomes).err.None?
    requires DrawsFromPool(InitAmqpClients(o, outcomes).conf, env)
    requires AttemptBudget(o.retryCount) <= |env|
    ensures var r := Event(InitAmqpClients(o, outcomes).conf, ev, marshal, format, env);
            forall j :: 0 <= j < |r.attempts| ==>
              exists k :: 0 <= k < |o.urls| && LastHealthy(o.urls, outcomes, k)
                && r.attempts[j].host == o.urls[k] && r.attempts[j].client == outcomes[k].conn
  {
    var c := InitAmqpClients(o, outcomes).conf;
    var r := Event(c, ev, marshal, format, env);
    InitPoolIsHealthyUrls(o, outcomes);
    var hosts := c.hostPool.value;
    var idx := OkIndices(outcomes, 0);
    forall j | 0 <= j < |r.attempts|
      ensures exists k :: 0 <= k < |o.urls| && LastHealthy(o.urls, outcomes, k)
                && r.attempts[j].host == o.urls[k] && r.attempts[j].client == outcomes[k].conn
    {
      var h := env[j].host;
      var m :| 0 <= m < |hosts| && hosts[m] == h;
      assert hosts[0 + m] == o.urls[idx[m]];
      LastHealthyExists(o.urls, outcomes, idx[m]);
      var k :| idx[m] <= k < |o.urls| && o.urls[k] == o.urls[idx[m]] && LastHealthy(o.urls, outcomes, k);
      assert r.attempts[j].host == h && r.attempts[j].client == c.amqpClients[h];
    }
  }
}
