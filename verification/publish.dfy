/**
 Publishing one event: the event is marshalled once, its exchange and
 routing key are resolved once, and then up to `retryCount + 1` publishes
 are tried, each on a host handed out by the pool, stopping at the first
 that succeeds.
 */
module EventPublish {
  import opened Wrappers
  import opened OutputAmqp

  /** Content type set on every published message. */
  const ContentType: string := "application/json"

  /**
   The message handed to the channel's publish call: exchange, routing key,
   the `mandatory` and `immediate` flags, content type and body.
   */
  datatype Publishing = Publishing(
    exchange: string,
    routingKey: string,
    mandatory: bool,
    immediate: bool,
    contentType: string,
    body: Bytes)

  /**
   What the environment answers at one attempt: the host the pool hands out,
   and the error the publish call returns on that host's channel (`None` for nil).
   */
  datatype Draw = Draw(host: Url, result: Option<Error>)

  /** One publish call made: on which host, through which client entry, with which message. */
  datatype Attempt = Attempt(host: Url, client: AmqpConn, message: Publishing)

  /** The error `Event` returns and the publish calls it made, in order. */
  datatype Delivery = Delivery(err: Option<Error>, attempts: seq<Attempt>)

  /** Every host the environment hands out is one the pool was built from. */
  predicate DrawsFromPool(o: OutputConfig, env: seq<Draw>)
    requires o.hostPool.Some?
  {
    forall j :: 0 <= j < |env| ==> env[j].host in o.hostPool.value
  }

  /** The publish at index `k` is the first among those from `i` on to succeed. */
  predicate FirstSuccess(env: seq<Draw>, i: nat, k: nat)
    requires k < |env|
  {
    i <= k && env[k].result.None? && forall j :: i <= j < k ==> env[j].result.Some?
  }

  /** No publish with index in [i, n) succeeds. */
  predicate AllFail(env: seq<Draw>, i: nat, n: nat)
    requires n <= |env|
  {
    forall j :: i <= j < n ==> env[j].result.Some?
  }

  /**
   The publish loop from iteration `i`, where `err` is the error held from
   the previous iteration.
   */
  function Retry(o: OutputConfig, msg: Publishing, env: seq<Draw>, i: nat, err: Option<Error>): (r: Delivery)
    requires Ready(o) && DrawsFromPool(o, env)
    requires i <= AttemptBudget(o.retryCount) <= |env|
    decreases AttemptBudget(o.retryCount) - i
    ensures |r.attempts| <= AttemptBudget(o.retryCount) - i
    // the k-th call goes to the k-th host drawn, through its client entry, with the same message
    ensures forall j :: 0 <= j < |r.attempts| ==>
              && env[i + j].host in o.amqpClients
              && r.attempts[j] == Attempt(env[i + j].host, o.amqpClients[env[i + j].host], msg)
    // the loop stops right after the first success, with nil
    ensures forall k: nat :: k < AttemptBudget(o.retryCount) && FirstSuccess(env, i, k) ==>
              r.err.None? && |r.attempts| == k - i + 1
    // otherwise every iteration runs and the last error is returned
    ensures AllFail(env, i, AttemptBudget(o.retryCount)) ==>
              && |r.attempts| == AttemptBudget(o.retryCount) - i
              && r.err == (if i == AttemptBudget(o.retryCount) then err else env[AttemptBudget(o.retryCount) - 1].result)
  {
    if !(i <= o.retryCount) then
      Delivery(err, [])
    else
      var d := env[i];
      var a := Attempt(d.host, o.amqpClients[d.host], msg);
      if d.result.None? then
        Delivery(None, [a])
      else
        var rest := Retry(o, msg, env, i + 1, d.result);
        assert forall k: nat :: k < |env| && FirstSuccess(env, i, k) ==> FirstSuccess(env, i + 1, k);
        Delivery(rest.err, [a] + rest.attempts)
  }

  /**
   Sends `ev` with `marshal` as its JSON encoding and `format` as the
   template expansion; `env` answers the pool draws and publish calls.
   */
  function Event<E>(o: OutputConfig, ev: E, marshal: E -> Result<Bytes, Error>,
                    format: (E, string) -> string, env: seq<Draw>): (r: Delivery)
    requires Ready(o) && DrawsFromPool(o, env)
    requires AttemptBudget(o.retryCount) <= |env|
    // a marshalling error is returned before any publish
    ensures marshal(ev).Failure? ==> r.err == Some(marshal(ev).error) && r.attempts == []
    ensures |r.attempts| <= AttemptBudget(o.retryCount)
    // every call publishes the same exchange, routing key and payload
    ensures marshal(ev).Success? ==>
              forall j :: 0 <= j < |r.attempts| ==>
                && env[j].host in o.amqpClients
                && r.attempts[j] == Attempt(env[j].host, o.amqpClients[env[j].host],
                     Publishing(format(ev, o.exchange), format(ev, o.routingKey), false, false,
                                ContentType, marshal(ev).value))
    ensures marshal(ev).Success? ==>
              forall k: nat :: k < AttemptBudget(o.retryCount) && FirstSuccess(env, 0, k) ==>
                r.err.None? && |r.attempts| == k + 1
    ensures marshal(ev).Success? && AllFail(env, 0, AttemptBudget(o.retryCount)) ==>
              && |r.attempts| == AttemptBudget(o.retryCount)
              && r.err == (if o.retryCount < 0 then None else env[o.retryCount].result)
  {
    match marshal(ev)
    case Failure(e) => Delivery(Some(e), [])
    case Success(raw) =>
      var msg := Publishing(format(ev, o.exchange), format(ev, o.routingKey), false, false, ContentType, raw);
      Retry(o, msg, env, 0, None)
  }

  /**
   The loop ends with nil exactly when some publish from iteration `i` on
   succeeds, or when no iteration is left and the held error is nil.
   */
  lemma {:induction false} RetryNilIff(o: OutputConfig, msg: Publishing, env: seq<Draw>, i: nat, err: Option<Error>)
    requires Ready(o) && DrawsFromPool(o, env)
    requires i <= AttemptBudget(o.retryCount) <= |env|
    decreases AttemptBudget(o.retryCount) - i
    ensures Retry(o, msg, env, i, err).err.None?
            <==> (exists k :: i <= k < AttemptBudget(o.retryCount) && env[k].result.None?)
                 || (i == AttemptBudget(o.retryCount) && err.None?)
  {
    if i < AttemptBudget(o.retryCount) && env[i].result.Some? {
      RetryNilIff(o, msg, env, i + 1, env[i].result);
      if exists k :: i <= k < AttemptBudget(o.retryCount) && env[k].result.None? {
        var k :| i <= k < AttemptBudget(o.retryCount) && env[k].result.None?;
        assert i + 1 <= k;
      }
    }
  }

  /** With marshalling done, `Event` returns nil exactly when some publish within the budget succeeds, or there is no budget. */
  lemma EventNilIff<E>(o: OutputConfig, ev: E, marshal: E -> Result<Bytes, Error>,
                       format: (E, string) -> string, env: seq<Draw>)
    requires Ready(o) && DrawsFromPool(o, env)
    requires AttemptBudget(o.retryCount) <= |env|
    requires marshal(ev).Success?
    ensures Event(o, ev, marshal, format, env).err.None?
            <==> o.retryCount < 0 || exists k :: 0 <= k < AttemptBudget(o.retryCount) && env[k].result.None?
  {
    var msg := Publishing(format(ev, o.exchange), format(ev, o.routingKey), false, false, ContentType, marshal(ev).value);
    RetryNilIff(o, msg, env, 0, None);
  }

  /** Two environments that agree on the draws the loop consumed give the same delivery. */
  lemma {:induction false} RetryDependsOnlyOnDrawsMade(o: OutputConfig, msg: Publishing, env: seq<Draw>, env': seq<Draw>,
                                                       i: nat, err: Option<Error>)
    requires Ready(o) && DrawsFromPool(o, env) && DrawsFromPool(o, env')
    requires i <= AttemptBudget(o.retryCount) <= |env| && AttemptBudget(o.retryCount) <= |env'|
    requires forall j :: i <= j < i + |Retry(o, msg, env, i, err).attempts| ==> env'[j] == env[j]
    decreases AttemptBudget(o.retryCount) - i
    ensures Retry(o, msg, env', i, err) == Retry(o, msg, env, i, err)
  {
    if i <= o.retryCount {
      assert env'[i] == env[i];
      if env[i].result.Some? {
        assert |Retry(o, msg, env, i, err).attempts| == 1 + |Retry(o, msg, env, i + 1, env[i].result).attempts|;
        RetryDependsOnlyOnDrawsMade(o, msg, env, env', i + 1, env[i].result);
      }
    }
  }

  /**
   `Event` stops at the first success and never looks past its budget:
   draws after those it consumed do not change what it does.
   */
  lemma EventDependsOnlyOnDrawsMade<E>(o: OutputConfig, ev: E, marshal: E -> Result<Bytes, Error>,
                                       format: (E, string) -> string, env: seq<Draw>, env': seq<Draw>)
    requires Ready(o) && DrawsFromPool(o, env) && DrawsFromPool(o, env')
    requires AttemptBudget(o.retryCount) <= |env| && AttemptBudget(o.retryCount) <= |env'|
    requires forall j :: 0 <= j < |Event(o, ev, marshal, format, env).attempts| ==> env'[j] == env[j]
    ensures Event(o, ev, marshal, format, env') == Event(o, ev, marshal, format, env)
  {
    if marshal(ev).Success? {
      var msg := Publishing(format(ev, o.exchange), format(ev, o.routingKey), false, false, ContentType, marshal(ev).value);
      RetryDependsOnlyOnDrawsMade(o, msg, env, env', 0, None);
    }
  }

  /**
   The fields `Event` reads agree: the templates, the retry count, the pool
   and the client map. The URLs, the exchange type, the declaration flags and
   `persistent` are left free.
   */
  predicate SamePublishSettings(o: OutputConfig, o': OutputConfig)
  {
    && o'.exchange == o.exchange
    && o'.routingKey == o.routingKey
    && o'.retryCount == o.retryCount
    && o'.hostPool == o.hostPool
    && o'.amqpClients == o.amqpClients
  }

  /** The loop, given its message, reads only the retry count, the pool and the client map. */
  lemma {:induction false} RetryReadsOnlyPublishSettings(o: OutputConfig, o': OutputConfig, msg: Publishing,
                                                         env: seq<Draw>, i: nat, err: Option<Error>)
    requires Ready(o) && DrawsFromPool(o, env)
    requires o'.retryCount == o.retryCount && o'.hostPool == o.hostPool && o'.amqpClients == o.amqpClients
    requires i <= AttemptBudget(o.retryCount) <= |env|
    decreases AttemptBudget(o.retryCount) - i
    ensures Ready(o') && DrawsFromPool(o', env)
    ensures Retry(o', msg, env, i, err) == Retry(o, msg, env, i, err)
  {
    if i <= o.retryCount && env[i].result.Some? {
      RetryReadsOnlyPublishSettings(o, o', msg, env, i + 1, env[i].result);
    }
  }

  /**
   The message's delivery mode is never set: `Event` behaves the same
   whatever `persistent`, the exchange type or the declaration flags are.
   */
  lemma PersistentIsIgnored<E>(o: OutputConfig, o': OutputConfig, ev: E, marshal: E -> Result<Bytes, Error>,
                               format: (E, string) -> string, env: seq<Draw>)
    requires Ready(o) && DrawsFromPool(o, env) && AttemptBudget(o.retryCount) <= |env|
    requires SamePublishSettings(o, o')
    ensures Ready(o') && DrawsFromPool(o', env)
    ensures Event(o', ev, marshal, format, env) == Event(o, ev, marshal, format, env)
  {
    if marshal(ev).Success? {
      var msg := Publishing(format(ev, o.exchange), format(ev, o.routingKey), false, false, ContentType, marshal(ev).value);
      RetryReadsOnlyPublishSettings(o, o', msg, env, 0, None);
    }
  }
}
