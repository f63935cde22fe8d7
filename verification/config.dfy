/**
 Configuration and internal state of the AMQP output plugin: the fields of the
 plugin's config struct, the errors it reports, its defaults and the condition
 under which it is ready to publish.
 */
module OutputAmqp {
  import opened Wrappers

  /** The name used for this output in the pipeline's configuration file. */
  const ModuleName: string := "amqp"

  /** An AMQP connection string; it is also the host identifier of the pool. */
  type Url = string

  newtype uint8 = x: int | 0 <= x < 256

  type Bytes = seq<uint8>

  /**
   The live connection and the publishing channel opened on it for one broker.
   Both are handles into the AMQP library and are compared only by identity.
   */
  datatype AmqpConn = AmqpConn(channel: nat, connection: nat)

  /** The errors the plugin returns. */
  datatype Error =
    | NoValidConnection        // raised when no URL yields a usable broker
    | External(message: string) // an error handed back by the AMQP library or the marshaller
  {
    function Message(): (m: string) {
      match this
      case NoValidConnection => "no valid amqp server connection found"
      case External(m) => m
    }
  }

  /**
   The plugin's config struct. `hostPool` is `None` until initialisation has
   found at least one healthy broker; the pool itself is modelled by the list
   of hosts it was built from.
   */
  datatype OutputConfig = OutputConfig(
    typeName: string,
    urls: seq<Url>,
    routingKey: string,
    exchange: string,
    exchangeType: string,
    exchangeDurable: bool,
    exchangeAutoDelete: bool,
    persistent: bool,
    retryCount: int,
    hostPool: Option<seq<Url>>,
    amqpClients: map<Url, AmqpConn>)

  /** Number of iterations of `for i := 0; i <= retryCount; i++`, counted without overflow. */
  function AttemptBudget(retryCount: int): (n: nat)
  {
    if retryCount < 0 then 0 else retryCount + 1
  }

  /**
   The plugin can publish: the host pool is set, it is not empty, and every
   host it can hand out has a client entry to look its channel up in.
   */
  predicate Ready(o: OutputConfig)
  {
    && o.hostPool.Some?
    && |o.hostPool.value| > 0
    && forall h :: h in o.hostPool.value ==> h in o.amqpClients
  }

  /** The configuration before the user's settings are applied. */
  function DefaultOutputConfig(): (c: OutputConfig)
    ensures c.typeName == ModuleName
    ensures c.routingKey == ""
    ensures !c.exchangeDurable && c.exchangeAutoDelete
    ensures !c.persistent
    ensures c.retryCount == 3 && AttemptBudget(c.retryCount) == 4
    ensures c.urls == [] && c.amqpClients == map[] && c.hostPool.None?
    ensures !Ready(c)
  {
    OutputConfig(
      typeName := ModuleName,
      urls := [],
      routingKey := "",
      exchange := "",
      exchangeType := "",
      exchangeDurable := false,
      exchangeAutoDelete := true,
      persistent := false,
      retryCount := 3,
      hostPool := None,
      amqpClients := map[])
  }
}
