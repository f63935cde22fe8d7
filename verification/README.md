# AMQP output of gogstash, modelled in Dafny

This project models the AMQP output plugin of gogstash (`output/amqp/outputamqp.go`).
The plugin does two things:

- **Start-up** (`initAmqpClients`). It walks the configured broker URLs in order. For each URL it
  dials, opens a channel, records the client and declares the exchange. A failed dial or channel
  open skips the URL. A failed declaration aborts initialisation with that error. A URL that passes
  every step joins the host pool. If the pool would be empty, initialisation fails with
  "no valid amqp server connection found".
- **Publishing** (`Event`). The event is marshalled to JSON once, and its exchange and routing key
  are expanded once. Then up to `RetryCount + 1` publishes are tried, each on a host taken from the
  pool, stopping at the first success. The result is nil on success, otherwise the last error.

The AMQP library and the host pool are replaced by oracles:

- **One outcome per URL.** `AmqpClients.UrlOutcome` is `DialFail`, `ChannelFail`,
  `DeclareFail(conn, err)` or `Ok(conn)`. The source writes the client entry before it declares
  the exchange, so `DeclareFail` also carries the recorded connection.
- **One draw per publish attempt.** `EventPublish.Draw` gives the host the pool hands out and the
  error returned by `Publish`. Every drawn host must be in the pool (`DrawsFromPool`).
- **Marshalling and templating are function parameters.** `marshal` can fail. `format` expands a
  template against the event. The event type is a type parameter.

Modules:

- `Wrappers`: `Option` and `Result`.
- `OutputAmqp`: the config struct, the errors, the defaults, the attempt budget, and `Ready`. `Ready` is
  the state `Event` needs: the pool is set and not empty, and every pool host has a client entry.
- `AmqpClients`: the start-up loop (`ScanFrom`), `InitAmqpClients`, and their properties.
- `EventPublish`: the retry loop (`Retry`), `Event`, and their properties.
- `RetryCounter`: the loop counter as a 64-bit Go `int` (see Findings).
- `OutputPlugin`: start-up and publishing together.

`InitAmqpClients` returns the updated config together with its error, as the Go method does: it
changes `o` in place and returns an `error`. On failure the client map may already hold entries,
and the host pool stays unset.

The model keeps these behaviours of the code as they are:

- **No feedback to the pool.** The code never calls `Mark` on the pool's response, so no
  success or failure feedback is modelled.
- **`persistent` is never used.** The flag is never passed to `Publish`. `PersistentIsIgnored`
  proves that `Event` does not depend on it.
- **No per-channel locking.** The code does nothing to serialise access to a channel.
- **Template versus expansion.** The exchange is declared with the raw `Exchange` setting
  (line 79), but messages are published to `event.Format(Exchange)` (line 111). The two differ
  when the setting is a template.

## Model

| member | source | states |
|---|---|---|
| `OutputAmqp.DefaultOutputConfig` | output/amqp/outputamqp.go:38-54 | The defaults: type "amqp", routing key "", exchange not durable, auto-delete on, not persistent, retry count 3 (four publish attempts). There are no URLs, the client map is empty, the pool is unset, so the config is not yet ready to publish. |
| `AmqpClients.OkIndices` | output/amqp/outputamqp.go:74-92 | Reference for the host list: the indices of URLs whose dial, channel and declaration all succeeded, strictly increasing, and containing every such index. |
| `AmqpClients.ScanFrom` | output/amqp/outputamqp.go:74-93 | The loop over the URLs itself. Its own contract: client entries are never removed, and at most one host is appended per URL. Its behaviour is stated by the `Scan…` lemmas below. |
| `AmqpClients.ScanAbortsIffDeclareFails` | output/amqp/outputamqp.go:74-93 | The loop over the URLs stops with an error exactly when some exchange declaration fails. Dial and channel failures never stop it. |
| `AmqpClients.ScanStopsAtFirstDeclareFail` | output/amqp/outputamqp.go:78-89 | The error that stops the loop is the error of the first failed declaration. |
| `AmqpClients.ScanIgnoresUrlsAfterAbort` | output/amqp/outputamqp.go:87-89 | URLs and outcomes after a failed declaration do not change the loop's result: no later URL is processed. |
| `AmqpClients.ScanKeepsHealthyOrder` | output/amqp/outputamqp.go:74-92 | With no failed declaration, the hosts appended are exactly the URLs that passed all three steps, in configured order. |
| `AmqpClients.ScanOnlyRecordsReachedUrls` | output/amqp/outputamqp.go:75-77 | Client entries are only added, only for URLs whose channel opened, and the entries of other URLs keep their values. |
| `AmqpClients.ScanHostsHaveClients` | output/amqp/outputamqp.go:77-90 | Every host the loop appends has a client entry, because the entry is written before the host is appended. |
| `AmqpClients.ScanMapsLastConnection` | output/amqp/outputamqp.go:77 | With no failed declaration, a healthy URL's entry is the connection of its last successful dial, since a repeated URL overwrites its entry. |
| `AmqpClients.InitAmqpClients` | output/amqp/outputamqp.go:71-101 | On success the config is ready to publish. On failure the host pool is left unset. Only the client map and the pool are written. |
| `AmqpClients.InitFailsOnFirstDeclareFail` | output/amqp/outputamqp.go:78-89 | A failed exchange declaration is returned as the error of the whole initialisation. |
| `AmqpClients.InitIgnoresUrlsAfterDeclareFail` | output/amqp/outputamqp.go:74-89 | After a failed declaration, the URLs that follow it do not affect the error, the client map or the pool. |
| `AmqpClients.InitFailsWithoutHealthyUrl` | output/amqp/outputamqp.go:95-97 | With no failed declaration and no URL passing all steps, the error is "no valid amqp server connection found". |
| `AmqpClients.InitSucceedsIff` | output/amqp/outputamqp.go:71-101 | Initialisation succeeds if and only if no declaration fails and at least one URL passes dial, channel and declaration. |
| `AmqpClients.InitPoolIsHealthyUrls` | output/amqp/outputamqp.go:74-99 | On success the pool is exactly the healthy URLs in configured order. Each healthy URL maps to the connection of its last successful dial. |
| `AmqpClients.InitOnlyRecordsReachedUrls` | output/amqp/outputamqp.go:75-77 | Initialisation removes no client entry and adds entries only for URLs whose channel opened. |
| `EventPublish.Retry` | output/amqp/outputamqp.go:114-131 | The publish loop makes at most `retryCount + 1` calls. Call k goes to the k-th drawn host, through that host's client, with the same message. The loop stops with nil right after the first success. If every call fails, it runs all iterations and returns the last error. |
| `EventPublish.Event` | output/amqp/outputamqp.go:104-131 | A marshal failure returns that error with zero publishes. Otherwise every call publishes the same expanded exchange and routing key, mandatory and immediate off, "application/json", and the marshalled bytes. There are at most `RetryCount + 1` calls, stopping at the first success. If all fail, the last call's error is returned. A negative retry count makes no call and returns nil. |
| `EventPublish.RetryNilIff` | output/amqp/outputamqp.go:114-131 | The loop ends with nil exactly when some remaining call succeeds, or when no iteration is left and the held error is nil. |
| `EventPublish.EventNilIff` | output/amqp/outputamqp.go:126-131 | Once marshalling succeeds, `Event` returns nil if and only if some publish within the budget succeeds or the retry count is negative. |
| `EventPublish.RetryDependsOnlyOnDrawsMade` | output/amqp/outputamqp.go:114-129 | Two environments that agree on the draws the loop consumed give the same result and the same calls. |
| `EventPublish.EventDependsOnlyOnDrawsMade` | output/amqp/outputamqp.go:114-129 | Draws after the first success, or beyond the budget, never influence `Event`. |
| `EventPublish.RetryReadsOnlyPublishSettings` | output/amqp/outputamqp.go:114-125 | Given its message, the loop reads only the retry count, the pool and the client map: configs agreeing on those three give the same delivery. |
| `EventPublish.PersistentIsIgnored` | output/amqp/outputamqp.go:116-124 | `Event` gives the same result whatever `persistent`, the exchange type, the declaration flags and the URLs are, because no delivery mode is passed to `Publish`. |
| `RetryCounter.Inc` | output/amqp/outputamqp.go:114 | Go's `i++` on a 64-bit `int`: the result stays in the 64-bit range and equals `i + 1` modulo 2^64 (two's complement), so the largest value wraps to the smallest. |
| `RetryCounter.AsWrittenIterations` | output/amqp/outputamqp.go:114 | The loop `for i := 0; i <= RetryCount; i++` as written with a 64-bit counter, when every publish fails. Its own contract: at most `fuel` iterations, none once the counter is past the count. Its behaviour is stated by `MaxRetryCountNeverExits` and `AsWrittenBelowMaxMakesBudget`. |
| `RetryCounter.MaxRetryCountNeverExits` | output/amqp/outputamqp.go:114 | As written, with retry count 9223372036854775807, the guard `i <= RetryCount` holds for every counter value. Within any number of steps the loop has not exited. |
| `RetryCounter.MaxRetryCountExceedsBudget` | output/amqp/outputamqp.go:114 | As written, with that retry count and every publish failing, the loop makes more than `RetryCount + 1` attempts. |
| `RetryCounter.AsWrittenBelowMaxMakesBudget` | output/amqp/outputamqp.go:114 | As written, for every retry count below the largest value (negative ones included), from counter `i` the loop runs `RetryCount + 1 - i` more iterations when all publishes fail, and none once `i` is past the count. |
| `RetryCounter.CorrectedIterations` | output/amqp/outputamqp.go:114 | The same loop with the counter kept from wrapping. Its own contract: at most `fuel` iterations, none past the count, exactly one at `i == RetryCount`. Its count is stated by `CorrectedCountsDown` and `CorrectedMakesBudget`. |
| `RetryCounter.CorrectedCountsDown` | output/amqp/outputamqp.go:114 | The corrected loop, which stops at `i == RetryCount` instead of incrementing past it, runs `RetryCount + 1 - i` more iterations from counter `i`. |
| `RetryCounter.CorrectedMakesBudget` | output/amqp/outputamqp.go:114 | For every 64-bit retry count, the corrected loop makes exactly the attempt budget that `EventPublish` uses. |
| `OutputPlugin.EventUsesDeclaredChannels` | output/amqp/outputamqp.go:77-116 | After a successful initialisation, every publish goes through the client recorded by the last successful dial of a healthy URL, the one on which the exchange was declared. |

## Left out

- Dialling, opening channels, `ExchangeDeclare` and `Publish` are network calls into the AMQP library. They appear only as abstract outcomes (`UrlOutcome`, `Draw`).
- The arguments of `ExchangeDeclare` (name, type, durable, auto-delete, internal and no-wait off) are not recorded. Only the declaration's outcome is modelled.
- The host pool library's selection weighting is not modelled. Each draw is an arbitrary member of the healthy host list. `Mark` is never called by the code, so there is no feedback.
- `persistent` is not modelled as a delivery mode, because the code never passes it to `Publish`.
- `MarshalJSON` and `event.Format` are uninterpreted function parameters. Marshalling may fail.
- `InitHandler`, `config.ReflectConfig`, JSON config decoding, logging and the unused event channel are not part of this model.
- Concurrent callers and channel thread safety are not modelled. The code has no synchronisation to model.
- Closing connections is not modelled. The code leaks a connection whose channel fails to open, and the connections of an aborted initialisation.
- EventPublish.Retry, EventPublish.Event: count attempts with unbounded integers, that is, the intended `RetryCount + 1`. The 64-bit wrap-around of the source's loop counter is modelled separately in `RetryCounter`.
- The comment on `RetryCount` (line 26) calls it the number of attempts, defaulting to 3, but the loop makes `RetryCount + 1` attempts (4 by default). The model follows the loop.
- EventPublish.Event: requires the environment to supply at least `RetryCount + 1` draws, one for every attempt the loop might make.

## Findings

| source | as written | input that shows it | evidently intended | confidence | as-written member | corrected member |
|---|---|---|---|---|---|---|
| output/amqp/outputamqp.go:114 | `for i := 0; i <= o.RetryCount; i++` with a 64-bit `int` counter: at `i == RetryCount == 9223372036854775807`, `i++` wraps to the smallest value, so the guard never fails | `retry_count` = 9223372036854775807 with every publish failing: the loop never ends | at most `RetryCount + 1` publish attempts, the bound the loop `i <= RetryCount` gives for every other value | not executed; needs that exact configured value on a 64-bit platform | `RetryCounter.MaxRetryCountExceedsBudget` | `RetryCounter.CorrectedMakesBudget` |
