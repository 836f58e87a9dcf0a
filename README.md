# aprs-agent in Dafny

A model of the sequential core of `aprs-agent`, a relay between an APRS-IS
server and local clients, with proofs about that model. The relay logs in to
an APRS-IS server and copies every line it reads to the local subscribers of
its downstream broadcast server. Extensions (a logger, a fixed-position
beacon, an e-mail gateway) sit behind an ordered registry that asks each of
them about a line and writes their answers back to the server.

The files:

- `wrappers.dfy`: `Option` and `Result`.
- `text.dfy`: the string operations the code relies on. These are
  upper/lower case (ASCII), decimal rendering and parsing, `split_once`,
  `join` and its inverse, `{:<9}` padding, and UTF-8 encoding.
- `sinks.dfy`: the write half of a socket. In this model `write_all`
  either writes the whole buffer or fails having written nothing. A failure
  point is given up front: that write and every later one fail.
- `packets.dfy`: the decoded APRS packet as the handlers read it.
- `extensions.dfy` (`src/extensions/mod.rs`): the `Registry` class, with
  `Register`, `Broadcast` (a loop over the handlers writing to a `Sink`) and
  `SetOwnWriters`. `Broadcast` is specified by the function `Dispatch`.
- `extension_server.dfy` (`src/extension_server.rs`):
  - the `ConStore` class over a map from address to mailbox;
  - the command parser and the reply formatter;
  - the connection task `Handler` and its loop `Session`, over timed
    events, specified by `Conversation`.
- `fixed_beacon.dfy` (`src/extensions/fixed_beacon.rs`): configuration checks, the position report, and the
  `Beacon` class with its writer and worker state.
- `logger.dfy` (`src/extensions/logger.rs`): the logger's decision, as a pure function.
- `smtp.dfy` (`src/extensions/smtp.rs`): the gateway's checks, the relay setting, the mail library's
  steps as inputs, and the acknowledgement.
- `upstream.dfy` (`src/aprs/mod.rs`): the login line, the read loop
  `Session`, and `start_server` as `StartServer` with its reconnect loop `Reconnect`.

The comments in `src/extensions/mod.rs` (lines 18-19 and 44) describe
extensions that write back to the APRS-IS server. The upstream loop in
`src/aprs/mod.rs` does not wire that up, and the model follows the loop:

- The upstream loop only broadcasts each line to the downstream store.
  - It never calls the registry's `broadcast`.
  - It never hands a back-channel to the extensions through `set_own_writers`.
  - It never writes anything after the login line.
- So the registry pipeline is modelled and proved on its own. Nothing in
  `upstream.dfy` feeds it.
- `FixedBeacon::set_own_writer` launches a worker whenever the running flag
  is down. The flag is raised by the worker itself once it runs
  (`WorkerBegins`), not by `start`. The model keeps that order and counts the
  workers launched.

## Model

| member | source | states |
|---|---|---|
| Extensions.Registry.constructor | src/extensions/mod.rs:32 | A new registry has no extensions. |
| Extensions.Registry.Register | src/extensions/mod.rs:35-43 | The extension is appended at the end. The earlier entries and their order are unchanged. |
| Extensions.RegisterAddsLast | src/extensions/mod.rs:35-43 | A newly registered extension's output comes after all earlier ones. |
| Extensions.Dispatch | src/extensions/mod.rs:45-84 | Dispatch reaches at most every handler. When no write fails, it reaches all of them. |
| Extensions.Registry.Broadcast | src/extensions/mod.rs:45-84 | The writer gets exactly `Dispatch`'s bytes, appended to what it held. The result is an error iff a write failed. `consulted` is the number of handlers reached. The writer's count of successful writes grows by `Dispatch`'s, and its remaining budget shrinks by as many. |
| Extensions.OfferAll | src/extensions/mod.rs:51-83 | The loop over the handlers writes `Dispatch`'s bytes, fails iff `Dispatch` does, reaches `Dispatch`'s handlers and makes `Dispatch`'s number of successful writes. |
| Extensions.Offer | src/extensions/mod.rs:52-79 | One handler's turn. It succeeds unless a contribution meets a writer that refuses it. Exactly the normalised contribution is written, and a failed write writes nothing. |
| Extensions.Normalise | src/extensions/mod.rs:57-74 | `None` or an empty response writes nothing. Otherwise the response is kept as a prefix and ends in `\n`. It grows by one byte exactly when it did not already end in `\n`. |
| Extensions.Contribution | src/extensions/mod.rs:52-74 | A spawnable handler contributes nothing, whatever it answers. `Normalise` states what the others contribute. |
| Extensions.Responses | src/extensions/mod.rs:51-79 | There is at most one buffer per handler, and no buffer is empty. `DispatchSucceeds` and `DispatchFails` tie these buffers to what `broadcast` writes. |
| Extensions.NormaliseIdempotent | src/extensions/mod.rs:66-74 | Normalising twice is normalising once. |
| Extensions.SpawnableWritesNothing | src/extensions/mod.rs:52-56 | Inserting a spawnable handler anywhere does not change the bytes written. |
| Extensions.SilentHandlerWritesNothing | src/extensions/mod.rs:51-79 | A handler that contributes nothing for a line can be inserted anywhere without changing the bytes written for that line. |
| Extensions.DispatchSucceeds | src/extensions/mod.rs:51-83 | If the writer accepts every response, the bytes written are the concatenation of the normalised responses of the non-spawnable handlers, in order. There is no failure, every handler is reached, one write succeeds per response, and an empty registry gives `Ok`. |
| Extensions.DispatchFails | src/extensions/mod.rs:75-78 | With a writer that accepts only `k` of the responses, exactly the first `k` are written, by `k` successful writes. Dispatch fails at the handler owning response `k+1`, and later handlers are never reached. |
| Extensions.ResponsesAppend | src/extensions/mod.rs:51 | The responses to a line are gathered handler by handler, in registration order. |
| Extensions.SetOwnWriter | src/extensions/mod.rs:20 | Binding a sender keeps a handler's name, spawnability and responses. The trait default ignores the sender, and a keeping handler holds that sender afterwards. |
| Extensions.DefaultsAreInert | src/extensions/mod.rs:15-20 | A handler with the trait defaults is not spawnable, and `set_own_writer` leaves it unchanged. |
| Extensions.BindAll | src/extensions/mod.rs:85-93 | Binding a sender to every handler keeps the number of handlers. |
| Extensions.BindAllKeepsHandlers | src/extensions/mod.rs:85-93 | Every keeping handler holds the same sender, and the others are unchanged. The responses to any line are unchanged. |
| Extensions.Registry.SetOwnWriters | src/extensions/mod.rs:85-93 | The loop leaves the registry equal to `BindAll` of the old one. |
| ExtensionServer.ConStore.constructor | src/extension_server.rs:14-17 | A new store, as `ConStore::default()` makes it, holds no mailbox. |
| ExtensionServer.ConStore.Add | src/extension_server.rs:19-22 | The store maps the address key to the given mailbox. Every other entry is unchanged. |
| ExtensionServer.ConStore.Remove | src/extension_server.rs:23-25 | Exactly that key is removed. |
| ExtensionServer.AddrKey | src/extension_server.rs:19-24 | The store key of an address, its `host:port` text. It has no contract of its own: `ConStore.Add`, `ConStore.Remove` and `ConnectionLifetime` state the store's behaviour under this key. |
| ExtensionServer.ConStore.Broadcast | src/extension_server.rs:26-31 | The loop visits the keys in any order. The result is `Delivered`: one copy to every open mailbox, and closed ones unchanged. |
| ExtensionServer.Deliver | src/extension_server.rs:29 | One send to one mailbox, whose failure is ignored. It has no contract of its own: `Delivered` and `DeliveredAllSpec` state that an open mailbox gets the message appended and a closed one is unchanged. |
| ExtensionServer.Delivered | src/extension_server.rs:26-31 | A broadcast adds and removes no entry. |
| ExtensionServer.DeliveredAll | src/extension_server.rs:26-31 | A series of broadcasts adds and removes no subscriber. `DeliveredAllSpec` states each mailbox's contents. |
| ExtensionServer.DeliveredAllSpec | src/extension_server.rs:26-31 | After a series of broadcasts, each open mailbox has all the messages appended in order. A closed one is unchanged and the set of keys is the same. |
| ExtensionServer.SubscriberIsolated | src/extension_server.rs:26-31 | A mailbox under a key of its own receives every broadcast in order, or nothing once closed. Every other entry ends exactly as it would without that mailbox. |
| ExtensionServer.ConnectionLifetime | src/extension_server.rs:19-31 | Over a connection's life, `handler` adds its mailbox at line 77 and removes it at line 105. While the mailbox is there it receives every broadcast in order. The other entries receive exactly what they would without it, except that an earlier mailbox under the same address is replaced. |
| ExtensionServer.ParseClientCmd | src/extension_server.rs:114-122 | Parsing succeeds exactly on `ping`. Any other input gives `InvalidCmd` carrying that input. |
| ExtensionServer.ClientCmdRoundTrip | src/extension_server.rs:114-122 | The command's text parses back to the command. |
| ExtensionServer.FormatServerCmd | src/extension_server.rs:128-135 | The text of `pong <now>` and of `data <m>`. It has no contract of its own: `ServerCmdRoundTrip` proves a client reads each back. |
| ExtensionServer.React | src/extension_server.rs:49-103 | What one client line or mailbox message does. It has no contract of its own: `StopReasons` states every stop with its reason, and `FramesAreWellFormed` the shape of every reply. |
| ExtensionServer.Turn | src/extension_server.rs:81-103 | One pass of the loop: the 10 s timer, then `React`, then the write. It has no contract of its own: `StopReasons`, `ReplyStep` and `StopStep` state what it does. |
| ExtensionServer.Conversation | src/extension_server.rs:81-104 | A session writes at most one frame per event. `KeptAlive`, `PingsKeepAlive`, `MailboxOrder` and `WritesWithinBudget` state which frames and why it ends. |
| ExtensionServer.ServerCmdRoundTrip | src/extension_server.rs:128-135 | A client reads `pong <t>` back as the time `t` and `data <m>` back as exactly `m`. |
| ExtensionServer.Handler | src/extension_server.rs:74-107 | The session writes exactly `Conversation`'s frames and ends for `Conversation`'s reason. Whatever the reason, its address is absent from the store afterwards. |
| ExtensionServer.Session | src/extension_server.rs:81-104 | The loop writes exactly `Conversation`'s frames, in order, and returns `Conversation`'s reason for ending. |
| ExtensionServer.Serve | src/extension_server.rs:82-103 | One pass of the loop reacts as `Turn` says. A reply is written in full and uses up one write. A stop writes nothing. |
| ExtensionServer.ReplyStep | src/extension_server.rs:86-94 | An answered event's frame is the next one in the session's output, and the rest of the session goes on from that event's time. |
| ExtensionServer.StopStep | src/extension_server.rs:84-101 | An event that stops the session adds nothing to what was written. |
| ExtensionServer.FramesAreWellFormed | src/extension_server.rs:86-92 | Every frame a session writes ends in `\n`, and its text before that `\n` is a well-formed pong or data frame. |
| ExtensionServer.StopReasons | src/extension_server.rs:49-101 | Each way the first event can end a session, with its reason: idle timeout, read error, end of stream, empty line, unknown command, closed mailbox, failed write. The session ends at its first event with nothing written exactly when that event is not answered. |
| ExtensionServer.KeptAlive | src/extension_server.rs:81-103 | Events less than 10 s apart that do not end the session are each answered in turn. The session then ends only by the idle timeout. |
| ExtensionServer.PingsKeepAlive | src/extension_server.rs:84-88 | A client pinging within every 10 s stays connected. It gets one `pong <time>` per ping, readable back as that time. |
| ExtensionServer.MailboxOrder | src/extension_server.rs:90-94 | Mailbox messages become `data` frames, one each, in mailbox order. |
| ExtensionServer.BadLineEndsSession | src/extension_server.rs:49-72 | An empty line or a line other than `ping` ends the session at once, with nothing written. |
| ExtensionServer.WritesWithinBudget | src/extension_server.rs:86-94 | A session never writes more than the socket accepts. When the socket gives out first, the session ends with a write failure. |
| FixedBeacon.Validate | src/extensions/fixed_beacon.rs:33-51 | A config is accepted iff all of these hold: it is enabled; the ssid is at most 9 bytes, the latitude at most 8 and the longitude at most 9; the latitude ends in N or S; the longitude ends in E or W. "Not enabled" is reported exactly when that is the case. |
| FixedBeacon.AsciiValidation | src/extensions/fixed_beacon.rs:37-45 | For ASCII fields the byte limits are character limits. |
| FixedBeacon.DefaultsValidOnceEnabled | src/extensions/fixed_beacon.rs:12-28 | The default config is disabled. Once enabled, it passes every check. |
| FixedBeacon.ShortLatitudeAccepted | src/extensions/fixed_beacon.rs:40-48 | The checks are upper bounds only. A 3-character latitude is accepted. |
| FixedBeacon.PositionPacket | src/extensions/fixed_beacon.rs:81-89 | The position report. It has no contract of its own: `PositionRoundTrip` and `PacketIsOneLine` state what a receiver reads from it. |
| FixedBeacon.PositionRoundTrip | src/extensions/fixed_beacon.rs:81-89 | A report with an 8-character latitude and a 9-character longitude reads back as the upper-cased ssid and the configured fields. |
| FixedBeacon.PacketIsOneLine | src/extensions/fixed_beacon.rs:81-90 | The bytes sent end with `\n`, and there is no other newline when the fields have none. |
| FixedBeacon.Beacon.New | src/extensions/fixed_beacon.rs:33-57 | Creation succeeds iff `Validate` accepts, and reports `Validate`'s error otherwise. A new beacon has no writer, no running worker and no worker launched. |
| FixedBeacon.Beacon.SetOwnWriter | src/extensions/fixed_beacon.rs:109-115 | The writer is replaced. A worker is launched exactly when none has reported running. |
| FixedBeacon.Beacon.Start | src/extensions/fixed_beacon.rs:58-61 | One more worker is launched and nothing else changes. |
| FixedBeacon.Beacon.WorkerBegins | src/extensions/fixed_beacon.rs:58-62 | The running flag is raised by a worker that `Start` has spawned. |
| FixedBeacon.Beacon.Send | src/extensions/fixed_beacon.rs:71-92 | Without a writer: success, nothing emitted. With an open channel: exactly the UTF-8 bytes of the position report. With a closed channel: an error. |
| FixedBeacon.BeaconIsSilent | src/extensions/fixed_beacon.rs:106-115 | `handle` contributes nothing to a dispatch. In the registry's view of the beacon, binding a writer replaces the writer it keeps. |
| FixedBeacon.BeaconAddsNothing | src/extensions/fixed_beacon.rs:106-108 | Registering the beacon never changes what a dispatch writes. |
| Logger.AnyKeyword | src/extensions/logger.rs:43-48 | True iff some lower-cased keyword is a substring of the lower-cased line. |
| Logger.Decide | src/extensions/logger.rs:30-75 | The print decision, rule by rule:<br>• A comment line with `log_comments` is logged.<br>• Otherwise an undecodable line is an error.<br>• With keywords, the line is logged iff a keyword matches, and there is never a warning.<br>• Otherwise it is logged iff the include list is empty or holds the type, and the exclude list does not. A warning is issued iff the type is in a non-empty include list and in the exclude list. |
| Logger.DefaultDecision | src/extensions/logger.rs:7-18 | Under the defaults (enabled, comments on, no exclusions or keywords), comments and the 27 listed types are logged and nothing else. |
| Logger.KeywordsOverrideTypes | src/extensions/logger.rs:43-52 | When keywords are set, the type lists do not affect the decision. |
| Logger.LoggerAddsNothing | src/extensions/logger.rs:27-29 | The logger is spawnable, so registering it never changes what a dispatch writes. |
| Smtp.New | src/extensions/smtp.rs:30-35 | Creation succeeds iff there is at least one allowed sender and one allowed recipient. |
| Smtp.DefaultsAccepted | src/extensions/smtp.rs:11-26 | The default config can be created. |
| Smtp.AnyMatch | src/extensions/smtp.rs:51-57 | True iff some list entry equals the value once both are upper-cased. |
| Smtp.Admit | src/extensions/smtp.rs:44-90 | The gate chain passes iff all of these hold:<br>• the packet decodes, has type `:` and has a destination;<br>• the sender's call matches an allowed sender, ignoring case;<br>• the payload is a message whose addressee matches an allowed recipient, ignoring case;<br>• the text has a space;<br>• the e-mail list is empty or matches.<br>When it passes, the e-mail is the text before the first space and the content is the rest. |
| Smtp.BodySplit | src/extensions/smtp.rs:80-81 | The split is the unique one at the first space. |
| Smtp.SplitServer | src/extensions/smtp.rs:114-119 | The setting splits iff it has a `:`. The host holds no `:` and rejoins with the port to give the setting. |
| Smtp.ParsePort | src/extensions/smtp.rs:126-130 | After an optional leading `+`, a digit string is accepted exactly when its value is below 65536, and the port is that value. Leading zeros are allowed, so `025` is 25. |
| Smtp.PortRoundTrip | src/extensions/smtp.rs:125-131 | Every port below 65536, with or without `+`, parses to itself. A larger number is refused. |
| Smtp.DefaultServer | src/extensions/smtp.rs:13-14 | The default setting splits into `smtp.example.com` and `25`. |
| Smtp.PathText | src/extensions/smtp.rs:141-149 | The path, each hop as text, joined by `,`. It has no contract of its own: `AckRoundTrip` reads it back. |
| Smtp.AckMessage | src/extensions/smtp.rs:151 | The message part of the ack. It has no contract of its own: `AckRoundTrip` and `AckLineShape` state its fields and its shape. |
| Smtp.AckLine | src/extensions/smtp.rs:141-151 | The ack line. It has no contract of its own: `AckRoundTrip` and `AckLineShape` state its fields and its shape. |
| Smtp.AckRoundTrip | src/extensions/smtp.rs:151 | The sender sits in a field exactly 9 characters wide. A reader recovers the sender and the message id from the ack. |
| Smtp.AckLineShape | src/extensions/smtp.rs:141-151 | The ack line ends with that message part and a single `\n`. |
| Smtp.Handle | src/extensions/smtp.rs:43-152 | A rejected gate is reported as is. A mail is sent iff the gate passes and each step succeeds: from address, receiver address, build, server split, relay, port, send. The mail carries the e-mail, the content, the host and the port. An ack is produced iff a mail was sent and the message had an id, and it is the UTF-8 of the ack line. |
| Smtp.AckWrittenUnchanged | src/extensions/smtp.rs:151 | The registry writes the ack exactly as built. |
| Upstream.LoginLine | src/aprs/mod.rs:17-25 | The login line. It has no contract of its own: `LoginRoundTrip` reads it back. |
| Upstream.Credentials | src/aprs/mod.rs:19-22 | The text after the callsign. It has no contract of its own: `CredentialsRoundTrip` reads it back. |
| Upstream.LoginRoundTrip | src/aprs/mod.rs:17-25 | The login line reads back as the callsign, the passcode and the allowed callsigns. |
| Upstream.CredentialsRoundTrip | src/aprs/mod.rs:19-22 | The passcode and the `b/` filter read back exactly. |
| Upstream.EmptyAllowList | src/aprs/mod.rs:19-23 | With no allowed callsigns the join is empty, so the line ends with `filter b/` and nothing after it. |
| Upstream.Relayed | src/aprs/mod.rs:31-40 | The relayed lines are exactly the longest run of successful reads at the start. |
| Upstream.RelayedUnique | src/aprs/mod.rs:31-40 | That run is unique. |
| Upstream.Session | src/aprs/mod.rs:31-40 | The store ends as if each relayed line had been broadcast in order, and nothing else. |
| Upstream.SessionReachesEverySubscriber | src/aprs/mod.rs:39 | Every open subscriber receives the session's lines verbatim and in read order. |
| Upstream.RunOf | src/aprs/mod.rs:12-43 | The reconnect loop over the given connections runs at most one session per connection. `ReconnectsUntilFatal` states the rest. |
| Upstream.ReconnectsUntilFatal | src/aprs/mod.rs:12-43 | A finished session is followed by a reconnect. The loop stops only on a failed connect or login write, which is never retried. Without one, every connection runs a session. Every attempt before the failing one connected and logged in. The relayed lines are those of these sessions, one session after the other. The number of completed sessions is the index of the failing attempt.
| Upstream.RunStops | src/aprs/mod.rs:13-27 | A failed connect or login ends the loop with that error and with what earlier sessions relayed. |
| Upstream.RunAt | src/aprs/mod.rs:12-43 | If the first `i` connections connected and logged in, and the loop ends at `i` because the connections ran out or connection `i` failed, then the run relayed those `i` sessions' lines and panics exactly when connection `i` failed, naming what failed. |
| Upstream.Reconnect | src/aprs/mod.rs:12-42 | The loop stops at the first connection whose connect or login write fails, and panics naming which one. Every connection before it connected and logged in. Without a failure, every connection ran a session. The store receives those sessions' lines, session after session, and one login line and one pause are counted per session. |
| Upstream.StartServer | src/aprs/mod.rs:11-43 | Over the given connections, the store receives the lines of every session, session after session, in order. Every connection before a fatal error connected and logged in. Without a fatal error every connection ran a session. On a fatal error, the attempt after the last session is the failing one, and the error says whether connect or login failed. There is one login line and one 1 s pause per session. |
| Text.SplitOnceAt | src/extensions/smtp.rs:81 | `split_once` cuts at the first separator. |
| Text.SplitJoin | src/aprs/mod.rs:22 | Splitting a `/`-join gives back the parts. |
| Text.NatRoundTrip | src/extension_server.rs:131 | A decimal number reads back as itself. |
| Text.IntRoundTrip | src/aprs/mod.rs:16-21 | A signed decimal number reads back as itself. |
| Text.Contains | src/extensions/logger.rs:47 | True iff the pattern occurs in the string. |
| Text.PadRight | src/extensions/smtp.rs:151 | `{:<w}` keeps the text as a prefix and fills with spaces up to `w`. |
| Text.Utf8Ends | src/extensions/mod.rs:66-74 | The encoded bytes end in `\n` exactly when the text does. |
| Sinks.Sink.WriteAll | src/extensions/mod.rs:75 | A write succeeds iff the budget is not used up. A successful write appends the whole buffer and spends one unit of budget; a failed one changes nothing. |

## Left out

- Case mapping: `Upper`/`Lower` map ASCII letters only. Rust's Unicode case mapping is not modelled.
- Async scheduling:
  - `tokio::spawn`, `select!`, the locks and the channels are modelled sequentially.
  - A spawned handler's own work is not modelled. Only the fact that dispatch ignores it is kept.
  - A `select!` between branches that are ready together is resolved by the order of the given events.
- Time comes from the event times:
  - The session's 10 s sleep is the `at` field of each event. An event exactly 10 s after the previous one counts as a timeout.
  - `now_unix`, which is not part of this model, is the time of the event being answered.
- External code is replaced by inputs:
  - `aprs_parser` decoding is the `Option<Packet>` input.
  - `lettre` is the five `Mailer` inputs: whether the from address parses, whether the receiver address parses, whether the message builds, whether the relay host is accepted, and whether sending succeeds. Setting the date, the subject and the credentials cannot fail, so they have no input.
  - `callpass` is the `passcode` parameter.
- ExtensionServer.Handler: the mailbox messages a session receives are events. They are not tied to the queue the store holds for it.
- Sinks.Sink.WriteAll: a failed write is modelled as writing nothing. This also holds for `Extensions.Offer` and `Extensions.OfferAll`. The real `write_all` may already have sent a prefix of the buffer when it fails.
- Extensions.Offer: a failed write adds nothing to the bytes written, as in `Sinks.Sink.WriteAll`. The real writer may hold a prefix of the failed response.
- Extensions.OfferAll: a failed write adds nothing to the bytes written, as in `Sinks.Sink.WriteAll`. The real writer may hold a prefix of the failed response.
- Extensions.Registry.Broadcast: a failed write adds nothing to the bytes written, as in `Sinks.Sink.WriteAll`. The real writer may hold a prefix of the failed response.
- ExtensionServer.Serve: a stop on a failed write is modelled as writing nothing. The real `write_all` may already have sent a prefix of the frame.
- FixedBeacon.BeaconIsSilent: the registry's view of the beacon only keeps the writer. Launching the worker when none is running is modelled by `FixedBeacon.Beacon.SetOwnWriter`, and the two are not tied together: `Extensions.Registry.SetOwnWriters` launches no worker.
- FixedBeacon.Beacon.New: the source panics on a bad configuration. The model returns the reason as an `Err` instead.
- Smtp.New: the source panics when an allow-list is empty. The model returns `Err` instead.
- ExtensionServer.PingsKeepAlive: event times are not required to increase. The source reads the wall clock, which can go backwards, so pong times are not promised to increase either.
- Logging:
  - The `eprintln!` output is kept only as an outcome tag (`Logger.Outcome`, `Smtp.Stop`).
  - The dispatch pipeline's echo of each response is not modelled.
- `Logger::handle` returns `Option<String>` where the trait wants `Option<Vec<u8>>`. It is modelled as answering nothing.
- The beacon's worker loop, which sends and sleeps `beacon_interval_mins`, is only modelled through `Beacon.Start`, `WorkerBegins` and `Send`. Its read of the global config is the beacon's own `cfg`.
- Smtp.Admit: the source checks the recipient twice in a row. The model checks once, because the second check cannot change the outcome.
- Upstream.StartServer: it runs over a finite list of connections and returns when they run out. The real loop never ends.
- Upstream.Session: it ends when the given reads run out. A real session would block there.
- Not modelled:
  - `extension_server::start`, with its bind and accept loop;
  - `src/main.rs`, `src/flags.rs`, `src/config.rs` (including `register_extensions` and the `enabled` switches);
  - `src/extensions/twitter.rs`;
  - `src/error.rs` beyond `InvalidCmd`.
