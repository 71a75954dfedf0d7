# NimbusSentinel session core and access analysis, in Dafny

NimbusSentinel is a websocket gateway to an OpenStack-style cloud. A client
connects, receives a prompt, sends one credential frame
`"<username>,<password>,<project id>"`, and (once the identity service accepts
it) sends command frames: `lsimage` lists the images, `createInstance` lists
the flavours and the networks. Every connection and every login outcome goes
to an audit log. Separately, an offline analysis counts how often each client
IP used each service in a parsed access log, and produces one row per
(user, service) pair.

This project models both and proves what they promise:

- `seqs.dfy` (module `Seqs`): occurrence counts, first-appearance
  de-duplication, first indices, and sums of counts. These are the facts that
  Python dict insertion order and counting rest on.
- `text.dfy` (module `Text`): Python's `str.split(sep)` and `sep.join(parts)`
  on `seq<char>`, their two round trips, and the decimal rendering of a port
  number.
- `server.dfy` (module `Server`): `handleClientRequest`, `listImages`,
  `createInstance` and `logger` from `SERVER/bigserver.py`.
  - The websocket is a class `Channel`. Its incoming frames are fixed when the
    peer connects; running out of them is the peer closing. Its outgoing frames
    accumulate in `sent`.
  - The handler's own log entries are a class `AuditLog`.
  - One ghost `Timeline` object, shared by the channel and the audit log,
    records every send, read, closed read and log entry in the order they
    happen.
  - The methods are proved against two functions. `Converse` gives the
    session's frames sent, log entries, frames read and ending, for a peer
    that sends a given sequence of frames and then closes. `SessionEvents`
    gives the same session as one interleaved trace. The `Converse…`,
    `Serve…` and `TurnCycle` lemmas state what that session is and in which
    order its steps happen.
- `analysis.dfy` (module `AccessAnalysis`): `track_user_access` from
  `analysis.py`.
  - A Python dict is `Dict(keys, entries)`, its keys in insertion order.
  - The counting loop is proved equal to the fold `Count`. The flattening loops
    are proved equal to `Flattened`.
  - The result is proved equal to `AccessRows`, a definition that does not
    mention dictionaries: users in order of their first record, each user's
    services in order of their first record from that IP, and each count being
    the number of matching records.
  - Lemmas then prove what those rows mean: exactly the pairs that occur, the
    right counts, ordering, uniqueness, and counts summing to the number of
    records.

The cloud services are parameters:

- `authenticate` stands for `authenticateClient` (bigserver.py:42-66), the
  boolean part of its result.
- `facade(k)` is the `Catalog` that the image, flavour and network listings
  (bigserver.py:74, 87, 96) return while the k-th command frame after login is
  served.

## Where the code behaves differently from what one might expect

- One might expect a disconnect to be logged. The code only prints
  "CLIENT DISCONNECTED" (bigserver.py:168-169), so no log entry is written
  for it.
- One might expect a malformed credential frame to be answered. The code
  unpacks `authInfo.split(",")` into three names with no handler for the
  `ValueError` a wrong field count raises (bigserver.py:150). The session
  ends there, after the prompt, with the connection entry as the handler's
  only log entry: `Ending.UnpackError`.
- One might expect a listing of N resources to be a frame of N lines. The
  entries are joined with no escaping (bigserver.py:78, 109, 114), so an id
  or name that holds a line break makes the frame hold more lines than there
  are resources (`ListingExtraLine`).
- One might expect a failing listing to be caught. Only the rendering and
  sending of the two `createInstance` listings are inside `try`
  (bigserver.py:108-118). An exception from a listing call itself ends the
  session.

## Model

| member | source | states |
|---|---|---|
| Text.Split | SERVER/bigserver.py:150 | `str.split(',')` yields one more piece than there are commas |
| Text.SplitPiecesFree | SERVER/bigserver.py:150 | no piece of a split contains the separator |
| Text.JoinSplit | SERVER/bigserver.py:150 | joining the pieces of a split gives back the original frame |
| Text.Join | SERVER/bigserver.py:78 | `"\n".join(...)` of lines that hold no newline holds one newline fewer than there are lines; `JoinSplit` and `SplitJoin` make it the inverse of `Split` |
| Text.SplitJoin | SERVER/bigserver.py:78 | splitting a newline-joined listing gives back its lines, when no line holds a newline |
| Text.Decimal | SERVER/bigserver.py:38 | the port is rendered as a non-empty run of decimal digits with no leading zero |
| Text.DecimalRoundTrip | SERVER/bigserver.py:38 | reading the rendered port's digits back gives the port number |
| Server.Entry | SERVER/bigserver.py:78 | one resource's line `"<id> : <name>"`; `ListingLines` proves a listing is made of exactly these lines when no id or name holds a line break |
| Server.Entries | SERVER/bigserver.py:78 | one `"<id> : <name>"` line per resource, in listing order |
| Server.Listing | SERVER/bigserver.py:109 | a listing frame: the resources' lines joined by newlines; its meaning is stated by `ListingLines` |
| Server.ListingLines | SERVER/bigserver.py:78 | a listing frame splits into exactly the resources' lines, in listing order, when no id or name holds a line break |
| Server.ListingExtraLine | SERVER/bigserver.py:78 | one image whose name holds a line break gives a listing frame of two lines: the listing is not one line per resource in general |
| Server.ImagesReply | SERVER/bigserver.py:74-79 | exactly one frame: the no-images sentinel when the list is empty, otherwise the listing |
| Server.CreateInstanceReply | SERVER/bigserver.py:105-132 | both listings, flavours first, when both lists are non-empty; otherwise exactly one missing-message per empty list, the flavour message first, and no message for a non-empty list |
| Server.Dispatch | SERVER/bigserver.py:159-162 | one turn's reply: the image reply for `lsimage`, the instance reply for `createInstance`, nothing otherwise; its properties are `UnknownCommandIgnored` and `ServeStep` |
| Server.Serve | SERVER/bigserver.py:157-162 | the frames the command loop sends for a sequence of command frames; its properties are the `Serve…` lemmas and `RepeatedListing` |
| Server.ServeStep | SERVER/bigserver.py:157-162 | each turn's reply depends only on that turn's frame and that turn's listings |
| Server.ServePrefix | SERVER/bigserver.py:157-162 | more command frames only add outbound frames at the end |
| Server.UnknownCommandIgnored | SERVER/bigserver.py:159-162 | a frame that is neither command adds nothing to what is sent |
| Server.ServeUnknown | SERVER/bigserver.py:157-162 | a session of only unknown frames sends nothing |
| Server.RepeatedListing | SERVER/bigserver.py:159-160 | at any turn k, two consecutive `lsimage` frames against an unchanged image list add the same one-frame reply twice to what was sent before turn k |
| Server.ServeEvents | SERVER/bigserver.py:157-162 | the trace of the command loop: per command frame, its read followed by the sends of its reply; its properties are `ServeEventsProject`, `ServeEventsPrefix` and `TurnCycle` |
| Server.ServeEventsProject | SERVER/bigserver.py:157-162 | the command loop's trace sends exactly what `Serve` describes, reads exactly the command frames in order, and logs nothing |
| Server.ServeEventsPrefix | SERVER/bigserver.py:157-162 | more command frames only add events at the end of the loop's trace |
| Server.TurnCycle | SERVER/bigserver.py:157-162 | each turn is one receive, process, send cycle: the trace of the first k + 1 turns is the trace of the first k turns, then the read of frame k, then that frame's whole reply, and it begins the loop's trace with exactly k + 1 reads |
| Server.Accepted | SERVER/bigserver.py:150-152 | the login guard: the credential frame unpacks into three fields and the identity service accepts them |
| Server.ParseCredentials | SERVER/bigserver.py:150 | the credential frame unpacks exactly when it has two commas |
| Server.ParseCredentialsRoundTrip | SERVER/bigserver.py:150 | a frame built as `username,password,project` from comma-free fields unpacks to those fields |
| Server.ParseCredentialsFields | SERVER/bigserver.py:150 | unpacked fields are comma-free, and re-joining them gives back the frame |
| Server.Address | SERVER/bigserver.py:38 | the `{ip}:{port}` rendering shared by the three log messages, the port in decimal (`Decimal`, `DecimalRoundTrip`) |
| Server.ConnectionEntry | SERVER/bigserver.py:38 | the connection message `CONNECTION FROM <ip>:<port>`; `LogEntriesDistinct` tells it apart from both login messages |
| Server.LoginSuccessEntry | SERVER/bigserver.py:156 | the login-success message `LOGIN SUCCESS FOR <ip>:<port>` |
| Server.LoginFailedEntry | SERVER/bigserver.py:166 | the login-failure message `LOGIN FAILED FOR <ip>:<port>` |
| Server.LogEntriesDistinct | SERVER/bigserver.py:38 | a connection entry, a login-success entry and a login-failure entry never coincide, whatever the addresses |
| Server.SessionEvents | SERVER/bigserver.py:141-169 | the session as one trace of sends, reads, closed reads and log entries, in the order the handler performs them; its properties are `ConversePromptFirst`, `ConverseCommandsAfterLogin` and `ConverseProjections` |
| Server.Converse | SERVER/bigserver.py:137-169 | the session a peer that sends given frames and then closes receives; never more frames read than sent; its properties are the `Converse…` lemmas |
| Server.ConversePrompt | SERVER/bigserver.py:148-149 | the prompt is always the first frame sent; a peer that closes before sending credentials gets only the prompt, and its trace is connection entry, prompt, closed read |
| Server.ConverseMalformed | SERVER/bigserver.py:149-150 | a credential frame without exactly two commas ends the session after the prompt, with the connection entry as the handler's only log entry and one frame read |
| Server.ConverseRejected | SERVER/bigserver.py:163-166 | a rejected login sends exactly prompt, "error", failure frame; logs connection then login failure; reads no frame after the credentials; in that order |
| Server.ConverseAccepted | SERVER/bigserver.py:152-162 | an accepted login sends prompt, "success", completion frame, and then the replies to every later frame; logs connection then login success; reads every frame; its trace is the six handshake events followed by the loop's trace and the closed read |
| Server.ConverseUnauthenticated | SERVER/bigserver.py:147-166 | without an accepted login, no command is dispatched: at most three frames go out, at most one is read, and later frames make no difference |
| Server.ConverseLog | SERVER/bigserver.py:141-166 | the handler's log entries are the one connection entry first, then a login entry exactly when the credentials unpacked: success if accepted, failure otherwise |
| Server.ConverseProjections | SERVER/bigserver.py:137-169 | the session's trace sends exactly the frames sent, logs exactly the entries logged, and reads exactly the frames consumed |
| Server.ConversePromptFirst | SERVER/bigserver.py:141-149 | the trace opens with the connection entry and the prompt, then the credential read; no read happens before the prompt is sent |
| Server.ConverseCommandsAfterLogin | SERVER/bigserver.py:152-158 | every read after the credential frame belongs to an accepted session and comes after "success", the completion frame and the login entry |
| Server.ConversePrefix | SERVER/bigserver.py:147-162 | when the peer sends more frames before closing, what was sent and logged can only grow at the end |
| Server.Timeline.constructor | SERVER/bigserver.py:137 | a session starts with an empty trace |
| Server.Channel.constructor | SERVER/bigserver.py:137 | a new websocket holds the peer's frames, has sent nothing, and records into the given trace |
| Server.Channel.Send | SERVER/bigserver.py:148 | a send appends one frame to the outgoing frames and one send event to the trace |
| Server.Channel.Recv | SERVER/bigserver.py:149 | a receive takes the next incoming frame and records its read, or reports and records a closed peer when there is none |
| Server.AuditLog.constructor | SERVER/bigserver.py:26 | a new log of the handler's entries is empty and records into the given trace |
| Server.AuditLog.Append | SERVER/bigserver.py:156 | a log call appends one message to the log and one log event to the trace |
| Server.Logger | SERVER/bigserver.py:37-38 | appends exactly the connection entry for the address |
| Server.ListImages | SERVER/bigserver.py:70-79 | sends exactly the frames of `ImagesReply` and reads nothing |
| Server.CreateInstance | SERVER/bigserver.py:101-132 | sends exactly the frames of `CreateInstanceReply` and reads nothing |
| Server.HandleRequest | SERVER/bigserver.py:159-162 | one turn sends exactly the reply its frame calls for |
| Server.CommandLoop | SERVER/bigserver.py:157-162 | serves every incoming frame in order, each against its turn's listings, until the peer closes; its trace is exactly `ServeEvents` then the closed read |
| Server.Greet | SERVER/bigserver.py:141-149 | logs the connection, sends the prompt, then reads the credential frame or finds the peer closed, in that order |
| Server.Acknowledge | SERVER/bigserver.py:154-156 | sends "success" and the completion frame, then logs the login success |
| Server.Admit | SERVER/bigserver.py:153-162 | the acknowledgement, then the command loop over every remaining frame |
| Server.Refuse | SERVER/bigserver.py:164-166 | sends "error" and the failure frame, then logs the login failure, and reads nothing |
| Server.HandleClientRequest | SERVER/bigserver.py:137-169 | the frames sent, the entries logged, the frames consumed and the ending are exactly those of `Converse`, and the trace of sends, reads and log entries is exactly `SessionEvents` |
| AccessAnalysis.Dict.Put | analysis.py:39 | `d[k] = v`: k maps to v, every other key keeps its value, existing keys keep their order and a new key is appended last |
| AccessAnalysis.Lookup | analysis.py:39 | the defaultdict read `access_tracker[ip][service]`: the stored count, or zero for a pair never counted; `CountRecord` and `CountLookup` are stated through it |
| AccessAnalysis.CountRecord | analysis.py:37-39 | counting one record raises that (IP, service) pair's defaultdict count by one and leaves every other pair's count unchanged |
| AccessAnalysis.Count | analysis.py:33-39 | the nested dictionary after counting the records in order; its meaning is stated by `CountLookup` and `CountUser` to `CountValue` |
| AccessAnalysis.CountLookup | analysis.py:33-39 | read through the defaultdicts, the counted dictionary gives each (IP, service) pair its number of records, zero for a pair never seen |
| AccessAnalysis.CountAccesses | analysis.py:33-39 | the counting loop leaves the nested dictionary that folding the records one by one gives |
| AccessAnalysis.IpsOfMember | analysis.py:37 | an IP is among the records' IPs exactly when some record comes from it |
| AccessAnalysis.ServicesForMember | analysis.py:38 | a service is listed for an IP exactly when some record pairs them |
| AccessAnalysis.CountUser | analysis.py:36-39 | a user has an inner dictionary exactly when some record comes from that IP |
| AccessAnalysis.CountUsers | analysis.py:36-39 | the outer dictionary's keys are the IPs in order of their first record |
| AccessAnalysis.CountService | analysis.py:36-39 | a user's inner dictionary has a service exactly when a record pairs them |
| AccessAnalysis.CountServices | analysis.py:36-39 | a user's services are keyed in order of their first record from that IP |
| AccessAnalysis.CountValue | analysis.py:33-39 | every stored count is the number of records with that IP and service |
| AccessAnalysis.FlattenUser | analysis.py:44-49 | appends one row per inner key, in insertion order, with the stored count |
| AccessAnalysis.Flatten | analysis.py:42-49 | produces one row per inner entry, users and their services in insertion order |
| AccessAnalysis.CountFlattened | analysis.py:41-49 | flattening the counted dictionary gives the rows the records call for |
| AccessAnalysis.CountInnerRows | analysis.py:43-49 | a user's inner dictionary flattens to that user's rows |
| AccessAnalysis.AccessRows | analysis.py:28-51 | the dictionary-free definition of the result; its meaning is stated by the `AccessRows…` lemmas |
| AccessAnalysis.TrackUserAccess | analysis.py:28-51 | returns exactly the rows that the dictionary-free definition `AccessRows` describes; no records give no rows |
| AccessAnalysis.RowsOverMember | analysis.py:43-49 | a row is output exactly when its user is listed, its service is one that user used, and its count is that pair's count |
| AccessAnalysis.AccessRowsCounts | analysis.py:39-48 | every row's count is the number of matching records, hence at least one |
| AccessAnalysis.AccessRowsCover | analysis.py:36-49 | a (user, service) pair has a row exactly when some record has that IP and service |
| AccessAnalysis.AccessRowsOrdered | analysis.py:43-44 | rows are grouped by user, users in order of their first record, and each user's services in order of their first record from that IP |
| AccessAnalysis.AccessRowsUnique | analysis.py:43-44 | no (user, service) pair occupies two rows |
| AccessAnalysis.AccessRowsTotal | analysis.py:36-49 | the counts over all rows add up to the number of records |

## Left out

- The listener and the event loop (bigserver.py:171-174) and the concurrency between sessions. Each session is modelled alone.
- `authenticateClient` (bigserver.py:42-66) and the three listing calls (bigserver.py:74, 83-97) are cloud SDK calls. They are parameters: a total boolean function and a per-turn `Catalog`. The handles they return are not modelled.
- The image listing is treated as a list. With a lazily evaluated one, the comparison `images == []` (bigserver.py:75) would never hold.
- Exceptions raised by the listing calls, and failing sends, are not modelled. In the source these end the session, or inside `createInstance` are caught and printed (bigserver.py:108-118).
- Console output (`print`, bigserver.py:65, 112, 115, 118, 143, 169) is not modelled.
- The commented-out instance-creation dialogue (bigserver.py:119-127) is not part of this model, and neither is the unused `authenticated` flag (bigserver.py:144, 153).
- `importRequirements` (bigserver.py:16-21) is an empty stub.
- The log configuration (bigserver.py:24-26) is not modelled. Each entry's timestamp and level are not modelled; the audit log holds messages only.
- Server.HandleClientRequest: the remote address is passed in as an IP string and a port number, instead of being read from the socket (bigserver.py:141).
- `parse_logs` (analysis.py:13-25) is file reading and a regular expression. A record is modelled as just the client IP and service it extracts.
- `generate_access_table` and the script entry point (analysis.py:54-72) are a DataFrame wrapper and console output. `restricted_services` (analysis.py:6-10) is never used.
- Frames are modelled as text only. A binary frame makes `recv()` return bytes. As the credential frame, `authInfo.split(",")` (bigserver.py:150) then raises `TypeError`, which ends the session the way `Ending.UnpackError` does. As a command frame, it equals neither command string and gets no reply (bigserver.py:159-161).
- `AuditLog` holds only the handler's own logging calls (bigserver.py:38, 156, 166). The log file is configured on the root logger (bigserver.py:26), so records that the websockets library writes through its own logger also reach it. One such record is the ERROR entry, with traceback, for an exception that escapes the handler: the `ValueError` of a malformed credential frame, the `TypeError` of a binary one, or a failing listing call (bigserver.py:150, 168). Those records are not modelled.
