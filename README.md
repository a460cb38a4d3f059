# go-whatsapp connection core in Dafny

This project models three pieces of the Go WhatsApp Web client `go-whatsapp`. For each one it proves what the client promises about it.

- **The connection bookkeeping** (`conn.go`) is modelled as the class `Connection.Conn`.
  - Sending: a request gets the tag `"<seconds>.--<counter>"`. A text request is framed as `"<tag>,<json>"`. A binary request is framed as tag, comma, metric byte, flag byte, the first 32 bytes of the HMAC, then the ciphertext. Each send registers a response channel under its tag, queues exactly one message and bumps the counter.
  - Reading: one iteration of the reader classifies a frame. It is a keepalive timestamp `!<ms>`, a response to a registered tag (delivered once, then the tag is removed), a binary push to decrypt, a text push for the handler, or nothing.
  - Writing: one iteration of the writer waits for a usable socket, dialling when there is none. When a write fails, it marks the socket unusable and queues the message again.
  - Liveness: `isConnected` and `sendKeepAlive` probe the socket with the blank message `"?,,"`. The keepalive period is drawn between its two bounds.
- **The contact and chat tables** (`store.go`) are modelled as the class `ContactStore.Store`. Two maps are keyed by JID. A user JID `…@c.us` is normalised to `…@s.whatsapp.net`. The maps are filled from lists of nodes that the server pushes, and by explicit adds that reject an empty JID.
- **The profile picture upload** (`profile.go`) is modelled in module `ProfilePic`. It builds a fixed node tree around the image and the preview, with the tag `"<seconds>.--<19·counter>"`. It sends the tree through `writeBinary` with metric `profile` (27) and flags 136 (`ignore | expires`).

The model has six modules:

- `Wrappers` holds Option and Result.
- `GoStd` models the parts of Go's standard library that the core depends on:
  - byte strings;
  - `fmt`'s `%d`;
  - `strconv.ParseInt`;
  - truncating `/` and `%`;
  - `time.Unix` normalisation;
  - `strings.Index`, `strings.SplitN(s, ",", 2)` and `strings.Replace(s, old, new, 1)`.
- `Binary` holds `binary.Node` and the dynamically typed values (`interface{}`) it carries.
- `Connection`, `ContactStore` and `ProfilePic` hold the core.

A Go `string` on the connection's frame and tag paths is a Dafny `string` whose characters are all below 256 (`GoStd.IsByteString`). This restriction is demanded only where conn.dfy turns a tag or a payload into bytes. The store's JIDs and the profile node's account and attribute strings are plain Dafny strings without it. A `[]byte` is a `seq<byte>`, where `byte` is the integers 0 to 255; the flag lemmas view a byte as a `bv8` for its bits.

## Model

| member | source | states |
|---|---|---|
| `GoStd.ToBytes` | conn.go:309 | `[]byte(s)` keeps the length and the code of every character |
| `GoStd.FromBytes` | conn.go:374 | `string(msg)` gives a byte string whose conversion back is the same bytes |
| `GoStd.FromBytesOfToBytes` | conn.go:374 | converting a byte string to bytes and back is the identity |
| `GoStd.NatDecimal` | conn.go:300 | the decimal digits of a natural number: non-empty, digits only, no leading zero |
| `GoStd.Decimal` | conn.go:300 | `%d` / `strconv.Itoa`: non-empty, digits with at most a leading minus |
| `GoStd.DigitsValueOfNatDecimal` | conn.go:300 | reading the digits back gives the number |
| `GoStd.DecimalInjective` | conn.go:300 | distinct integers print differently |
| `GoStd.ParseInt64` | conn.go:378 | `strconv.ParseInt(s, 10, 64)` succeeds only within the int64 range; an empty string is a syntax error; an opening digit run above 2^64 - 1 is a range error before any later non-digit is seen |
| `GoStd.ParseInt64RangeBeforeSyntax` | conn.go:378 | digits worth more than 2^64 - 1 are a range error whatever follows them |
| `GoStd.DigitRun` | conn.go:378 | the opening run of digits: all digits, followed by a non-digit or the end |
| `GoStd.DigitsValuePrefix` | conn.go:378 | a prefix of a digit string is worth no more than the whole, so the parse meets the overflow at the first digit run that causes it |
| `GoStd.WrapInt64` | profile.go:18 | Go's 64-bit `int` arithmetic: the result lies in the int64 range, differs from the exact value by a multiple of 2^64, and is the exact value when that fits |
| `GoStd.ParseInt64OfDecimal` | conn.go:378 | every int64 printed by `%d` parses back to itself |
| `GoStd.ParseInt64RejectsNonDigit` | conn.go:378 | a character that is neither a digit nor a leading sign makes the parse fail |
| `GoStd.Quo` | conn.go:383 | Go's `/`, truncating toward zero; `Rem`'s contract pins it together with `%` |
| `GoStd.Rem` | conn.go:383 | Go's `%`: `a == d*(a/d) + r`, with the sign of `a` |
| `GoStd.Unix` | conn.go:383 | `time.Unix` normalises the nanoseconds into [0, 1e9) and keeps the instant |
| `GoStd.IndexOf` | store.go:53 | `strings.Index`: the position of a match with no match before it, or none at all |
| `GoStd.SplitN2` | conn.go:374 | `strings.SplitN(s, ",", 2)`: one part (the whole string) exactly when there is no comma; otherwise the comma-free text before the first comma and the rest, which join back to `s` |
| `GoStd.SplitN2Joined` | conn.go:374 | splitting `text + "," + rest` with a comma-free `text` gives exactly `[text, rest]` |
| `GoStd.Replace1Absent` | store.go:53 | `strings.Replace(…, 1)` leaves a string without the pattern unchanged |
| `GoStd.Replace1` | store.go:53 | `strings.Replace(s, pat, rep, 1)`: the result keeps the length of `s`, or trades one `pat` for one `rep` |
| `GoStd.Replace1AtFirst` | store.go:53 | only the first occurrence is replaced; everything before and after it is kept |
| `Binary.Attr` | store.go:53 | indexing `Attributes` gives the value of a present key, and `""` for a missing key or a nil map |
| `Connection.MetricByte` | conn.go:24-66 | every metric's byte lies in 1..39 |
| `Connection.FlagByte` | conn.go:68-77 | the flag bytes; `FlagBits` states that flag i is the bit `1 << (7 - i)` |
| `Connection.MetricByteRoundTrip` | conn.go:24-66 | each metric's byte lies in 1..39 and reads back as that metric, so distinct metrics have distinct bytes |
| `Connection.FlagBits` | conn.go:68-77 | flag number i is the bit `1 << (7 - i)` |
| `Connection.MessageTag` | conn.go:299-300 | the tag is a byte string of length at least 5, without a comma, not starting with `!` |
| `Connection.MessageTagInjective` | conn.go:300 | the tag determines the timestamp and the counter it was made from |
| `Connection.TagFields` | conn.go:300 | a tag splits at its first `.` into the printed timestamp and `--` followed by the printed counter |
| `Connection.ConsecutiveTagsDiffer` | conn.go:300-311 | two sends in the same second get different tags |
| `Connection.TextFrame` | conn.go:301 | `write`'s frame: the tag's bytes, the comma byte 44, then exactly the payload |
| `Connection.TextFrameSplits` | conn.go:301 | the reader splits `write`'s frame back into the tag and the JSON payload |
| `Connection.BinaryFrame` | conn.go:333-336 | `writeBinary`'s frame is `|tag| + 35 + |cipher|` bytes long |
| `Connection.BinaryFrameLayout` | conn.go:333-336 | the binary frame is tag, `,`, metric, flag, the first 32 MAC bytes, then the ciphertext: `|tag| + 35 + |cipher|` bytes |
| `Connection.BinaryFrameTag` | conn.go:333 | the reader finds the tag of a binary frame before its first comma |
| `Connection.SealedFrame` | conn.go:316-336 | a tag shorter than 2 is an error; success needs a successful marshal and is at least `|tag| + 35` bytes |
| `Connection.SealedFrameHeader` | conn.go:333-334 | a sealed frame opens with its tag (as the reader splits it), then the metric and the flag bytes |
| `Connection.ServerTime` | conn.go:383 | the keepalive time is normalised, a whole number of milliseconds, exactly `msecs` ms after the epoch, and `(msecs/1000, (msecs%1000)·1e6)` for non-negative `msecs` |
| `Connection.Classify` | conn.go:374-409 | the reader's decision for one frame: a delivery goes to the registered handle of its tag with a non-empty payload, decryption only for a binary frame with an EncKey, a keepalive only for a frame opening with `!`, and never a stop |
| `Connection.Correlate` | conn.go:387-409 | a tagged frame is delivered exactly when its tag is registered and its payload non-empty, to that tag's handle; otherwise it goes to decryption (binary with an EncKey), to the handler, or is dropped when empty |
| `Connection.PanickedIff` | conn.go:374-391 | the reader panics exactly on an empty first field, or on a non-timestamp frame without a comma |
| `Connection.KeepAliveStamp` | conn.go:377-385 | `!<msecs>` (with anything after a comma) is a keepalive at exactly `msecs` milliseconds |
| `Connection.KeepAliveExample` | conn.go:377-385 | `!1529341084000` is the time (1529341084 s, 0 ns) |
| `Connection.KeepAliveUnreadable` | conn.go:378-381 | a timestamp with a non-digit character is only logged |
| `Connection.DeliveredIff` | conn.go:387-395 | a comma frame is delivered exactly when its tag is registered and its payload is non-empty, to that tag's handle |
| `Connection.UncorrelatedFrame` | conn.go:397-409 | an undelivered frame goes to decryption (binary, with an EncKey), else to the handler when non-empty, else is dropped |
| `Connection.DeliveredOnce` | conn.go:391-395 | once the tag is removed, the same frame is not delivered again |
| `Connection.ResponseDelivered` | conn.go:300-301 | a response `<tag>,<payload>` to a registered `write` tag reaches that tag's handle with the payload |
| `Connection.UnclaimedResponse` | conn.go:397-409 | a response whose tag is not registered goes to the handler, unless it is a decryptable binary frame |
| `Connection.KeepAliveInterval` | conn.go:473 | the interval lies in `[min, max)` |
| `Connection.KeepAliveDefaultPeriod` | conn.go:207 | with the bounds 20000 and 90000 that the connection starts with, the wait lies in [20 s, 90 s) |
| `Connection.ConnectionStatus.constructor` | conn.go:97-99 | the status starts as given |
| `Connection.ConnectionStatus.Connected` | conn.go:85-89 | returns the current status |
| `Connection.ConnectionStatus.SetConnected` | conn.go:91-95 | sets the status |
| `Connection.Conn.constructor` | conn.go:105-131 | a connected state with a usable socket, no pending responses or channels, an empty queue, counter 0 and the zero last-seen time |
| `Connection.Conn.Register` | conn.go:303-307 | registers a channel under the tag; the channel is fresh, other entries are untouched |
| `Connection.Conn.Write` | conn.go:293-313 | a JSON error changes nothing; otherwise the tag maps to a fresh channel, exactly one frame `<ts>.--<count>,<json>` is queued, and the counter grows by one |
| `Connection.Conn.WriteBinary` | conn.go:315-349 | a short tag or a marshal or encryption error changes nothing; otherwise the tag maps to a fresh channel, exactly the sealed frame is queued, and the counter grows by one |
| `Connection.Conn.ReadStep` | conn.go:351-412 | stops when disconnected; without a socket (dropped by `reconnect`, conn.go:274) the read at conn.go:359 panics and nothing changes; a read error marks the socket unusable and ends the loop or reports the close; a frame marks the socket usable and is classified, removing a delivered tag and recording a keepalive time, with nothing else changed |
| `Connection.Conn.ReadFrame` | conn.go:372-409 | after a successful read the socket is usable, and the frame is classified; a timestamp is recorded, a delivered tag is removed, nothing else changes |
| `Connection.Conn.Route` | conn.go:387-409 | a non-empty payload to a registered tag is delivered to its channel and the tag removed; otherwise the frame goes to decryption, to the handler, or is dropped, and the registry is unchanged |
| `Connection.Conn.SendKeepAlive` | conn.go:445-452 | marks the socket usable and queues the probe `?,,` |
| `Connection.Conn.IsConnected` | conn.go:213-228 | true exactly with a usable socket; with an unusable one it queues a probe, marks the socket usable and still answers false |
| `Connection.Conn.Connect` | conn.go:231-268 | a successful dial leaves a usable socket; a failed one returns an error and changes nothing |
| `Connection.Conn.WritePumpStep` | conn.go:414-443 | the next message is dropped when the connection is closed, held while no dial succeeds, and otherwise written; a failed write marks the socket unusable and queues the message again |
| `Connection.Conn.KeepAliveStep` | conn.go:467-476 | stops when disconnected; otherwise queues the probe and waits between the bounds |
| `Connection.RequestResponse` | conn.go:293-395 | on a new connection, the answer to a written request is delivered to the request's channel, and a repeated answer goes to the handler |
| `ContactStore.NormaliseJid` | store.go:53 | the key is the JID, or the JID with `@c.us` traded for `@s.whatsapp.net` (ten characters longer); `NormaliseServerJid` and `NormaliseUserJid` state which |
| `ContactStore.NormaliseServerJid` | store.go:53 | a `…@s.whatsapp.net` JID is its own key |
| `ContactStore.NormaliseUserJid` | store.go:53 | `<user>@c.us` is stored under `<user>@s.whatsapp.net` |
| `ContactStore.ContactOf` | store.go:53-59 | the contact a pushed node describes: normalised `jid`, then `notify`, `name`, `short` |
| `ContactStore.ChatOf` | store.go:113-121 | the chat a pushed node describes: normalised `jid`, then `name`, `count`, `t`, `mute`, `spam` |
| `ContactStore.Absorb` | store.go:47-60 | absorbing a pushed list never loses a key; `AbsorbLastWins`, `AbsorbUntouched` and `AbsorbKeys` state the rest |
| `ContactStore.AbsorbLastWins` | store.go:47-60 | the last node of a pushed list with a given key decides that key's record |
| `ContactStore.AbsorbUntouched` | store.go:47-60 | keys that no node of the list carries keep their entry or its absence |
| `ContactStore.AbsorbKeys` | store.go:47-60 | after a pushed list a key is present exactly when it was before or some node of the list carries it |
| `ContactStore.Lookup` | store.go:71-81 | the comma-ok lookup: `(stored, true)` or `(zero, false)` |
| `ContactStore.AddedUserJidNotUnderGivenJid` | store.go:71-96 | a contact added as `<user>@c.us` is found under `<user>@s.whatsapp.net` and not under the JID it was added with |
| `ContactStore.Store.constructor` | store.go:32-38 | both tables start empty |
| `ContactStore.Store.UpdateContacts` | store.go:40-61 | a non-list changes nothing; otherwise every node of the list is stored as a contact under its normalised JID, and the chats are untouched |
| `ContactStore.Store.GetContact` | store.go:71-81 | `(stored, true)` when the JID is a key, `(zero contact, false)` otherwise |
| `ContactStore.Store.AddContact` | store.go:83-96 | an empty JID is an error and changes nothing; otherwise the contact as given is stored under its normalised JID |
| `ContactStore.Store.UpdateChats` | store.go:98-123 | a non-list changes nothing; otherwise every node is stored as a chat, with `count`, `t`, `mute`, `spam` as unread, last-message time, muted and spam |
| `ContactStore.Store.GetChat` | store.go:133-143 | `(stored, true)` when the JID is a key, `(zero chat, false)` otherwise |
| `ContactStore.Store.AddChat` | store.go:145-158 | an empty JID is an error and changes nothing; otherwise the chat as given is stored under its normalised JID |
| `ProfilePic.UploadFlagBits` | profile.go:62 | 136 sets exactly the `ignore` and `expires` bits |
| `ProfilePic.UploadProfilePicTag` | profile.go:17-19 | the tag, with `msgCount*19` wrapped as Go's 64-bit `int` does, is a comma-free byte string of length at least 5 |
| `ProfilePic.UploadTagVersusWriteTags` | profile.go:17-19 | the upload tag equals `write`'s tag for a counter exactly when that counter is 19 times the upload's, wrapped to 64 bits |
| `ProfilePic.Times19Injective` | profile.go:18 | two int64 counters whose products by 19 wrap to the same value are equal, because 19 is odd |
| `ProfilePic.UploadTagInjective` | profile.go:17-19 | for int64 counters, the upload tag determines the time and the counter, in spite of the wrap |
| `ProfilePic.UploadProfilePicNode` | profile.go:21-51 | an `action` node with exactly `type=set` and `epoch=<count>`, one `picture` child with exactly `id=<tag>`, `jid=<wid>`, `type=set`, holding `image` then `preview`, both without attributes |
| `ProfilePic.UploadEpochReadsBack` | profile.go:26 | the epoch parses back to the counter |
| `ProfilePic.UploadNodeInjective` | profile.go:21-51 | the node determines the counter, tag, account and both pictures |
| `ProfilePic.UploadProfilePic` | profile.go:58-63 | never fails on the tag; a marshal or encryption error changes nothing; otherwise exactly the sealed frame is queued under a fresh channel for the tag, the counter and the channel count grow by one, and the socket, the session and the last-seen time are untouched |
| `ProfilePic.ConnUploadProfilePic` | profile.go:54-56 | the upload with the connection's own counter: a sealing error changes nothing; otherwise exactly the sealed upload frame built from that counter is queued under a fresh channel for its tag, the counters grow by one, and nothing else changes |
| `ProfilePic.UploadFrameLayout` | profile.go:59-62 | the frame's tag is the picture's `id`, followed by metric 27 and flag 136 |

## Left out

- The websocket itself is not modelled: dialling, headers, the random server choice and the close handler (conn.go:231-268). A dial is a boolean outcome, and a read is an `Inbound` event.
- Concurrency is not modelled: the goroutines, mutexes, channel blocking and sleeps (conn.go:205-207, 271-291, 414-443, 467-476).
  - Each loop of `readPump`, `writePump` and `keepAlive` is one step method.
  - A response channel is a fresh number, and delivery into it is the outcome `Delivered`.
  - `reconnect` is not modelled.
- `Connection.Conn.WritePumpStep`: the failed message goes back into the channel from a separate goroutine. Its order relative to other messages is therefore not fixed; the model puts it at the back of the queue. The dial outcomes are a finite sequence; when they run out, the writer still holds the message, which the model shows as `Held`.
- The foreign functions are parameters: `json.Marshal`, `binary.Marshal`, `cbc.Encrypt` (with its random IV) and HMAC-SHA256. The only thing assumed about them is that the MAC is at least 32 bytes. The binary codec is not part of this model.
- `time.Now`, `rand.Intn` and `Info.Wid` are parameters.
- `decryptBinaryMessage`, `dispatch` and `handle` are not modelled. They appear only as the outcomes `ToDecrypt`, `ToHandler` and `CloseReported`.
- The reader's index-out-of-range panics (conn.go:377, 391) and its nil-connection read (conn.go:359) are the outcome `Panicked`.
- `Connection.Conn.WriteBinary`: it requires a session. Go dereferences `session.EncKey`, which panics on a nil session.
- `Connection.Conn.WriteBinary`: the tag must be a byte string. In Dafny a string may hold characters beyond a byte.
- `Connection.Conn.constructor`: it starts from a connection that is ready to use. `NewConnWithOptions` (conn.go:167-210) never creates the listener map, the write channel or the connection status. Writing to the nil map would panic; whatever sets them up is not part of this model.
- `msgCount` is unbounded: Go's `int` would wrap after 2^63 sends. The product `msgCount*19` of the upload tag does wrap in the model (`GoStd.WrapInt64`).
- The store's locks are not modelled, including `AddChat` taking only a read lock (store.go:151).
- `GetContacts` and `GetChats` (store.go:63-69, 125-131) return the live maps. The aliasing they expose is not modelled.
- The `ProfilePicUploader` interface (profile.go:11-15) is not modelled. The package-level `UploadProfilePic` takes the concrete connection.
- The login, session and error paths of the package are not part of this model. The same goes for `AdminTest`, `IsConnected`, `GetConnected`, `IsLoggedIn` and `GetLoggedIn`, which read fields the `Conn` struct does not declare.
