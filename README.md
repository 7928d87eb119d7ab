# p2pcommunication room relay, modelled in Dafny

This project models the core of a peer-to-peer UDP chat tool. One peer is the
room owner. It checks each joiner's room key, keeps a roster of joined
addresses and relays chat messages to that roster. The model covers:

- **`Server`**: the relay of `src/server.rs`. Each handler (`receive_request`,
  `receive_reply`, `receive_message`, `receive_exit`) and the dispatch in
  `receive` is a pure step function over an explicit `State`. The parts of
  that state are the remembered owner address, the roster `ips`, the inbound
  queue, and an outbox that stands in for `send_to`. The class `Server.Relay`
  makes the same updates in place, and each of its methods is proved equal to
  its step function. `send_message_to_all` is a loop proved against
  `FanOut`. `ServerProperties` states what the relay does.
- **`Client`**: the earlier relay version in `src/client.rs`, which
  `src/main.rs` still starts. It has a `Search` code, a join that always
  appends, and a fan-out that skips no one.
- **`Protocol`**: the string frame parser of `src/protocol.rs`. The header is
  a 4-byte tag, a 12-byte id and a 1-byte code; the payload is everything
  after it. Also modelled: the id normaliser `set_id`, the `get_*` accessors
  (class `Session`, for the `PROTOCOL` static) and `to_string`. A frame's
  header is ASCII, so its byte offsets are character positions; the payload
  may be any text.
- **`Utf8`**: the UTF-8 byte length of a string and the byte-offset slice
  `&s[..n]`. `set_id` and the client's receive buffer are measured in bytes.
- **`Buf`**: the display history of `src/buf.rs`, a deque that drops its
  oldest line once it holds more than 20.
- **`Util`**: `compare_string`, a loop that decides whether `rhs` is a prefix
  of `lhs`.
- **`Transport`**: addresses, sends, and filtering a roster of one address.
  Both relays use these.

The model follows what the code does. In these places the code does
something its doc comments and names do not suggest:

- The fan-out skips only the local address, never the original sender. A chat
  message goes back to the peer that sent it (`ServerProperties.MessageEchoesSender`).
- A new peer is added to the roster before the join announcement is fanned
  out, so that peer receives the announcement too
  (`ServerProperties.RequestJoinNew`).
- Removing a peer on exit unwraps `find_ip`. The leaving address must be on
  the roster, which is a precondition (`Server.ExitAllowed`).
- A peer that is not the owner checks membership against the remembered owner
  address only. Its roster can therefore hold duplicates
  (`ServerProperties.JoinerRosterRepeats`).
- A `Request` whose payload is `EXIT_ROOM` is handled as an exit.
- `parse_id` searches for the last character that is not the '0' fill
  `set_id` adds, evidently to strip that fill. Instead it keeps only the
  first character of the id (see Findings).
- The client draft parses its whole 512-byte receive buffer, so every
  payload is at least 495 bytes long. A join there succeeds only with a key
  that long (`Client.ShortKeyNeverJoins`).

The model identifies a `SocketAddr` with its `to_string()` form.
`SocketAddr` values compare by address and port, which that string also
shows. The two differ only in an IPv6 flow label or scope id.

## Model

| member | source | states |
|---|---|---|
| `Server.CodeFrom` | src/server.rs:39-47 | a byte up to 4 becomes the kind with that discriminant; any larger byte becomes `None` |
| `ServerProperties.CodeFromTable` | src/server.rs:29-47 | 0,1,2,3,4 map to Request, Reply, Message, Exit, None in that order; every byte above 4 maps to None |
| `ServerProperties.CodeRoundTrip` | src/server.rs:29-47 | `Code::from` inverts `Code::X as u8` |
| `ServerProperties.RolesExclusive` | src/server.rs:12-27 | owner and joiner exclude each other; the unset role is neither |
| `Server.Contains` | src/server.rs:255-260 | the roster scan answers true exactly when the address is on the roster |
| `Server.IsJoinedRoom` | src/server.rs:249-261 | a non-owner compares only with the remembered owner address; the owner checks roster membership |
| `Server.FindIp` | src/server.rs:263-270 | `None` exactly when the address is absent; otherwise the index of its first occurrence |
| `ServerProperties.FindIpFirst` | src/server.rs:263-270 | any index holding the address bounds the answer from above |
| `Server.Relay.PushIntoIps` | src/server.rs:241-247 | returns false and leaves the roster alone if the address already counts as joined; otherwise appends it and returns true |
| `ServerProperties.OwnerPush` | src/server.rs:241-261 | for the owner: unchanged if present, appended if absent; a duplicate-free roster stays duplicate-free |
| `Server.Relay.PushToMessageQueue` | src/server.rs:212-218 | appends the message to the back of the queue |
| `Server.Relay.SendMessageTo` | src/server.rs:220-222 | appends one send to the outbox |
| `Server.Relay.SendMessageToAll` | src/server.rs:224-230 | the loop's sends are exactly `FanOut` of the roster: one per entry other than the local address, in roster order |
| `ServerProperties.FanOutRecipients` | src/server.rs:224-230 | the fan-out has roster length minus occurrences of the local address; it reaches every other entry, the sender included, and never the local address |
| `ServerProperties.FanOutAppend` | src/server.rs:224-230 | a roster longer by one address adds at most one send, at the end |
| `Server.Relay.ReceiveExit` | src/server.rs:195-210 | the new state is `ExitStep` of the old state |
| `ServerProperties.ExitEffect` | src/server.rs:195-210 | one notice is queued. For the owner and a non-local address, the first occurrence is removed and the notice goes to the remaining roster minus the local address. Otherwise the roster and outbox are unchanged |
| `ServerProperties.RemoveAtCount` | src/server.rs:207 | `Vec::remove` drops one entry and exactly one occurrence of its value |
| `ServerProperties.RemoveAtDistinct` | src/server.rs:207 | on a duplicate-free roster, `Vec::remove` takes the value off the roster and keeps it duplicate-free |
| `ServerProperties.ExitRemovesMember` | src/server.rs:206-208 | on a duplicate-free roster the leaving peer is gone afterwards, and the roster stays duplicate-free |
| `Server.Relay.ReceiveRequest` | src/server.rs:117-161 | the new state is `RequestStep` of the old state |
| `ServerProperties.RequestJoinNew` | src/server.rs:128-148 | owner, correct key, new requester: success reply first, roster plus the requester, one announcement queued and fanned out to the new roster, so the requester receives it too |
| `ServerProperties.RequestJoinRepeat` | src/server.rs:128-136 | a repeat request only earns the success reply; roster and queue are unchanged |
| `ServerProperties.JoinIdempotent` | src/server.rs:128-148 | two correct requests from one address give one roster entry and one announcement |
| `ServerProperties.RequestExitSentinel` | src/server.rs:150-152 | an `EXIT_ROOM` payload that is not the key behaves exactly as `receive_exit` |
| `ServerProperties.RequestWrongKey` | src/server.rs:153-159 | any other payload only sends `JOIN_FAILED` to the requester |
| `ServerProperties.RequestIgnoredByJoiner` | src/server.rs:124-124 | a node that is not the owner ignores a request entirely |
| `ServerProperties.ReplyIgnoredByOwner` | src/server.rs:169-169 | the owner ignores a reply entirely |
| `Server.Relay.ReceiveReply` | src/server.rs:163-178 | the new state is `ReplyStep` of the old state |
| `ServerProperties.ReplyAtJoiner` | src/server.rs:169-177 | a non-owner always queues the reply. On `JOIN_SUCCESS` it records the sender as owner and appends it unless it already was the remembered owner |
| `ServerProperties.JoinerRosterRepeats` | src/server.rs:169-175 | success replies from A, B, A leave the joiner's roster as [A, B, A] |
| `Server.Relay.ReceiveMessage` | src/server.rs:183-193 | the new state is `MessageStep` of the old state |
| `ServerProperties.MessageCopies` | src/server.rs:183-193 | every role queues one copy; only the owner fans it out, to the roster minus the local address |
| `ServerProperties.MessageEchoesSender` | src/server.rs:190-192 | an owner sends a chat message back to a rostered sender |
| `ServerProperties.ChatExample` | src/server.rs:183-193 | chat from A at owner O with roster [A, B, C] is queued once and sent to A, B, C in order |
| `Server.Relay.Receive` | src/server.rs:84-108 | the new state is `Step`: frames that failed to parse are skipped, then dispatch by code |
| `ServerProperties.StepIgnores` | src/server.rs:86-105 | a failed parse or a `None` code changes nothing |
| `ServerProperties.AsciiCodeIgnored` | src/server.rs:39-47 | the ASCII code byte '1' (49) maps to `None` |
| `ServerProperties.OwnerRosterStaysDistinct` | src/server.rs:84-108 | for the owner, every step keeps the roster duplicate-free |
| `Server.Relay.constructor` | src/server.rs:80-82 | the loop starts with an empty roster, nothing queued or sent, and no owner address |
| `Transport.Sends` | src/server.rs:224-230 | one send per address, in order |
| `Transport.SendsAppend` | src/server.rs:225-229 | one more address adds one send at the end |
| `Transport.WithoutMembers` | src/server.rs:226-226 | after filtering, an address remains exactly when it was present and is not the excluded one |
| `Transport.WithoutConcat` | src/server.rs:225-229 | filtering distributes over concatenation, so roster order is kept |
| `Transport.WithoutLength` | src/server.rs:225-229 | one entry is dropped per occurrence of the excluded address |
| `Transport.WithoutAbsent` | src/server.rs:225-229 | nothing is dropped when the excluded address is absent |
| `Transport.CountMembers` | src/server.rs:263-270 | an address occurs at least once exactly when it is on the roster |
| `Transport.CountConcat` | src/server.rs:207 | occurrence counts add over concatenation |
| `Protocol.ParseFrameFields` | src/protocol.rs:25-44 | tag from bytes 0..4, code from byte 16, payload from byte 17 on, id from bytes 4..16 through `parse_id`; `Err` exactly when the tag differs |
| `Protocol.TagMismatchRejected` | src/protocol.rs:36-40 | a tag other than the configured one gives `Err(InvalidData)` whatever the rest holds |
| `Protocol.ParseAssembled` | src/protocol.rs:25-44 | tag T, 12-byte id, code c and payload p parse back with tag T, code c, payload p |
| `Protocol.MainExample` | src/main.rs:17 | "MOYU1230000000001Hello" parses with code '1', payload "Hello" and id "1" |
| `Protocol.Parse` | src/protocol.rs:25-44 | returns `ParseFrame` under the configured tag, and pushes the raw id onto the display history |
| `Protocol.ParseId` | src/protocol.rs:46-61 | as written: pushes the raw id to the history and returns only its first character |
| `Protocol.ParseIdLosesId` | src/protocol.rs:51-55 | as written the id "123" comes back as "1"; trimming the fill gives back "123" |
| `Protocol.TrimId` | src/protocol.rs:46-61 | the corrected normaliser: a prefix of the raw id, not ending in '0', with only '0's cut off |
| `Protocol.TrimIdRoundTrip` | src/protocol.rs:76-87 | an id of at most 12 bytes not ending in '0' survives padding then trimming |
| `Protocol.ParseIntendedRoundTrip` | src/protocol.rs:25-44 | with the corrected normaliser, a frame carrying a padded ASCII id parses back to that id, code and payload |
| `Protocol.NormaliseIdShape` | src/protocol.rs:76-87 | the stored id has exactly 12 bytes: the id then one '0' per missing byte, or a prefix of the id; for an ASCII id, 12 ASCII characters |
| `Protocol.AsciiIdNormalises` | src/protocol.rs:76-87 | an ASCII id never panics: it is padded to 12 characters, or its first 12 characters are kept |
| `Protocol.SetIdFillsByBytes` | src/protocol.rs:79-85 | six two-byte characters make 12 bytes, so they are stored without padding |
| `Protocol.SetIdSplitsChar` | src/protocol.rs:85 | eleven ASCII characters and a two-byte one put byte 12 inside a character, so `set_id` panics |
| `Protocol.SetIdPadsShort` | src/protocol.rs:79-85 | "123" is stored as "123000000000" |
| `Protocol.NormaliseIdIdempotent` | src/protocol.rs:76-87 | normalising a stored id leaves it unchanged |
| `Protocol.Zeros` | src/protocol.rs:81-83 | n copies of '0' |
| `Protocol.Session.SetId` | src/protocol.rs:76-87 | the loop pads with one '0' per missing byte and the byte slice keeps 12 bytes, so the normalised id is stored; the tag is untouched and `get_id` is then `Some` |
| `Protocol.Session.SetProtocol` | src/protocol.rs:70-74 | stores the tag verbatim; the id is untouched |
| `Protocol.Session.GetProtocol` | src/protocol.rs:89-97 | `None` exactly when no tag is stored, otherwise the stored tag |
| `Protocol.Session.GetId` | src/protocol.rs:99-107 | `None` exactly when no id is stored, otherwise the stored id |
| `Protocol.Session.constructor` | src/protocol.rs:8-11 | the static starts with an empty tag and id |
| `Protocol.Render` | src/protocol.rs:64-68 | the rendering is the id, then ":\t", then the text, at those positions |
| `Protocol.RenderSeparates` | src/protocol.rs:64-68 | when the id has no ':', the first ':' of the rendering ends the id |
| `Utf8.Width` | src/protocol.rs:79-85 | one to four bytes per character, and one exactly for ASCII |
| `Utf8.ByteLen` | src/protocol.rs:79-80 | `String::len` is at least the character count and at most four times it |
| `Utf8.ByteLenConcat` | src/protocol.rs:79-82 | byte lengths add over concatenation, so each pushed '0' adds one byte |
| `Utf8.AsciiByteLen` | src/protocol.rs:27-32 | the byte length equals the character count exactly when the string is ASCII |
| `Utf8.AsciiConcat` | src/protocol.rs:27-32 | a concatenation is ASCII exactly when both parts are |
| `Utf8.BytePrefix` | src/protocol.rs:85 | a successful `&s[..n]` is a prefix of `s` that is exactly `n` bytes long |
| `Utf8.BytePrefixExact` | src/protocol.rs:85 | whenever some prefix is `n` bytes long, `&s[..n]` succeeds and returns it |
| `Utf8.BytePrefixAfterAscii` | src/protocol.rs:85 | past an ASCII prefix, the slice succeeds exactly when slicing the rest at the remaining count does |
| `Utf8.BytePrefixWhole` | src/protocol.rs:85 | slicing at the full byte length returns the whole string |
| `Client.CodeFrom` | src/client.rs:17-29 | for the four defined bytes, the code whose discriminant is that byte (Search=0, Request=1, Reply=2, Message=3) |
| `Client.CodeRoundTrip` | src/client.rs:17-29 | `Code::from` inverts the discriminant |
| `Client.RequestTwiceDuplicates` | src/client.rs:103-122 | owner with the right key appends unconditionally: two requests leave two entries. Through `receive` this needs a key of at least 495 bytes |
| `Client.RequestWrongKey` | src/client.rs:113-120 | a wrong key only sends "Error key"; roster unchanged |
| `Client.NonOwnerIgnores` | src/client.rs:63-88 | a non-owner ignores searches and requests; every node ignores replies and messages |
| `Client.SearchReply` | src/client.rs:92-101 | the owner replies to the asker with a `Reply` carrying its id |
| `Client.SendToAllEveryEntry` | src/client.rs:148-152 | one send per roster entry, in order, none skipped |
| `Client.Relay.SendMessageTo` | src/client.rs:142-146 | appends one send to the outbox |
| `Client.Relay.SendMessageToAll` | src/client.rs:148-152 | the loop's sends are `Sends` of the whole roster |
| `Client.Relay.ReceiveSearch` | src/client.rs:92-101 | the new state is `SearchStep` |
| `Client.Relay.ReceiveRequest` | src/client.rs:103-122 | the new state is `RequestStep` |
| `Client.Decode` | src/client.rs:63-65 | the whole-buffer parse takes the code from byte 16 and the payload from byte 17 to the end of the buffer |
| `Client.BufferPayloadLong` | src/client.rs:59-65 | every payload of the whole-buffer parse is at least 495 bytes long |
| `Client.ShortKeyNeverJoins` | src/client.rs:63-65 | with a key shorter than 495 bytes no datagram changes the roster, and the owner answers every request with "Error key" |
| `Client.Relay.Receive` | src/client.rs:63-88 | the buffer goes through `Protocol.Parse`, so its id field (bytes 4..16) is pushed onto the display history; the new relay state is `Step` of the message decoded from the whole buffer, under the session's tag and id |
| `Client.Relay.constructor` | src/client.rs:56-60 | empty roster, nothing sent |
| `Buf.History.PushMessage` | src/buf.rs:89-95 | the history becomes `Pushed` of the old one |
| `Buf.PushedFull` | src/buf.rs:91-94 | more than 20 lines before: the oldest is dropped, so the length is unchanged |
| `Buf.PushedNotFull` | src/buf.rs:91-94 | at most 20 lines before: nothing is dropped and the length grows by one |
| `Buf.PushedKeepsOrder` | src/buf.rs:91-94 | the new line is last; the kept old lines are a suffix of the old history, in order |
| `Buf.PushedKeepsBound` | src/buf.rs:12 | a history of at most 21 lines stays within 21 |
| `Buf.PushAllKeepsLastWindow` | src/buf.rs:89-95 | pushing onto an empty history keeps exactly the last min(n, 21) lines pushed |
| `Buf.History.ClearBuf` | src/buf.rs:27-30 | the history is empty afterwards |
| `Buf.History.Reset` | src/buf.rs:22-25 | the history is empty afterwards |
| `Buf.History.constructor` | src/buf.rs:14-16 | the history starts empty |
| `Util.CompareString` | src/util.rs:1-13 | true exactly when `rhs` is a prefix of `lhs` |
| `Util.StartsWithIsPrefix` | src/util.rs:1-13 | the position-by-position definition agrees with the prefix order |
| `Util.MismatchIsNotPrefix` | src/util.rs:4-7 | a mismatch at the first differing position gives false |
| `Util.LongerIsNotPrefix` | src/util.rs:8-10 | an `rhs` longer than `lhs` gives false |
| `Util.StartsWithReflexiveNotSymmetric` | src/util.rs:1-13 | reflexive; ("ab", "a") holds and ("a", "ab") does not |

## Left out

- UDP I/O (`recv_from`, `send_to`, `bind`, `local_addr`, `get_local_addr`) is left out. A send is an outbox entry, and the local address is part of the configuration.
- Threads and the `Arc<Mutex<VecDeque>>` lock are left out. The queue is a plain sequence owned by the relay.
- The `static mut` globals are replaced. `IDENTITY`, `KEY`, the local address, the tag and the styled texts are `Config` fields. `ROOM_OWNER_IP` is a relay field. `PROTOCOL` is the class `Protocol.Session`. For this reason `set_identity`, `get_identity`, `set_key`, `get_key`, the free `is_room_owner` and `client::initialize` have no members of their own. The client's `Config.id` and `Config.tag` are copies of that session's id and tag, and `Client.Relay.Receive` requires them to agree with it.
- Terminal styling (`.green().bold()`, `.red().bold()`) is not modelled. The styled strings are the opaque `Config.joinedText` and `Config.exitText`.
- Screen drawing in `src/buf.rs` is I/O and is left out: `initialize`, the alternate screen, `print_message`, `println`, `print_input`, `print_error` and `clear_all`.
- `Message::new` and `to_buf` are not in `src/protocol.rs`. A message built by `new` is `Packet.Fresh(code, text)`; its header fields are not modelled.
- `src/server.rs` parses with a byte-based `parse` that `src/protocol.rs` does not contain. `Server.Relay.Receive` therefore takes the parse result as a parameter.
- The panics become preconditions. They are a frame shorter than 17 bytes, an unset tag or id, an id that `set_id` would cut inside a character (`Protocol.SetIdDefined`), and an exit address missing from the roster.
- `Protocol.ParseFrame`: the 17-byte header must be ASCII, while the payload may be any text. The source also accepts a header holding multi-byte characters, as long as none straddles byte 4, 16 or 17. The model does not cover such frames.
- `Client.CodeFrom`: `transmute` is undefined behaviour for bytes above 3, so a byte up to 3 is a precondition.
- `Client.Relay.Receive`: `client::receive` unwraps `parse` of the whole decoded buffer, so a buffer with a wrong tag would panic; that is a precondition (`Client.BufferParses`, with the session's tag as the configured one). The search reply's `get_id().unwrap()` reads the session's id, which must equal `Config.id`; `Client.SearchAllowed` is its unwrap condition. The model does not give the bytes of `from_utf8_lossy`'s output. It keeps only the bound that the output holds at least 512 bytes, which is what makes every payload at least 495 bytes long.
- `Client.Relay`: the draft's empty `receive_reply` and `receive_message` and its unused `push_to_message_queue` do nothing that could be modelled.
- `Server.Relay.constructor`: the tag must be set (`get_protocol().unwrap()` for the join announcement). This is required once, when the relay is built, and not repeated on each step.
- The join handshake's retry and timeout loop and an encoder do not appear in these files, so they are not modelled.
- `src/main.rs` startup, the sleeps, stdin and the `src/lib.rs` module list are glue with no logic.

## Findings

| source | as written | input that shows it | evidently intended | confidence | as-written member | corrected member |
|---|---|---|---|---|---|---|
| src/protocol.rs:51 | `for i in raw_id.len()-1..=0` iterates an empty range, so `index` stays 0 and `parse_id` keeps only the first character | the frame "MOYU1230000000001Hello" of src/main.rs:17: id field "123000000000" becomes "1" | strip the trailing '0' fill that `set_id` adds, giving "123" | high; not executed | `Protocol.ParseIdLosesId` | `Protocol.TrimIdRoundTrip` |
