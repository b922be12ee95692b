# CE4DN4 application protocols in Dafny

This project models the decision logic of the small application-layer
protocols in the CE4DN4 networking course repository and proves properties
of it. Sockets, threads and console loops are not modelled. A connection is
a value or an object over a script of peer events (data chunks, idle
timeouts, the peer closing). It records the bytes sent back, whether the
program closed it, and its timeout setting.

- `wire.dfy` (module `Wire`) models `recv_bytes`, the byte-exact reader
  that all three Lab3 programs define identically. `ReadFrom` is the
  reader as a function of the peer's events. `RecvBytes` is the `recv`
  loop on a `Connection` object, proved to do what `ReadFrom` says.
- `bytes.dfy` (`Bytes`) models `int.to_bytes` / `int.from_bytes`
  big-endian. `utf8.dfy` (`Utf8`) covers UTF-8 validity and the
  universal-newline text-mode read. `text.dfy` (`Text`) covers the Python
  string operations the programs rely on: `strip`, `split`, `join`, `in`,
  `str(int)` and `int(str)`.
- `file_sharing.dfy` (`FileSharing`) models the Lab3 file-sharing protocol.
  It has two views:
  - the server handler `handle_tcp_client`, field by field on the
    connection, in both variants (lab3.py and lab3_COMMENT.py);
  - a stream-level reading of the same protocol, as a function of the bytes
    the client delivers.
  It also covers the client frames and reads, and the discovery reply.
- `file_download.dfy` (`FileDownload`) models file_download_protocol.py,
  which accepts only GET, with code 2.
- `rooms.dfy` (`Rooms`) models the Lab4 chat-room directory server, v1 and
  v2. `chat_client.dfy` (`ChatClient`) models the v2 client's mode state.
- `grades.dfy` (`Grades`) models both Lab2 grade-request servers.
- `company.dfy` (`Company`) models the newco employee registry, its
  database cleaner and parser, and its save format.
- `struct_codec.dfy` (`StructCodec`) models the `'!hiq'` network-byte-order
  struct codec.
- `option.dfy` (`Opt`) is the Option type.

Behaviour of the code worth knowing, which the model keeps:
- makeroom checks the address first, then (in v2) the address/port pair,
  and only then the name.
- The server sends nothing back for PUT.
- lab3_COMMENT.py's PUT accepts an empty name.
- BYE is answered but the server does not close the connection.
- A PUT followed by a GET returns the content byte for byte only in lab3.py,
  and only for UTF-8 text without carriage returns, because GET reads the
  file in text mode.

## Model

| member | source | states |
|---|---|---|
| Bytes.ToBE | Lab3/lab3.py:245 | the big-endian field of a size below 256^w is exactly w bytes long |
| Bytes.IntToBytes | Lab3/lab3.py:479 | `to_bytes(n, w, 'big')` succeeds exactly when 0 <= n < 256^w (OverflowError otherwise), and the w bytes it gives read back as n |
| Bytes.FromBEBound | Lab3/lab3.py:180 | a w-byte field reads as a value below 256^w |
| Bytes.FromToBE | Lab3/lab3.py:294 | reading a field written for n gives n back |
| Bytes.ToFromBE | Lab3/lab3.py:211 | every field is the encoding of the value it reads as |
| Bytes.ToBEInjective | Lab3/lab3.py:191 | different sizes never share a field |
| Utf8.AsciiBytes | Lab3/lab3_COMMENT.py:118 | encoding ASCII text gives one byte per character, equal to its code |
| Utf8.AsciiValid | Lab3/lab3_COMMENT.py:118 | ASCII text encodes to valid UTF-8 |
| Utf8.ValidConcat | Lab3/lab3.py:236 | the concatenation of valid UTF-8 byte strings is valid |
| Utf8.TranslateNewlines | Lab3/lab3.py:236 | universal-newline translation leaves no carriage return and never lengthens the text |
| Utf8.TranslateNoCR | Lab3/lab3.py:236 | text without a carriage return passes through translation unchanged |
| Utf8.TranslateAppend | Lab3/lab3.py:236 | a CR-free prefix passes through translation untouched, ahead of the translated rest |
| Utf8.TranslateKeepsValid | Lab3/lab3.py:236 | translation keeps text valid UTF-8 |
| Utf8.TextModeRead | Lab3/lab3.py:236-244 | reading a file as UTF-8 text and re-encoding it succeeds exactly for valid UTF-8, and gives valid, CR-free bytes no longer than the file |
| Utf8.TextModeReadPlain | Lab3/lab3.py:236-244 | valid UTF-8 without carriage returns is sent exactly as stored |
| Text.LStrip | 1_python_review_files/python_review_files/newco/company.py:68 | `lstrip` drops only whitespace from the front, never more characters than there are, and leaves a non-space first character |
| Text.LStripSuffix | 1_python_review_files/python_review_files/newco/company.py:68 | what `lstrip` leaves is a tail of the original string |
| Text.RStrip | 1_python_review_files/python_review_files/newco/company.py:68 | `rstrip` drops only whitespace from the end, keeps the first character, and leaves a non-space last character |
| Text.RStripPrefix | 1_python_review_files/python_review_files/newco/company.py:68 | what `rstrip` leaves is a head of the original string |
| Text.Strip | 1_python_review_files/python_review_files/newco/company.py:68 | `strip` leaves text that neither starts nor ends with whitespace |
| Text.StripNoop | 1_python_review_files/python_review_files/newco/company.py:88 | text with no surrounding whitespace is its own strip |
| Text.SplitWs | Lab4/lab4_v2.py:45 | `split()` gives non-empty tokens containing no whitespace |
| Text.SplitOn | 1_python_review_files/python_review_files/newco/company.py:89 | `split(',')` gives at least one piece and no piece contains the separator |
| Text.JoinSnoc | Lab3/lab3.py:188 | joining one more name appends the separator and that name |
| Text.SplitJoin | 1_python_review_files/python_review_files/newco/company.py:87-89 | splitting on a separator undoes joining with it when no piece contains it |
| Text.JoinWith | Lab3/lab3.py:188 | `sep.join(items)`: the items in order with sep between neighbours, nothing for no items; its properties are JoinSnoc and SplitJoin |
| Text.Contains | Lab2/Server_Return_Some_Request.py:75 | `sub in s` holds exactly when sub occurs at some position of s |
| Text.NatString | 1_python_review_files/python_review_files/newco/company.py:154 | `str(n)` of n >= 0 is a non-empty string of digits |
| Text.IntString | 1_python_review_files/python_review_files/newco/company.py:154 | `str(n)` is non-empty and has no surrounding whitespace |
| Text.NatStringValue | 1_python_review_files/python_review_files/newco/company.py:88 | the digits of `str(n)` are valid `int()` digits whose value is n |
| Text.ParseIntString | 1_python_review_files/python_review_files/newco/company.py:88 | `int(str(n)) == n` for every integer |
| Text.ParseInt | 1_python_review_files/python_review_files/newco/company.py:88 | base-10 `int(s)`: surrounding whitespace ignored, an optional sign, digits with single underscores between them; None where Python raises ValueError; ParseIntString is its round trip with `str` |
| Wire.RecvStep | Lab3/lab3.py:27 | one `recv(max)` returns at most max bytes |
| Wire.RecvStepSpec | Lab3/lab3.py:27 | the bytes a `recv` returns come off the front of the stream, and the rest of the stream stays as it was |
| Wire.ReadOn | Lab3/lab3.py:18-41 | the reader never sends and never closes the connection |
| Wire.ReadFrom | Lab3/lab3.py:18-41 | a successful read returns exactly the requested count with the timeout disarmed; a failed read returns no data |
| Wire.ReadFromGot | Lab3/lab3.py:26-33 | a `recv` that returns bytes adds them to the result and the loop goes on for the remainder |
| Wire.ReadFromTimedOut | Lab3/lab3.py:38-41 | a timeout fails the read with no data and disarms the timeout |
| Wire.ReadFromClosed | Lab3/lab3.py:29-30 | an empty `recv` fails the read with no data and leaves the 4-second timeout armed |
| Wire.ReadFromSpec | Lab3/lab3.py:18-41 | the read succeeds iff the peer delivers the count before stalling or closing; it then returns the first bytes of the stream in order and the stream resumes after them; a failure returns nothing, disarms the timeout after a stall and keeps it armed after a close |
| Wire.ReadFromEnough | Lab3/lab3.py:23-36 | with enough bytes available, the read returns exactly the first bytes of the stream, however they are split into chunks |
| Wire.ReadFromShort | Lab3/lab3.py:29-41 | with too few bytes available, the read fails and never returns a short success |
| Wire.ReadTwice | Lab3/lab3.py:204-225 | two reads in a row return the concatenation of the stream's first bytes |
| Wire.ResumeStep | Lab3/lab3.py:26-33 | one more chunk grows the collected bytes and leaves the rest of the read to what follows the chunk |
| Wire.Connection.constructor | Lab3/lab3.py:165-167 | an accepted connection starts over the peer's script, with nothing sent, open and blocking |
| Wire.Connection.SetTimeout | Lab3/lab3.py:20 | `settimeout` changes only the timeout |
| Wire.Connection.Recv | Lab3/lab3.py:27 | `recv` consumes what one receive step says and changes nothing else |
| Wire.Connection.SendAll | Lab3/lab3.py:193 | `sendall` appends the bytes to what was sent |
| Wire.Connection.Close | Lab3/lab3.py:260-262 | `close` marks the connection closed |
| Wire.RecvMore | Lab3/lab3.py:27-33 | one `recv` for the missing count either settles the whole read as failed (timeout or empty result) or returns at most the missing count and moves the read on |
| Wire.RecvLoop | Lab3/lab3.py:22-33 | the loop consumes exactly what the reader consumes; it completes with the reader's data iff the reader succeeds, and ends by a close or a timeout exactly as the reader fails |
| Wire.RecvBytes | Lab3/lab3.py:18-41 | `recv_bytes` returns the status, the data and the connection state the reader function gives, for every event script |
| FileSharing.SizedReply | Lab3/lab3.py:243-245 | a reply is the 8-byte size followed by the payload, which sits at offset 8 |
| FileSharing.GetAnswer | Lab3/lab3.py:235-241 | a file is missing exactly when its path is absent; text is sent only for a present file whose text-mode read gives it and whose size fits the field |
| FileSharing.Store | Lab3/lab3.py:303-308 | an upload writes the content verbatim at root/name and nothing else; an empty name fails inside the `try` and leaves the folder unchanged |
| FileSharing.Serve | Lab3/lab3.py:165-181 | handle_tcp_client on one connection: read the 1-byte command (lab3_COMMENT.py closes when that read fails; lab3.py goes on with the empty field, which reads as 0), then dispatch; ServeAgrees relates it to the stream-level Response |
| FileSharing.ServeCommand | Lab3/lab3.py:182-325 | the dispatch: LIST sends the listing, GET and PUT run their branches, BYE sends "Connection closed" without closing, CONNECT and SCAN do nothing, any other code closes |
| FileSharing.ListReply | Lab3/lab3.py:182-198 | the '\n'-joined names after their 8-byte size; nothing when the size does not fit, because the exception is caught |
| FileSharing.ServeGet | Lab3/lab3.py:200-262 | GET field by field: the name length (a short read or 0 closes), the name (a short read closes), UTF-8 decoding (failure crashes), the file (missing closes, unreadable crashes, text is sent size-prefixed and the connection closed) |
| FileSharing.ServePut | Lab3/lab3.py:264-308 | PUT field by field: name length, name, 8-byte size and content; a short read closes, a non-UTF-8 name crashes, a complete upload is stored and nothing is sent |
| FileSharing.NamedGet | Lab3/lab3.py:232-262 | the stream-level GET for a name: crash for a non-UTF-8 name or an unreadable file, close for a missing file, otherwise the sized text and close |
| FileSharing.Response | Lab3/lab3.py:165-325 | the whole protocol as a function of the bytes the client delivers: no command byte closes, otherwise CommandResponse of the first byte and the rest |
| FileSharing.CommandResponse | Lab3/lab3.py:182-325 | the stream-level effect of each command code on the bytes after it, branch for branch as in ServeCommand |
| FileSharing.ServeNamedGetAgrees | Lab3/lab3.py:232-262 | once the name is read, GET's field-by-field handling matches the stream-level protocol |
| FileSharing.LengthField | Lab3/lab3.py:204-211 | the 1-byte length field reads as the next byte of the stream, and fails exactly when the stream is exhausted |
| FileSharing.NameField | Lab3/lab3.py:220-225 | the name read succeeds exactly when the name's bytes are all delivered, and returns them |
| FileSharing.ServeGetNameAgrees | Lab3/lab3.py:211-262 | from the name length on, GET matches the stream-level protocol: a zero length or a short name closes with nothing sent |
| FileSharing.ServeGetAgrees | Lab3/lab3.py:200-262 | GET, read field by field, matches the stream-level protocol for every event script |
| FileSharing.ServePutNameAgrees | Lab3/lab3.py:275-308 | from the name length on, PUT matches the stream-level protocol |
| FileSharing.ServeNamedPutAgrees | Lab3/lab3.py:283-308 | once the name is read, PUT's size and data reads and its write match the stream-level protocol |
| FileSharing.ServePutAgrees | Lab3/lab3.py:264-308 | PUT, read field by field, matches the stream-level protocol for every event script |
| FileSharing.ServeAgrees | Lab3/lab3.py:165-325 | the handler in both variants serves one command exactly as the stream-level protocol says; an unchecked failed command read decodes to 0 and closes with no reply, just as the checked variant does |
| FileSharing.ServeCommandAgrees | Lab3/lab3.py:180-325 | after the command byte, every command is served as the stream-level protocol says |
| FileSharing.RequestFrame | Lab3/lab3.py:474-488 | a name frame exists exactly for names shorter than 256 bytes |
| FileSharing.GetFrame | Lab3/lab3.py:474-488 | the GET frame exists exactly for names shorter than 256 bytes |
| FileSharing.PutFrame | Lab3/lab3.py:586-600 | the PUT frame exists exactly when the name is shorter than 256 bytes and the size fits 8 bytes |
| FileSharing.RequestFrameDecodes | Lab3/lab3.py:474-488 | the server decodes the command and name the client framed, whatever follows them; an empty name is refused |
| FileSharing.PutFrameDecodes | Lab3/lab3.py:586-600 | the server decodes the name and content the client framed, whatever follows them |
| FileSharing.GetRoundTrip | Lab3/lab3.py:474-492 | a GET frame, however it is split into segments, is answered by the lookup of its own name |
| FileSharing.PutRoundTrip | Lab3/lab3.py:586-603 | a PUT frame with a UTF-8 name stores its content under the folder, sends nothing and does not close |
| FileSharing.PutNeverReplies | Lab3/lab3.py:264-308 | PUT sends nothing back, whatever the client delivers |
| FileSharing.OnlyPutWrites | Lab3/lab3.py:165-325 | only a complete PUT changes the folder, and then only by storing that upload |
| FileSharing.GetAlwaysCloses | Lab3/lab3.py:200-262 | GET never changes the folder and closes unless the handler crashed; it sends nothing, or exactly the size-prefixed text of the requested file |
| FileSharing.PutThenGet | Lab3/lab3.py:236-304 | in lab3.py, after a PUT of UTF-8 text without carriage returns, a GET of that name returns exactly that text |
| FileSharing.CheckedGetIgnoresPut | Lab3/lab3_COMMENT.py:195-270 | in lab3_COMMENT.py, GET opens the name as given while PUT writes under the folder, so no upload changes what a GET answers |
| FileSharing.HandleGet | Lab3/lab3.py:200-262 | the GET branch on the connection leaves the connection as the GET function says and crashes exactly when it says |
| FileSharing.HandlePut | Lab3/lab3.py:264-308 | the PUT branch on the connection gives the connection and folder the PUT function says |
| FileSharing.Server.constructor | Lab3/lab3.py:59-62 | a server starts with its variant and its folder |
| FileSharing.Server.HandleTcpClient | Lab3/lab3_COMMENT.py:122-291 | `handle_tcp_client` gives the connection, folder and crash outcome of the handler function for its variant |
| FileSharing.DiscoveryRequest | Lab3/lab3_COMMENT.py:117 | the discovery token is the 17 bytes of "SERVICE DISCOVERY" |
| FileSharing.DiscoveryRequestValid | Lab3/lab3_COMMENT.py:114-117 | the discovery token decodes as UTF-8 |
| FileSharing.Discover | Lab3/lab3_COMMENT.py:113-120 | the service name is sent back iff the datagram is exactly the discovery token |
| FileSharing.ReceiveSizedAgrees | Lab3/lab3_COMMENT.py:446-466 | the client keeps exactly the declared number of bytes after the size field, or nothing and closes when a read fails; it sends nothing |
| FileSharing.SizedRoundTrip | Lab3/lab3.py:496-518 | decoding a size-prefixed reply gives the payload back, whatever follows it |
| FileSharing.GetEndToEnd | Lab3/lab3.py:496-525 | whatever a server GET sends, in any segments, is what the client stores; a refused GET leaves the client nothing |
| FileSharing.ListEndToEnd | Lab3/lab3.py:544-565 | the client's LIST reads back exactly the '\n'-joined names the server sent |
| FileSharing.ReceiveSizedOn | Lab3/lab3_COMMENT.py:446-466 | the client's size-then-data read on the socket does what the sized-receive function says |
| FileSharing.GetFile | Lab3/lab3.py:472-531 | get_file raises before sending iff the name does not fit the length field; otherwise it sends the GET frame and keeps the sized reply |
| FileSharing.RemoteListFiles | Lab3/lab3.py:534-574 | remote_list_files sends LIST and keeps the sized reply |
| FileSharing.PutFiles | Lab3/lab3.py:577-615 | put_files sends nothing for a missing file, raises for text that is not UTF-8 or does not fit the frame, and otherwise sends the PUT frame and waits for 1024 reply bytes, closing if they do not come |
| FileSharing.ByeClient | Lab3/lab3.py:641-656 | bye sends the BYE byte and closes |
| FileSharing.ConnectClient | Lab3/lab3.py:658-668 | connect sends the CONNECT byte |
| FileDownload.ServeDownloadAgrees | Lab3/file_download_protocol.py:153-250 | the handler serves every connection as the GET-only stream protocol says, and never changes the folder |
| FileDownload.ServeDownload | Lab3/file_download_protocol.py:153-250 | connection_handler: read the command; a failed read or any code other than 2 closes; code 2 runs the Lab3 GET branch on the name as given |
| FileDownload.DownloadResponse | Lab3/file_download_protocol.py:153-250 | the same handler as a function of the delivered bytes: no byte or a code other than 2 closes with no reply, code 2 is the as-given GET |
| FileDownload.Lab3GetRefused | Lab3/file_download_protocol.py:171-177 | a Lab3 GET frame (code 1) closes the connection with no reply |
| FileDownload.DownloadRoundTrip | Lab3/file_download_protocol.py:298-313 | the client's request, in any segments, is answered by the lookup of its name as given |
| FileDownload.DownloadServer.constructor | Lab3/file_download_protocol.py:128-130 | the server starts with its folder |
| FileDownload.DownloadServer.ConnectionHandler | Lab3/file_download_protocol.py:153-250 | `connection_handler` gives the connection and crash outcome of the GET-only handler function |
| FileDownload.DownloadFile | Lab3/file_download_protocol.py:286-358 | get_file raises before sending when the name does not fit the length field; otherwise it writes the sized reply when it is UTF-8, leaves the file untouched when a read fails, and leaves it empty and raises when the reply is not UTF-8 |
| FileDownload.DownloadEndToEnd | Lab3/file_download_protocol.py:322-354 | a served file arrives intact at the client, and its decode succeeds |
| StructCodec.EncodeSigned | 6_NetworkMessageTransmission/TCP_send_recv_struct_nbo.py:76 | a signed field of width w is exactly w bytes |
| StructCodec.DecodeEncodeSigned | 6_NetworkMessageTransmission/TCP_send_recv_struct_nbo.py:61 | decoding a two's-complement field gives the encoded value back |
| StructCodec.EncodeDecodeSigned | 6_NetworkMessageTransmission/TCP_send_recv_struct_nbo.py:61 | every field decodes to an in-range value that encodes back to the same bytes |
| StructCodec.Pack | 6_NetworkMessageTransmission/TCP_send_recv_struct_nbo.py:76 | `pack('!hiq')` succeeds iff each value fits its signed range, and then gives 14 bytes |
| StructCodec.Unpack | 6_NetworkMessageTransmission/TCP_send_recv_struct_nbo.py:61 | `unpack('!hiq')` succeeds iff the buffer is exactly 14 bytes |
| StructCodec.UnpackPack | 6_NetworkMessageTransmission/TCP_send_recv_struct_nbo.py:75-76 | unpacking what was packed gives the triple back |
| StructCodec.PackUnpack | 6_NetworkMessageTransmission/TCP_send_recv_struct_nbo.py:61 | every 14-byte buffer is the packing of the triple it unpacks to |
| StructCodec.ClientValues | 6_NetworkMessageTransmission/TCP_send_recv_struct_nbo.py:73-76 | (1, 2, 3) packs to the expected 14 bytes; 32767 fits a short and 32768 does not |
| StructCodec.HandleExactDecodes | 6_NetworkMessageTransmission/TCP_send_recv_struct_nbo.py:60-62 | reading exactly 14 bytes unpacks the client's triple, however it is segmented |
| StructCodec.HandleOneRecv | 6_NetworkMessageTransmission/TCP_send_recv_struct_nbo.py:60-61 | connection_handler as written: `unpack('!hiq')` of whatever one blocking `recv(256)` returns, None for the struct.error; OneRecvSplitFails shows it failing on a split delivery |
| StructCodec.HandleExact | 6_NetworkMessageTransmission/TCP_send_recv_struct_nbo.py:60-61 | the corrected handler: read exactly 14 bytes with recv_bytes, then unpack; HandleExactDecodes proves it decodes any segmentation |
| StructCodec.OneRecvSplitFails | 6_NetworkMessageTransmission/TCP_send_recv_struct_nbo.py:60-61 | the single `recv` fails to unpack the client's bytes when they arrive in two segments, and the exact read decodes them |
| Rooms.MakeRoomSpec | Lab4/lab4_v2.py:54-77 | makeroom changes the directory iff there are four tokens, a 239 address, (v2) a free pair and a new name; it then adds just that room and confirms it |
| Rooms.MakeRoom | Lab4/lab4_v2.py:54-77 | the makeroom branch: usage text unless four parts; raises when the first octet is not an integer; then the 239 check, (v2) the pair check and the name check, in that order; otherwise the room is added and confirmed |
| Rooms.DeleteRoom | Lab4/lab4_v2.py:80-95 | the deleteroom branch: usage text unless two parts; removes the named room and confirms, or reports it missing |
| Rooms.GetInfo | Lab4/lab4_v2.py:97-103 | the v2 getinfo branch: raises without a name; answers the room's address and port, or reports it missing |
| Rooms.ExecuteParts | Lab4/lab4_v2.py:46-111 | execute_command on the split command: raises on an empty split, then dispatches getdir, makeroom, deleteroom, (v2) getinfo and bye, and answers anything else as an invalid command |
| Rooms.Execute | Lab4/lab4_v2.py:44-111 | execute_command: ExecuteParts of the whitespace split of the command |
| Rooms.Serve | Lab4/lab4_v2.py:31-42 | handle_client: each received command is executed and its reply sent, until an empty receive, an undecodable command or an exception ends the session |
| Rooms.RejectionOrder | Lab4/lab4_v2.py:61-73 | an existing room's name, address and port together are reported as a pair in use in v2 and as a duplicate name in v1 |
| Rooms.DeleteRoomSpec | Lab4/lab4_v2.py:80-95 | deleteroom changes the directory iff there are two tokens and the room exists; it removes just that room, otherwise it reports the room missing |
| Rooms.OnlyMakeAndDeleteChange | Lab4/lab4_v2.py:50-111 | getdir, getinfo, bye and unknown commands leave the directory as it was |
| Rooms.RaisesExactly | Lab4/lab4_v2.py:44-103 | a command raises iff it is blank, a four-token makeroom whose first octet is not an integer, or (v2) a getinfo without a name |
| Rooms.RaisesKeepsRooms | Lab4/lab4_v2.py:61-63 | a command that raises changes nothing |
| Rooms.ExecuteKeepsValid | Lab4/lab4_v2.py:61-77 | every command keeps all addresses at first octet 239 and, in v2, all pairs distinct |
| Rooms.V1SharesPairs | Lab4/lab4_v1.py:64-70 | v1 accepts a second room on an existing room's address and port |
| Rooms.MakeThenGetInfo | Lab4/lab4_v2.py:97-101 | getinfo after a successful makeroom answers "address port" |
| Rooms.DeleteThenGetInfo | Lab4/lab4_v2.py:87-103 | getinfo after deleteroom reports the room missing |
| Rooms.V1Unknown | Lab4/lab4_v1.py:88-90 | v1 answers getinfo and bye as invalid commands |
| Rooms.ServeKeepsValid | Lab4/lab4_v2.py:31-42 | a session keeps the directory invariant, sends at most one reply per command and never sends an exception |
| Rooms.ByeKeepsSession | Lab4/lab4_v2.py:105-107 | bye is answered and the session goes on |
| Rooms.ChatRoomServer.constructor | Lab4/lab4_v2.py:9-14 | the server starts with an empty directory |
| Rooms.ChatRoomServer.AddressPortInUse | Lab4/lab4_v2.py:65-68 | the loop finds a room on the pair iff one exists |
| Rooms.ChatRoomServer.ExecuteCommand | Lab4/lab4_v2.py:44-111 | `execute_command` gives the response and new directory of the command function |
| Rooms.ChatRoomServer.HandleClient | Lab4/lab4_v2.py:31-42 | `handle_client` sends the replies and leaves the directory the session function gives |
| ChatClient.SplitFirst | Lab4/lab4_v2.py:142 | `split(maxsplit=1)` gives at most two parts |
| ChatClient.SplitFirstAgrees | Lab4/lab4_v2.py:142 | `split(maxsplit=1)` finds the same first word as `split()`, and a second part iff `split()` finds two or more words |
| ChatClient.StepKeepsValid | Lab4/lab4_v2.py:132-153 | every typed line keeps chat mode and group membership together |
| ChatClient.Step | Lab4/lab4_v2.py:132-153 | one pass of the client loop: the connect, chat and name prefixes are handled first, whatever the mode; in chat mode exit_chat leaves and other lines are multicast; otherwise the line goes to the server |
| ChatClient.MulticastOnlyInChat | Lab4/lab4_v2.py:211-217 | a chat message goes out only in chat mode, as "name: message" to 239.0.0.1:5000; a line that stops the client changes nothing |
| ChatClient.ChatJoinsFixedGroup | Lab4/lab4_v2.py:174-181 | chat joins the fixed group whatever room is named, and shows that room in the prompt |
| ChatClient.ExitChatLeaves | Lab4/lab4_v2.py:145-149 | exit_chat in chat mode leaves the group and restores the prompt; nothing else changes |
| ChatClient.ChatPrefixIntercepted | Lab4/lab4_v2.py:135-140 | in chat mode, a message starting with "chat" that is not two words stops the client instead of being sent |
| ChatClient.ByeClosesLink | Lab4/lab4_v2.py:232-241 | after bye the link is shut with the bye prompt, and a later line that is not connect, chat or name does nothing |
| ChatClient.Client.constructor | Lab4/lab4_v2.py:122-130 | a client starts in command mode with no group and no link |
| ChatClient.Client.SetName | Lab4/lab4_v2.py:170-172 | set_name changes only the display name |
| ChatClient.Client.Connect | Lab4/lab4_v2.py:155-159 | connect opens the link and changes the prompt, and nothing else |
| ChatClient.Client.StartChat | Lab4/lab4_v2.py:174-184 | start_chat enters chat mode on the fixed group |
| ChatClient.Client.LeaveChatRoom | Lab4/lab4_v2.py:206-209 | leave_chat_room drops only the group membership |
| ChatClient.Client.StopChat | Lab4/lab4_v2.py:187-193 | stop_chat leaves chat mode and the group and restores the prompt |
| ChatClient.Client.SendMulticastMessage | Lab4/lab4_v2.py:211-220 | a datagram is sent iff in chat mode with a group; it carries "name: message" to the fixed group |
| ChatClient.Client.SendMessage | Lab4/lab4_v2.py:232-247 | send_message does what the send function says, and reports whether the line reached the server |
| ChatClient.Client.HandleInput | Lab4/lab4_v2.py:132-153 | one pass of `start` gives the state and action of the step function |
| Grades.FirstMatch | Lab2/Server_Return_Some_Request.py:75-99 | the request is dispatched on the first code in test order that it contains |
| Grades.ExtractStudentId | Lab2/Server_Return_Some_Request.py:167-169 | the student number is the request's first seven characters, or all of a shorter one |
| Grades.IdValueIsInt | Lab2/Server_Return_Some_Request.py:105 | `int()` of a valid number is its digits' value |
| Grades.FirstRow | Lab2/Server_Return_Some_Request.py:106-116 | the selection is empty iff no row has the number; otherwise it is the first row that has it |
| Grades.FindEncryptionKey | Lab2/Lab_2_Editted.py:183-189 | the Key of the first row with the number, or None iff there is none |
| Grades.Graded | Lab2/Server_Return_Some_Request.py:114-115 | the reported columns are the table's columns other than Name, ID Number and Key |
| Grades.Items | Lab2/Server_Return_Some_Request.py:114-117 | there is one "column = value" item per reported column |
| Grades.DropLast2 | Lab2/Server_Return_Some_Request.py:118 | `s[:-2]` is two characters shorter, or empty |
| Grades.TerminatedJoin | Lab2/Server_Return_Some_Request.py:117-118 | items each followed by ", " are the joined items plus one ", " |
| Grades.DropTrailingSeparator | Lab2/Server_Return_Some_Request.py:118 | dropping the last two characters leaves exactly the items joined with ", " |
| Grades.ItemsSnoc | Lab2/Server_Return_Some_Request.py:114-117 | one more column adds its item iff it is reported |
| Grades.BuildGradeLine | Lab2/Server_Return_Some_Request.py:113-118 | the GG loop builds the reported items joined with ", " |
| Grades.FirstCodeWins | Lab2/Server_Return_Some_Request.py:75-98 | a request naming an average is answered with it even if it also contains a later code |
| Grades.GradesReply | Lab2/Server_Return_Some_Request.py:99-119 | the GG answer: the invalid-number message, the no-data message with `int()` of the number, or the grade line of the first matching row |
| Grades.Respond | Lab2/Server_Return_Some_Request.py:75-136 | one request to the first server: the first code it contains decides (the averages, then GG); with none, "help" gets the help text and anything else is echoed |
| Grades.Serve | Lab2/Server_Return_Some_Request.py:62-140 | the connection loop: one answer per request until the peer closes; an undecodable request stops the server |
| Grades.GradesReplyCases | Lab2/Server_Return_Some_Request.py:99-119 | GG answers a malformed number, an unknown student and a found student with the three messages |
| Grades.Answer | Lab2/Server_Return_Some_Request.py:75-136 | the handler's answer to one request is the response function's |
| Grades.ServeAnswersAll | Lab2/Server_Return_Some_Request.py:62-138 | until the peer closes, every request gets exactly its one answer |
| Grades.HandleConnection | Lab2/Server_Return_Some_Request.py:51-144 | the connection loop sends the replies and ends as the session function says |
| Grades.IdCheckedFirst | Lab2/Lab_2_Editted.py:74-80 | a malformed number is echoed in the clear, whatever codes the request contains |
| Grades.Decide | Lab2/Lab_2_Editted.py:73-150 | one request to the second server: a malformed number is echoed in the clear, an unknown student closes, a matching code is answered encrypted under the student's key, anything else is echoed |
| Grades.Serve2 | Lab2/Lab_2_Editted.py:62-156 | the second connection loop: Decide's reply per request, ending when the peer closes, an unknown student is met, or an undecodable request stops the server |
| Grades.EncryptedExactly | Lab2/Lab_2_Editted.py:84-150 | an answer is encrypted, under the student's key, iff the number is valid and found and a code matches; the server closes iff the number is valid and unknown |
| Grades.InvalidIdKeepsOpen | Lab2/Lab_2_Editted.py:76-80 | after a malformed number the session goes on as if the request had not come |
| Grades.UnknownStudentCloses | Lab2/Lab_2_Editted.py:84-91 | an unknown student's request ends the session with no answer |
| Grades.Answer2 | Lab2/Lab_2_Editted.py:73-150 | the handler's decision for one request is the decision function's |
| Grades.HandleConnection2 | Lab2/Lab_2_Editted.py:55-156 | the connection loop sends the replies and ends as the session function says |
| Company.ExplicitAdd | 1_python_review_files/python_review_files/newco/company.py:119-120 | a truthy id sets exactly that entry (overwriting) and leaves the allocator alone |
| Company.Add | 1_python_review_files/python_review_files/newco/company.py:115-123 | add_employee: a truthy id is set (overwriting), otherwise the allocator's id is used and moves up; a new key goes to the end of the insertion order |
| Company.Delete | 1_python_review_files/python_review_files/newco/company.py:125-128 | delete_employee: removes a present id from the map and the order, None for an absent one |
| Company.AutoAdd | 1_python_review_files/python_review_files/newco/company.py:121-123 | no id, or id 0, inserts at the allocator and moves it up by one; a fresh allocator overwrites nobody and stays ahead |
| Company.AddKeepsValid | 1_python_review_files/python_review_files/newco/company.py:115-123 | adding keeps the key order an exact listing of the keys |
| Company.DeleteSpec | 1_python_review_files/python_review_files/newco/company.py:125-128 | delete succeeds iff the id is present; it removes exactly that entry and keeps the allocator ahead |
| Company.Universal | 1_python_review_files/python_review_files/newco/company.py:61 | text-mode reading leaves no carriage return |
| Company.ReadLines | 1_python_review_files/python_review_files/newco/company.py:61-68 | `file.readlines()` in text mode: the universal-newline text split at '\n' |
| Company.UniversalNoCr | 1_python_review_files/python_review_files/newco/company.py:61 | text without carriage returns reads back unchanged |
| Company.CleanRecords | 1_python_review_files/python_review_files/newco/company.py:67-69 | cleaning gives non-empty, stripped lines, no more than there were |
| Company.CleanKeeps | 1_python_review_files/python_review_files/newco/company.py:67-69 | lines already clean pass through unchanged |
| Company.CleanIdempotent | 1_python_review_files/python_review_files/newco/company.py:67-69 | cleaning twice is cleaning once |
| Company.CleanKeepsContent | 1_python_review_files/python_review_files/newco/company.py:67-69 | every non-blank line survives cleaning, stripped |
| Company.CollectSpec | 1_python_review_files/python_review_files/newco/company.py:86-92 | parsing all records succeeds iff every record parses, and then gives their entries in order |
| Company.ParseRecord | 1_python_review_files/python_review_files/newco/company.py:87-89 | one record: split at ',', strip the first three fields and `int()` the id; None when there are fewer than three fields or the id does not parse |
| Company.ParseRecords | 1_python_review_files/python_review_files/newco/company.py:86-92 | the list comprehension: every record's entry in order, or None (the `exit()`) when any record fails |
| Company.CollectAll | 1_python_review_files/python_review_files/newco/company.py:87-89 | when every record parses, the list is exactly their entries |
| Company.MaxOf | 1_python_review_files/python_review_files/newco/company.py:51 | `max` of the keys is one of them and no key exceeds it |
| Company.AddAllKeepsValid | 1_python_review_files/python_review_files/newco/company.py:94-111 | adding the parsed entries keeps the key order exact |
| Company.AddAll | 1_python_review_files/python_review_files/newco/company.py:94-111 | create_employee_dictionary: each entry added in order, with its own id |
| Company.Renumbered | 1_python_review_files/python_review_files/newco/company.py:50-53 | the allocator set to 1 + the largest key when there are keys |
| Company.ImportInto | 1_python_review_files/python_review_files/newco/company.py:37-53 | import_employee_database: read, clean and parse the file (an absent file reads as empty), add every entry, then renumber; None when a record fails |
| Company.Import | 1_python_review_files/python_review_files/newco/company.py:17-35 | `Company(name, file)`: the empty registry with allocator 1000, then its import |
| Company.ImportFresh | 1_python_review_files/python_review_files/newco/company.py:37-53 | after an import the allocator is 1 + the largest key, or 1000 with no keys, so it exceeds every key |
| Company.AddAllNonEmpty | 1_python_review_files/python_review_files/newco/company.py:97-106 | adding at least one entry leaves a key |
| Company.RenumberedFresh | 1_python_review_files/python_review_files/newco/company.py:50-53 | setting the allocator to 1 + max puts it ahead of every key |
| Company.RecordLines | 1_python_review_files/python_review_files/newco/company.py:152-157 | there is one record per key |
| Company.Record | 1_python_review_files/python_review_files/newco/company.py:154-156 | one saved line before its newline: `str(id)`, ',', first name, ',', last name |
| Company.SaveText | 1_python_review_files/python_review_files/newco/company.py:153-157 | the saved file: each key's record followed by '\n', in insertion order |
| Company.SaveJoin | 1_python_review_files/python_review_files/newco/company.py:152-157 | the saved file is the records joined by "\n" with a final "\n" |
| Company.IntStringChars | 1_python_review_files/python_review_files/newco/company.py:154 | a printed id holds no comma and no line break |
| Company.RecordFields | 1_python_review_files/python_review_files/newco/company.py:154-156 | a record of savable names splits on ',' into exactly id, first and last name |
| Company.RecordClean | 1_python_review_files/python_review_files/newco/company.py:154-156 | a record of savable names is a non-blank, stripped line without line breaks |
| Company.RecordParses | 1_python_review_files/python_review_files/newco/company.py:87-89 | a record of savable names parses back to its entry |
| Company.IdParses | 1_python_review_files/python_review_files/newco/company.py:88 | `int(str(id).strip()) == id` |
| Company.ParseThreeFields | 1_python_review_files/python_review_files/newco/company.py:87-89 | three fields whose stripped parts are an id and two names parse to that entry |
| Company.RecordLinesAt | 1_python_review_files/python_review_files/newco/company.py:152-157 | record i is the record of the i-th key |
| Company.RecordLinesParse | 1_python_review_files/python_review_files/newco/company.py:67-89 | saved records survive cleaning unchanged and parse back to the registry's entries |
| Company.SaveNoCr | 1_python_review_files/python_review_files/newco/company.py:152-157 | a save of savable names holds no carriage return |
| Company.AddNew | 1_python_review_files/python_review_files/newco/company.py:119-120 | a new non-zero id is appended to the key order |
| Company.AddEntries | 1_python_review_files/python_review_files/newco/company.py:97-106 | adding entries with distinct non-zero ids to an empty registry gives exactly those entries, in that order |
| Company.SaveImport | 1_python_review_files/python_review_files/newco/company.py:146-159 | importing a saved database gives back the same entries in the same order, when no id is 0 and every name is savable |
| Company.SavedRecords | 1_python_review_files/python_review_files/newco/company.py:55-78 | reading and cleaning a save gives back its records |
| Company.SavedLines | 1_python_review_files/python_review_files/newco/company.py:67-68 | the lines of a save are its records and the empty piece after the final newline |
| Company.DistinctCount | 1_python_review_files/python_review_files/newco/company.py:130-132 | a repeat-free key listing is as long as the set of keys |
| Company.Company.constructor | 1_python_review_files/python_review_files/newco/company.py:26-32 | a company starts empty with the allocator at 1000 |
| Company.Company.AddEmployee | 1_python_review_files/python_review_files/newco/company.py:115-123 | add_employee makes the registry the add function's |
| Company.Company.DeleteEmployee | 1_python_review_files/python_review_files/newco/company.py:125-128 | delete_employee succeeds iff the id is present and then gives the delete function's registry; otherwise nothing changes |
| Company.Company.RemoveEmployee | 1_python_review_files/python_review_files/newco/company.py:211-217 | an answer deletes iff it parses to a present id; otherwise nothing changes |
| Company.Company.Size | 1_python_review_files/python_review_files/newco/company.py:130-132 | size is the number of entries, which is the number of saved records |
| Company.Company.SaveDatabase | 1_python_review_files/python_review_files/newco/company.py:146-159 | the save loop writes the save text, record by record |
| Company.Company.CreateEmployeeDictionary | 1_python_review_files/python_review_files/newco/company.py:94-111 | the loop adds each entry in turn |
| Company.Company.ImportEmployeeDatabase | 1_python_review_files/python_review_files/newco/company.py:37-53 | the import succeeds iff every record parses, and then gives the import function's registry; on failure nothing changes |

## Left out

- Real sockets, accept loops, `select`, threads and wall-clock time are not modelled. A connection is a script of peer events. The timeout is a field value. Each command is handled one at a time.
- ChatClient.Client.Connect: a connect always succeeds in the model. In the source, a refused or unresolvable connect raises out of `connect` (Lab4/lab4_v2.py:155-159); that exception is not modelled.
- Socket closing by garbage collection when a handler returns is not modelled. The closed flag records only explicit `close()` calls.
- The Lab3 server startup is not modelled: the handler thread receives a bare socket, `accept` is called on a non-blocking socket, and `SERVICE_NAME` is undefined in lab3.py. The handler is modelled as if called with a (connection, address) pair.
- The filesystem is an abstract map from path to bytes. `os.listdir` is a parameter (its order is the host's). Path joining and traversal are not interpreted.
- An uncaught exception in a handler is modelled as a crashed outcome. Nothing more is sent, and the socket is not explicitly closed.
- The multicast and broadcast sockets are not modelled: group membership, the receive threads, the discovery client and the Lab3 client `scan`. Chat messages are datagram values.
- The directory's `getdir` answer is the directory value itself. Python's `str(dict)` rendering is not modelled.
- Lab2 averages (pandas `mean`) are abstract printed strings, the table is an abstract value, and Fernet encryption is a tagged value. The key's validity and the ciphertext are not modelled.
- Console input loops, argparse role selection, logging and printing are not modelled. This covers the Lab2 clients, `enter_new_employees`, `print_employees` and `get_employee_name_list`.
- The Person class is not part of this model. An employee is a (first, last) pair, so the except branch of `create_employee_dictionary` cannot fire in the model.
- Company.Company.ImportEmployeeDatabase: `exit()` on a malformed record is modelled as a failed import that leaves the registry unchanged.
- FileDownload.DownloadFile: text-mode writing is modelled as writing the decoded text's bytes; platform newline translation on write is not modelled.
- Text.ParseInt: only the ASCII digits 0-9 are accepted. Python's `int()` and `str.isdigit()` also accept other Unicode decimal digits, such as Arabic-Indic ones, so the model rejects text the source accepts. For example, `makeroom r ٢٣٩.0.0.1 5000` passes the 239 check at Lab4/lab4_v2.py:61 but raises in the model. The same gap affects the `connect` port in the chat client, the ids read by the company database parser and by `remove_employee`, and the Lab2 student-number check.
- FileSharing.CheckedGetIgnoresPut: paths as given and paths under the shared folder are always different files in the model. In the source they are the same file when the server runs from the shared folder, or when the name is absolute (`os.path.join` then discards the folder); the lemma holds only for relative names without ".." and a working directory other than the folder.
- Grades.IdCheckedFirst: the number check uses ASCII digits. Python's `str.isdigit()` also accepts digits `int()` rejects, such as '²': a request starting "123456²" passes the check at Lab2/Server_Return_Some_Request.py:101 and Lab2/Lab_2_Editted.py:76, then `int()` raises ValueError, which the per-connection loop does not catch, so the server stops. The model echoes the invalid-number message and goes on instead; GradesReplyCases and InvalidIdKeepsOpen share this gap.
- Company.ImportInto: the file is given already decoded. In the source it is read in text mode with the locale's encoding, and an undecodable file raises outside any `try`; that failure is not modelled.
- Rooms.Serve: every reply is recorded as sent whole. The source replies with `send` (Lab4/lab4_v2.py:38), which may send only a prefix.
- Rooms.RaisesExactly: a command text that is not UTF-8 is modelled at the session level, as an arrival that fails, not inside `execute_command`.

## Findings

| source | as written | input that shows it | evidently intended | confidence | as-written member | corrected member |
|---|---|---|---|---|---|---|
| 6_NetworkMessageTransmission/TCP_send_recv_struct_nbo.py:60-61 | the server unpacks whatever one `recv(256)` returns | the client's 14 packed bytes for (1, 2, 3) arriving as two 7-byte segments: `unpack` raises `struct.error` | read exactly 14 bytes (as `recv_bytes` does in Lab3), then unpack | medium, not executed | StructCodec.OneRecvSplitFails | StructCodec.HandleExactDecodes |
| Lab3/lab3_COMMENT.py:195-270 | GET opens the requested name as given while PUT writes it under the shared folder | PUT of "a.txt" followed by GET of "a.txt" from a working directory other than the folder: the GET finds no file | GET looks the name up under the shared folder, as lab3.py does | medium, not executed | FileSharing.CheckedGetIgnoresPut | FileSharing.PutThenGet |
