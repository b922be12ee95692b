/** The Lab3 file-sharing protocol: one command per TCP connection, framed
    with big-endian fixed-width fields (a 1-byte command, a 1-byte file-name
    length, an 8-byte file size), served by `handle_tcp_client` in two
    variants: lab3.py, which does not check the status of the command read
    and looks files up under the shared folder, and lab3_COMMENT.py, which
    closes on a failed command read and opens the requested name as given.
    The shared folder is a map from paths to contents. */
module FileSharing {

  import opened Opt
  import opened Bytes
  import opened Text
  import opened Wire
  import opened Utf8

  const CmdFieldLen: nat := 1
  const FilenameSizeFieldLen: nat := 1
  const FilesizeFieldLen: nat := 8

  const CmdGet: byte := 1
  const CmdPut: byte := 2
  const CmdList: byte := 3
  const CmdBye: byte := 5
  const CmdScan: byte := 6
  const CmdConnect: byte := 7

  /** Where a file name points: joined to the shared folder, or taken as a
      path of its own (relative to the server's working directory). */
  datatype Path = InRoot(name: bytes) | AsGiven(name: bytes)

  type Disk = map<Path, bytes>

  /** lab3.py reads the command without checking the status; lab3_COMMENT.py
      checks it. */
  datatype Variant = Unchecked | Checked

  function Resolve(name: bytes, joinRoot: bool): Path
  {
    if joinRoot then InRoot(name) else AsGiven(name)
  }

  /** What one handler run did: the connection afterwards, the folder
      afterwards, and whether it ended in an uncaught exception. */
  datatype Served = Served(link: Link, disk: Disk, crashed: bool)

  function Close(l: Link): Link
  {
    l.(closed := true)
  }

  function Send(l: Link, b: bytes): Link
  {
    l.(sent := l.sent + b)
  }

  /** The 8-byte big-endian size followed by the payload. */
  function SizedReply(p: bytes): (r: bytes)
    requires |p| < Pow256(FilesizeFieldLen)
    ensures |r| == FilesizeFieldLen + |p| && r[FilesizeFieldLen..] == p
  {
    ToBE(|p|, FilesizeFieldLen) + p
  }

  /** The reply to BYE, sent without a size prefix. */
  const ConnectionClosedText: string := "Connection closed"

  function ConnectionClosedBytes(): bytes
  {
    AsciiBytes(ConnectionClosedText)
  }

  // ---------------------------------------------------------------------
  // The folder

  /** What reading a requested file gives: no such file, an exception (the
      content is not UTF-8, or its size does not fit the 8-byte field), or
      the text to send. */
  datatype Answer = Missing | Fails | Text(payload: bytes)

  function GetAnswer(disk: Disk, p: Path): (a: Answer)
    ensures a.Missing? <==> p !in disk
    ensures a.Text? ==> p in disk && TextModeRead(disk[p]) == Some(a.payload)
                        && |a.payload| < Pow256(FilesizeFieldLen)
  {
    if p !in disk then Missing
    else match TextModeRead(disk[p])
      case None => Fails
      case Some(t) => if |t| < Pow256(FilesizeFieldLen) then Text(t) else Fails
  }

  /** An uploaded file. */
  datatype Upload = Upload(name: bytes, content: bytes)

  /** Writing an upload under the shared folder; an empty name names the
      folder itself, the `open` fails and the error is caught. */
  function Store(disk: Disk, u: Upload): (d: Disk)
    ensures u.name == [] ==> d == disk
    ensures u.name != [] ==> InRoot(u.name) in d && d[InRoot(u.name)] == u.content
    ensures forall p :: p != InRoot(u.name) ==> (p in d <==> p in disk)
    ensures forall p :: p in disk && p != InRoot(u.name) ==> d[p] == disk[p]
  {
    if u.name == [] then disk else disk[InRoot(u.name) := u.content]
  }

  // ---------------------------------------------------------------------
  // What the server does, read field by field from the connection

  /** GET after its command byte. */
  function ServeGet(l: Link, disk: Disk, joinRoot: bool): Served
  {
    var r1 := ReadOn(l, FilenameSizeFieldLen);
    if !r1.ok then Served(Close(r1.link), disk, false)
    else ServeGetName(r1.link, FromBE(r1.data), disk, joinRoot)
  }

  /** GET once the name's length n is known: 0 closes, otherwise the name is
      read. */
  function ServeGetName(l: Link, n: nat, disk: Disk, joinRoot: bool): Served
  {
    if n == 0 then Served(Close(l), disk, false)
    else
      var r2 := ReadOn(l, n);
      if !r2.ok then Served(Close(r2.link), disk, false)
      else ServeNamedGet(r2.link, r2.data, disk, joinRoot)
  }

  /** GET once the name has been read: decode it, read the file, reply. */
  function ServeNamedGet(l: Link, name: bytes, disk: Disk, joinRoot: bool): Served
  {
    if !ValidUtf8(name) then Served(l, disk, true)
    else match GetAnswer(disk, Resolve(name, joinRoot))
      case Missing => Served(Close(l), disk, false)
      case Fails => Served(l, disk, true)
      case Text(t) => Served(Close(Send(l, SizedReply(t))), disk, false)
  }

  /** PUT after its command byte. */
  function ServePut(l: Link, disk: Disk): Served
  {
    var r1 := ReadOn(l, FilenameSizeFieldLen);
    if !r1.ok then Served(Close(r1.link), disk, false)
    else ServePutName(r1.link, FromBE(r1.data), disk)
  }

  /** PUT once the name's length n is known: the name is read (an empty one
      included). */
  function ServePutName(l: Link, n: nat, disk: Disk): Served
  {
    var r2 := ReadOn(l, n);
    if !r2.ok then Served(Close(r2.link), disk, false)
    else ServeNamedPut(r2.link, r2.data, disk)
  }

  /** PUT once the name has been read: decode it, then read the 8-byte size
      and the content (the same size-prefixed field a GET reply carries). */
  function ServeNamedPut(l: Link, name: bytes, disk: Disk): Served
  {
    if !ValidUtf8(name) then Served(l, disk, true)
    else
      var (content, l2) := ReceiveSized(l);
      match content
      case None => Served(l2, disk, false)
      case Some(c) => Served(l2, Store(disk, Upload(name, c)), false)
  }

  /** The LIST reply: the names joined with '\n', size-prefixed; when the
      size does not fit the field `to_bytes` raises, the handler catches it
      and nothing is sent. */
  function ListReply(listing: seq<bytes>): bytes
  {
    var p := JoinWith(listing, [LF]);
    if |p| < Pow256(FilesizeFieldLen) then SizedReply(p) else []
  }

  /** handle_tcp_client, for one connection. `listing` is what the host's
      directory enumeration returns. */
  function Serve(v: Variant, l: Link, disk: Disk, listing: seq<bytes>): Served
  {
    var r := ReadOn(l, CmdFieldLen);
    if v == Checked && !r.ok then Served(Close(r.link), disk, false)
    else ServeCommand(v, r.link, FromBE(r.data), disk, listing)
  }

  /** The handler once the command has been read. */
  function ServeCommand(v: Variant, l: Link, cmd: nat, disk: Disk, listing: seq<bytes>): Served
  {
    if cmd == CmdList then Served(Send(l, ListReply(listing)), disk, false)
    else if cmd == CmdGet then ServeGet(l, disk, v == Unchecked)
    else if cmd == CmdPut then ServePut(l, disk)
    else if cmd == CmdBye then Served(Send(l, ConnectionClosedBytes()), disk, false)
    else if cmd == CmdConnect || cmd == CmdScan then Served(l, disk, false)
    else Served(Close(l), disk, false)
  }

  // ---------------------------------------------------------------------
  // The same protocol read off the whole byte stream at once

  /** What a connection amounts to: bytes sent back, whether the server
      closes it, whether the handler crashed, and the folder afterwards. */
  datatype Effect = Effect(reply: bytes, closes: bool, crashed: bool, disk: Disk)

  /** The name of a GET request (after the command byte), or None when the
      stream ends early or the length field is 0. */
  function GetRequestName(a: bytes): Option<bytes>
  {
    if |a| < 1 || a[0] == 0 || |a| < 1 + a[0] as int then None else Some(a[1..1 + a[0] as int])
  }

  /** The name of a PUT request, or None when the stream ends first. */
  function PutName(a: bytes): Option<bytes>
  {
    if |a| < 1 || |a| < 1 + a[0] as int then None else Some(a[1..1 + a[0] as int])
  }

  /** A whole PUT request, or None when the stream ends first. */
  function PutRequest(a: bytes): Option<Upload>
  {
    match PutName(a)
    case None => None
    case Some(name) =>
      match SizedPayload(a[1 + |name|..])
      case None => None
      case Some(c) => Some(Upload(name, c))
  }

  /** GET for a well-formed name. */
  function NamedGet(name: bytes, disk: Disk, joinRoot: bool): Effect
  {
    if !ValidUtf8(name) then Effect([], false, true, disk)
    else match GetAnswer(disk, Resolve(name, joinRoot))
      case Missing => Effect([], true, false, disk)
      case Fails => Effect([], false, true, disk)
      case Text(t) => Effect(SizedReply(t), true, false, disk)
  }

  function GetResponse(a: bytes, disk: Disk, joinRoot: bool): Effect
  {
    match GetRequestName(a)
    case None => Effect([], true, false, disk)
    case Some(name) => NamedGet(name, disk, joinRoot)
  }

  function PutResponse(a: bytes, disk: Disk): Effect
  {
    match PutName(a)
    case None => Effect([], true, false, disk)
    case Some(name) =>
      if !ValidUtf8(name) then Effect([], false, true, disk)
      else match PutRequest(a)
        case None => Effect([], true, false, disk)
        case Some(u) => Effect([], false, false, Store(disk, u))
  }

  /** The protocol as a function of the bytes the client delivers. With no
      command byte at all, both variants close without a reply. */
  function Response(v: Variant, a: bytes, disk: Disk, listing: seq<bytes>): Effect
  {
    if a == [] then Effect([], true, false, disk)
    else CommandResponse(v, a[0], a[1..], disk, listing)
  }

  /** The protocol for command `cmd` followed by the bytes `a`. */
  function CommandResponse(v: Variant, cmd: byte, a: bytes, disk: Disk, listing: seq<bytes>): Effect
  {
    if cmd == CmdList then Effect(ListReply(listing), false, false, disk)
    else if cmd == CmdGet then GetResponse(a, disk, v == Unchecked)
    else if cmd == CmdPut then PutResponse(a, disk)
    else if cmd == CmdBye then Effect(ConnectionClosedBytes(), false, false, disk)
    else if cmd == CmdConnect || cmd == CmdScan then Effect([], false, false, disk)
    else Effect([], true, false, disk)
  }

  /** A handler run from link l produced effect e. */
  predicate Agrees(l: Link, s: Served, e: Effect)
  {
    s.link.sent == l.sent + e.reply && s.link.closed == (l.closed || e.closes)
    && s.crashed == e.crashed && s.disk == e.disk
  }

  lemma FromBEByte(b: bytes)
    requires |b| == 1
    ensures FromBE(b) == b[0]
  {
    assert b[..0] == [];
  }

  lemma ServeNamedGetAgrees(l: Link, name: bytes, disk: Disk, joinRoot: bool)
    ensures Agrees(l, ServeNamedGet(l, name, disk, joinRoot), NamedGet(name, disk, joinRoot))
  {
  }

  /** Reading the 1-byte length field: with a byte available it is that
      byte and the stream goes on after it, otherwise the read fails. */
  lemma LengthField(l: Link)
    ensures var a := Available(l.incoming); var r := ReadOn(l, 1);
      && (r.ok <==> a != [])
      && (r.ok ==> FromBE(r.data) == a[0] && Available(r.link.incoming) == a[1..])
  {
    var a := Available(l.incoming);
    if a != [] {
      ReadFromEnough(l.incoming, 1);
      var r := ReadOn(l, 1);
      FromBEByte(r.data);
      assert r.data == a[..1];
    } else {
      ReadFromShort(l.incoming, 1);
    }
  }

  /** Reading the n name bytes that follow the length field. */
  lemma NameField(l: Link, a: bytes, n: nat)
    requires |a| >= 1 && Available(l.incoming) == a[1..]
    ensures var r := ReadOn(l, n);
      && (r.ok <==> |a| >= 1 + n)
      && (r.ok ==> r.data == a[1..1 + n] && Available(r.link.incoming) == a[1 + n..])
  {
    if |a| >= 1 + n {
      ReadFromEnough(l.incoming, n);
      assert a[1..][..n] == a[1..1 + n];
      assert a[1..][n..] == a[1 + n..];
    } else {
      ReadFromShort(l.incoming, n);
    }
  }

  lemma ServeGetNameAgrees(l: Link, a: bytes, disk: Disk, joinRoot: bool)
    requires |a| >= 1 && Available(l.incoming) == a[1..]
    ensures Agrees(l, ServeGetName(l, a[0], disk, joinRoot), GetResponse(a, disk, joinRoot))
  {
    var n := a[0];
    if n > 0 {
      NameField(l, a, n);
      var r2 := ReadOn(l, n);
      if r2.ok {
        ServeNamedGetAgrees(r2.link, r2.data, disk, joinRoot);
      }
    }
  }

  /** Reading GET field by field does what the stream-level decoding says. */
  lemma ServeGetAgrees(l: Link, disk: Disk, joinRoot: bool)
    ensures Agrees(l, ServeGet(l, disk, joinRoot), GetResponse(Available(l.incoming), disk, joinRoot))
  {
    LengthField(l);
    var r1 := ReadOn(l, FilenameSizeFieldLen);
    if r1.ok {
      ServeGetNameAgrees(r1.link, Available(l.incoming), disk, joinRoot);
    }
  }

  lemma ServePutNameAgrees(l: Link, a: bytes, disk: Disk)
    requires |a| >= 1 && Available(l.incoming) == a[1..]
    ensures Agrees(l, ServePutName(l, a[0], disk), PutResponse(a, disk))
  {
    NameField(l, a, a[0]);
    var r2 := ReadOn(l, a[0]);
    if r2.ok {
      assert PutName(a) == Some(r2.data);
      assert ServePutName(l, a[0], disk) == ServeNamedPut(r2.link, r2.data, disk);
      ServeNamedPutAgrees(r2.link, a, r2.data, disk);
    } else {
      assert PutName(a) == None;
    }
  }

  /** PUT once the name has been read: decoding it and reading the sized
      content does what the stream-level decoding says. */
  lemma ServeNamedPutAgrees(l: Link, a: bytes, name: bytes, disk: Disk)
    requires PutName(a) == Some(name) && Available(l.incoming) == a[1 + |name|..]
    ensures Agrees(l, ServeNamedPut(l, name, disk), PutResponse(a, disk))
  {
    if ValidUtf8(name) {
      ReceiveSizedAgrees(l);
      assert PutRequest(a) == match SizedPayload(Available(l.incoming))
        case None => None
        case Some(c) => Some(Upload(name, c));
    }
  }

  /** Reading PUT field by field does what the stream-level decoding says. */
  lemma ServePutAgrees(l: Link, disk: Disk)
    ensures Agrees(l, ServePut(l, disk), PutResponse(Available(l.incoming), disk))
  {
    LengthField(l);
    var r1 := ReadOn(l, FilenameSizeFieldLen);
    if r1.ok {
      ServePutNameAgrees(r1.link, Available(l.incoming), disk);
    }
  }

  /** handle_tcp_client, in both variants, does for every connection what
      the stream-level protocol says: one command, answered or refused as
      the bytes the client delivered determine. In particular lab3.py's
      unchecked command read (b'' decodes to 0, an unknown command) closes
      without a reply just as lab3_COMMENT.py's explicit check does. */
  lemma ServeAgrees(v: Variant, l: Link, disk: Disk, listing: seq<bytes>)
    ensures Agrees(l, Serve(v, l, disk, listing), Response(v, Available(l.incoming), disk, listing))
  {
    var a := Available(l.incoming);
    LengthField(l);
    var r := ReadOn(l, CmdFieldLen);
    if r.ok {
      ServeCommandAgrees(v, r.link, a[0], disk, listing);
    } else {
      assert FromBE(r.data) == 0;
    }
  }

  /** After the command byte, each command does what the stream-level
      protocol says for it. */
  lemma ServeCommandAgrees(v: Variant, l: Link, cmd: byte, disk: Disk, listing: seq<bytes>)
    ensures Agrees(l, ServeCommand(v, l, cmd, disk, listing), CommandResponse(v, cmd, Available(l.incoming), disk, listing))
  {
    if cmd == CmdGet {
      ServeGetAgrees(l, disk, v == Unchecked);
    } else if cmd == CmdPut {
      ServePutAgrees(l, disk);
    }
  }

  // ---------------------------------------------------------------------
  // Client frames

  /** A request frame naming a file: command, 1-byte name length, name.
      None where `to_bytes` overflows (a name longer than 255 bytes). */
  function RequestFrame(cmd: byte, name: bytes): (f: Option<bytes>)
    ensures f.Some? <==> |name| < 256
  {
    match IntToBytes(|name|, FilenameSizeFieldLen)
    case None => None
    case Some(len) => Some([cmd] + len + name)
  }

  /** The GET request frame. */
  function GetFrame(name: bytes): (f: Option<bytes>)
    ensures f.Some? <==> |name| < 256
  {
    RequestFrame(CmdGet, name)
  }

  /** The PUT request frame: command, 1-byte name length, name, 8-byte
      content size, content. */
  function PutFrame(name: bytes, content: bytes): (f: Option<bytes>)
    ensures f.Some? <==> |name| < 256 && |content| < Pow256(FilesizeFieldLen)
  {
    match IntToBytes(|name|, FilenameSizeFieldLen)
    case None => None
    case Some(len) =>
      match IntToBytes(|content|, FilesizeFieldLen)
      case None => None
      case Some(size) => Some([CmdPut] + len + name + size + content)
  }

  const ListFrame: bytes := [CmdList]
  const ByeFrame: bytes := [CmdBye]
  const ConnectFrame: bytes := [CmdConnect]

  lemma OneByteField(n: nat)
    requires n < 256
    ensures IntToBytes(n, 1) == Some([n])
  {
    var r := IntToBytes(n, 1);
    assert r.Some? && |r.value| == 1;
    FromBEByte(r.value);
  }

  /** The server decodes the name the client framed, whatever follows it. */
  lemma RequestFrameDecodes(cmd: byte, name: bytes, more: bytes)
    requires RequestFrame(cmd, name).Some?
    ensures var f := RequestFrame(cmd, name).value + more;
      f[0] == cmd && (GetRequestName(f[1..]) == if name == [] then None else Some(name))
  {
    OneByteField(|name|);
    var f := RequestFrame(cmd, name).value + more;
    assert f[1..] == [|name|] + name + more;
  }

  /** The server decodes the name and content the client framed. */
  lemma PutFrameDecodes(name: bytes, content: bytes, more: bytes)
    requires PutFrame(name, content).Some?
    ensures var f := PutFrame(name, content).value + more;
      f[0] == CmdPut && PutName(f[1..]) == Some(name)
      && PutRequest(f[1..]) == Some(Upload(name, content))
  {
    OneByteField(|name|);
    var f := PutFrame(name, content).value + more;
    var a := f[1..];
    var n := |name|;
    assert a == [n] + name + (SizedReply(content) + more);
    assert a[1..1 + n] == name;
    assert a[1 + n..] == SizedReply(content) + more;
    SizedRoundTrip(content, more);
  }

  /** A GET frame sent on a fresh connection, however it is split into
      segments, is answered by the lookup of its name. */
  lemma GetRoundTrip(v: Variant, name: bytes, more: bytes, script: seq<Event>, disk: Disk, listing: seq<bytes>)
    requires GetFrame(name).Some? && name != []
    requires Available(script) == GetFrame(name).value + more
    ensures Agrees(Fresh(script), Serve(v, Fresh(script), disk, listing), NamedGet(name, disk, v == Unchecked))
  {
    RequestFrameDecodes(CmdGet, name, more);
    ServeAgrees(v, Fresh(script), disk, listing);
  }

  /** A PUT frame with a UTF-8 name stores its content under the folder,
      with no reply and the connection left open. */
  lemma PutRoundTrip(v: Variant, name: bytes, content: bytes, more: bytes, script: seq<Event>, disk: Disk, listing: seq<bytes>)
    requires PutFrame(name, content).Some? && ValidUtf8(name)
    requires Available(script) == PutFrame(name, content).value + more
    ensures var s := Serve(v, Fresh(script), disk, listing);
      s.link.sent == [] && !s.link.closed && !s.crashed && s.disk == Store(disk, Upload(name, content))
  {
    PutFrameDecodes(name, content, more);
    ServeAgrees(v, Fresh(script), disk, listing);
  }

  /** PUT never sends a reply, whatever the client delivers. */
  lemma PutNeverReplies(v: Variant, l: Link, disk: Disk, listing: seq<bytes>)
    requires var a := Available(l.incoming); a != [] && a[0] == CmdPut
    ensures Serve(v, l, disk, listing).link.sent == l.sent
  {
    ServeAgrees(v, l, disk, listing);
  }

  /** Only a complete PUT changes the folder. */
  lemma OnlyPutWrites(v: Variant, l: Link, disk: Disk, listing: seq<bytes>)
    ensures var a := Available(l.incoming); var s := Serve(v, l, disk, listing);
      s.disk == disk || (a[0] == CmdPut && PutRequest(a[1..]).Some?
                         && s.disk == Store(disk, PutRequest(a[1..]).value))
  {
    ServeAgrees(v, l, disk, listing);
    var a := Available(l.incoming);
    if a != [] {
      if a[0] == CmdGet {
        GetKeepsDisk(a[1..], disk, v == Unchecked);
      } else if a[0] == CmdPut {
        PutResponseDisk(a[1..], disk);
      }
    }
  }

  lemma GetKeepsDisk(a: bytes, disk: Disk, joinRoot: bool)
    ensures GetResponse(a, disk, joinRoot).disk == disk
  {
  }

  lemma PutResponseDisk(a: bytes, disk: Disk)
    ensures var e := PutResponse(a, disk);
      e.disk == disk || (PutRequest(a).Some? && e.disk == Store(disk, PutRequest(a).value))
  {
  }

  /** GET never changes the folder and always closes the connection unless
      the handler crashed; whatever it sends is the size-prefixed text of the
      file the request names. */
  lemma GetAlwaysCloses(v: Variant, l: Link, disk: Disk, listing: seq<bytes>)
    requires var a := Available(l.incoming); a != [] && a[0] == CmdGet
    ensures var s := Serve(v, l, disk, listing);
      s.disk == disk && (s.crashed || s.link.closed)
    ensures var s := Serve(v, l, disk, listing); var q := GetRequestName(Available(l.incoming)[1..]);
      s.link.sent == l.sent
      || (q.Some? && GetAnswer(disk, Resolve(q.value, v == Unchecked)).Text?
          && s.link.sent == l.sent + SizedReply(GetAnswer(disk, Resolve(q.value, v == Unchecked)).payload))
  {
    ServeAgrees(v, l, disk, listing);
  }

  /** lab3.py: after a PUT of UTF-8 text without carriage returns, a GET of
      the same name returns exactly that text. */
  lemma PutThenGet(name: bytes, content: bytes, disk: Disk)
    requires name != [] && ValidUtf8(name)
    requires ValidUtf8(content) && CR !in content && |content| < Pow256(FilesizeFieldLen)
    ensures NamedGet(name, Store(disk, Upload(name, content)), true).reply == SizedReply(content)
  {
    TextModeReadPlain(content);
  }

  /** lab3_COMMENT.py: GET opens the name as given while PUT writes under
      the shared folder, so an upload never changes what a GET answers. */
  lemma CheckedGetIgnoresPut(name: bytes, u: Upload, disk: Disk)
    ensures var before := NamedGet(name, disk, false);
      var after := NamedGet(name, Store(disk, u), false);
      after.reply == before.reply && after.closes == before.closes && after.crashed == before.crashed
  {
    var p := AsGiven(name);
    assert p != InRoot(u.name);
    assert (p in Store(disk, u)) == (p in disk);
  }

  // ---------------------------------------------------------------------
  // The server as an object

  /** GET after its command byte, on the connection. */
  method HandleGet(conn: Connection, disk: Disk, joinRoot: bool) returns (crashed: bool)
    modifies conn
    ensures var s := ServeGet(old(conn.State()), disk, joinRoot);
      conn.State() == s.link && crashed == s.crashed
  {
    var ok, sizeField := RecvBytes(conn, FilenameSizeFieldLen);
    if !ok {
      conn.Close();
      return false;
    }
    var n := FromBE(sizeField);
    if n == 0 {
      conn.Close();
      return false;
    }
    var nameBytes;
    ok, nameBytes := RecvBytes(conn, n);
    if !ok {
      conn.Close();
      return false;
    }
    // The source's second check, for an empty name, cannot fire here:
    // a successful read of n > 0 bytes is never empty.
    if !ValidUtf8(nameBytes) {
      return true;
    }
    var answer := GetAnswer(disk, Resolve(nameBytes, joinRoot));
    match answer
    case Missing =>
      conn.Close();
      return false;
    case Fails =>
      return true;
    case Text(t) =>
      conn.SendAll(SizedReply(t));
      conn.Close();
      return false;
  }

  /** PUT after its command byte, on the connection; returns the folder
      afterwards. */
  method HandlePut(conn: Connection, disk: Disk) returns (newDisk: Disk, crashed: bool)
    modifies conn
    ensures var s := ServePut(old(conn.State()), disk);
      conn.State() == s.link && newDisk == s.disk && crashed == s.crashed
  {
    newDisk, crashed := disk, false;
    var ok, sizeField := RecvBytes(conn, FilenameSizeFieldLen);
    if !ok {
      conn.Close();
      return;
    }
    var nameBytes;
    ok, nameBytes := RecvBytes(conn, FromBE(sizeField));
    if !ok {
      conn.Close();
      return;
    }
    if !ValidUtf8(nameBytes) {
      crashed := true;
      return;
    }
    var content := ReceiveSizedOn(conn);
    if content.Some? {
      newDisk := Store(disk, Upload(nameBytes, content.value));
    }
  }

  class Server {
    const variant: Variant
    var disk: Disk

    constructor (variant: Variant, disk: Disk)
      ensures this.variant == variant && this.disk == disk
    {
      this.variant := variant;
      this.disk := disk;
    }

    /** handle_tcp_client: serves one command on the connection. */
    method HandleTcpClient(conn: Connection, listing: seq<bytes>) returns (crashed: bool)
      modifies this, conn
      ensures var s := Serve(variant, old(conn.State()), old(disk), listing);
        conn.State() == s.link && disk == s.disk && crashed == s.crashed
    {
      ghost var goal := Serve(variant, conn.State(), disk, listing);
      ghost var r := ReadOn(conn.State(), CmdFieldLen);
      var ok, cmdField := RecvBytes(conn, CmdFieldLen);
      if variant == Checked && !ok {
        assert goal == Served(Close(r.link), disk, false);
        conn.Close();
        return false;
      }
      var cmd := FromBE(cmdField);
      assert goal == ServeCommand(variant, conn.State(), cmd, disk, listing);
      crashed := false;
      if cmd == CmdList {
        conn.SendAll(ListReply(listing));
      } else if cmd == CmdGet {
        crashed := HandleGet(conn, disk, variant == Unchecked);
      } else if cmd == CmdPut {
        disk, crashed := HandlePut(conn, disk);
      } else if cmd == CmdBye {
        conn.SendAll(ConnectionClosedBytes());
      } else if cmd == CmdConnect || cmd == CmdScan {
      } else {
        conn.Close();
      }
    }
  }

  // ---------------------------------------------------------------------
  // Service discovery (lab3_COMMENT.py)

  const ServiceName: string := "Zhaobo's File Sharing Service"
  const DiscoveryRequestText: string := "SERVICE DISCOVERY"
  const RecvBufferSize: nat := 1024

  /** What the server does with one datagram: answer with its service name,
      ignore it, or stop (the decode raises and the serving loop exits). */
  datatype Discovery = Respond(reply: bytes) | Ignore | Stop

  function ServiceNameBytes(): bytes
  {
    AsciiBytes(ServiceName)
  }

  function DiscoveryRequest(): (r: bytes)
    ensures |r| == |DiscoveryRequestText|
  {
    AsciiBytes(DiscoveryRequestText)
  }

  lemma DiscoveryRequestValid()
    ensures ValidUtf8(DiscoveryRequest())
  {
    DiscoveryRequestAscii();
    AsciiValid(DiscoveryRequestText);
  }

  lemma DiscoveryRequestAscii()
    ensures IsAscii(DiscoveryRequestText)
  {
  }

  /** message_handler on the first 1024 bytes of a datagram. */
  function Discover(datagram: bytes): (d: Discovery)
    ensures d.Respond? <==> datagram == DiscoveryRequest()
    ensures d.Respond? ==> d.reply == ServiceNameBytes()
  {
    var m := if |datagram| <= RecvBufferSize then datagram else datagram[..RecvBufferSize];
    DiscoveryRequestValid();
    if !ValidUtf8(m) then Stop
    else if m == DiscoveryRequest() then Respond(ServiceNameBytes())
    else Ignore
  }

  // ---------------------------------------------------------------------
  // The client

  /** Reads an 8-byte size and then that many bytes; any failed read closes
      the socket and stores nothing. */
  function ReceiveSized(l: Link): (Option<bytes>, Link)
  {
    var r1 := ReadOn(l, FilesizeFieldLen);
    if !r1.ok then (None, Close(r1.link))
    else
      var r2 := ReadOn(r1.link, FromBE(r1.data));
      if !r2.ok then (None, Close(r2.link)) else (Some(r2.data), r2.link)
  }

  /** A size-prefixed payload at the start of a byte stream. */
  function SizedPayload(a: bytes): Option<bytes>
  {
    if |a| < FilesizeFieldLen then None
    else
      var n := FromBE(a[..FilesizeFieldLen]);
      if |a| < FilesizeFieldLen + n then None else Some(a[FilesizeFieldLen..FilesizeFieldLen + n])
  }

  /** The client keeps exactly the declared number of bytes, or nothing
      (and closes) if the server's bytes end early. */
  lemma ReceiveSizedAgrees(l: Link)
    ensures ReceiveSized(l).0 == SizedPayload(Available(l.incoming))
    ensures ReceiveSized(l).0.None? ==> ReceiveSized(l).1.closed
    ensures ReceiveSized(l).1.sent == l.sent
  {
    var a := Available(l.incoming);
    ReadFromSpec(l.incoming, FilesizeFieldLen);
    var r1 := ReadOn(l, FilesizeFieldLen);
    if r1.ok {
      var n := FromBE(r1.data);
      assert r1.data == a[..FilesizeFieldLen];
      ReadFromSpec(r1.link.incoming, n);
      var r2 := ReadOn(r1.link, n);
      if r2.ok {
        assert r2.data == a[FilesizeFieldLen..][..n] == a[FilesizeFieldLen..FilesizeFieldLen + n];
      }
    }
  }

  /** Decoding a size-prefixed reply gives the payload back. */
  lemma SizedRoundTrip(p: bytes, more: bytes)
    requires |p| < Pow256(FilesizeFieldLen)
    ensures SizedPayload(SizedReply(p) + more) == Some(p)
  {
    var a := SizedReply(p) + more;
    assert a[..FilesizeFieldLen] == ToBE(|p|, FilesizeFieldLen);
    FromToBE(|p|, FilesizeFieldLen);
    assert a[FilesizeFieldLen..FilesizeFieldLen + |p|] == p;
  }

  /** Whatever the server's GET sends, delivered in any segments, is what the
      client stores; a refused GET leaves the client with nothing. */
  lemma GetEndToEnd(e: Effect, back: seq<Event>)
    requires e.reply == [] || exists t :: |t| < Pow256(FilesizeFieldLen) && e.reply == SizedReply(t)
    requires Available(back) == e.reply
    ensures e.reply == [] ==> ReceiveSized(Fresh(back)).0 == None
    ensures forall t :: |t| < Pow256(FilesizeFieldLen) && e.reply == SizedReply(t) ==>
      ReceiveSized(Fresh(back)).0 == Some(t)
  {
    ReceiveSizedAgrees(Fresh(back));
    forall t | |t| < Pow256(FilesizeFieldLen) && e.reply == SizedReply(t)
      ensures ReceiveSized(Fresh(back)).0 == Some(t)
    {
      SizedRoundTrip(t, []);
      assert SizedReply(t) + [] == SizedReply(t);
    }
  }

  /** The client's LIST reads back the joined names the server sent. */
  lemma ListEndToEnd(listing: seq<bytes>, back: seq<Event>)
    requires |JoinWith(listing, [LF])| < Pow256(FilesizeFieldLen)
    requires Available(back) == ListReply(listing)
    ensures ReceiveSized(Fresh(back)).0 == Some(JoinWith(listing, [LF]))
  {
    ReceiveSizedAgrees(Fresh(back));
    SizedRoundTrip(JoinWith(listing, [LF]), []);
    assert ListReply(listing) + [] == ListReply(listing);
  }

  /** Client side of a size-prefixed reply, on the socket. */
  method ReceiveSizedOn(conn: Connection) returns (stored: Option<bytes>)
    modifies conn
    ensures (stored, conn.State()) == ReceiveSized(old(conn.State()))
  {
    var ok, sizeBytes := RecvBytes(conn, FilesizeFieldLen);
    if !ok {
      conn.Close();
      return None;
    }
    // The source's check for an empty size field cannot fire here.
    var data;
    ok, data := RecvBytes(conn, FromBE(sizeBytes));
    if !ok {
      conn.Close();
      return None;
    }
    return Some(data);
  }

  /** Client get_file (both Lab3 variants): sends the GET frame and keeps the
      reply's payload, written to the local file verbatim. A name that does
      not fit the length field raises before anything is sent. */
  method GetFile(conn: Connection, name: bytes) returns (saved: Option<bytes>, crashed: bool)
    modifies conn
    ensures crashed <==> |name| >= 256
    ensures crashed ==> saved == None && conn.State() == old(conn.State())
    ensures !crashed ==>
      (saved, conn.State()) == ReceiveSized(Send(old(conn.State()), GetFrame(name).value))
  {
    var frame := GetFrame(name);
    if frame.None? {
      return None, true;
    }
    conn.SendAll(frame.value);
    saved := ReceiveSizedOn(conn);
    crashed := false;
  }

  /** Client remote_list_files: sends LIST and reads the size-prefixed names. */
  method RemoteListFiles(conn: Connection) returns (names: Option<bytes>)
    modifies conn
    ensures (names, conn.State()) == ReceiveSized(Send(old(conn.State()), ListFrame))
  {
    conn.SendAll(ListFrame);
    names := ReceiveSizedOn(conn);
  }

  /** Client put_files. `local` is the file's bytes, None if it does not
      exist (nothing is sent). The file is read in text mode; a read error
      or a name or size that does not fit its field raises. After sending,
      the client waits for up to 1024 bytes of reply and closes if they do
      not come. */
  method PutFiles(conn: Connection, local: Option<bytes>, baseName: bytes) returns (crashed: bool)
    modifies conn
    ensures local.None? ==> !crashed && conn.State() == old(conn.State())
    ensures local.Some? && TextModeRead(local.value).None? ==> crashed && conn.State() == old(conn.State())
    ensures local.Some? && TextModeRead(local.value).Some? ==>
      var text := TextModeRead(local.value).value;
      if PutFrame(baseName, text).None? then crashed && conn.State() == old(conn.State())
      else
        var r := ReadOn(Send(old(conn.State()), PutFrame(baseName, text).value), RecvBufferSize);
        conn.State() == (if r.ok then r.link else Close(r.link))
        && crashed == (r.ok && !ValidUtf8(r.data))
  {
    if local.None? {
      return false;
    }
    var text := TextModeRead(local.value);
    if text.None? {
      return true;
    }
    var frame := PutFrame(baseName, text.value);
    if frame.None? {
      return true;
    }
    conn.SendAll(frame.value);
    var ok, response := RecvBytes(conn, RecvBufferSize);
    if !ok {
      conn.Close();
      return false;
    }
    crashed := !ValidUtf8(response);
  }

  /** Client bye: sends BYE and closes its socket. */
  method ByeClient(conn: Connection)
    modifies conn
    ensures conn.State() == Close(Send(old(conn.State()), ByeFrame))
  {
    conn.SendAll(ByeFrame);
    conn.Close();
  }

  /** Client connect: sends CONNECT. */
  method ConnectClient(conn: Connection)
    modifies conn
    ensures conn.State() == Send(old(conn.State()), ConnectFrame)
  {
    conn.SendAll(ConnectFrame);
  }
}
