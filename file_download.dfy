/** file_download_protocol.py: the same framing as the Lab3 file-sharing
    protocol, cut down to a single command. GET has code 2 here; the server
    opens the requested name as given; the client decodes the reply as
    UTF-8 text before writing it. */
module FileDownload {

  import opened Opt
  import opened Bytes
  import opened Wire
  import opened Utf8
  import opened FileSharing

  /** The only command of this protocol. */
  const DownloadGet: byte := 2

  /** connection_handler, for one connection. */
  function ServeDownload(l: Link, disk: Disk): Served
  {
    var r := ReadOn(l, CmdFieldLen);
    if !r.ok then Served(Close(r.link), disk, false)
    else if FromBE(r.data) != DownloadGet then Served(Close(r.link), disk, false)
    else ServeGet(r.link, disk, false)
  }

  /** The protocol as a function of the bytes the client delivers: anything
      but a GET is refused by closing without a reply. */
  function DownloadResponse(a: bytes, disk: Disk): Effect
  {
    if a == [] || a[0] != DownloadGet then Effect([], true, false, disk)
    else GetResponse(a[1..], disk, false)
  }

  /** The handler does for every connection what the stream-level protocol
      says; the folder is never changed. */
  lemma ServeDownloadAgrees(l: Link, disk: Disk)
    ensures Agrees(l, ServeDownload(l, disk), DownloadResponse(Available(l.incoming), disk))
    ensures ServeDownload(l, disk).disk == disk
  {
    var a := Available(l.incoming);
    ReadFromSpec(l.incoming, CmdFieldLen);
    var r := ReadOn(l, CmdFieldLen);
    if r.ok {
      FromBEByte(r.data);
      assert Available(r.link.incoming) == a[1..];
      if a[0] == DownloadGet {
        ServeGetAgrees(r.link, disk, false);
      }
    }
  }

  /** The lab3.py GET code (1) is not a command of this protocol: a Lab3
      GET frame is refused. */
  lemma Lab3GetRefused(name: bytes, more: bytes, disk: Disk)
    requires GetFrame(name).Some?
    ensures DownloadResponse(GetFrame(name).value + more, disk) == Effect([], true, false, disk)
  {
    RequestFrameDecodes(CmdGet, name, more);
  }

  /** The client's request, delivered in any segments, is answered by the
      lookup of the name as given. */
  lemma DownloadRoundTrip(name: bytes, more: bytes, script: seq<Event>, disk: Disk)
    requires RequestFrame(DownloadGet, name).Some? && name != []
    requires Available(script) == RequestFrame(DownloadGet, name).value + more
    ensures Agrees(Fresh(script), ServeDownload(Fresh(script), disk), NamedGet(name, disk, false))
  {
    RequestFrameDecodes(DownloadGet, name, more);
    ServeDownloadAgrees(Fresh(script), disk);
  }

  class DownloadServer {
    var disk: Disk

    constructor (disk: Disk)
      ensures this.disk == disk
    {
      this.disk := disk;
    }

    /** connection_handler: one GET per connection, anything else closed. */
    method ConnectionHandler(conn: Connection) returns (crashed: bool)
      modifies conn
      ensures var s := ServeDownload(old(conn.State()), disk);
        conn.State() == s.link && crashed == s.crashed
    {
      var ok, cmdField := RecvBytes(conn, CmdFieldLen);
      if !ok {
        conn.Close();
        return false;
      }
      if FromBE(cmdField) != DownloadGet {
        conn.Close();
        return false;
      }
      crashed := HandleGet(conn, disk, false);
    }
  }

  /** What the client leaves in its download file: untouched, or the bytes
      it wrote. */
  datatype Saved = Untouched | Written(text: bytes)

  /** Client get_file: sends the request, reads the size-prefixed reply and
      writes it as UTF-8 text. The file is opened (and so emptied) before
      the reply is decoded, so a reply that is not UTF-8 leaves an empty
      file behind and raises. */
  method DownloadFile(conn: Connection, name: bytes) returns (saved: Saved, crashed: bool)
    modifies conn
    ensures |name| >= 256 ==> crashed && saved == Untouched && conn.State() == old(conn.State())
    ensures |name| < 256 ==>
      var (got, l) := ReceiveSized(Send(old(conn.State()), RequestFrame(DownloadGet, name).value));
      conn.State() == l
      && (got.None? ==> saved == Untouched && !crashed)
      && (got.Some? && ValidUtf8(got.value) ==> saved == Written(got.value) && !crashed)
      && (got.Some? && !ValidUtf8(got.value) ==> saved == Written([]) && crashed)
  {
    var frame := RequestFrame(DownloadGet, name);
    if frame.None? {
      return Untouched, true;
    }
    conn.SendAll(frame.value);
    var got := ReceiveSizedOn(conn);
    if got.None? {
      return Untouched, false;
    }
    if !ValidUtf8(got.value) {
      return Written([]), true;
    }
    return Written(got.value), false;
  }

  /** End to end: a file the server serves arrives intact, and since the
      server read it as UTF-8 text, the client's decode succeeds and it
      writes exactly that text. */
  lemma DownloadEndToEnd(name: bytes, disk: Disk, back: seq<Event>)
    requires GetAnswer(disk, AsGiven(name)).Text?
    requires Available(back) == SizedReply(GetAnswer(disk, AsGiven(name)).payload)
    ensures var t := GetAnswer(disk, AsGiven(name)).payload;
      ReceiveSized(Fresh(back)).0 == Some(t) && ValidUtf8(t)
  {
    var t := GetAnswer(disk, AsGiven(name)).payload;
    ReceiveSizedAgrees(Fresh(back));
    SizedRoundTrip(t, []);
    assert SizedReply(t) + [] == SizedReply(t);
  }
}
