/** The Lab4 chat-room directory server (CRDS). A client sends one text
    command per `recv`; `execute_command` splits it on whitespace and
    creates, deletes, looks up or lists chat rooms in a directory mapping a
    room name to its multicast address and port, both kept as the strings
    the client typed. lab4_v1.py is the earlier server (no address/port
    uniqueness, no getinfo or bye); lab4_v2.py the later one. */
module Rooms {

  import opened Opt
  import opened Text

  datatype Room = Room(address: string, port: string)

  type Directory = map<string, Room>

  datatype Version = V1 | V2

  /** The texts execute_command answers with. */
  datatype Reply =
    | MakeRoomUsage
    | InvalidAddress
    | PairInUse
    | RoomExists
    | Created(v: Version, name: string, address: string, port: string)
    | DeleteRoomUsage
    | Deleted(name: string)
    | RoomNotFound
    | Info(room: Room)
    | Disconnected
    | InvalidCommand

  /** What execute_command produces: a reply, the directory itself
      (`str(self.chat_rooms)`, whose exact rendering is not modelled), or
      an exception (IndexError, ValueError) that ends the client's
      session. */
  datatype Response = Say(reply: Reply) | Listing(rooms: Directory) | Raises

  datatype Outcome = Outcome(response: Response, rooms: Directory)

  /** The first octet every room address must have: 239, the
      administratively scoped IPv4 multicast block (section 6 of RFC 2365). */
  const ScopedOctet: int := 239

  /** The text a reply is sent as. v1 confirms a new room with "create",
      v2 with "created"; getinfo's answer is "address port". */
  function ReplyText(r: Reply): string
  {
    match r
    case MakeRoomUsage => "Invalid makeroom command. Usage: makeroom <name> <address> <port>"
    case InvalidAddress => "Invalid multicast address. Must be in the range 239.0.0.0 to 239.255.255.255"
    case PairInUse => "Address and port combination is already in use for another chat room."
    case RoomExists => "Chat room already exists."
    case Created(v, name, address, port) =>
      "Chat room " + name + (if v == V1 then " create" else " created") + " with address " + address + " and port " + port
    case DeleteRoomUsage => " Invalid deleteroom command. Usage: deleteroom <name>"
    case Deleted(name) => "Chat room " + name + " deleted"
    case RoomNotFound => "Chat room not found"
    case Info(room) => room.address + " " + room.port
    case Disconnected => "Client disconnected"
    case InvalidCommand => "Invalid command"
  }

  /** `int(address.split('.')[0])`; None where int() raises. Only the first
      component is looked at. */
  function FirstOctet(address: string): Option<int>
  {
    ParseInt(SplitOn(address, '.')[0])
  }

  predicate InUse(rooms: Directory, address: string, port: string)
  {
    Room(address, port) in rooms.Values
  }

  /** The makeroom branch, given the command's whitespace-separated parts. */
  function MakeRoom(v: Version, rooms: Directory, parts: seq<string>): Outcome
  {
    if |parts| != 4 then Outcome(Say(MakeRoomUsage), rooms)
    else
      var name, address, port := parts[1], parts[2], parts[3];
      match FirstOctet(address)
      case None => Outcome(Raises, rooms)
      case Some(o) =>
        if o != ScopedOctet then Outcome(Say(InvalidAddress), rooms)
        else if v == V2 && InUse(rooms, address, port) then Outcome(Say(PairInUse), rooms)
        else if name in rooms then Outcome(Say(RoomExists), rooms)
        else Outcome(Say(Created(v, name, address, port)), rooms[name := Room(address, port)])
  }

  function DeleteRoom(rooms: Directory, parts: seq<string>): Outcome
  {
    if |parts| != 2 then Outcome(Say(DeleteRoomUsage), rooms)
    else if parts[1] in rooms then Outcome(Say(Deleted(parts[1])), rooms - {parts[1]})
    else Outcome(Say(RoomNotFound), rooms)
  }

  /** v2's getinfo: `parts[1]` raises when the name is missing; further
      parts are ignored. */
  function GetInfo(rooms: Directory, parts: seq<string>): Outcome
  {
    if |parts| < 2 then Outcome(Raises, rooms)
    else if parts[1] in rooms then Outcome(Say(Info(rooms[parts[1]])), rooms)
    else Outcome(Say(RoomNotFound), rooms)
  }

  /** execute_command on the split command. An empty split (a command of
      whitespace only) raises at `parts[0]`. */
  function ExecuteParts(v: Version, rooms: Directory, parts: seq<string>): Outcome
  {
    if parts == [] then Outcome(Raises, rooms)
    else if parts[0] == "getdir" then Outcome(Listing(rooms), rooms)
    else if parts[0] == "makeroom" then MakeRoom(v, rooms, parts)
    else if parts[0] == "deleteroom" then DeleteRoom(rooms, parts)
    else if v == V2 && parts[0] == "getinfo" then GetInfo(rooms, parts)
    else if v == V2 && parts[0] == "bye" then Outcome(Say(Disconnected), rooms)
    else Outcome(Say(InvalidCommand), rooms)
  }

  function Execute(v: Version, rooms: Directory, command: string): Outcome
  {
    ExecuteParts(v, rooms, SplitWs(command))
  }

  // ---------------------------------------------------------------------
  // What the directory promises

  /** Every room's address has first octet 239. */
  predicate Scoped(rooms: Directory)
  {
    forall n :: n in rooms ==> FirstOctet(rooms[n].address) == Some(ScopedOctet)
  }

  /** No two rooms share an (address, port) pair. */
  predicate Distinct(rooms: Directory)
  {
    forall m, n :: m in rooms && n in rooms && m != n ==> rooms[m] != rooms[n]
  }

  /** The directory invariant each server keeps: v1 only the address
      check, v2 also distinct pairs. */
  predicate Valid(v: Version, rooms: Directory)
  {
    Scoped(rooms) && (v == V2 ==> Distinct(rooms))
  }

  /** makeroom changes the directory exactly when the command has four
      parts, the address's first component is 239, (in v2) the pair is
      free and the name is new; it then adds just that room. */
  lemma MakeRoomSpec(v: Version, rooms: Directory, parts: seq<string>)
    requires |parts| >= 1 && parts[0] == "makeroom"
    ensures var o := ExecuteParts(v, rooms, parts);
      && (o.rooms != rooms <==>
            |parts| == 4 && FirstOctet(parts[2]) == Some(ScopedOctet)
            && (v == V2 ==> !InUse(rooms, parts[2], parts[3])) && parts[1] !in rooms)
      && (o.rooms != rooms ==>
            o.rooms == rooms[parts[1] := Room(parts[2], parts[3])]
            && o.response == Say(Created(v, parts[1], parts[2], parts[3])))
  {
    assert ExecuteParts(v, rooms, parts) == MakeRoom(v, rooms, parts);
    if |parts| == 4 && parts[1] !in rooms {
      assert parts[1] in rooms[parts[1] := Room(parts[2], parts[3])];
    }
  }

  /** The rejections come in a fixed order: address, then (v2) pair, then
      name. So in v2 re-creating an existing room with its own address and
      port reports the pair in use, not the name. */
  lemma RejectionOrder(rooms: Directory, name: string)
    requires name in rooms && FirstOctet(rooms[name].address) == Some(ScopedOctet)
    ensures ExecuteParts(V2, rooms, ["makeroom", name, rooms[name].address, rooms[name].port])
      == Outcome(Say(PairInUse), rooms)
    ensures ExecuteParts(V1, rooms, ["makeroom", name, rooms[name].address, rooms[name].port])
      == Outcome(Say(RoomExists), rooms)
  {
    assert rooms[name] in rooms.Values;
  }

  /** A name can be reused only through deleteroom, which removes just that
      room; a missing room is reported and nothing changes. */
  lemma DeleteRoomSpec(v: Version, rooms: Directory, parts: seq<string>)
    requires |parts| >= 1 && parts[0] == "deleteroom"
    ensures var o := ExecuteParts(v, rooms, parts);
      && (o.rooms != rooms <==> |parts| == 2 && parts[1] in rooms)
      && (o.rooms != rooms ==> o.rooms == rooms - {parts[1]} && o.response == Say(Deleted(parts[1])))
      && (|parts| == 2 && parts[1] !in rooms ==> o.response == Say(RoomNotFound))
  {
    if |parts| == 2 && parts[1] in rooms {
      assert parts[1] !in rooms - {parts[1]};
    }
  }

  /** Only makeroom and deleteroom change the directory; getdir, getinfo,
      bye and everything else leave it as it was. */
  lemma OnlyMakeAndDeleteChange(v: Version, rooms: Directory, parts: seq<string>)
    requires parts == [] || (parts[0] != "makeroom" && parts[0] != "deleteroom")
    ensures ExecuteParts(v, rooms, parts).rooms == rooms
  {
  }

  /** execute_command raises exactly on a blank command, on a well-formed
      makeroom whose first address component is not an integer, and on a
      v2 getinfo without a name. */
  lemma RaisesExactly(v: Version, rooms: Directory, parts: seq<string>)
    ensures ExecuteParts(v, rooms, parts).response.Raises? <==>
      || parts == []
      || (parts[0] == "makeroom" && |parts| == 4 && FirstOctet(parts[2]).None?)
      || (v == V2 && parts[0] == "getinfo" && |parts| < 2)
  {
  }

  /** A command that raises has changed nothing. */
  lemma RaisesKeepsRooms(v: Version, rooms: Directory, parts: seq<string>)
    requires ExecuteParts(v, rooms, parts).response.Raises?
    ensures ExecuteParts(v, rooms, parts).rooms == rooms
  {
  }

  /** Every command keeps the directory invariant of its server. */
  lemma ExecuteKeepsValid(v: Version, rooms: Directory, parts: seq<string>)
    requires Valid(v, rooms)
    ensures Valid(v, ExecuteParts(v, rooms, parts).rooms)
  {
    var o := ExecuteParts(v, rooms, parts);
    if parts != [] && parts[0] == "makeroom" {
      MakeRoomSpec(v, rooms, parts);
      if o.rooms != rooms && v == V2 {
        forall m, n | m in o.rooms && n in o.rooms && m != n
          ensures o.rooms[m] != o.rooms[n]
        {
          if m == parts[1] {
            assert rooms[n] in rooms.Values;
          } else if n == parts[1] {
            assert rooms[m] in rooms.Values;
          }
        }
      }
    } else if parts != [] && parts[0] == "deleteroom" {
      DeleteRoomSpec(v, rooms, parts);
    } else {
      OnlyMakeAndDeleteChange(v, rooms, parts);
    }
  }

  /** v1 has no pair check: from any valid directory, a second room on an
      existing room's address and port is created, and the result breaks
      the uniqueness v2 keeps. */
  lemma V1SharesPairs(rooms: Directory, existing: string, name: string)
    requires Valid(V1, rooms) && existing in rooms && name !in rooms
    ensures var r := rooms[existing];
      var o := ExecuteParts(V1, rooms, ["makeroom", name, r.address, r.port]);
      o.rooms == rooms[name := r] && !Distinct(o.rooms)
  {
    var r := rooms[existing];
    var o := ExecuteParts(V1, rooms, ["makeroom", name, r.address, r.port]);
    assert o.rooms[name] == o.rooms[existing];
  }

  /** getinfo after a successful makeroom answers with the new room's
      address and port; after deleteroom it reports the room missing. */
  lemma MakeThenGetInfo(rooms: Directory, name: string, address: string, port: string)
    requires ExecuteParts(V2, rooms, ["makeroom", name, address, port]).rooms != rooms
    ensures var o := ExecuteParts(V2, rooms, ["makeroom", name, address, port]);
      ExecuteParts(V2, o.rooms, ["getinfo", name]).response == Say(Info(Room(address, port)))
  {
    MakeRoomSpec(V2, rooms, ["makeroom", name, address, port]);
  }

  lemma DeleteThenGetInfo(rooms: Directory, name: string)
    requires name in rooms
    ensures var o := ExecuteParts(V2, rooms, ["deleteroom", name]);
      ExecuteParts(V2, o.rooms, ["getinfo", name]).response == Say(RoomNotFound)
  {
    DeleteRoomSpec(V2, rooms, ["deleteroom", name]);
  }

  /** v1 answers getinfo and bye as unknown commands. */
  lemma V1Unknown(rooms: Directory, parts: seq<string>)
    requires |parts| >= 1 && (parts[0] == "getinfo" || parts[0] == "bye")
    ensures ExecuteParts(V1, rooms, parts) == Outcome(Say(InvalidCommand), rooms)
  {
  }

  // ---------------------------------------------------------------------
  // One client's session (handle_client)

  /** What one `recv(1024).decode()` yields: text, or bytes that are not
      UTF-8 (decode raises). Running out of arrivals is the peer closing. */
  datatype Arrival = Received(text: string) | Undecodable

  /** The replies sent, the directory afterwards, and whether the session
      ended on an exception rather than on the peer closing. The server
      closes the socket in both cases. */
  datatype Session = Session(replies: seq<Response>, rooms: Directory, failed: bool)

  /** handle_client: execute and answer each command until an empty read
      (the peer closed) or an exception. */
  function Serve(v: Version, rooms: Directory, arrivals: seq<Arrival>): Session
    decreases |arrivals|
  {
    if arrivals == [] then Session([], rooms, false)
    else match arrivals[0]
      case Undecodable => Session([], rooms, true)
      case Received(t) =>
        if t == "" then Session([], rooms, false)
        else
          var o := Execute(v, rooms, t);
          if o.response.Raises? then Session([], rooms, true)
          else Continue([o.response], Serve(v, o.rooms, arrivals[1..]))
  }

  /** Puts replies already sent in front of the rest of a session. */
  function Continue(sent: seq<Response>, s: Session): Session
  {
    s.(replies := sent + s.replies)
  }

  /** A session keeps the directory invariant, sends at most one reply per
      arrival and never sends an exception as a reply. */
  lemma {:induction false} ServeKeepsValid(v: Version, rooms: Directory, arrivals: seq<Arrival>)
    requires Valid(v, rooms)
    ensures var s := Serve(v, rooms, arrivals);
      Valid(v, s.rooms) && |s.replies| <= |arrivals|
      && forall i :: 0 <= i < |s.replies| ==> !s.replies[i].Raises?
    decreases |arrivals|
  {
    if arrivals != [] && arrivals[0].Received? && arrivals[0].text != "" {
      var o := Execute(v, rooms, arrivals[0].text);
      ExecuteKeepsValid(v, rooms, SplitWs(arrivals[0].text));
      if !o.response.Raises? {
        ServeKeepsValid(v, o.rooms, arrivals[1..]);
      }
    }
  }

  /** bye is answered but does not end the session: the client may go on. */
  lemma ByeKeepsSession(rooms: Directory, command: string, rest: seq<Arrival>)
    requires command != "" && |SplitWs(command)| >= 1 && SplitWs(command)[0] == "bye"
    ensures Serve(V2, rooms, [Received(command)] + rest)
      == Continue([Say(Disconnected)], Serve(V2, rooms, rest))
  {
    assert Execute(V2, rooms, command) == Outcome(Say(Disconnected), rooms);
    assert ([Received(command)] + rest)[1..] == rest;
  }

  lemma ContinueContinue(a: seq<Response>, b: seq<Response>, s: Session)
    ensures Continue(a, Continue(b, s)) == Continue(a + b, s)
  {
    assert a + (b + s.replies) == a + b + s.replies;
  }

  /** The CRDS: the directory is the server's one piece of mutable state. */
  class ChatRoomServer {
    const version: Version
    var rooms: Directory

    constructor (version: Version)
      ensures this.version == version && rooms == map[]
    {
      this.version := version;
      rooms := map[];
    }

    /** The loop over `self.chat_rooms.values()` looking for a room on the
        same address and port. */
    method AddressPortInUse(address: string, port: string) returns (inUse: bool)
      ensures inUse <==> InUse(rooms, address, port)
    {
      var names := rooms.Keys;
      while names != {}
        invariant names <= rooms.Keys
        invariant forall n :: n in rooms.Keys - names ==> rooms[n] != Room(address, port)
        decreases |names|
      {
        var n :| n in names;
        if rooms[n].address == address && rooms[n].port == port {
          return true;
        }
        names := names - {n};
      }
      return false;
    }

    /** execute_command */
    method ExecuteCommand(command: string) returns (response: Response)
      modifies this
      ensures Outcome(response, rooms) == Execute(version, old(rooms), command)
    {
      var parts := SplitWs(command);
      if parts == [] {
        return Raises;
      }
      var cmd := parts[0];
      if cmd == "getdir" {
        return Listing(rooms);
      } else if cmd == "makeroom" {
        if |parts| != 4 {
          return Say(MakeRoomUsage);
        }
        var name, address, port := parts[1], parts[2], parts[3];
        var octet := FirstOctet(address);
        if octet.None? {
          return Raises;
        }
        if octet.value != ScopedOctet {
          return Say(InvalidAddress);
        }
        if version == V2 {
          var inUse := AddressPortInUse(address, port);
          if inUse {
            return Say(PairInUse);
          }
        }
        if name in rooms {
          return Say(RoomExists);
        }
        rooms := rooms[name := Room(address, port)];
        return Say(Created(version, name, address, port));
      } else if cmd == "deleteroom" {
        if |parts| != 2 {
          return Say(DeleteRoomUsage);
        }
        var name := parts[1];
        if name in rooms {
          rooms := rooms - {name};
          return Say(Deleted(name));
        }
        return Say(RoomNotFound);
      } else if version == V2 && cmd == "getinfo" {
        if |parts| < 2 {
          return Raises;
        }
        var name := parts[1];
        if name in rooms {
          return Say(Info(rooms[name]));
        }
        return Say(RoomNotFound);
      } else if version == V2 && cmd == "bye" {
        return Say(Disconnected);
      }
      return Say(InvalidCommand);
    }

    /** handle_client: read, execute and answer until the peer closes or a
        command raises; the socket is then closed. */
    method HandleClient(arrivals: seq<Arrival>) returns (replies: seq<Response>, failed: bool)
      modifies this
      ensures Session(replies, rooms, failed) == Serve(version, old(rooms), arrivals)
    {
      replies := [];
      var i := 0;
      while i < |arrivals|
        invariant 0 <= i <= |arrivals|
        invariant Serve(version, old(rooms), arrivals) == Continue(replies, Serve(version, rooms, arrivals[i..]))
        decreases |arrivals| - i
      {
        var arrival := arrivals[i];
        assert arrivals[i..][0] == arrival && arrivals[i..][1..] == arrivals[i + 1..];
        if arrival.Undecodable? {
          assert replies + [] == replies;
          assert Session(replies, rooms, true) == Serve(version, old(rooms), arrivals);
          return replies, true;
        }
        if arrival.text == "" {
          assert replies + [] == replies;
          assert Session(replies, rooms, false) == Serve(version, old(rooms), arrivals);
          return replies, false;
        }
        ghost var before := rooms;
        var response := ExecuteCommand(arrival.text);
        if response.Raises? {
          RaisesKeepsRooms(version, before, SplitWs(arrival.text));
          assert rooms == before;
          assert Serve(version, before, arrivals[i..]) == Session([], before, true);
          assert replies + [] == replies;
          assert Session(replies, rooms, true) == Serve(version, old(rooms), arrivals);
          return replies, true;
        }
        assert Serve(version, before, arrivals[i..]) == Continue([response], Serve(version, rooms, arrivals[i + 1..]));
        ContinueContinue(replies, [response], Serve(version, rooms, arrivals[i + 1..]));
        replies := replies + [response];
        i := i + 1;
      }
      assert arrivals[i..] == [] && replies + [] == replies;
      assert Session(replies, rooms, false) == Serve(version, old(rooms), arrivals);
      return replies, false;
    }
  }
}
