/** The lab4_v2.py chat client's console state: the prompt, whether it is
    in chat mode, the multicast group it has joined, its display name, the
    room it says it is in, and its link to the directory server. Each line
    typed at the prompt is one step of `start`'s loop. */
module ChatClient {

  import opened Opt
  import opened Text

  datatype Group = Group(address: string, port: int)

  /** The one group every chat uses, whatever room is named. */
  const ChatGroup := Group("239.0.0.1", 5000)

  const CommandPrompt := "Enter Command > "
  const ConnectedPrompt := "Connected >>>"
  const ByePrompt := "Enter Command >"
  const ExitChat := "exit_chat"
  const DefaultName := "Anonymous"

  /** The largest TCP port; `connect` raises OverflowError above it. */
  const MaxPort := 65535

  function ChatPrompt(room: string): string
  {
    "(" + room + "'s - chatroom) > "
  }

  /** The client's socket to the directory server: none yet, connected,
      or closed after bye. */
  datatype ServerLink = NoServer | Open(ip: string, port: int) | Shut

  datatype ClientState = ClientState(
    prompt: string,
    inChatMode: bool,
    multicast: Option<Group>,
    chatName: string,
    chatRoomName: string,
    server: ServerLink)

  /** A chat message on the wire: "name: message" to the group. */
  datatype Datagram = Datagram(payload: string, to: Group)

  /** What one typed line makes the client do outside itself. Stops is an
      exception that ends the client (a malformed connect, chat or name
      line). */
  datatype Action = ConnectTo(ip: string, port: int) | ToServer(text: string) | Multicast(datagram: Datagram) | Quiet | Stops

  datatype StepResult = StepResult(state: ClientState, action: Action)

  function Initial(): ClientState
  {
    ClientState(CommandPrompt, false, None, DefaultName, "", NoServer)
  }

  /** Chat mode and membership of the group go together, and the only group
      ever joined is the fixed one. */
  predicate Valid(c: ClientState)
  {
    (c.inChatMode <==> c.multicast.Some?) && (c.multicast.Some? ==> c.multicast.value == ChatGroup)
  }

  predicate StartsWith(s: string, prefix: string)
  {
    |prefix| <= |s| && s[..|prefix|] == prefix
  }

  /** `s.split(maxsplit=1)`: the first word and, if anything but whitespace
      follows, the rest with its leading whitespace removed (its trailing
      whitespace kept). */
  function SplitFirst(s: string): (r: seq<string>)
    ensures |r| <= 2
  {
    var t := LStrip(s);
    if t == [] then []
    else
      var k := WordEnd(t);
      var rest := LStrip(t[k..]);
      if rest == [] then [t[..k]] else [t[..k], rest]
  }

  /** `split(maxsplit=1)` finds the same first word as `split()`, and a
      second part exactly when `split()` finds more than one word. */
  lemma SplitFirstAgrees(s: string)
    ensures var r := SplitFirst(s);
      var w := SplitWs(s);
      && (r == [] <==> w == [])
      && (r != [] ==> r[0] == w[0])
      && (|r| == 2 <==> |w| >= 2)
  {
    var t := LStrip(s);
    if t != [] {
      var k := WordEnd(t);
      assert SplitWs(s) == [t[..k]] + SplitWs(t[k..]);
      var u := t[k..];
      if LStrip(u) == [] {
        assert SplitWs(u) == [];
      } else {
        assert SplitWs(u) != [];
      }
    }
  }

  /** start_chat's effect on the state. */
  function Entered(c: ClientState, room: string): ClientState
  {
    c.(chatRoomName := room, multicast := Some(ChatGroup), inChatMode := true, prompt := ChatPrompt(room))
  }

  /** stop_chat's effect on the state. */
  function Exited(c: ClientState): ClientState
  {
    c.(inChatMode := false, prompt := CommandPrompt, multicast := None)
  }

  /** send_multicast_message's datagram, or None where it refuses. */
  function MulticastOf(c: ClientState, message: string): Option<Datagram>
  {
    if !c.inChatMode || c.multicast.None? then None
    else Some(Datagram(c.chatName + ": " + message, ChatGroup))
  }

  /** send_message: only an open socket carries the line; "bye" then
      resets the prompt and closes the socket. A missing or closed socket
      raises inside the method's own handler, so nothing happens. */
  function SendToServer(c: ClientState, command: string): StepResult
  {
    if !c.server.Open? then StepResult(c, Quiet)
    else if command == "bye" then StepResult(c.(prompt := ByePrompt, server := Shut), ToServer(command))
    else StepResult(c, ToServer(command))
  }

  /** One pass of `start`'s loop. The connect, chat and name prefixes are
      tested before chat mode, so they are intercepted in chat mode too. */
  function Step(c: ClientState, command: string): StepResult
  {
    if StartsWith(command, "connect") then
      var parts := SplitWs(command);
      if |parts| != 3 then StepResult(c, Stops)
      else match ParseInt(parts[2])
        case None => StepResult(c, Stops)
        case Some(port) =>
          if port < 0 || port > MaxPort then StepResult(c, Stops)
          else StepResult(c.(server := Open(parts[1], port), prompt := ConnectedPrompt), ConnectTo(parts[1], port))
    else if StartsWith(command, "chat") then
      var parts := SplitWs(command);
      if |parts| != 2 then StepResult(c, Stops)
      else StepResult(Entered(c, parts[1]), Quiet)
    else if StartsWith(command, "name") then
      var parts := SplitFirst(command);
      if |parts| != 2 then StepResult(c, Stops)
      else StepResult(c.(chatName := parts[1]), Quiet)
    else if c.inChatMode then
      if command == ExitChat then StepResult(Exited(c), Quiet)
      else match MulticastOf(c, command)
        case None => StepResult(c, Quiet)
        case Some(d) => StepResult(c, Multicast(d))
    else SendToServer(c, command)
  }

  /** Every line keeps chat mode and group membership together. */
  lemma StepKeepsValid(c: ClientState, command: string)
    requires Valid(c)
    ensures Valid(Step(c, command).state)
  {
  }

  /** A chat message goes out only in chat mode, as "name: message" to
      239.0.0.1:5000; a line that stops the client changes nothing. */
  lemma MulticastOnlyInChat(c: ClientState, command: string)
    ensures var r := Step(c, command);
      && (r.action.Multicast? ==>
            c.inChatMode && r.action.datagram == Datagram(c.chatName + ": " + command, ChatGroup))
      && (r.action.Stops? ==> r.state == c)
  {
  }

  /** Entering a chat joins the fixed group whatever room is named, and
      sets the prompt to that room's. */
  lemma ChatJoinsFixedGroup(c: ClientState, command: string)
    requires StartsWith(command, "chat") && !StartsWith(command, "connect")
    requires |SplitWs(command)| == 2
    ensures var room := SplitWs(command)[1];
      Step(c, command) == StepResult(Entered(c, room), Quiet)
      && Step(c, command).state.multicast == Some(ChatGroup)
      && Step(c, command).state.prompt == ChatPrompt(room)
  {
  }

  /** Typing exit_chat in chat mode leaves the group and restores the
      command prompt; the server link and the name are kept. */
  lemma ExitChatLeaves(c: ClientState)
    requires c.inChatMode
    ensures Step(c, ExitChat) == StepResult(c.(inChatMode := false, prompt := CommandPrompt, multicast := None), Quiet)
  {
    assert !StartsWith(ExitChat, "connect") by {
      assert ExitChat[..7] != "connect" by { assert ExitChat[0] == 'e'; }
    }
    assert !StartsWith(ExitChat, "chat") by {
      assert ExitChat[..4] != "chat" by { assert ExitChat[0] == 'e'; }
    }
    assert !StartsWith(ExitChat, "name") by {
      assert ExitChat[..4] != "name" by { assert ExitChat[0] == 'e'; }
    }
  }

  /** In chat mode a message that happens to start with "chat" but is not
      exactly two words is taken for a malformed chat command and stops the
      client instead of being sent. */
  lemma ChatPrefixIntercepted(c: ClientState, command: string)
    requires c.inChatMode && StartsWith(command, "chat") && |SplitWs(command)| != 2
    ensures Step(c, command) == StepResult(c, Stops)
  {
    ChatLineIsNotConnect(command);
  }

  lemma ChatLineIsNotConnect(command: string)
    requires StartsWith(command, "chat")
    ensures !StartsWith(command, "connect")
  {
    assert command[..4] == "chat";
    assert command[3] == "chat"[3];
  }

  /** After bye the link is closed, so every later line outside chat mode
      is swallowed. */
  lemma ByeClosesLink(c: ClientState, later: string)
    requires c.server.Open? && !c.inChatMode
    requires !StartsWith(later, "connect") && !StartsWith(later, "chat") && !StartsWith(later, "name")
    ensures var s := SendToServer(c, "bye").state;
      s.server == Shut && s.prompt == ByePrompt && Step(s, later) == StepResult(s, Quiet)
  {
  }

  /** The client object; its methods follow the functions above. */
  class Client {
    var prompt: string
    var inChatMode: bool
    var multicast: Option<Group>
    var chatName: string
    var chatRoomName: string
    var server: ServerLink

    function State(): ClientState
      reads this
    {
      ClientState(prompt, inChatMode, multicast, chatName, chatRoomName, server)
    }

    constructor ()
      ensures State() == Initial() && Valid(State())
    {
      prompt, inChatMode, multicast := CommandPrompt, false, None;
      chatName, chatRoomName, server := DefaultName, "", NoServer;
    }

    method SetName(name: string)
      modifies this
      ensures State() == old(State()).(chatName := name)
    {
      chatName := name;
    }

    method Connect(ip: string, port: int)
      modifies this
      ensures State() == old(State()).(server := Open(ip, port), prompt := ConnectedPrompt)
    {
      server := Open(ip, port);
      prompt := ConnectedPrompt;
    }

    method StartChat(room: string)
      modifies this
      ensures State() == Entered(old(State()), room)
    {
      chatRoomName := room;
      multicast := Some(ChatGroup);
      inChatMode := true;
      prompt := ChatPrompt(room);
    }

    method LeaveChatRoom()
      modifies this
      ensures State() == old(State()).(multicast := None)
    {
      if multicast.Some? {
        multicast := None;
      }
    }

    method StopChat()
      modifies this
      ensures State() == Exited(old(State()))
    {
      inChatMode := false;
      prompt := CommandPrompt;
      LeaveChatRoom();
    }

    /** send_multicast_message: refuses unless in chat mode with a group
        joined; otherwise sends "name: message" to 239.0.0.1:5000. */
    method SendMulticastMessage(message: string) returns (sent: Option<Datagram>)
      ensures sent.Some? <==> inChatMode && multicast.Some?
      ensures sent.Some? ==> sent.value.payload == chatName + ": " + message && sent.value.to == ChatGroup
    {
      if !inChatMode || multicast.None? {
        return None;
      }
      return Some(Datagram(chatName + ": " + message, ChatGroup));
    }

    method SendMessage(command: string) returns (sent: bool)
      modifies this
      ensures var r := SendToServer(old(State()), command);
        State() == r.state && sent == r.action.ToServer?
    {
      if !server.Open? {
        return false;
      }
      if command == "bye" {
        prompt := ByePrompt;
        server := Shut;
      }
      return true;
    }

    /** One pass of `start`'s loop for the typed line. */
    method HandleInput(command: string) returns (action: Action)
      modifies this
      ensures StepResult(State(), action) == Step(old(State()), command)
    {
      if StartsWith(command, "connect") {
        var parts := SplitWs(command);
        if |parts| != 3 {
          return Stops;
        }
        var port := ParseInt(parts[2]);
        if port.None? || port.value < 0 || port.value > MaxPort {
          return Stops;
        }
        Connect(parts[1], port.value);
        return ConnectTo(parts[1], port.value);
      } else if StartsWith(command, "chat") {
        var parts := SplitWs(command);
        if |parts| != 2 {
          return Stops;
        }
        StartChat(parts[1]);
        return Quiet;
      } else if StartsWith(command, "name") {
        var parts := SplitFirst(command);
        if |parts| != 2 {
          return Stops;
        }
        SetName(parts[1]);
        return Quiet;
      } else if inChatMode {
        if command == ExitChat {
          StopChat();
          LeaveChatRoom();
          inChatMode := false;
          return Quiet;
        }
        var d := SendMulticastMessage(command);
        if d.None? {
          return Quiet;
        }
        return Multicast(d.value);
      }
      var sent := SendMessage(command);
      return if sent then ToServer(command) else Quiet;
    }
  }
}
