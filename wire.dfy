/** A stream connection seen from one end, without real sockets: what the
    peer will deliver (chunks of bytes, an idle period longer than the
    timeout, or an orderly close), the bytes this end has sent, whether this
    end has closed it, and the socket's timeout setting. `recv_bytes`, the
    byte-exact reader every Lab3 exchange goes through, is modelled here. */
module Wire {

  import opened Opt
  import opened Bytes

  /** SOCKET_TIMEOUT: the idle timeout, in seconds, recv_bytes arms. */
  const SocketTimeout: nat := 4

  /** A non-empty delivery; an empty `recv` result only ever means "closed". */
  type Chunk = c: bytes | |c| > 0 witness [0]

  /** What the peer does next. Running out of events reads as Closed. */
  datatype Event = Data(chunk: Chunk) | Timeout | Closed

  /** The value-level state of a connection. */
  datatype Link = Link(incoming: seq<Event>, sent: bytes, closed: bool, timeout: Option<nat>)

  /** A fresh accepted (or connected) socket over the peer's script. */
  function Fresh(script: seq<Event>): Link
  {
    Link(script, [], false, None)
  }

  /** The bytes the peer delivers before it stalls or closes, in order. */
  function Available(inc: seq<Event>): bytes
  {
    if inc == [] || !inc[0].Data? then [] else inc[0].chunk + Available(inc[1..])
  }

  /** After its available bytes the peer stalls (rather than closes). */
  predicate StallsAfter(inc: seq<Event>)
  {
    if inc == [] then false
    else if inc[0].Data? then StallsAfter(inc[1..])
    else inc[0].Timeout?
  }

  /** What one `recv` call produces: bytes (empty when the peer closed) or
      a `socket.timeout` exception. */
  datatype Received = Got(data: bytes) | TimedOut

  datatype Step = Step(got: Received, rest: seq<Event>)

  /** One `recv(max)`: at most max bytes of the next chunk (the remainder
      stays queued), an empty result at a close, the exception at a stall. */
  function RecvStep(inc: seq<Event>, max: nat): (s: Step)
    requires max >= 1
    ensures s.got.Got? ==> |s.got.data| <= max
  {
    if inc == [] || inc[0].Closed? then Step(Got([]), inc)
    else if inc[0].Timeout? then Step(TimedOut, inc[1..])
    else
      var c := inc[0].chunk;
      if max < |c| then Step(Got(c[..max]), [Data(c[max..])] + inc[1..])
      else Step(Got(c), inc[1..])
  }

  /** A `recv` that returns bytes takes them off the front of the stream and
      leaves the rest of it, and what follows it, as it was. */
  lemma RecvStepSpec(inc: seq<Event>, max: nat)
    requires max >= 1
    ensures var s := RecvStep(inc, max);
      && (s.got.Got? && s.got.data != [] ==> s.got.data + Available(s.rest) == Available(inc))
      && (s.got.Got? ==> StallsAfter(s.rest) == StallsAfter(inc))
  {
    if inc != [] && inc[0].Data? {
      var c := inc[0].chunk;
      if max < |c| {
        var rest := [Data(c[max..])] + inc[1..];
        assert rest[1..] == inc[1..];
        assert Available(rest) == c[max..] + Available(inc[1..]);
        assert c[..max] + c[max..] == c;
      }
    }
  }

  /** The result of recv_bytes: status, data, and what is left of the
      connection (the events not yet consumed and the timeout setting). */
  datatype Read = Read(ok: bool, data: bytes, rest: seq<Event>, timeout: Option<nat>)

  /** recv_bytes(sock, need) as a function of the peer's events. */
  function ReadFrom(inc: seq<Event>, need: nat): (r: Read)
    ensures r.ok ==> |r.data| == need && r.timeout == None
    ensures !r.ok ==> r.data == []
    decreases need
  {
    if need == 0 then Read(true, [], inc, None)
    else
      var s := RecvStep(inc, need);
      match s.got
      case TimedOut => Read(false, [], s.rest, None)
      case Got(d) =>
        if d == [] then Read(false, [], s.rest, Some(SocketTimeout))
        else Resume(d, ReadFrom(s.rest, need - |d|))
  }

  /** Prefixes bytes already collected to the outcome of the rest of a read. */
  function Resume(acc: bytes, r: Read): Read
  {
    if r.ok then Read(true, acc + r.data, r.rest, None) else r
  }

  /** One `recv` that returns bytes, then the read of the rest. */
  lemma ReadFromGot(inc: seq<Event>, need: nat)
    requires need > 0
    requires RecvStep(inc, need).got.Got? && RecvStep(inc, need).got.data != []
    ensures var s := RecvStep(inc, need);
      ReadFrom(inc, need) == Resume(s.got.data, ReadFrom(s.rest, need - |s.got.data|))
  {
  }

  /** A `recv` that times out fails the read and disarms the timeout. */
  lemma ReadFromTimedOut(inc: seq<Event>, need: nat)
    requires need > 0 && RecvStep(inc, need).got.TimedOut?
    ensures ReadFrom(inc, need) == Read(false, [], RecvStep(inc, need).rest, None)
  {
  }

  /** An empty `recv` (the peer closed) fails the read with the timeout left
      armed. */
  lemma ReadFromClosed(inc: seq<Event>, need: nat)
    requires need > 0 && RecvStep(inc, need).got == Got([])
    ensures ReadFrom(inc, need) == Read(false, [], RecvStep(inc, need).rest, Some(SocketTimeout))
  {
  }

  /** recv_bytes succeeds exactly when the peer delivers `need` bytes before
      stalling or closing; it then returns the first `need` bytes of the
      stream, in order, and the stream resumes right after them. On failure
      it returns no data; a stall disarms the timeout, a close leaves the
      4-second timeout armed. */
  lemma ReadFromSpec(inc: seq<Event>, need: nat)
    ensures var r := ReadFrom(inc, need);
      && (r.ok <==> need <= |Available(inc)|)
      && (r.ok ==> r.data == Available(inc)[..need]
                   && Available(r.rest) == Available(inc)[need..]
                   && StallsAfter(r.rest) == StallsAfter(inc))
      && (!r.ok ==> r.timeout == if StallsAfter(inc) then None else Some(SocketTimeout))
  {
    if need <= |Available(inc)| {
      ReadFromEnough(inc, need);
    } else {
      ReadFromShort(inc, need);
    }
  }

  /** With `need` bytes available the read returns exactly them. */
  lemma {:induction false} ReadFromEnough(inc: seq<Event>, need: nat)
    requires need <= |Available(inc)|
    ensures var r := ReadFrom(inc, need);
      r.ok && r.data == Available(inc)[..need] && Available(r.rest) == Available(inc)[need..] &&
      StallsAfter(r.rest) == StallsAfter(inc)
    decreases need
  {
    if need > 0 {
      var s := RecvStep(inc, need);
      var d := s.got.data;
      var a := Available(inc);
      var b := Available(s.rest);
      RecvStepSpec(inc, need);
      assert s.got.Got? && d != [];
      assert a == d + b;
      ReadFromEnough(s.rest, need - |d|);
      ReadFromGot(inc, need);
      assert a[..need] == d + b[..need - |d|];
      assert a[need..] == b[need - |d|..];
    }
  }

  /** With fewer than `need` bytes available the read fails with no data; a
      stall disarms the timeout, a close leaves it armed. */
  lemma {:induction false} ReadFromShort(inc: seq<Event>, need: nat)
    requires need > |Available(inc)|
    ensures var r := ReadFrom(inc, need);
      !r.ok && r.timeout == if StallsAfter(inc) then None else Some(SocketTimeout)
    decreases need
  {
    var s := RecvStep(inc, need);
    RecvStepSpec(inc, need);
    if s.got.TimedOut? {
      ReadFromTimedOut(inc, need);
      assert StallsAfter(inc);
    } else if s.got.data == [] {
      ReadFromClosed(inc, need);
      assert !StallsAfter(inc);
    } else {
      var d := s.got.data;
      assert Available(inc) == d + Available(s.rest);
      ReadFromShort(s.rest, need - |d|);
      ReadFromGot(inc, need);
    }
  }

  /** Two reads in a row read the concatenation. */
  lemma ReadTwice(inc: seq<Event>, m: nat, n: nat)
    requires m + n <= |Available(inc)|
    ensures var r1 := ReadFrom(inc, m);
      var r2 := ReadFrom(r1.rest, n);
      r1.ok && r2.ok && r1.data + r2.data == Available(inc)[..m + n]
  {
    ReadFromEnough(inc, m);
    var r1 := ReadFrom(inc, m);
    ReadFromEnough(r1.rest, n);
    PrefixOfSum(Available(inc), m, n);
  }

  /** The first m + n elements are the first m followed by the next n. */
  lemma PrefixOfSum<T>(a: seq<T>, m: nat, n: nat)
    requires m + n <= |a|
    ensures a[..m + n] == a[..m] + a[m..][..n]
  {
  }

  /** The connection as an object: the socket a handler reads from, sends
      on, closes and sets the timeout of. */
  class Connection {
    var incoming: seq<Event>
    var sent: bytes
    var closed: bool
    var timeout: Option<nat>

    function State(): Link
      reads this
    {
      Link(incoming, sent, closed, timeout)
    }

    constructor (script: seq<Event>)
      ensures State() == Fresh(script)
    {
      incoming, sent, closed, timeout := script, [], false, None;
    }

    /** `sock.settimeout(t)`; None is blocking mode. */
    method SetTimeout(t: Option<nat>)
      modifies this
      ensures incoming == old(incoming) && sent == old(sent) && closed == old(closed)
      ensures timeout == t
    {
      timeout := t;
    }

    /** `sock.recv(max)` while a timeout is armed. */
    method Recv(max: nat) returns (got: Received)
      requires max >= 1 && timeout.Some?
      modifies this
      ensures RecvStep(old(incoming), max) == Step(got, incoming)
      ensures sent == old(sent) && closed == old(closed) && timeout == old(timeout)
    {
      var s := RecvStep(incoming, max);
      got, incoming := s.got, s.rest;
    }

    /** `sock.sendall(b)` */
    method SendAll(b: bytes)
      modifies this
      ensures State() == old(State()).(sent := old(sent) + b)
    {
      sent := sent + b;
    }

    /** `sock.close()` */
    method Close()
      modifies this
      ensures State() == old(State()).(closed := true)
    {
      closed := true;
    }
  }

  /** Resuming with nothing collected is the read itself. */
  lemma ResumeNothing(r: Read)
    requires r.ok ==> r.timeout == None
    ensures Resume([], r) == r
  {
    if r.ok {
      assert [] + r.data == r.data;
    }
  }

  /** Resuming twice is resuming once with both prefixes. */
  lemma ResumeResume(acc: bytes, d: bytes, r: Read)
    ensures Resume(acc, Resume(d, r)) == Resume(acc + d, r)
  {
    if r.ok {
      assert acc + (d + r.data) == acc + d + r.data;
    }
  }

  /** One more chunk received: the bytes collected so far grow by it and the
      rest of the read continues after it. */
  lemma ResumeStep(whole: Read, acc: bytes, before: seq<Event>, k: nat, d: bytes, rest: seq<Event>)
    requires whole == Resume(acc, ReadFrom(before, k))
    requires k > 0 && RecvStep(before, k) == Step(Got(d), rest) && d != []
    ensures |d| <= k && whole == Resume(acc + d, ReadFrom(rest, k - |d|))
  {
    ReadFromGot(before, k);
    ResumeResume(acc, d, ReadFrom(rest, k - |d|));
  }

  /** recv_bytes on a link, as a value: status, data and the new link. */
  datatype LinkRead = LinkRead(ok: bool, data: bytes, link: Link)

  function ReadOn(l: Link, need: nat): (r: LinkRead)
    ensures r.link.sent == l.sent && r.link.closed == l.closed
  {
    var r := ReadFrom(l.incoming, need);
    LinkRead(r.ok, r.data, l.(incoming := r.rest, timeout := r.timeout))
  }

  /** How the body of recv_bytes' `try` ends: with all the bytes, with an
      empty `recv` (the peer closed), or with `socket.timeout` raised. */
  datatype Outcome = Complete(data: bytes) | PeerClosed | Raised

  /** One `recv` for the `k` bytes still missing, and what it means for the
      whole read `goal`, of which `acc` has arrived so far: a timeout or an
      empty result settles it as failed, bytes move it on. */
  method RecvMore(conn: Connection, k: nat, ghost goal: Read, ghost acc: bytes) returns (got: Received)
    requires k >= 1 && conn.timeout.Some?
    requires goal == Resume(acc, ReadFrom(conn.incoming, k))
    modifies conn
    ensures conn.sent == old(conn.sent) && conn.closed == old(conn.closed)
    ensures conn.timeout == old(conn.timeout)
    ensures got.TimedOut? ==> goal == Read(false, [], conn.incoming, None)
    ensures got == Got([]) ==> goal == Read(false, [], conn.incoming, Some(SocketTimeout))
    ensures got.Got? && got.data != [] ==>
      |got.data| <= k && goal == Resume(acc + got.data, ReadFrom(conn.incoming, k - |got.data|))
  {
    ghost var before := conn.incoming;
    got := conn.Recv(k);
    if got.TimedOut? {
      ReadFromTimedOut(before, k);
    } else if got.data == [] {
      ReadFromClosed(before, k);
    } else {
      ResumeStep(goal, acc, before, k, got.data, conn.incoming);
    }
  }

  /** The `recv` loop: call `recv` for the bytes still missing until
      `target` bytes have arrived, stopping at the first empty `recv` or
      timeout. It consumes exactly what ReadFrom consumes and fails exactly
      when ReadFrom does, in the same way. */
  method RecvLoop(conn: Connection, target: nat) returns (out: Outcome)
    requires conn.timeout.Some?
    modifies conn
    ensures var r := ReadFrom(old(conn.incoming), target);
      && conn.incoming == r.rest
      && (out.Complete? <==> r.ok) && (out.Complete? ==> out.data == r.data)
      && (out.Raised? <==> !r.ok && r.timeout == None)
      && (out.PeerClosed? <==> !r.ok && r.timeout == Some(SocketTimeout))
    ensures conn.sent == old(conn.sent) && conn.closed == old(conn.closed)
    ensures conn.timeout == old(conn.timeout)
  {
    ghost var goal := ReadFrom(conn.incoming, target);
    ResumeNothing(goal);
    var count: nat := 0;
    var acc: bytes := [];
    while count < target
      invariant count == |acc| <= target
      invariant conn.sent == old(conn.sent) && conn.closed == old(conn.closed)
      invariant conn.timeout == old(conn.timeout)
      invariant goal == Resume(acc, ReadFrom(conn.incoming, target - count))
      decreases target - count
    {
      var got := RecvMore(conn, target - count, goal, acc);
      if got.TimedOut? {
        return Raised;
      }
      if got.data == [] {
        return PeerClosed;
      }
      count := count + |got.data|;
      acc := acc + got.data;
    }
    return Complete(acc);
  }

  /** recv_bytes: arm the 4-second timeout and run the `recv` loop; all
      bytes arriving disarms the timeout and succeeds, a timeout disarms it
      and fails, an empty `recv` (peer closed) fails with the timeout still
      armed. */
  method RecvBytes(conn: Connection, target: nat) returns (ok: bool, data: bytes)
    modifies conn
    ensures var r := ReadOn(old(conn.State()), target);
      ok == r.ok && data == r.data && conn.State() == r.link
  {
    conn.SetTimeout(Some(SocketTimeout));
    var out := RecvLoop(conn, target);
    match out {
      case Complete(d) =>
        conn.SetTimeout(None);
        return true, d;
      case PeerClosed =>
        return false, [];
      case Raised =>
        conn.SetTimeout(None);
        return false, [];
    }
  }
}
