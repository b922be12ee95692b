/** The Lab2 grade-request servers. A request is text such as
    "1803933GMA": a 7-digit student number followed by a command code.
    Server_Return_Some_Request.py dispatches on the first code the request
    contains and only checks the number for GG; Lab_2_Editted.py checks the
    number first, closes the connection for an unknown student and
    encrypts every answer to a command with that student's key. The grade
    table is abstract: its column order, its rows (student number and the
    text each cell prints as) and the printed class averages. */
module Grades {

  import opened Opt
  import opened Text

  /** One row of the table: the "ID Number" value and, for every column,
      the text its value prints as. */
  datatype Row = Row(id: int, cells: map<string, string>)

  /** means[i] is the printed average for Codes[i], i < 6. */
  datatype Table = Table(columns: seq<string>, rows: seq<Row>, means: seq<string>)

  /** The command codes in the order the servers test for them. */
  const Codes: seq<string> := ["GMA", "GL1A", "GL2A", "GL3A", "GL4A", "GEA", "GG"]
  const AverageCount: nat := 6
  const GradesIndex: nat := 6

  /** What the average replies call each average. */
  const AverageTitles: seq<string> := ["Midterm", "Lab 1", "Lab 2", "Lab 3", "Lab 4", "Exam"]

  const StudentIdLength: nat := 7
  const IdColumn := "ID Number"
  const KeyColumn := "Key"
  const NameColumn := "Name"

  const HelpText :=
    "\nstudent number is referring as 7 digits number, \n"
    + "the format should be STUDENT_ID+GMA/GEA/GL1A/GL2A/GL3A/GL4A/GG (e.x. 1803933GMA) \n"
    + "GMA is average midterm grade \nGEA is average exam grade \nGL1A is average Lab1 grade \n"
    + "GG is your personal grade\n... \nGive a try right now!\n\n"

  /** The table has the averages and a cell for every column in every row. */
  predicate WellFormed(t: Table)
  {
    |t.means| == AverageCount
    && forall r, c :: r in t.rows && c in t.columns ==> c in r.cells
  }

  /** What goes back on the connection: text, or a Fernet token of text
      under a student's key (encryption is not modelled). */
  datatype Out = Plain(text: string) | Encrypted(key: string, text: string)

  // ---------------------------------------------------------------------
  // Parsing a request

  /** The index of the first code s contains, or |codes| if none. */
  function FirstMatch(s: string, codes: seq<string>): (k: nat)
    ensures k <= |codes|
    ensures forall j :: 0 <= j < k ==> !Contains(s, codes[j])
    ensures k < |codes| ==> Contains(s, codes[k])
  {
    if codes == [] then 0
    else if Contains(s, codes[0]) then 0
    else 1 + FirstMatch(s, codes[1..])
  }

  function Classify(s: string): nat
  {
    FirstMatch(s, Codes)
  }

  /** extract_student_id: the first seven characters (fewer if the request
      is shorter). */
  function ExtractStudentId(s: string): (id: string)
    ensures |id| == if |s| < StudentIdLength then |s| else StudentIdLength
    ensures s == id + s[|id|..]
  {
    if |s| < StudentIdLength then s else s[..StudentIdLength]
  }

  /** `len(id) == 7 and id.isdigit()` */
  predicate ValidId(id: string)
  {
    |id| == StudentIdLength && AllDigits(id)
  }

  /** `int(id)` for a valid number: leading zeros do not count. */
  function IdValue(id: string): nat
    requires ValidId(id)
  {
    DigitsValue(id)
  }

  /** A valid number's value is what int() makes of it. */
  lemma IdValueIsInt(id: string)
    requires ValidId(id)
    ensures ParseInt(id) == Some(IdValue(id) as int)
  {
    assert IsDigit(id[0]) && IsDigit(id[|id| - 1]);
    assert !IsSpace(id[0]) && !IsSpace(id[|id| - 1]);
    StripNoop(id);
    assert id[0] != '-' && id[0] != '+';
    assert DigitBody(id);
  }

  // ---------------------------------------------------------------------
  // Looking a student up

  /** i is the first row with the number. */
  predicate FirstWith(rows: seq<Row>, id: int, i: int)
  {
    0 <= i < |rows| && rows[i].id == id && forall j :: 0 <= j < i ==> rows[j].id != id
  }

  /** `data[data['ID Number'] == id].iloc[0]`: the first row with the
      number, or None when the selection is empty. */
  function FirstRow(rows: seq<Row>, id: int): (r: Option<Row>)
    ensures r.None? <==> forall i :: 0 <= i < |rows| ==> rows[i].id != id
    ensures r.Some? ==> exists i :: FirstWith(rows, id, i) && rows[i] == r.value
  {
    if rows == [] then None
    else if rows[0].id == id then assert FirstWith(rows, id, 0); Some(rows[0])
    else
      var r := FirstRow(rows[1..], id);
      assert r.Some? ==> exists i :: FirstWith(rows, id, i) && rows[i] == r.value by {
        if r.Some? {
          var i :| FirstWith(rows[1..], id, i) && rows[1..][i] == r.value;
          assert FirstWith(rows, id, i + 1) by {
            forall j | 0 <= j < i + 1
              ensures rows[j].id != id
            {
              if j > 0 {
                assert rows[j] == rows[1..][j - 1];
              }
            }
          }
          assert rows[i + 1] == r.value;
        }
      }
      r
  }

  /** find_encryption_key: the Key cell of the first row with the number,
      or None when there is none. */
  function FindEncryptionKey(t: Table, id: int): (key: Option<string>)
    requires WellFormed(t) && KeyColumn in t.columns
    ensures key.None? <==> FirstRow(t.rows, id).None?
    ensures key.Some? ==> key.value == FirstRow(t.rows, id).value.cells[KeyColumn]
  {
    match FirstRow(t.rows, id)
    case None => None
    case Some(row) => Some(row.cells[KeyColumn])
  }

  // ---------------------------------------------------------------------
  // The GG line

  predicate Excluded(c: string)
  {
    c == NameColumn || c == IdColumn || c == KeyColumn
  }

  /** The columns GG reports, in table order. */
  function Graded(cols: seq<string>): (g: seq<string>)
    ensures forall c :: c in g <==> c in cols && !Excluded(c)
    decreases |cols|
  {
    if cols == [] then []
    else
      var last := cols[|cols| - 1];
      assert cols == cols[..|cols| - 1] + [last];
      Graded(cols[..|cols| - 1]) + (if Excluded(last) then [] else [last])
  }

  /** "column = value" for each reported column. */
  function Items(cols: seq<string>, cells: map<string, string>): (items: seq<string>)
    requires forall c :: c in cols ==> c in cells
    ensures |items| == |Graded(cols)|
  {
    var g := Graded(cols);
    seq(|g|, i requires 0 <= i < |g| => g[i] + " = " + cells[g[i]])
  }

  /** The GG line: the items joined with ", ". */
  function GradeLine(cols: seq<string>, cells: map<string, string>): string
    requires forall c :: c in cols ==> c in cells
  {
    JoinWith(Items(cols, cells), ", ")
  }

  /** What the loop's `+=` builds: every item followed by the separator. */
  function Terminated(items: seq<string>, sep: string): (s: string)
    decreases |items|
  {
    if items == [] then [] else Terminated(items[..|items| - 1], sep) + items[|items| - 1] + sep
  }

  /** `s[:-2]` */
  function DropLast2(s: string): (r: string)
    ensures |r| == if |s| < 2 then 0 else |s| - 2
  {
    if |s| < 2 then [] else s[..|s| - 2]
  }

  /** The terminated text is the joined text plus one separator. */
  lemma {:induction false} TerminatedJoin(items: seq<string>, sep: string)
    requires items != []
    ensures Terminated(items, sep) == JoinWith(items, sep) + sep
    decreases |items|
  {
    var n := |items|;
    var front := items[..n - 1];
    assert items == front + [items[n - 1]];
    if n == 1 {
      assert Terminated(front, sep) == [];
      assert JoinWith(items, sep) == items[0];
    } else {
      TerminatedJoin(front, sep);
      JoinSnoc(front, items[n - 1], sep);
    }
  }

  /** Dropping the trailing ", " leaves exactly the joined items; with no
      items there is nothing to drop. */
  lemma DropTrailingSeparator(items: seq<string>)
    ensures DropLast2(Terminated(items, ", ")) == JoinWith(items, ", ")
  {
    if items != [] {
      TerminatedJoin(items, ", ");
      var j := JoinWith(items, ", ");
      assert (j + ", ")[..|j + ", "| - 2] == j;
    }
  }

  lemma ItemsSnoc(cols: seq<string>, c: string, cells: map<string, string>)
    requires forall x :: x in cols + [c] ==> x in cells
    ensures Items(cols + [c], cells) == Items(cols, cells) + (if Excluded(c) then [] else [c + " = " + cells[c]])
  {
    assert (cols + [c])[..|cols + [c]| - 1] == cols;
    assert Graded(cols + [c]) == Graded(cols) + (if Excluded(c) then [] else [c]);
  }

  /** The GG loop: append "column = value, " for every reported column,
      then drop the last two characters. */
  method BuildGradeLine(cols: seq<string>, cells: map<string, string>) returns (line: string)
    requires forall c :: c in cols ==> c in cells
    ensures line == GradeLine(cols, cells)
  {
    var acc := "";
    var i := 0;
    while i < |cols|
      invariant 0 <= i <= |cols|
      invariant acc == Terminated(Items(cols[..i], cells), ", ")
      decreases |cols| - i
    {
      var c := cols[i];
      assert cols[..i + 1] == cols[..i] + [c];
      ItemsSnoc(cols[..i], c, cells);
      if !Excluded(c) {
        var items := Items(cols[..i], cells);
        var item := c + " = " + cells[c];
        assert (items + [item])[..|items|] == items;
        assert Terminated(items + [item], ", ") == Terminated(items, ", ") + item + ", ";
        acc := acc + item + ", ";
      } else {
        assert Items(cols[..i + 1], cells) == Items(cols[..i], cells);
      }
      i := i + 1;
    }
    assert cols[..i] == cols;
    DropTrailingSeparator(Items(cols, cells));
    line := DropLast2(acc);
  }

  // ---------------------------------------------------------------------
  // Server_Return_Some_Request.py

  function AverageText(t: Table, k: nat): string
    requires WellFormed(t) && k < AverageCount
  {
    "Fetching " + AverageTitles[k] + " Average: " + t.means[k]
  }

  /** The GG answer of the first server: the number is checked here only. */
  function GradesReply(t: Table, s: string): string
    requires WellFormed(t)
  {
    var id := ExtractStudentId(s);
    if !ValidId(id) then
      "invalid student number " + id + ", correct student id should contain 7 digits"
    else match FirstRow(t.rows, IdValue(id))
      case None => "no data found for the student: " + NatString(IdValue(id))
      case Some(row) => "Getting grades: " + GradeLine(t.columns, row.cells)
  }

  /** One request to the first server: the first code it contains decides;
      with none, "help" gets the help text and anything else is echoed. */
  function Respond(t: Table, s: string): string
    requires WellFormed(t)
  {
    var k := Classify(s);
    if k < AverageCount then AverageText(t, k)
    else if k == GradesIndex then GradesReply(t, s)
    else if Contains(s, "help") then HelpText
    else s
  }

  /** A request that names an average is answered with that average even
      if it also contains a later code. */
  lemma FirstCodeWins(t: Table, s: string, k: nat)
    requires WellFormed(t) && k < AverageCount && Contains(s, Codes[k])
    requires forall j :: 0 <= j < k ==> !Contains(s, Codes[j])
    ensures Respond(t, s) == AverageText(t, k)
  {
    var m := Classify(s);
    assert m <= k;
    assert !(m < k);
  }

  /** GG's three answers: a malformed number, a number not in the table
      (printed without leading zeros), or the grade line of the first row
      with that number. */
  lemma GradesReplyCases(t: Table, s: string)
    requires WellFormed(t)
    ensures var id := ExtractStudentId(s);
      && (!ValidId(id) ==> GradesReply(t, s) == "invalid student number " + id + ", correct student id should contain 7 digits")
      && (ValidId(id) && FirstRow(t.rows, IdValue(id)).None? ==>
            GradesReply(t, s) == "no data found for the student: " + NatString(IdValue(id))
            && ParseInt(NatString(IdValue(id))) == ParseInt(id))
      && (ValidId(id) && FirstRow(t.rows, IdValue(id)).Some? ==>
            GradesReply(t, s) == "Getting grades: " + GradeLine(t.columns, FirstRow(t.rows, IdValue(id)).value.cells))
  {
    var id := ExtractStudentId(s);
    if ValidId(id) {
      IdValueIsInt(id);
      ParseIntString(IdValue(id));
    }
  }

  /** The first server's answer, computed the way the handler does it. */
  method Answer(t: Table, s: string) returns (reply: string)
    requires WellFormed(t)
    ensures reply == Respond(t, s)
  {
    var k := Classify(s);
    if k < AverageCount {
      return AverageText(t, k);
    }
    if k == GradesIndex {
      var id := ExtractStudentId(s);
      if !ValidId(id) {
        return "invalid student number " + id + ", correct student id should contain 7 digits";
      }
      var row := FirstRow(t.rows, IdValue(id));
      if row.None? {
        return "no data found for the student: " + NatString(IdValue(id));
      }
      assert row.value in t.rows;
      var line := BuildGradeLine(t.columns, row.value.cells);
      return "Getting grades: " + line;
    }
    if Contains(s, "help") {
      return HelpText;
    }
    return s;
  }

  // ---------------------------------------------------------------------
  // Connections

  /** What one `recv(1024).decode()` yields: text, or bytes that are not
      UTF-8. Running out of arrivals is the peer closing. */
  datatype Arrival = Received(text: string) | Undecodable

  /** How a connection ends: the peer closed (the server closes too), the
      server closed it on an unknown student, or an exception the handler
      does not catch escaped and stopped the server. */
  datatype End = PeerClosed | UnknownStudent | Stopped

  datatype Session = Session(replies: seq<Out>, end: End)

  /** Puts replies already sent in front of the rest of a session (the Lab2
      session records how it ended, not a directory, so it has its own). */
  function Continue(sent: seq<Out>, s: Session): Session
  {
    s.(replies := sent + s.replies)
  }

  lemma ContinueContinue(a: seq<Out>, b: seq<Out>, s: Session)
    ensures Continue(a, Continue(b, s)) == Continue(a + b, s)
  {
    assert a + (b + s.replies) == a + b + s.replies;
  }

  /** The first server's connection_handler: every request is answered. */
  function Serve(t: Table, arrivals: seq<Arrival>): Session
    requires WellFormed(t)
    decreases |arrivals|
  {
    if arrivals == [] then Session([], PeerClosed)
    else match arrivals[0]
      case Undecodable => Session([], Stopped)
      case Received(s) =>
        if s == "" then Session([], PeerClosed)
        else Continue([Plain(Respond(t, s))], Serve(t, arrivals[1..]))
  }

  /** Until the peer closes, every text request gets exactly one answer and
      the connection stays open. */
  lemma {:induction false} ServeAnswersAll(t: Table, arrivals: seq<Arrival>)
    requires WellFormed(t)
    requires forall i :: 0 <= i < |arrivals| ==> arrivals[i].Received? && arrivals[i].text != ""
    ensures var s := Serve(t, arrivals);
      && s.end == PeerClosed && |s.replies| == |arrivals|
      && forall i :: 0 <= i < |arrivals| ==> s.replies[i] == Plain(Respond(t, arrivals[i].text))
    decreases |arrivals|
  {
    if arrivals != [] {
      ServeAnswersAll(t, arrivals[1..]);
      var rest := Serve(t, arrivals[1..]);
      var s := Serve(t, arrivals);
      assert s.replies == [Plain(Respond(t, arrivals[0].text))] + rest.replies;
      forall i | 0 <= i < |arrivals|
        ensures s.replies[i] == Plain(Respond(t, arrivals[i].text))
      {
        if i > 0 {
          assert s.replies[i] == rest.replies[i - 1];
          assert arrivals[i] == arrivals[1..][i - 1];
        }
      }
    }
  }

  method HandleConnection(t: Table, arrivals: seq<Arrival>) returns (replies: seq<Out>, end: End)
    requires WellFormed(t)
    ensures Session(replies, end) == Serve(t, arrivals)
  {
    replies := [];
    var i := 0;
    while i < |arrivals|
      invariant 0 <= i <= |arrivals|
      invariant Serve(t, arrivals) == Continue(replies, Serve(t, arrivals[i..]))
      decreases |arrivals| - i
    {
      assert arrivals[i..][0] == arrivals[i] && arrivals[i..][1..] == arrivals[i + 1..];
      match arrivals[i]
      case Undecodable =>
        assert replies + [] == replies;
        return replies, Stopped;
      case Received(s) =>
        if s == "" {
          assert replies + [] == replies;
          return replies, PeerClosed;
        }
        var reply := Answer(t, s);
        ContinueContinue(replies, [Plain(reply)], Serve(t, arrivals[i + 1..]));
        replies := replies + [Plain(reply)];
        i := i + 1;
    }
    assert arrivals[i..] == [] && replies + [] == replies;
    return replies, PeerClosed;
  }

  // ---------------------------------------------------------------------
  // Lab_2_Editted.py

  /** The second server's answer to one request: an answer to send, or
      closing the connection. */
  datatype Decision = Send(out: Out) | Close

  const InvalidIdPrefix := "invalid student number, correct student id should contain 7 digits \nEcho Message: "
  const EchoPrefix := "Echo Message: "

  /** The plain text of an answer to a matched command. */
  function CommandText(t: Table, k: nat, row: Row): string
    requires WellFormed(t) && k <= GradesIndex && row in t.rows
  {
    if k < AverageCount then AverageText(t, k)
    else "Getting grades: " + GradeLine(t.columns, row.cells)
  }

  function Decide(t: Table, s: string): Decision
    requires WellFormed(t) && KeyColumn in t.columns
  {
    var id := ExtractStudentId(s);
    if !ValidId(id) then Send(Plain(InvalidIdPrefix + s))
    else match FirstRow(t.rows, IdValue(id))
      case None => Close
      case Some(row) =>
        var key := FindEncryptionKey(t, IdValue(id)).value;
        var k := Classify(s);
        if k <= GradesIndex then Send(Encrypted(key, CommandText(t, k, row)))
        else Send(Plain(EchoPrefix + s))
  }

  /** The number is checked before any command: a malformed number is
      echoed back in the clear whatever codes the request contains. */
  lemma IdCheckedFirst(t: Table, s: string)
    requires WellFormed(t) && KeyColumn in t.columns
    requires !ValidId(ExtractStudentId(s))
    ensures Decide(t, s) == Send(Plain(InvalidIdPrefix + s))
  {
  }

  /** An answer is encrypted exactly when the request names a command of a
      known student, and then under that student's key; everything else
      goes back in the clear or closes the connection. */
  lemma EncryptedExactly(t: Table, s: string)
    requires WellFormed(t) && KeyColumn in t.columns
    ensures var d := Decide(t, s);
      var id := ExtractStudentId(s);
      && (d.Send? && d.out.Encrypted? <==>
            ValidId(id) && FirstRow(t.rows, IdValue(id)).Some? && Classify(s) < |Codes|)
      && (d.Send? && d.out.Encrypted? ==>
            d.out.key == FirstRow(t.rows, IdValue(id)).value.cells[KeyColumn])
      && (d.Close? <==> ValidId(id) && FirstRow(t.rows, IdValue(id)).None?)
  {
  }

  /** The second server's connection_handler. */
  function Serve2(t: Table, arrivals: seq<Arrival>): Session
    requires WellFormed(t) && KeyColumn in t.columns
    decreases |arrivals|
  {
    if arrivals == [] then Session([], PeerClosed)
    else match arrivals[0]
      case Undecodable => Session([], Stopped)
      case Received(s) =>
        if s == "" then Session([], PeerClosed)
        else match Decide(t, s)
          case Close => Session([], UnknownStudent)
          case Send(out) => Continue([out], Serve2(t, arrivals[1..]))
  }

  /** A malformed number does not end the session; the request after it is
      served as if it came first. */
  lemma InvalidIdKeepsOpen(t: Table, s: string, rest: seq<Arrival>)
    requires WellFormed(t) && KeyColumn in t.columns
    requires s != "" && !ValidId(ExtractStudentId(s))
    ensures Serve2(t, [Received(s)] + rest) == Continue([Plain(InvalidIdPrefix + s)], Serve2(t, rest))
  {
    assert ([Received(s)] + rest)[1..] == rest;
  }

  /** An unknown student's request ends the session without an answer. */
  lemma UnknownStudentCloses(t: Table, s: string, rest: seq<Arrival>)
    requires WellFormed(t) && KeyColumn in t.columns
    requires s != "" && ValidId(ExtractStudentId(s))
    requires FirstRow(t.rows, IdValue(ExtractStudentId(s))).None?
    ensures Serve2(t, [Received(s)] + rest) == Session([], UnknownStudent)
  {
  }

  method Answer2(t: Table, s: string) returns (d: Decision)
    requires WellFormed(t) && KeyColumn in t.columns
    ensures d == Decide(t, s)
  {
    var id := ExtractStudentId(s);
    if !ValidId(id) {
      return Send(Plain(InvalidIdPrefix + s));
    }
    var row := FirstRow(t.rows, IdValue(id));
    if row.None? {
      return Close;
    }
    var key := FindEncryptionKey(t, IdValue(id)).value;
    var k := Classify(s);
    if k < AverageCount {
      return Send(Encrypted(key, AverageText(t, k)));
    }
    if k == GradesIndex {
      assert row.value in t.rows;
      var line := BuildGradeLine(t.columns, row.value.cells);
      return Send(Encrypted(key, "Getting grades: " + line));
    }
    return Send(Plain(EchoPrefix + s));
  }

  method HandleConnection2(t: Table, arrivals: seq<Arrival>) returns (replies: seq<Out>, end: End)
    requires WellFormed(t) && KeyColumn in t.columns
    ensures Session(replies, end) == Serve2(t, arrivals)
  {
    replies := [];
    var i := 0;
    while i < |arrivals|
      invariant 0 <= i <= |arrivals|
      invariant Serve2(t, arrivals) == Continue(replies, Serve2(t, arrivals[i..]))
      decreases |arrivals| - i
    {
      assert arrivals[i..][0] == arrivals[i] && arrivals[i..][1..] == arrivals[i + 1..];
      match arrivals[i]
      case Undecodable =>
        assert replies + [] == replies;
        return replies, Stopped;
      case Received(s) =>
        if s == "" {
          assert replies + [] == replies;
          return replies, PeerClosed;
        }
        var d := Answer2(t, s);
        if d.Close? {
          assert replies + [] == replies;
          return replies, UnknownStudent;
        }
        ContinueContinue(replies, [d.out], Serve2(t, arrivals[i + 1..]));
        replies := replies + [d.out];
        i := i + 1;
    }
    assert arrivals[i..] == [] && replies + [] == replies;
    return replies, PeerClosed;
  }
}
