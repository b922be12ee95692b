/** The employee registry of newco/company.py: a dictionary from employee
    id to person with an auto-increment id allocator, the database file's
    line cleaner and CSV-record parser, and the record format the save
    writes. A Python dict remembers insertion order and the save writes in
    that order, so the registry keeps the order of its keys beside the map. */
module Company {

  import opened Opt
  import opened Text

  /** An employee's name; the Person class itself is not part of this model. */
  datatype Person = Person(first: string, last: string)

  /** The value of a Company object's state: `employees`, the order its keys
      were first inserted in, and `next_employee_id`. */
  datatype Registry = Registry(employees: map<int, Person>, order: seq<int>, next: int)

  /** `next_employee_id` before anything is imported. */
  const FirstEmployeeId: int := 1000

  /** The registry `__init__` starts from. */
  const Start: Registry := Registry(map[], [], FirstEmployeeId)

  /** Neither starts nor ends with whitespace: `strip()` leaves it alone
      (StripNoop). */
  predicate Stripped(s: string)
  {
    s == [] || (!IsSpace(s[0]) && !IsSpace(s[|s| - 1]))
  }

  predicate Distinct(s: seq<int>)
  {
    forall i, j :: 0 <= i < j < |s| ==> s[i] != s[j]
  }

  /** The order lists every key exactly once. */
  ghost predicate Valid(r: Registry)
  {
    Distinct(r.order) && (forall k :: k in r.employees <==> k in r.order)
  }

  /** The allocator is ahead of every id in use. */
  ghost predicate Fresh(r: Registry)
  {
    forall k :: k in r.employees ==> k < r.next
  }

  // ---------------------------------------------------------------------
  // add_employee, delete_employee

  /** `add_employee(id_number, person)`: a truthy id (present and non-zero)
      sets that entry, overwriting; otherwise the person goes in at
      `next_employee_id`, which then moves on by one. A new key joins the end
      of the order; an overwritten one keeps its place. */
  function Add(r: Registry, id: Option<int>, p: Person): Registry
  {
    var k := if id.Some? && id.value != 0 then id.value else r.next;
    var order := if k in r.employees then r.order else r.order + [k];
    if id.Some? && id.value != 0 then Registry(r.employees[k := p], order, r.next)
    else Registry(r.employees[k := p], order, r.next + 1)
  }

  /** The order with one key taken out, the rest in place. */
  function Without(s: seq<int>, k: int): (t: seq<int>)
    ensures forall x :: x in t <==> x in s && x != k
  {
    if s == [] then []
    else if s[0] == k then Without(s[1..], k)
    else [s[0]] + Without(s[1..], k)
  }

  lemma {:induction false} WithoutDistinct(s: seq<int>, k: int)
    requires Distinct(s)
    ensures Distinct(Without(s, k))
    decreases |s|
  {
    if s != [] {
      assert Distinct(s[1..]) by {
        forall i, j | 0 <= i < j < |s| - 1
          ensures s[1..][i] != s[1..][j]
        {
          assert s[i + 1] != s[j + 1];
        }
      }
      WithoutDistinct(s[1..], k);
      if s[0] != k {
        assert s[0] !in s[1..] by {
          forall i | 0 <= i < |s| - 1
            ensures s[1..][i] != s[0]
          {
            assert s[0] != s[i + 1];
          }
        }
        var t := Without(s[1..], k);
        forall i, j | 0 <= i < j < |t| + 1
          ensures ([s[0]] + t)[i] != ([s[0]] + t)[j]
        {
          if i == 0 {
            assert ([s[0]] + t)[j] == t[j - 1];
            assert t[j - 1] in t;
          }
        }
      }
    }
  }

  /** `delete_employee(id)`: None is the KeyError of an absent id. */
  function Delete(r: Registry, id: int): Option<Registry>
  {
    if id in r.employees then Some(Registry(r.employees - {id}, Without(r.order, id), r.next))
    else None
  }

  /** An explicit non-zero id sets exactly that entry and leaves the
      allocator alone; an entry already there is replaced, so the number of
      employees does not grow. */
  lemma ExplicitAdd(r: Registry, id: int, p: Person)
    requires Valid(r) && id != 0
    ensures Add(r, Some(id), p).employees == r.employees[id := p]
    ensures Add(r, Some(id), p).next == r.next
    ensures id in r.employees ==> |Add(r, Some(id), p).employees| == |r.employees|
  {
  }

  /** With no id, or id 0, the person goes in at the allocator, which moves
      on by exactly one. When the allocator is ahead of every key the new
      entry overwrites nobody, it stays ahead, and the registry grows by one. */
  lemma AutoAdd(r: Registry, id: Option<int>, p: Person)
    requires id.None? || id.value == 0
    ensures Add(r, id, p).employees == r.employees[r.next := p]
    ensures Add(r, id, p).next == r.next + 1
    ensures Fresh(r) ==> r.next !in r.employees && Fresh(Add(r, id, p))
    ensures Fresh(r) ==> |Add(r, id, p).employees| == |r.employees| + 1
  {
  }

  /** Adding keeps the order an exact listing of the keys. */
  lemma AddKeepsValid(r: Registry, id: Option<int>, p: Person)
    requires Valid(r)
    ensures Valid(Add(r, id, p))
  {
    var k := if id.Some? && id.value != 0 then id.value else r.next;
    var s := Add(r, id, p);
    if k !in r.employees {
      forall i, j | 0 <= i < j < |s.order|
        ensures s.order[i] != s.order[j]
      {
        if j == |r.order| {
          assert s.order[i] == r.order[i];
        }
      }
    }
  }

  /** Deleting succeeds exactly on a present id, removes exactly that entry
      and no other, keeps the order an exact listing of the keys, and leaves
      the allocator, and so its lead over the keys, alone. */
  lemma DeleteSpec(r: Registry, id: int)
    requires Valid(r)
    ensures Delete(r, id).Some? <==> id in r.employees
    ensures Delete(r, id).Some? ==>
      var s := Delete(r, id).value;
      s.employees == r.employees - {id} && s.next == r.next && Valid(s) &&
      |s.employees| == |r.employees| - 1 && (Fresh(r) ==> Fresh(s))
  {
    WithoutDistinct(r.order, id);
  }

  // ---------------------------------------------------------------------
  // Reading the database file

  /** Text-mode reading turns "\r\n" and a lone "\r" into "\n" (universal
      newlines). This is `Utf8.TranslateNewlines` over decoded characters
      rather than bytes: company.py works on `str` after the decode. */
  function Universal(s: string): (t: string)
    ensures '\r' !in t
    decreases |s|
  {
    if s == [] then []
    else if s[0] == '\r' then "\n" + Universal(if |s| >= 2 && s[1] == '\n' then s[2..] else s[1..])
    else [s[0]] + Universal(s[1..])
  }

  /** Text with no carriage return reads back unchanged. */
  lemma {:induction false} UniversalNoCr(s: string)
    requires '\r' !in s
    ensures Universal(s) == s
    decreases |s|
  {
    if s != [] {
      assert s[0] in s;
      assert forall c :: c in s[1..] ==> c in s;
      UniversalNoCr(s[1..]);
      assert [s[0]] + s[1..] == s;
    }
  }

  /** `file.readlines()`: the pieces between newlines. Each line
      `readlines` returns keeps its "\n", and after the last newline there
      is one more, empty, piece; stripping and dropping empty lines removes
      both differences, so cleaning gives the same records either way. */
  function ReadLines(text: string): seq<string>
  {
    SplitOn(Universal(text), '\n')
  }

  /** The comprehension of read_and_clean_database_records: every line
      stripped, the empty ones dropped, the order kept. */
  function CleanRecords(lines: seq<string>): (r: seq<string>)
    ensures |r| <= |lines|
    ensures forall i :: 0 <= i < |r| ==> r[i] != [] && Stripped(r[i])
  {
    if lines == [] then []
    else
      var n := |lines|;
      var t := Strip(lines[n - 1]);
      CleanRecords(lines[..n - 1]) + (if t == [] then [] else [t])
  }

  /** Lines that are already stripped and non-empty pass through unchanged. */
  lemma {:induction false} CleanKeeps(lines: seq<string>)
    requires forall i :: 0 <= i < |lines| ==> lines[i] != [] && Stripped(lines[i])
    ensures CleanRecords(lines) == lines
    decreases |lines|
  {
    if lines != [] {
      var n := |lines|;
      CleanKeeps(lines[..n - 1]);
      StripNoop(lines[n - 1]);
      assert lines[..n - 1] + [lines[n - 1]] == lines;
    }
  }

  /** Cleaning twice is cleaning once. */
  lemma CleanIdempotent(lines: seq<string>)
    ensures CleanRecords(CleanRecords(lines)) == CleanRecords(lines)
  {
    CleanKeeps(CleanRecords(lines));
  }

  /** Every non-blank line survives cleaning, stripped. */
  lemma {:induction false} CleanKeepsContent(lines: seq<string>, i: nat)
    requires i < |lines| && Strip(lines[i]) != []
    ensures Strip(lines[i]) in CleanRecords(lines)
    decreases |lines|
  {
    var n := |lines|;
    if i < n - 1 {
      CleanKeepsContent(lines[..n - 1], i);
    }
  }

  // ---------------------------------------------------------------------
  // Parsing records

  /** One parsed record: (id, first name, last name). */
  datatype Entry = Entry(id: int, first: string, last: string)

  /** `(int(e[0].strip()), e[1].strip(), e[2].strip())` of `record.split(',')`;
      None is the IndexError of fewer than three fields or the ValueError of
      a non-integer id. Fields after the third are ignored. */
  function ParseRecord(record: string): (r: Option<Entry>)
  {
    var fields := SplitOn(record, ',');
    if |fields| < 3 then None
    else
      match ParseInt(Strip(fields[0]))
      case None => None
      case Some(id) =>
        Some(Entry(id, Strip(fields[1]), Strip(fields[2])))
  }

  /** The list comprehension's all-or-nothing: the values when every
      element is one, None at the first that raises. */
  function Collect<T>(results: seq<Option<T>>): Option<seq<T>>
  {
    if results == [] then Some([])
    else
      var n := |results|;
      match Collect(results[..n - 1])
      case None => None
      case Some(front) =>
        match results[n - 1]
        case None => None
        case Some(x) => Some(front + [x])
  }

  /** Collecting succeeds exactly when every element is present, and then
      yields the elements, in order. */
  lemma {:induction false} CollectSpec<T>(results: seq<Option<T>>)
    ensures Collect(results).Some? <==> forall i :: 0 <= i < |results| ==> results[i].Some?
    ensures Collect(results).Some? ==> |Collect(results).value| == |results|
    ensures Collect(results).Some? ==>
      forall i :: 0 <= i < |results| ==> Some(Collect(results).value[i]) == results[i]
    decreases |results|
  {
    if results != [] {
      var n := |results|;
      var front := results[..n - 1];
      CollectSpec(front);
      assert forall i :: 0 <= i < n - 1 ==> front[i] == results[i];
      if Collect(front).None? {
        var i :| 0 <= i < n - 1 && front[i].None?;
        assert results[i].None?;
      }
    }
  }

  /** The values, when every element is present, are what collecting gives. */
  lemma {:induction false} CollectAll<T>(results: seq<Option<T>>, values: seq<T>)
    requires |values| == |results|
    requires forall i :: 0 <= i < |results| ==> results[i] == Some(values[i])
    ensures Collect(results) == Some(values)
    decreases |results|
  {
    if results != [] {
      var n := |results|;
      CollectAll(results[..n - 1], values[..n - 1]);
      assert values[..n - 1] + [values[n - 1]] == values;
    }
  }

  /** parse_employee_records: every record parsed; None when any record is
      malformed, which makes the program exit. */
  function ParseRecords(records: seq<string>): Option<seq<Entry>>
  {
    Collect(seq(|records|, i requires 0 <= i < |records| => ParseRecord(records[i])))
  }

  // ---------------------------------------------------------------------
  // Import

  /** create_employee_dictionary: `add_employee(id, Person(first, last))`
      for each entry in turn. */
  function AddAll(r: Registry, entries: seq<Entry>): Registry
  {
    if entries == [] then r
    else
      var n := |entries|;
      var e := entries[n - 1];
      Add(AddAll(r, entries[..n - 1]), Some(e.id), Person(e.first, e.last))
  }

  /** The largest id in a non-empty list of ids. */
  function MaxOf(s: seq<int>): (m: int)
    requires s != []
    ensures m in s && forall i :: 0 <= i < |s| ==> s[i] <= m
  {
    if |s| == 1 then s[0]
    else
      var m := MaxOf(s[1..]);
      assert forall i :: 1 <= i < |s| ==> s[i] == s[1..][i - 1];
      if s[0] > m then s[0] else m
  }

  /** `next_employee_id = 1 + max(employees.keys())`, kept as it was when
      there are no keys (the ValueError that is passed over). The keys are
      those the order lists. */
  function Renumbered(r: Registry): Registry
  {
    if r.order == [] then r else r.(next := 1 + MaxOf(r.order))
  }

  /** import_employee_database from registry r: read and clean the file's
      lines, parse them, add every entry, renumber. A missing file (None) is
      created empty. None is the exit on a malformed record. */
  function ImportInto(r: Registry, file: Option<string>): Option<Registry>
  {
    var text := if file.Some? then file.value else "";
    match ParseRecords(CleanRecords(ReadLines(text)))
    case None => None
    case Some(entries) => Some(Renumbered(AddAll(r, entries)))
  }

  /** `Company(name, file)`: the import run by the constructor. */
  function Import(file: Option<string>): Option<Registry>
  {
    ImportInto(Start, file)
  }

  lemma {:induction false} AddAllKeepsValid(r: Registry, entries: seq<Entry>)
    requires Valid(r)
    ensures Valid(AddAll(r, entries))
    decreases |entries|
  {
    if entries != [] {
      var n := |entries|;
      var e := entries[n - 1];
      AddAllKeepsValid(r, entries[..n - 1]);
      AddKeepsValid(AddAll(r, entries[..n - 1]), Some(e.id), Person(e.first, e.last));
    }
  }

  /** A successful import leaves the order an exact listing of the keys and
      the allocator ahead of every key: at one more than the largest, or at
      1000 when the file held no records. So later automatic adds (AutoAdd)
      never overwrite an imported employee. */
  lemma ImportFresh(file: Option<string>)
    requires Import(file).Some?
    ensures Valid(Import(file).value) && Fresh(Import(file).value)
    ensures Import(file).value.order == [] ==> Import(file).value.next == FirstEmployeeId
    ensures Import(file).value.order != [] ==> Import(file).value.next == 1 + MaxOf(Import(file).value.order)
  {
    var text := if file.Some? then file.value else "";
    var entries := ParseRecords(CleanRecords(ReadLines(text))).value;
    var a := AddAll(Start, entries);
    assert Import(file) == Some(Renumbered(a));
    AddAllKeepsValid(Start, entries);
    RenumberedFresh(a);
    if entries != [] {
      AddAllNonEmpty(Start, entries);
    }
  }

  /** Every entry adds a key, so adding at least one leaves a key listed. */
  lemma AddAllNonEmpty(r: Registry, entries: seq<Entry>)
    requires Valid(r) && entries != []
    ensures AddAll(r, entries).order != []
  {
    var n := |entries|;
    var before := AddAll(r, entries[..n - 1]);
    var x := entries[n - 1];
    AddAllKeepsValid(r, entries);
    var k := if x.id != 0 then x.id else before.next;
    assert k in AddAll(r, entries).employees;
  }

  /** Renumbering puts the allocator one past the largest key. */
  lemma RenumberedFresh(a: Registry)
    requires Valid(a)
    ensures Valid(Renumbered(a)) && Fresh(Renumbered(a))
  {
    if a.order != [] {
      var m := MaxOf(a.order);
      forall k | k in a.employees
        ensures k < m + 1
      {
        var i :| 0 <= i < |a.order| && a.order[i] == k;
      }
    }
  }

  // ---------------------------------------------------------------------
  // Saving

  /** `str(key) + "," + first_name + "," + last_name`, the record
      ask_to_save_database writes (before its "\n"). */
  function Record(id: int, p: Person): string
  {
    IntString(id) + "," + p.first + "," + p.last
  }

  predicate Listed(e: map<int, Person>, order: seq<int>)
  {
    forall i :: 0 <= i < |order| ==> order[i] in e
  }

  /** The records, key by key in the dict's order. */
  function RecordLines(e: map<int, Person>, order: seq<int>): (r: seq<string>)
    requires Listed(e, order)
    ensures |r| == |order|
  {
    if order == [] then []
    else
      var n := |order|;
      RecordLines(e, order[..n - 1]) + [Record(order[n - 1], e[order[n - 1]])]
  }

  /** The file the save writes: each record followed by "\n". */
  function SaveText(e: map<int, Person>, order: seq<int>): string
    requires Listed(e, order)
  {
    if order == [] then ""
    else
      var n := |order|;
      SaveText(e, order[..n - 1]) + Record(order[n - 1], e[order[n - 1]]) + "\n"
  }

  /** The save is the records joined by "\n", with a final "\n". */
  lemma {:induction false} SaveJoin(e: map<int, Person>, order: seq<int>)
    requires Listed(e, order) && order != []
    ensures SaveText(e, order) == JoinWith(RecordLines(e, order), "\n") + "\n"
    decreases |order|
  {
    var n := |order|;
    if n > 1 {
      var front := order[..n - 1];
      var rec := Record(order[n - 1], e[order[n - 1]]);
      SaveStep(e, order);
      SaveJoin(e, front);
      TerminatedSnoc(SaveText(e, front), RecordLines(e, front), rec);
    } else {
      SaveOne(e, order);
    }
  }

  /** The last key adds its record both to the save and to the records. */
  lemma SaveStep(e: map<int, Person>, order: seq<int>)
    requires Listed(e, order) && order != []
    ensures var n := |order|; var rec := Record(order[n - 1], e[order[n - 1]]);
      SaveText(e, order) == SaveText(e, order[..n - 1]) + rec + "\n"
      && RecordLines(e, order) == RecordLines(e, order[..n - 1]) + [rec]
  {
  }

  lemma SaveOne(e: map<int, Person>, order: seq<int>)
    requires Listed(e, order) && |order| == 1
    ensures SaveText(e, order) == JoinWith(RecordLines(e, order), "\n") + "\n"
  {
    var rec := Record(order[0], e[order[0]]);
    assert RecordLines(e, order) == [rec];
    assert SaveText(e, order) == "" + rec + "\n";
  }

  /** Terminating one more line extends a file of terminated lines by it. */
  lemma TerminatedSnoc(text: string, lines: seq<string>, line: string)
    requires lines != [] && text == JoinWith(lines, "\n") + "\n"
    ensures text + line + "\n" == JoinWith(lines + [line], "\n") + "\n"
  {
    JoinSnoc(lines, line, "\n");
  }

  /** A name the file format carries unchanged: no field separator, no line
      break, nothing that stripping would remove. */
  predicate Savable(p: Person)
  {
    ',' !in p.first && ',' !in p.last &&
    '\n' !in p.first && '\n' !in p.last && '\r' !in p.first && '\r' !in p.last &&
    Stripped(p.first) && Stripped(p.last)
  }

  /** A decimal id holds only digits and a sign. */
  lemma IntStringChars(n: int)
    ensures ',' !in IntString(n) && '\n' !in IntString(n) && '\r' !in IntString(n)
  {
    var s := IntString(n);
    if n >= 0 {
      assert forall i :: 0 <= i < |s| ==> IsDigit(s[i]);
    } else {
      var d := NatString(-n);
      assert forall i :: 0 <= i < |d| ==> IsDigit(d[i]);
      assert s == "-" + d;
    }
  }

  /** A savable record splits back into its id, first and last name. */
  lemma RecordFields(id: int, p: Person)
    requires Savable(p)
    ensures SplitOn(Record(id, p), ',') == [IntString(id), p.first, p.last]
  {
    IntStringChars(id);
    SplitNoSep(p.last, ',');
    SplitPrefix(p.first, ',', p.last);
    assert IntString(id) + "," + p.first + "," + p.last == IntString(id) + [','] + (p.first + [','] + p.last);
    SplitPrefix(IntString(id), ',', p.first + [','] + p.last);
  }

  /** A savable record is a clean line: not blank, nothing to strip, no
      line break. */
  lemma RecordClean(id: int, p: Person)
    requires Savable(p)
    ensures Record(id, p) != [] && Stripped(Record(id, p))
    ensures '\n' !in Record(id, p) && '\r' !in Record(id, p)
  {
    var s := Record(id, p);
    IntStringChars(id);
    assert s[0] == IntString(id)[0];
    if p.last == [] {
      assert s[|s| - 1] == ',';
    } else {
      assert s[|s| - 1] == p.last[|p.last| - 1];
    }
  }

  /** A savable record parses back to its entry. */
  lemma RecordParses(id: int, p: Person)
    requires Savable(p)
    ensures ParseRecord(Record(id, p)) == Some(Entry(id, p.first, p.last))
  {
    SavableStrips(p);
    IdParses(id);
    RecordFields(id, p);
    ParseThreeFields(Record(id, p), id, p.first, p.last);
  }

  lemma SavableStrips(p: Person)
    requires Savable(p)
    ensures Strip(p.first) == p.first && Strip(p.last) == p.last
  {
    StripNoop(p.first);
    StripNoop(p.last);
  }

  /** `int(str(id).strip()) == id` */
  lemma IdParses(id: int)
    ensures ParseInt(Strip(IntString(id))) == Some(id)
  {
    StripNoop(IntString(id));
    ParseIntString(id);
  }

  lemma ParseThreeFields(s: string, id: int, first: string, last: string)
    requires |SplitOn(s, ',')| == 3
    requires ParseInt(Strip(SplitOn(s, ',')[0])) == Some(id)
    requires Strip(SplitOn(s, ',')[1]) == first && Strip(SplitOn(s, ',')[2]) == last
    ensures ParseRecord(s) == Some(Entry(id, first, last))
  {
  }

  /** The entries the records of a registry parse to. */
  function Entries(e: map<int, Person>, order: seq<int>): (r: seq<Entry>)
    requires Listed(e, order)
    ensures |r| == |order|
  {
    if order == [] then []
    else
      var n := |order|;
      var k := order[n - 1];
      Entries(e, order[..n - 1]) + [Entry(k, e[k].first, e[k].last)]
  }

  /** Record i is that of the i-th key. */
  lemma {:induction false} RecordLinesAt(e: map<int, Person>, order: seq<int>, i: nat)
    requires Listed(e, order) && i < |order|
    ensures RecordLines(e, order)[i] == Record(order[i], e[order[i]])
    decreases |order|
  {
    var n := |order|;
    var front := order[..n - 1];
    var last := Record(order[n - 1], e[order[n - 1]]);
    assert RecordLines(e, order) == RecordLines(e, front) + [last];
    if i < n - 1 {
      RecordLinesAt(e, front, i);
      SnocAt(RecordLines(e, front), last, i);
      assert front[i] == order[i];
    }
  }

  /** Appending leaves the earlier elements in place. */
  lemma SnocAt<T>(s: seq<T>, x: T, i: nat)
    requires i < |s|
    ensures (s + [x])[i] == s[i]
  {
  }

  /** Entry i is that of the i-th key. */
  lemma {:induction false} EntriesAt(e: map<int, Person>, order: seq<int>, i: nat)
    requires Listed(e, order) && i < |order|
    ensures Entries(e, order)[i] == Entry(order[i], e[order[i]].first, e[order[i]].last)
    decreases |order|
  {
    var n := |order|;
    if i < n - 1 {
      EntriesAt(e, order[..n - 1], i);
    }
  }

  /** The records of savable names are clean lines without line breaks,
      and they parse back to the registry's entries. */
  lemma RecordLinesParse(e: map<int, Person>, order: seq<int>)
    requires Listed(e, order)
    requires forall k :: k in e ==> Savable(e[k])
    ensures forall i :: 0 <= i < |order| ==> '\n' !in RecordLines(e, order)[i]
    ensures CleanRecords(RecordLines(e, order)) == RecordLines(e, order)
    ensures ParseRecords(RecordLines(e, order)) == Some(Entries(e, order))
  {
    var lines := RecordLines(e, order);
    var entries := Entries(e, order);
    forall i | 0 <= i < |order|
      ensures lines[i] != [] && Stripped(lines[i]) && '\n' !in lines[i]
      ensures ParseRecord(lines[i]) == Some(entries[i])
    {
      RecordLinesAt(e, order, i);
      EntriesAt(e, order, i);
      RecordClean(order[i], e[order[i]]);
      RecordParses(order[i], e[order[i]]);
    }
    CleanKeeps(lines);
    CollectAll(seq(|lines|, i requires 0 <= i < |lines| => ParseRecord(lines[i])), entries);
  }

  /** A save of savable names holds no carriage return. */
  lemma {:induction false} SaveNoCr(e: map<int, Person>, order: seq<int>)
    requires Listed(e, order)
    requires forall k :: k in e ==> Savable(e[k])
    ensures '\r' !in SaveText(e, order)
    decreases |order|
  {
    if order != [] {
      var n := |order|;
      SaveNoCr(e, order[..n - 1]);
      RecordClean(order[n - 1], e[order[n - 1]]);
    }
  }

  /** In a list without repeats the last element is not among the others. */
  lemma LastIsNew(order: seq<int>)
    requires order != [] && Distinct(order)
    ensures order[|order| - 1] !in order[..|order| - 1]
  {
    var n := |order|;
    var front := order[..n - 1];
    forall i | 0 <= i < |front|
      ensures front[i] != order[n - 1]
    {
      assert order[i] != order[n - 1];
    }
  }

  /** The entries of e under the listed ids. */
  function Restrict(e: map<int, Person>, order: seq<int>): map<int, Person>
    requires Listed(e, order)
  {
    if order == [] then map[]
    else
      var n := |order|;
      Restrict(e, order[..n - 1])[order[n - 1] := e[order[n - 1]]]
  }

  /** Restricting to a listing of all the keys gives the map back. */
  lemma {:induction false} RestrictAll(e: map<int, Person>, order: seq<int>)
    requires Listed(e, order)
    ensures forall k :: k in Restrict(e, order) <==> k in order
    ensures forall k :: k in Restrict(e, order) ==> Restrict(e, order)[k] == e[k]
    ensures (forall k :: k in e ==> k in order) ==> Restrict(e, order) == e
    decreases |order|
  {
    if order != [] {
      var n := |order|;
      var front := order[..n - 1];
      RestrictAll(e, front);
      var m := Restrict(e, order);
      forall k
        ensures k in m <==> k in order
      {
        if k in order && k != order[n - 1] {
          var i :| 0 <= i < n && order[i] == k;
          assert front[i] == k;
        }
      }
      if forall k :: k in e ==> k in order {
        assert forall k :: k in m <==> k in e;
        assert forall k :: k in m ==> m[k] == e[k];
        assert m == e;
      }
    } else if forall k :: k in e ==> k in order {
      assert forall k :: k !in e;
      assert e == map[];
    }
  }

  /** Adding a new non-zero id appends it to the order. */
  lemma AddNew(r: Registry, id: int, p: Person)
    requires id != 0 && id !in r.employees
    ensures Add(r, Some(id), p) == Registry(r.employees[id := p], r.order + [id], r.next)
  {
  }

  /** Adding the entries of distinct non-zero ids to an empty registry gives
      exactly those entries, in that order. */
  lemma {:induction false} AddEntries(e: map<int, Person>, order: seq<int>, next: int)
    requires Listed(e, order) && Distinct(order) && 0 !in order
    ensures AddAll(Registry(map[], [], next), Entries(e, order)) == Registry(Restrict(e, order), order, next)
    decreases |order|
  {
    if order != [] {
      var n := |order|;
      var front := order[..n - 1];
      var k := order[n - 1];
      var entries := Entries(e, order);
      assert entries[..n - 1] == Entries(e, front);
      assert entries[n - 1] == Entry(k, e[k].first, e[k].last);
      assert Distinct(front);
      AddEntries(e, front, next);
      RestrictAll(e, front);
      LastIsNew(order);
      AddNew(Registry(Restrict(e, front), front, next), k, e[k]);
      assert front + [k] == order;
    }
  }

  /** The save/load round trip: what ask_to_save_database writes, read back
      by import_employee_database, gives every employee back under the same
      id and in the same order, provided no id is 0 (it would be renumbered)
      and every name is savable. */
  lemma {:induction false} SaveImport(r: Registry)
    requires Valid(r) && 0 !in r.employees
    requires forall k :: k in r.employees ==> Savable(r.employees[k])
    ensures Import(Some(SaveText(r.employees, r.order))).Some?
    ensures Import(Some(SaveText(r.employees, r.order))).value.employees == r.employees
    ensures Import(Some(SaveText(r.employees, r.order))).value.order == r.order
  {
    var e, order := r.employees, r.order;
    var text := SaveText(e, order);
    SavedRecords(e, order);
    RecordLinesParse(e, order);
    AddEntries(e, order, FirstEmployeeId);
    RestrictAll(e, order);
    assert Import(Some(text)) == Some(Renumbered(AddAll(Start, Entries(e, order))));
  }

  /** Reading and cleaning a save of savable names gives back its records. */
  lemma SavedRecords(e: map<int, Person>, order: seq<int>)
    requires Listed(e, order)
    requires forall k :: k in e ==> Savable(e[k])
    ensures CleanRecords(ReadLines(SaveText(e, order))) == RecordLines(e, order)
  {
    var text := SaveText(e, order);
    var lines := RecordLines(e, order);
    RecordLinesParse(e, order);
    if order == [] {
      assert text == [];
      assert ReadLines(text) == [""];
      assert CleanRecords([""]) == CleanRecords([]) + [];
    } else {
      SavedLines(e, order);
      assert (lines + [""])[..|lines|] == lines;
      assert CleanRecords(lines + [""]) == CleanRecords(lines);
    }
  }

  /** The lines of a non-empty save are its records and the empty piece
      after the final newline. */
  lemma SavedLines(e: map<int, Person>, order: seq<int>)
    requires Listed(e, order) && order != []
    requires forall k :: k in e ==> Savable(e[k])
    ensures ReadLines(SaveText(e, order)) == RecordLines(e, order) + [""]
  {
    var text := SaveText(e, order);
    var lines := RecordLines(e, order);
    RecordLinesParse(e, order);
    SaveJoin(e, order);
    JoinSnoc(lines, "", "\n");
    assert text == JoinWith(lines + [""], "\n");
    SaveNoCr(e, order);
    UniversalNoCr(text);
    SplitJoin(lines + [""], '\n');
  }

  // ---------------------------------------------------------------------
  // The Company object

  class Company {
    var employees: map<int, Person>
    var order: seq<int>
    var nextEmployeeId: int

    function State(): Registry
      reads this
    {
      Registry(employees, order, nextEmployeeId)
    }

    /** The fields `__init__` sets before importing (ImportEmployeeDatabase
        is the import it then runs). */
    constructor()
      ensures State() == Start
    {
      employees := map[];
      order := [];
      nextEmployeeId := FirstEmployeeId;
    }

    /** add_employee */
    method AddEmployee(id: Option<int>, person: Person)
      modifies this
      ensures State() == Add(old(State()), id, person)
    {
      if id.Some? && id.value != 0 {
        if id.value !in employees {
          order := order + [id.value];
        }
        employees := employees[id.value := person];
      } else {
        if nextEmployeeId !in employees {
          order := order + [nextEmployeeId];
        }
        employees := employees[nextEmployeeId := person];
        nextEmployeeId := nextEmployeeId + 1;
      }
    }

    /** delete_employee; `ok` is false where it raises KeyError, and then
        nothing changes. */
    method DeleteEmployee(id: int) returns (ok: bool)
      modifies this
      ensures ok == Delete(old(State()), id).Some?
      ensures ok ==> State() == Delete(old(State()), id).value
      ensures !ok ==> State() == old(State())
    {
      if id !in employees {
        return false;
      }
      employees := employees - {id};
      order := Without(order, id);
      ok := true;
    }

    /** One answer to remove_employees' prompt (already stripped, neither
        blank nor "q"): `int()` of it, then delete_employee. `ok` is false
        for the "Employee ID error" of a non-integer or absent id, which
        changes nothing. */
    method RemoveEmployee(answer: string) returns (ok: bool)
      modifies this
      ensures ok <==> ParseInt(answer).Some? && ParseInt(answer).value in old(employees)
      ensures ok ==> State() == Delete(old(State()), ParseInt(answer).value).value
      ensures !ok ==> State() == old(State())
    {
      var id := ParseInt(answer);
      if id.None? {
        return false;
      }
      ok := DeleteEmployee(id.value);
    }

    /** size */
    method Size() returns (n: nat)
      requires Valid(State())
      ensures n == |employees| && n == |RecordLines(employees, order)|
    {
      n := |employees|;
      DistinctCount(employees.Keys, order);
    }

    /** The file ask_to_save_database writes, record by record. */
    method SaveDatabase() returns (text: string)
      requires Listed(employees, order)
      ensures text == SaveText(employees, order)
    {
      text := "";
      var i := 0;
      while i < |order|
        invariant 0 <= i <= |order|
        invariant text == SaveText(employees, order[..i])
      {
        var key := order[i];
        var record := IntString(key) + "," + employees[key].first + "," + employees[key].last + "\n";
        assert order[..i + 1][..i] == order[..i];
        text := text + record;
        i := i + 1;
      }
      assert order[..i] == order;
    }

    /** create_employee_dictionary: each entry added in turn. */
    method CreateEmployeeDictionary(entries: seq<Entry>)
      modifies this
      ensures State() == AddAll(old(State()), entries)
    {
      ghost var start := State();
      var i := 0;
      while i < |entries|
        invariant 0 <= i <= |entries|
        invariant State() == AddAll(start, entries[..i])
      {
        assert entries[..i + 1][..i] == entries[..i];
        AddEmployee(Some(entries[i].id), Person(entries[i].first, entries[i].last));
        i := i + 1;
      }
      assert entries[..i] == entries;
    }

    /** import_employee_database: clean and parse the file's records, add
        them one by one (create_employee_dictionary), then renumber. `ok` is
        false on a malformed record, where the program exits; nothing has
        changed by then. */
    method ImportEmployeeDatabase(file: Option<string>) returns (ok: bool)
      modifies this
      ensures ok == ImportInto(old(State()), file).Some?
      ensures ok ==> State() == ImportInto(old(State()), file).value
      ensures !ok ==> State() == old(State())
    {
      var text := if file.Some? then file.value else "";
      var parsed := ParseRecords(CleanRecords(ReadLines(text)));
      if parsed.None? {
        return false;
      }
      var entries := parsed.value;
      ghost var start := State();
      CreateEmployeeDictionary(entries);
      if order != [] {
        nextEmployeeId := 1 + MaxOf(order);
      }
      assert ImportInto(start, file) == Some(Renumbered(AddAll(start, entries)));
      ok := true;
    }
  }

  /** A listing without repeats has as many ids as the set it lists. */
  lemma {:induction false} DistinctCount(keys: set<int>, order: seq<int>)
    requires Distinct(order) && forall k :: k in keys <==> k in order
    ensures |keys| == |order|
    decreases |order|
  {
    if order == [] {
      assert forall k :: k !in keys;
      assert keys == {};
    } else {
      var n := |order|;
      var k := order[n - 1];
      var front := order[..n - 1];
      var rest := keys - {k};
      forall x
        ensures x in rest <==> x in front
      {
        if x in front {
          var i :| 0 <= i < n - 1 && front[i] == x;
          assert order[i] != order[n - 1];
        }
        if x in keys && x != k {
          var i :| 0 <= i < n && order[i] == x;
          assert i != n - 1;
          assert front[i] == x;
        }
      }
      DistinctCount(rest, front);
    }
  }
}
