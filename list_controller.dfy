/** The upload side of controllers/listController.js: the per-line handler
    for TXT files and the per-row handler for CSV files, which decide
    whether an entry is a contact and count it as valid or invalid; the
    insertion of the accepted contacts in chunks of 500 followed by the list
    statistics; and the arithmetic of the contacts pagination. */
module ListController {
  import opened Js
  import opened EmailShape
  import opened Schema
  import opened Sql

  /** A contact accepted from an uploaded file, as it will be stored. */
  datatype Parsed = Parsed(email: string, name: string)

  /** What one TXT line or CSV row contributes: nothing (a blank line), a
      contact, or one more invalid entry. */
  datatype Outcome = Skip | Accept(contact: Parsed) | Reject

  // ---------------------------------------------------------------------
  // TXT lines

  /** `parts.map(p => p.trim())`. */
  function TrimAll(parts: seq<string>): (r: seq<string>)
    ensures |r| == |parts|
  {
    seq(|parts|, i requires 0 <= i < |parts| => Trim(parts[i]))
  }

  /** `line.split(',').map(p => p.trim())`; with a comma in the line there
      are at least two parts. */
  function TrimmedParts(line: string): (parts: seq<string>)
    ensures ',' in line ==> |parts| >= 2
  {
    TrimAll(Split(line, ','))
  }

  /** The address and name a non-blank trimmed line offers before the final
      check: with a comma, the first two parts in either order when one of
      them is an address, and otherwise the whole line with no name. */
  function TxtCandidate(trimmed: string): Parsed {
    if ',' !in trimmed then Parsed(trimmed, "")
    else
      var parts := TrimmedParts(trimmed);
      if IsValidEmail(parts[0]) then Parsed(parts[0], parts[1])
      else if IsValidEmail(parts[1]) then Parsed(parts[1], parts[0])
      else Parsed(trimmed, "")
  }

  /** The TXT line handler's decision. */
  function TxtLine(line: string): Outcome {
    var trimmed := Trim(line);
    if trimmed == [] then Skip
    else
      var candidate := TxtCandidate(trimmed);
      if IsValidEmail(candidate.email) then Accept(Parsed(ToLower(candidate.email), candidate.name)) else Reject
  }

  /** A line is skipped exactly when it is blank. */
  lemma TxtLineSkipsOnlyBlank(line: string)
    ensures TxtLine(line) == Skip <==> forall i :: 0 <= i < |line| ==> IsWhitespace(line[i])
  {
    TrimEmptyIffBlank(line);
  }

  /** What is accepted is a valid, lower-cased address. */
  predicate WellFormed(o: Outcome) {
    o.Accept? ==> IsValidEmail(o.contact.email) && IsLower(o.contact.email)
  }

  lemma AcceptedIsWellFormed(email: string)
    requires IsValidEmail(email)
    ensures IsValidEmail(ToLower(email)) && IsLower(ToLower(email))
  {
    ValidEmailIgnoresCase(email);
    ToLowerIsLower(email);
  }

  lemma TxtLineWellFormed(line: string)
    ensures WellFormed(TxtLine(line))
  {
    var trimmed := Trim(line);
    if trimmed != [] && IsValidEmail(TxtCandidate(trimmed).email) {
      AcceptedIsWellFormed(TxtCandidate(trimmed).email);
    }
  }

  /** Text with no whitespace at its ends. */
  predicate Trimmed(s: string) {
    s == [] || (!IsWhitespace(s[0]) && !IsWhitespace(s[|s| - 1]))
  }

  /** Splitting at the first separator peels off the text before it. */
  lemma SplitAtFirst(a: string, s: string, sep: char)
    requires sep !in a
    ensures Split(a + [sep] + s, sep) == [a] + Split(s, sep)
  {
    var line := a + [sep] + s;
    assert line[|a|] == sep;
    assert line[..|a|] == a;
    assert line[|a| + 1..] == s;
  }

  /** A line with a comma splits into its first field, its second field and
      the pieces of whatever follows. */
  lemma SplitLeading(a: string, b: string, rest: string)
    requires ',' !in a && ',' !in b && (rest == [] || rest[0] == ',')
    ensures var parts := Split(a + "," + b + rest, ',');
            |parts| >= 2 && parts[0] == a && parts[1] == b
  {
    var line := a + "," + b + rest;
    var tail := b + rest;
    assert line == a + [','] + tail;
    SplitAtFirst(a, tail, ',');
    var pieces := Split(tail, ',');
    if rest == [] {
      assert tail == b;
    } else {
      assert tail == b + [','] + rest[1..];
      SplitAtFirst(b, rest[1..], ',');
    }
    assert pieces[0] == b;
    assert Split(line, ',') == [a] + pieces;
  }

  /** The first two parts of a line with a comma are its first two fields,
      each trimmed, whatever follows the second. */
  lemma LeadingFields(a: string, b: string, rest: string)
    requires ',' !in a && ',' !in b && (rest == [] || rest[0] == ',')
    ensures var parts := TrimmedParts(a + "," + b + rest);
            |parts| >= 2 && parts[0] == Trim(a) && parts[1] == Trim(b)
  {
    var line := a + "," + b + rest;
    SplitLeading(a, b, rest);
    var pieces := Split(line, ',');
    assert TrimmedParts(line) == TrimAll(pieces);
  }

  lemma CommaCandidate(line: string)
    requires ',' in line
    ensures var parts := TrimmedParts(line);
            TxtCandidate(line) == if IsValidEmail(parts[0]) then Parsed(parts[0], parts[1])
                                  else if IsValidEmail(parts[1]) then Parsed(parts[1], parts[0])
                                  else Parsed(line, "")
  {
  }

  /** The candidate a line with a comma offers: the first two fields, each
      trimmed, in either order when one of them is an address, with any
      further fields ignored; otherwise the whole line with no name. */
  lemma PairCandidate(a: string, b: string, rest: string)
    requires ',' !in a && ',' !in b && (rest == [] || rest[0] == ',')
    ensures TxtCandidate(a + "," + b + rest)
         == if IsValidEmail(Trim(a)) then Parsed(Trim(a), Trim(b))
            else if IsValidEmail(Trim(b)) then Parsed(Trim(b), Trim(a))
            else Parsed(a + "," + b + rest, "")
  {
    var line := a + "," + b + rest;
    LeadingFields(a, b, rest);
    assert line[|a|] == ',';
    CommaCandidate(line);
  }

  /** An `email,name` line gives that contact, with blanks around the
      fields dropped and any fields after the name ignored. */
  lemma TxtEmailThenName(email: string, name: string, rest: string)
    requires ',' !in email && ',' !in name && (rest == [] || rest[0] == ',')
    requires IsValidEmail(Trim(email)) && Trimmed(email + "," + name + rest)
    ensures TxtLine(email + "," + name + rest) == Accept(Parsed(ToLower(Trim(email)), Trim(name)))
  {
    TrimKeeps(email + "," + name + rest);
    PairCandidate(email, name, rest);
  }

  /** A `name,email` line whose first field is not an address gives the
      same contact: the order of the two fields does not matter. */
  lemma TxtNameThenEmail(name: string, email: string, rest: string)
    requires ',' !in name && ',' !in email && (rest == [] || rest[0] == ',')
    requires IsValidEmail(Trim(email)) && !IsValidEmail(Trim(name)) && Trimmed(name + "," + email + rest)
    ensures TxtLine(name + "," + email + rest) == Accept(Parsed(ToLower(Trim(email)), Trim(name)))
  {
    TrimKeeps(name + "," + email + rest);
    PairCandidate(name, email, rest);
  }

  /** A line that is a bare address gives that address with no name. */
  lemma TxtBareAddress(email: string)
    requires IsValidEmail(email) && ',' !in email
    ensures TxtLine(email) == Accept(Parsed(ToLower(email), ""))
  {
    ValidEmailIsTrimmed(email);
  }

  lemma FallbackParts()
    ensures !IsValidEmail("a@b") && !IsValidEmail("c.d")
    ensures Trimmed("a@b") && Trimmed("c.d") && ',' !in "a@b" && ',' !in "c.d"
  {
    assert IndexOf("a@b", '@') == 1;
    assert "c.d"[1] == '.';
  }

  lemma FallbackValid()
    ensures IsValidEmail("a@b,c.d")
  {
    var line := "a@b,c.d";
    assert NoWhitespace(line);
    assert IndexOf(line, '@') == 1;
    var domain := line[2..];
    assert domain == "b,c.d";
    assert '@' !in domain;
    assert domain[1..|domain| - 1] == ",c.";
    assert '.' in domain[1..|domain| - 1];
  }

  lemma FallbackLower()
    ensures ToLower("a@b,c.d") == "a@b,c.d"
  {
    assert IsLower("a@b,c.d");
    ToLowerIsLower("a@b,c.d");
  }

  lemma FallbackCandidate()
    ensures TxtCandidate("a@b,c.d") == Parsed("a@b,c.d", "")
  {
    FallbackParts();
    TrimKeeps("a@b");
    TrimKeeps("c.d");
    assert "a@b" + "," + "c.d" + "" == "a@b,c.d";
    PairCandidate("a@b", "c.d", "");
  }

  /** The fallback: when neither comma-separated part is an address the
      whole line is tested, so `a@b,c.d` is stored as one address holding a
      comma. */
  lemma TxtWholeLineFallback()
    ensures TxtLine("a@b,c.d") == Accept(Parsed("a@b,c.d", ""))
  {
    FallbackCandidate();
    FallbackValid();
    FallbackLower();
    TrimKeeps("a@b,c.d");
  }

  // ---------------------------------------------------------------------
  // CSV rows

  /** A parsed CSV row: header name to cell text. */
  type Row = map<string, string>

  const EmailColumns: seq<string> := ["email", "Email", "EMAIL"]
  const NameColumns: seq<string> := ["name", "Name", "NAME"]

  /** `row[k0] || row[k1] || ... || ''`: the first of the columns that is
      present with a non-empty value, or the empty string, which is falsy
      exactly like the `undefined` the handler may see instead. */
  function FirstFilled(row: Row, keys: seq<string>): (r: string)
    ensures r == [] <==> forall j :: 0 <= j < |keys| ==> keys[j] !in row || row[keys[j]] == []
    ensures r != [] ==> exists i :: && 0 <= i < |keys| && keys[i] in row && row[keys[i]] == r
                                    && forall j :: 0 <= j < i ==> keys[j] !in row || row[keys[j]] == []
  {
    if keys == [] then []
    else if keys[0] in row && row[keys[0]] != [] then row[keys[0]]
    else
      var r := FirstFilled(row, keys[1..]);
      assert forall j :: 1 <= j < |keys| ==> keys[j] == keys[1..][j - 1];
      r
  }

  /** The CSV row handler's decision once the two columns have been read,
      given the name already trimmed (it is used nowhere else). The
      handler's `email &&` guard is left implicit: see `CsvEmptyGuardRedundant`. */
  function CsvDecision(email: string, trimmedName: string): Outcome {
    if IsValidEmail(Trim(email))
    then Accept(Parsed(ToLower(Trim(email)), trimmedName))
    else Reject
  }

  /** The CSV row handler's decision. */
  function CsvRow(row: Row): Outcome {
    CsvDecision(FirstFilled(row, EmailColumns), Trim(FirstFilled(row, NameColumns)))
  }

  /** An empty column value never passes the address check, so the
      handler's `email &&` guard changes no decision. */
  lemma CsvEmptyGuardRedundant(email: string)
    ensures (email != [] && IsValidEmail(Trim(email))) <==> IsValidEmail(Trim(email))
  {
    if email == [] {
      assert Trim(email) == [];
    }
  }

  lemma CsvDecisionWellFormed(email: string, trimmedName: string)
    ensures CsvDecision(email, trimmedName) != Skip && WellFormed(CsvDecision(email, trimmedName))
  {
    if IsValidEmail(Trim(email)) {
      AcceptedIsWellFormed(Trim(email));
    }
  }

  /** A row is never skipped; an accepted one is well formed and its name
      is trimmed. */
  lemma CsvRowWellFormed(row: Row)
    ensures CsvRow(row) != Skip && WellFormed(CsvRow(row))
    ensures CsvRow(row).Accept? ==> Trimmed(CsvRow(row).contact.name)
  {
    var name := FirstFilled(row, NameColumns);
    CsvDecisionWellFormed(FirstFilled(row, EmailColumns), Trim(name));
    TrimEndsNonBlank(name);
  }

  /** A filled `email` column decides the row on its own: when it is not an
      address the row is invalid even if `Email` or `EMAIL` holds one. */
  lemma CsvLowercaseColumnWins(row: Row)
    requires "email" in row && row["email"] != []
    ensures CsvRow(row).Accept? <==> IsValidEmail(Trim(row["email"]))
    ensures CsvRow(row).Accept? ==> CsvRow(row).contact.email == ToLower(Trim(row["email"]))
  {
    assert EmailColumns[0] == "email";
  }

  /** Without any of the three email columns filled the row is invalid. */
  lemma CsvMissingEmailRejected(row: Row)
    requires forall k :: k in EmailColumns ==> k !in row || row[k] == []
    ensures CsvRow(row) == Reject
  {
    assert forall j :: 0 <= j < |EmailColumns| ==> EmailColumns[j] in EmailColumns;
  }

  // ---------------------------------------------------------------------
  // The handlers' shared state

  /** The `contacts`, `validCount` and `invalidCount` of `processFile`. */
  datatype Tally = Tally(contacts: seq<Parsed>, validCount: nat, invalidCount: nat)

  /** What the handlers keep true: one valid, lower-cased contact per valid
      entry. */
  ghost predicate TallyValid(t: Tally) {
    && t.validCount == |t.contacts|
    && forall i :: 0 <= i < |t.contacts| ==> IsValidEmail(t.contacts[i].email) && IsLower(t.contacts[i].email)
  }

  function Absorb(t: Tally, o: Outcome): Tally {
    match o
    case Skip => t
    case Accept(p) => Tally(t.contacts + [p], t.validCount + 1, t.invalidCount)
    case Reject => t.(invalidCount := t.invalidCount + 1)
  }

  /** Handling one well-formed entry keeps the tally valid. */
  lemma AbsorbKeepsValid(t: Tally, o: Outcome)
    requires TallyValid(t) && WellFormed(o)
    ensures TallyValid(Absorb(t, o))
  {
    if o.Accept? {
      var c := t.contacts + [o.contact];
      assert forall i :: 0 <= i < |t.contacts| ==> c[i] == t.contacts[i];
      assert c[|t.contacts|] == o.contact;
    }
  }

  function AbsorbAll(t: Tally, os: seq<Outcome>): Tally {
    if os == [] then t else Absorb(AbsorbAll(t, os[..|os| - 1]), os[|os| - 1])
  }

  lemma AbsorbAllStep(t: Tally, os: seq<Outcome>, i: nat)
    requires i < |os|
    ensures AbsorbAll(t, os[..i + 1]) == Absorb(AbsorbAll(t, os[..i]), os[i])
  {
    assert os[..i + 1][..i] == os[..i];
    assert os[..i + 1][i] == os[i];
  }

  /** The entries that are counted at all (every one but a blank line). */
  function Counted(os: seq<Outcome>): nat {
    if os == [] then 0 else Counted(os[..|os| - 1]) + (if os[|os| - 1] == Skip then 0 else 1)
  }

  /** The accepted contacts, in order. */
  function AcceptedOf(os: seq<Outcome>): seq<Parsed> {
    if os == [] then []
    else AcceptedOf(os[..|os| - 1]) + (if os[|os| - 1].Accept? then [os[|os| - 1].contact] else [])
  }

  /** Handling a sequence of entries appends exactly the accepted contacts in
      order, counts every non-blank entry once as valid or invalid, and keeps
      the tally valid. */
  lemma {:induction false} AbsorbAllTallies(t: Tally, os: seq<Outcome>)
    requires TallyValid(t)
    requires forall i :: 0 <= i < |os| ==> WellFormed(os[i])
    ensures var r := AbsorbAll(t, os);
            && TallyValid(r)
            && r.contacts == t.contacts + AcceptedOf(os)
            && r.validCount + r.invalidCount == t.validCount + t.invalidCount + Counted(os)
  {
    if os != [] {
      AbsorbAllTallies(t, os[..|os| - 1]);
      var r := AbsorbAll(t, os[..|os| - 1]);
      assert WellFormed(os[|os| - 1]);
      if os[|os| - 1].Accept? {
        assert (r.contacts + [os[|os| - 1].contact])[|r.contacts|] == os[|os| - 1].contact;
      }
    }
  }

  function TxtOutcomes(lines: seq<string>): seq<Outcome> {
    seq(|lines|, i requires 0 <= i < |lines| => TxtLine(lines[i]))
  }

  function CsvOutcomes(rows: seq<Row>): seq<Outcome> {
    seq(|rows|, i requires 0 <= i < |rows| => CsvRow(rows[i]))
  }

  lemma TxtOutcomesWellFormed(lines: seq<string>)
    ensures forall i :: 0 <= i < |lines| ==> WellFormed(TxtOutcomes(lines)[i])
  {
    forall i | 0 <= i < |lines| ensures WellFormed(TxtOutcomes(lines)[i]) {
      TxtLineWellFormed(lines[i]);
    }
  }

  lemma CsvOutcomesWellFormed(rows: seq<Row>)
    ensures forall i :: 0 <= i < |rows| ==> WellFormed(CsvOutcomes(rows)[i])
  {
    forall i | 0 <= i < |rows| ensures WellFormed(CsvOutcomes(rows)[i]) {
      CsvRowWellFormed(rows[i]);
    }
  }

  /** Without blank entries every entry is counted. */
  lemma {:induction false} CountedNoSkips(os: seq<Outcome>)
    requires forall i :: 0 <= i < |os| ==> os[i] != Skip
    ensures Counted(os) == |os|
    decreases |os|
  {
    if os != [] {
      CountedNoSkips(os[..|os| - 1]);
    }
  }

  /** Every CSV row is counted, as valid or invalid. */
  lemma CsvRowsAllCounted(rows: seq<Row>)
    ensures Counted(CsvOutcomes(rows)) == |rows|
  {
    var os := CsvOutcomes(rows);
    forall i | 0 <= i < |rows| ensures os[i] != Skip {
      CsvRowWellFormed(rows[i]);
    }
    CountedNoSkips(os);
  }

  /** `fileName.toLowerCase().endsWith('.csv')`. */
  predicate IsCsvName(fileName: string) {
    |fileName| >= 4 && ToLower(fileName)[|fileName| - 4..] == ".csv"
  }

  /** What `processFile` has gathered when the file has been read. */
  function Ingest(fileName: string, lines: seq<string>, rows: seq<Row>): Tally {
    if IsCsvName(fileName) then AbsorbAll(Tally([], 0, 0), CsvOutcomes(rows))
    else AbsorbAll(Tally([], 0, 0), TxtOutcomes(lines))
  }

  /** After a whole file: only valid lower-cased contacts, `validCount`
      equal to their number, and valid plus invalid equal to the number of
      rows (CSV) or of non-blank lines (TXT). */
  lemma IngestTallies(fileName: string, lines: seq<string>, rows: seq<Row>)
    ensures var r := Ingest(fileName, lines, rows);
            && TallyValid(r)
            && (IsCsvName(fileName) ==> r.validCount + r.invalidCount == |rows|)
            && (!IsCsvName(fileName) ==> r.validCount + r.invalidCount == Counted(TxtOutcomes(lines)))
  {
    if IsCsvName(fileName) {
      CsvOutcomesWellFormed(rows);
      AbsorbAllTallies(Tally([], 0, 0), CsvOutcomes(rows));
      CsvRowsAllCounted(rows);
    } else {
      TxtOutcomesWellFormed(lines);
      AbsorbAllTallies(Tally([], 0, 0), TxtOutcomes(lines));
    }
  }

  /** The reassignments of `email` and `name` in the TXT line handler. */
  method TxtFields(trimmedLine: string) returns (email: string, name: string)
    ensures Parsed(email, name) == TxtCandidate(trimmedLine)
  {
    email := trimmedLine;
    name := "";
    if ',' in trimmedLine {
      var parts := TrimmedParts(trimmedLine);
      if IsValidEmail(parts[0]) {
        email, name := parts[0], parts[1];
      } else if IsValidEmail(parts[1]) {
        email, name := parts[1], parts[0];
      }
    }
  }

  /** The closure state of `processFile`, updated by the line and row
      handlers as the file streams in. */
  class Ingestion {
    var contacts: seq<Parsed>
    var validCount: nat
    var invalidCount: nat

    function Snapshot(): Tally
      reads this
    {
      Tally(contacts, validCount, invalidCount)
    }

    constructor ()
      ensures Snapshot() == Tally([], 0, 0)
    {
      contacts, validCount, invalidCount := [], 0, 0;
    }

    /** `contacts.push(...); validCount++` for an accepted entry,
        `invalidCount++` for a rejected one. */
    method Record(o: Outcome)
      modifies this
      ensures Snapshot() == Absorb(old(Snapshot()), o)
    {
      match o
      case Skip =>
      case Accept(p) =>
        contacts := contacts + [p];
        validCount := validCount + 1;
      case Reject =>
        invalidCount := invalidCount + 1;
    }

    /** The `line` handler of the TXT reader. */
    method OnTxtLine(line: string)
      modifies this
      ensures Snapshot() == Absorb(old(Snapshot()), TxtLine(line))
    {
      var trimmedLine := Trim(line);
      if trimmedLine == [] {
        return;
      }
      var email, name := TxtFields(trimmedLine);
      if IsValidEmail(email) {
        Record(Accept(Parsed(ToLower(email), name)));
      } else {
        Record(Reject);
      }
    }

    /** The `data` handler of the CSV reader. */
    method OnCsvRow(row: Row)
      modifies this
      ensures Snapshot() == Absorb(old(Snapshot()), CsvRow(row))
    {
      var email := FirstFilled(row, EmailColumns);
      var name := FirstFilled(row, NameColumns);
      OnCsvFields(email, Trim(name));
    }

    /** The rest of the `data` handler, once the columns have been read. */
    method OnCsvFields(email: string, trimmedName: string)
      modifies this
      ensures Snapshot() == Absorb(old(Snapshot()), CsvDecision(email, trimmedName))
    {
      if IsValidEmail(Trim(email)) {
        Record(Accept(Parsed(ToLower(Trim(email)), trimmedName)));
      } else {
        Record(Reject);
      }
    }

    /** The TXT reader delivering every line in turn. */
    method ReadTxt(lines: seq<string>)
      modifies this
      ensures Snapshot() == AbsorbAll(old(Snapshot()), TxtOutcomes(lines))
    {
      ghost var os := TxtOutcomes(lines);
      for i := 0 to |lines|
        invariant Snapshot() == AbsorbAll(old(Snapshot()), os[..i])
      {
        assert os[i] == TxtLine(lines[i]);
        OnTxtLine(lines[i]);
        AbsorbAllStep(old(Snapshot()), os, i);
      }
      assert os[..|lines|] == os;
    }

    /** The CSV reader delivering every row in turn. */
    method ReadCsv(rows: seq<Row>)
      modifies this
      ensures Snapshot() == AbsorbAll(old(Snapshot()), CsvOutcomes(rows))
    {
      ghost var os := CsvOutcomes(rows);
      for i := 0 to |rows|
        invariant Snapshot() == AbsorbAll(old(Snapshot()), os[..i])
      {
        assert os[i] == CsvRow(rows[i]);
        OnCsvRow(rows[i]);
        AbsorbAllStep(old(Snapshot()), os, i);
      }
      assert os[..|rows|] == os;
    }
  }

  // ---------------------------------------------------------------------
  // processContacts: chunked insertion and the list statistics

  const ChunkSize: nat := 500

  /** `contacts.slice(i, i + 500)` for `i = 0, 500, 1000, ...`. */
  function Chunks<T>(s: seq<T>): seq<seq<T>>
    decreases |s|
  {
    if s == [] then []
    else if |s| <= ChunkSize then [s]
    else [s[..ChunkSize]] + Chunks(s[ChunkSize..])
  }

  function Flatten<T>(cs: seq<seq<T>>): seq<T> {
    if cs == [] then [] else Flatten(cs[..|cs| - 1]) + cs[|cs| - 1]
  }

  /** Chunk `c` is the slice starting at `500 c`; there are `ceil(n / 500)`
      chunks. */
  lemma {:induction false} ChunkAt<T>(s: seq<T>, c: nat)
    requires c < |Chunks(s)|
    ensures ChunkSize * c < |s|
    ensures Chunks(s)[c] == s[ChunkSize * c..Min(ChunkSize * c + ChunkSize, |s|)]
    decreases |s|
  {
    if c > 0 {
      var rest := s[ChunkSize..];
      assert Chunks(s)[c] == Chunks(rest)[c - 1];
      ChunkAt(rest, c - 1);
      var lo, hi := ChunkSize * (c - 1), Min(ChunkSize * (c - 1) + ChunkSize, |rest|);
      assert ChunkSize * c == ChunkSize + lo;
      assert Min(ChunkSize * c + ChunkSize, |s|) == ChunkSize + hi;
      assert rest[lo..hi] == s[ChunkSize + lo..ChunkSize + hi];
    }
  }

  lemma {:induction false} ChunkCount<T>(s: seq<T>)
    ensures |Chunks(s)| == (|s| + ChunkSize - 1) / ChunkSize
    decreases |s|
  {
    if |s| > ChunkSize {
      ChunkCount(s[ChunkSize..]);
    }
  }

  /** Chunk `c` exists exactly when its first index `500 c` is in range. */
  lemma {:induction false} ChunkIndex<T>(s: seq<T>, c: nat)
    ensures ChunkSize * c < |s| <==> c < |Chunks(s)|
    decreases |s|
  {
    if |s| > ChunkSize && c > 0 {
      ChunkIndex(s[ChunkSize..], c - 1);
    }
  }

  /** Chunks hold between 1 and 500 contacts, and all but the last exactly
      500. */
  lemma ChunkSizes<T>(s: seq<T>, c: nat)
    requires c < |Chunks(s)|
    ensures 0 < |Chunks(s)[c]| <= ChunkSize
    ensures c < |Chunks(s)| - 1 ==> |Chunks(s)[c]| == ChunkSize
  {
    ChunkAt(s, c);
    ChunkCount(s);
  }

  /** The first `c` chunks, in order, are the first `500 c` contacts. */
  lemma {:induction false} FlattenChunksPrefix<T>(s: seq<T>, c: nat)
    requires c <= |Chunks(s)|
    ensures Flatten(Chunks(s)[..c]) == s[..Min(ChunkSize * c, |s|)]
  {
    if c > 0 {
      FlattenChunksPrefix(s, c - 1);
      ChunkAt(s, c - 1);
      assert Chunks(s)[..c][..c - 1] == Chunks(s)[..c - 1];
    }
  }

  /** Every contact is inserted exactly once, in the original order. */
  lemma ChunksFlatten<T>(s: seq<T>)
    ensures Flatten(Chunks(s)) == s
  {
    ChunkCount(s);
    FlattenChunksPrefix(s, |Chunks(s)|);
    assert Chunks(s)[..|Chunks(s)|] == Chunks(s);
  }

  /** The row stored for an accepted contact. */
  function StoredRow(listId: nat, p: Parsed): ListContact {
    ListContact(listId, p.email, p.name, true, false)
  }

  function StoredRows(listId: nat, ps: seq<Parsed>): seq<ListContact> {
    seq(|ps|, i requires 0 <= i < |ps| => StoredRow(listId, ps[i]))
  }

  /** The loop building one chunk's `($a, $b, $c, true)` tuples and its
      parameters (list id, address, name). */
  method BuildContactInsert(listId: nat, batch: seq<Parsed>) returns (values: seq<Tuple>, params: seq<Param>)
    ensures NumberedByThrees(values, |batch|) && |params| == 3 * |batch|
    ensures forall i :: 0 <= i < |batch| ==>
              && params[3 * i] == Num(listId)
              && params[3 * i + 1] == Str(batch[i].email)
              && params[3 * i + 2] == Str(batch[i].name)
  {
    values, params := [], [];
    var paramIndex := 1;
    for i := 0 to |batch|
      invariant |values| == i && |params| == 3 * i && paramIndex == 3 * i + 1
      invariant forall j :: 0 <= j < i ==> values[j] == Tuple(3 * j + 1, 3 * j + 2, 3 * j + 3)
      invariant forall j :: 0 <= j < i ==>
                  && params[3 * j] == Num(listId)
                  && params[3 * j + 1] == Str(batch[j].email)
                  && params[3 * j + 2] == Str(batch[j].name)
    {
      values := values + [Tuple(paramIndex, paramIndex + 1, paramIndex + 2)];
      params := params + [Num(listId), Str(batch[i].email), Str(batch[i].name)];
      paramIndex := paramIndex + 3;
    }
  }

  /** How the database reads one `($a, $b, $c, true)` tuple. */
  function BindContact(v: Tuple, params: seq<Param>): Option<ListContact> {
    match (Placeholder(v.first, params), Placeholder(v.second, params), Placeholder(v.third, params))
    case (Some(Num(l)), Some(Str(e)), Some(Str(n))) =>
      if l >= 0 then Some(ListContact(l, e, n, true, false)) else None
    case _ => None
  }

  function BindContacts(values: seq<Tuple>, params: seq<Param>): Option<seq<ListContact>> {
    if forall i :: 0 <= i < |values| ==> BindContact(values[i], params).Some? then
      Some(seq(|values|, i requires 0 <= i < |values| => BindContact(values[i], params).value))
    else None
  }

  /** A chunk's tuples and parameters bind to exactly its contacts' rows. */
  lemma ContactInsertBinds(listId: nat, batch: seq<Parsed>, values: seq<Tuple>, params: seq<Param>)
    requires NumberedByThrees(values, |batch|) && |params| == 3 * |batch|
    requires forall i :: 0 <= i < |batch| ==>
               && params[3 * i] == Num(listId)
               && params[3 * i + 1] == Str(batch[i].email)
               && params[3 * i + 2] == Str(batch[i].name)
    ensures BindContacts(values, params) == Some(StoredRows(listId, batch))
  {
    forall i | 0 <= i < |values| ensures BindContact(values[i], params) == Some(StoredRow(listId, batch[i])) {
      assert params[3 * i] == Num(listId);
      assert params[3 * i + 1] == Str(batch[i].email);
      assert params[3 * i + 2] == Str(batch[i].name);
    }
    var rows := BindContacts(values, params).value;
    assert |rows| == |StoredRows(listId, batch)|;
    assert forall i :: 0 <= i < |rows| ==> rows[i] == StoredRows(listId, batch)[i];
    assert rows == StoredRows(listId, batch);
  }

  /** `UPDATE email_lists SET status = 'failed'`, no change for an unknown id. */
  function MarkListFailed(t: Tables, listId: nat): Tables {
    if listId in t.lists then t.(lists := t.lists[listId := t.lists[listId].(status := ListFailed)]) else t
  }

  /** The closing statistics update. */
  function RecordStats(t: Tables, listId: nat, tally: Tally): Tables {
    if listId in t.lists then
      t.(lists := t.lists[listId := t.lists[listId].(totalCount := |tally.contacts| + tally.invalidCount,
                                                   validCount := tally.validCount,
                                                   invalidCount := tally.invalidCount,
                                                   status := ListCompleted)])
    else t
  }

  /** The number of chunks inserted before the failing one, if any. */
  function ChunksDone(n: nat, fault: Option<nat>): nat {
    if fault.Some? && fault.value < n then fault.value else n
  }

  /** `processContacts` on the tables; `fault` names the chunk whose INSERT
      fails, after which the list is marked failed and the chunks already
      inserted stay. */
  function ProcessContactsSpec(t: Tables, listId: nat, tally: Tally, fault: Option<nat>): Tables {
    var chunks := Chunks(tally.contacts);
    var done := ChunksDone(|chunks|, fault);
    var t1 := t.(contacts := t.contacts + StoredRows(listId, Flatten(chunks[..done])));
    if done < |chunks| then MarkListFailed(t1, listId) else RecordStats(t1, listId, tally)
  }

  lemma StoredRowsAppend(listId: nat, a: seq<Parsed>, b: seq<Parsed>)
    ensures StoredRows(listId, a + b) == StoredRows(listId, a) + StoredRows(listId, b)
  {
    assert forall i :: 0 <= i < |a| + |b| ==> StoredRows(listId, a + b)[i] == (StoredRows(listId, a) + StoredRows(listId, b))[i];
  }

  /** Without a failure every accepted contact is stored once, in order,
      under the list, and the list is completed with total = contacts +
      invalid and the two counts; after a failure at chunk `f` exactly the
      first `500 f` contacts are stored, the list is failed and its counts
      are untouched. */
  lemma ProcessContactsOutcome(t: Tables, listId: nat, tally: Tally, fault: Option<nat>)
    ensures var t' := ProcessContactsSpec(t, listId, tally, fault);
            var n := |Chunks(tally.contacts)|;
            && (fault.None? || fault.value >= n ==>
                  && t'.contacts == t.contacts + StoredRows(listId, tally.contacts)
                  && t' == RecordStats(t.(contacts := t'.contacts), listId, tally))
            && (fault.Some? && fault.value < n ==>
                  && ChunkSize * fault.value < |tally.contacts|
                  && t'.contacts == t.contacts + StoredRows(listId, tally.contacts[..ChunkSize * fault.value])
                  && t' == MarkListFailed(t.(contacts := t'.contacts), listId))
  {
    var n := |Chunks(tally.contacts)|;
    if fault.Some? && fault.value < n {
      FlattenChunksPrefix(tally.contacts, fault.value);
      ChunkAt(tally.contacts, fault.value);
    } else {
      ChunksFlatten(tally.contacts);
      assert Chunks(tally.contacts)[..n] == Chunks(tally.contacts);
    }
  }

  /** Storing an upload touches only contacts and lists, so the campaigns,
      the send tasks and their counters stay as they were, consistent. */
  lemma ProcessContactsKeepsConsistent(t: Tables, listId: nat, tally: Tally, fault: Option<nat>)
    requires Consistent(t)
    ensures var t' := ProcessContactsSpec(t, listId, tally, fault);
            && t'.campaigns == t.campaigns && t'.tasks == t.tasks && t'.nextCampaignId == t.nextCampaignId
            && t'.templates == t.templates && t'.quota == t.quota
            && Consistent(t')
  {
  }

  /** The list statistics after a complete file: total = valid + invalid,
      and valid is the number of stored contacts. */
  lemma ProcessFileStats(t: Tables, listId: nat, fileName: string, lines: seq<string>, rows: seq<Row>)
    requires listId in t.lists
    ensures var tally := Ingest(fileName, lines, rows);
            var t' := ProcessContactsSpec(t, listId, tally, None);
            && t'.lists[listId].status == ListCompleted
            && t'.lists[listId].validCount == |tally.contacts|
            && t'.lists[listId].totalCount == t'.lists[listId].validCount + t'.lists[listId].invalidCount
            && |t'.contacts| == |t.contacts| + t'.lists[listId].validCount
            && (forall k :: |t.contacts| <= k < |t'.contacts| ==>
                  t'.contacts[k].listId == listId && t'.contacts[k].isValid && IsValidEmail(t'.contacts[k].email))
  {
    var tally := Ingest(fileName, lines, rows);
    IngestTallies(fileName, lines, rows);
    ProcessContactsOutcome(t, listId, tally, None);
  }

  /** Inserting chunk `c` after the first `c` extends the stored rows by
      that chunk's rows. */
  lemma ChunkStep(listId: nat, contacts: seq<Parsed>, c: nat)
    requires c < |Chunks(contacts)|
    ensures ChunkSize * c < |contacts|
    ensures StoredRows(listId, Flatten(Chunks(contacts)[..c + 1]))
         == StoredRows(listId, Flatten(Chunks(contacts)[..c]))
          + StoredRows(listId, contacts[ChunkSize * c..Min(ChunkSize * c + ChunkSize, |contacts|)])
  {
    var chunks := Chunks(contacts);
    ChunkAt(contacts, c);
    assert chunks[..c + 1][..c] == chunks[..c];
    StoredRowsAppend(listId, Flatten(chunks[..c]), chunks[c]);
  }

  /** Inserting chunk `chunk` on top of the first `chunk` chunks gives the
      first `chunk + 1`. */
  lemma InsertedPrefixStep(t0: Tables, t: Tables, listId: nat, contacts: seq<Parsed>, chunk: nat)
    requires chunk < |Chunks(contacts)|
    requires t == t0.(contacts := t0.contacts + StoredRows(listId, Flatten(Chunks(contacts)[..chunk])))
    ensures ChunkSize * chunk < |contacts|
    ensures var batch := contacts[ChunkSize * chunk..Min(ChunkSize * chunk + ChunkSize, |contacts|)];
            t.(contacts := t.contacts + StoredRows(listId, batch))
            == t0.(contacts := t0.contacts + StoredRows(listId, Flatten(Chunks(contacts)[..chunk + 1])))
  {
    ChunkStep(listId, contacts, chunk);
    var batch := contacts[ChunkSize * chunk..Min(ChunkSize * chunk + ChunkSize, |contacts|)];
    var done := StoredRows(listId, Flatten(Chunks(contacts)[..chunk]));
    assert (t0.contacts + done) + StoredRows(listId, batch) == t0.contacts + (done + StoredRows(listId, batch));
  }

  /** The outcome once the loop stops at chunk `chunk`: failed there, or done. */
  lemma ProcessContactsStops(t: Tables, listId: nat, tally: Tally, fault: Option<nat>, chunk: nat)
    requires chunk <= |Chunks(tally.contacts)|
    requires fault.None? || fault.value >= chunk
    requires fault == Some(chunk) || chunk == |Chunks(tally.contacts)|
    ensures var t1 := t.(contacts := t.contacts + StoredRows(listId, Flatten(Chunks(tally.contacts)[..chunk])));
            ProcessContactsSpec(t, listId, tally, fault)
            == if chunk < |Chunks(tally.contacts)| then MarkListFailed(t1, listId) else RecordStats(t1, listId, tally)
  {
  }

  /** The closing `UPDATE email_lists SET total_count, valid_count, invalid_count, status`. */
  method UpdateListStats(db: Database, listId: nat, tally: Tally)
    modifies db
    ensures db.Snapshot() == RecordStats(old(db.Snapshot()), listId, tally)
  {
    if listId in db.lists {
      db.lists := db.lists[listId := db.lists[listId].(totalCount := |tally.contacts| + tally.invalidCount,
                                                       validCount := tally.validCount,
                                                       invalidCount := tally.invalidCount,
                                                       status := ListCompleted)];
    }
  }

  /** `handleError`: mark the list failed. */
  method HandleError(db: Database, listId: nat)
    modifies db
    ensures db.Snapshot() == MarkListFailed(old(db.Snapshot()), listId)
  {
    if listId in db.lists {
      db.lists := db.lists[listId := db.lists[listId].(status := ListFailed)];
    }
  }

  /** One chunk's multi-row INSERT into `list_contacts`. */
  method InsertChunk(db: Database, listId: nat, batch: seq<Parsed>)
    modifies db
    ensures db.Snapshot() == old(db.Snapshot()).(contacts := old(db.Snapshot()).contacts + StoredRows(listId, batch))
  {
    var values, params := BuildContactInsert(listId, batch);
    ContactInsertBinds(listId, batch, values, params);
    db.contacts := db.contacts + BindContacts(values, params).value;
  }

  /** `processContacts`: one INSERT per chunk, then the statistics. */
  method ProcessContacts(db: Database, listId: nat, tally: Tally, fault: Option<nat>)
    modifies db
    ensures db.Snapshot() == ProcessContactsSpec(old(db.Snapshot()), listId, tally, fault)
  {
    var contacts := tally.contacts;
    ghost var t0 := db.Snapshot();
    ghost var chunks := Chunks(contacts);
    ChunkIndex(contacts, 0);
    var i := 0;
    var chunk := 0;
    while i < |contacts|
      invariant i == ChunkSize * chunk && chunk <= |chunks|
      invariant i < |contacts| <==> chunk < |chunks|
      invariant fault.None? || fault.value >= chunk
      invariant db.Snapshot() == t0.(contacts := t0.contacts + StoredRows(listId, Flatten(chunks[..chunk])))
      decreases |contacts| - i
    {
      if fault == Some(chunk) {
        ProcessContactsStops(t0, listId, tally, fault, chunk);
        HandleError(db, listId);
        return;
      }
      var batch := contacts[i..Min(i + ChunkSize, |contacts|)];
      InsertedPrefixStep(t0, db.Snapshot(), listId, contacts, chunk);
      InsertChunk(db, listId, batch);
      i := i + ChunkSize;
      chunk := chunk + 1;
      ChunkIndex(contacts, chunk);
    }
    ProcessContactsStops(t0, listId, tally, fault, chunk);
    UpdateListStats(db, listId, tally);
  }

  /** `processFile`: read the file by its kind, then store the contacts. */
  method ProcessFile(db: Database, listId: nat, fileName: string, lines: seq<string>, rows: seq<Row>,
                     fault: Option<nat>)
    modifies db
    ensures db.Snapshot() == ProcessContactsSpec(old(db.Snapshot()), listId, Ingest(fileName, lines, rows), fault)
  {
    var ingestion := new Ingestion();
    if IsCsvName(fileName) {
      ingestion.ReadCsv(rows);
    } else {
      ingestion.ReadTxt(lines);
    }
    ProcessContacts(db, listId, ingestion.Snapshot(), fault);
  }

  // ---------------------------------------------------------------------
  // getListContacts pagination

  /** `Math.ceil(total / limit)` for a positive limit. */
  function CeilDiv(total: nat, limit: nat): (pages: nat)
    requires limit > 0
  {
    (total + limit - 1) / limit
  }

  /** The pages are the fewest that hold every row. */
  lemma CeilDivIsCeiling(total: nat, limit: nat)
    requires limit > 0
    ensures CeilDiv(total, limit) * limit >= total
    ensures CeilDiv(total, limit) == 0 || (CeilDiv(total, limit) - 1) * limit < total
  {
    var q := CeilDiv(total, limit);
    var r := (total + limit - 1) % limit;
    assert q * limit + r == total + limit - 1;
    assert q * limit - limit == (q - 1) * limit;
  }

  datatype Pagination = Pagination(page: int, limit: int, offset: int, total: nat, totalPages: nat)

  /** The query and response of `getListContacts`: `page` defaults to 1 and
      `limit` to 50 (for NaN and 0 alike), `offset = (page - 1) * limit`;
      a negative LIMIT or OFFSET makes the query fail. */
  function Paginate(pageParam: Option<int>, limitParam: Option<int>, total: nat): Option<Pagination> {
    var page := OrDefault(pageParam, 1);
    var limit := OrDefault(limitParam, 50);
    var offset := (page - 1) * limit;
    if limit < 0 || offset < 0 then None
    else Some(Pagination(page, limit, offset, total, CeilDiv(total, limit)))
  }

  lemma {:induction false} MulAtLeast(x: nat, m: nat)
    requires x >= 1
    ensures x * m >= m
    decreases x
  {
    if x > 1 {
      MulAtLeast(x - 1, m);
      assert x * m == (x - 1) * m + m;
    }
  }

  lemma NonPositiveProduct(a: int, b: nat)
    ensures a <= 0 ==> a * b <= 0
  {
  }

  /** Row `k` lies in block `k / limit`, and that block is one of the pages. */
  lemma RowBlock(total: nat, limit: nat, k: nat)
    requires limit > 0 && k < total
    ensures (k / limit) * limit <= k < (k / limit) * limit + limit
    ensures k / limit < CeilDiv(total, limit)
  {
    var q := k / limit;
    assert q * limit <= k < q * limit + limit;
    CeilDivIsCeiling(total, limit);
    var pages := CeilDiv(total, limit);
    assert (pages - q) * limit == pages * limit - q * limit;
    NonPositiveProduct(pages - q, limit);
  }

  lemma NegativeProduct(a: int, b: nat)
    requires a < 0 && b > 0
    ensures a * b < 0
  {
    MulAtLeast(b, -a);
    assert a * b == -(b * -a);
  }

  /** The defaults and the failing query: the page and limit are the parsed
      values or 1 and 50, the query fails exactly when the limit is negative
      or the page is below 1, and otherwise the offset skips `page - 1` whole
      pages and `totalPages` is the ceiling of `total / limit`. */
  lemma PaginateAnswers(pageParam: Option<int>, limitParam: Option<int>, total: nat)
    ensures var page := OrDefault(pageParam, 1);
            var limit := OrDefault(limitParam, 50);
            var r := Paginate(pageParam, limitParam, total);
            && (r.Some? <==> limit > 0 && page >= 1)
            && (r.Some? ==>
                  && r.value.page == page && r.value.limit == limit && r.value.total == total
                  && r.value.offset == (page - 1) * limit
                  && r.value.totalPages * limit >= total
                  && (r.value.totalPages == 0 || (r.value.totalPages - 1) * limit < total))
  {
    var page := OrDefault(pageParam, 1);
    var limit := OrDefault(limitParam, 50);
    assert limit != 0;
    if limit > 0 {
      if page < 1 {
        NegativeProduct(page - 1, limit);
      } else {
        MulAtLeast(limit, page - 1);
        assert (page - 1) * limit == limit * (page - 1);
        CeilDivIsCeiling(total, limit);
      }
    }
  }

  /** Every row index lies on exactly one page between 1 and `totalPages`. */
  lemma PageOfRow(total: nat, limit: nat, k: nat)
    requires limit > 0 && k < total
    ensures var page := k / limit + 1;
            && Paginate(Some(page), Some(limit), total).Some?
            && var p := Paginate(Some(page), Some(limit), total).value;
               && 1 <= page <= p.totalPages
               && p.offset <= k < p.offset + limit
  {
    var q := k / limit;
    RowBlock(total, limit, k);
    assert (q + 1 - 1) * limit == q * limit;
  }

  /** No two pages overlap. */
  lemma PagesDisjoint(limit: nat, page: int, page': int, k: int)
    requires limit > 0 && 1 <= page < page'
    requires (page - 1) * limit <= k < (page - 1) * limit + limit
    ensures !((page' - 1) * limit <= k < (page' - 1) * limit + limit)
  {
    MulAtLeast(page' - page, limit);
    assert (page' - 1) * limit == (page - 1) * limit + (page' - page) * limit;
  }
}
