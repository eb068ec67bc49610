// Importing contacts from a CSV file: the request that starts an import and the job
// that works through its rows.

module ContactImport {
  import opened Prelude
  import Csv

  /** A contact as one row describes it. */
  datatype Draft = Draft(name: string, email: Option<string>, phone: Option<string>)

  datatype Reason = NoNameOrEmail | DuplicateEmail | InsertFailed

  datatype ImportError = ImportError(row: string, reason: Reason)

  /** String operations of the runtime; `inserts` is whether the database takes the row. */
  datatype Host = Host(
    trim: string -> string, lower: string -> string, underscored: string -> string,
    show: int -> string, inserts: Draft -> bool)

  /** Column positions, -1 when the header has no such column. */
  datatype Columns = Columns(name: int, email: int, phone: int)

  const PENDING: int := 0
  const PROCESSING: int := 1
  const COMPLETED: int := 2
  const FAILED: int := 3

  // ---- Reading a row ----

  function IndexOf(header: seq<string>, title: string): (i: int)
    ensures -1 <= i < |header|
    ensures i >= 0 ==> header[i] == title && forall k | 0 <= k < i :: header[k] != title
    ensures i == -1 <==> forall k | 0 <= k < |header| :: header[k] != title
  {
    if header == [] then -1
    else if header[0] == title then 0
    else
      var rest := IndexOf(header[1..], title);
      assert forall k | 0 < k < |header| :: header[k] == header[1..][k - 1];
      if rest < 0 then -1 else rest + 1
  }

  function ColumnsOf(header: seq<string>): Columns {
    Columns(IndexOf(header, "name"), IndexOf(header, "email"), IndexOf(header, "phone_number"))
  }

  function Cell(row: seq<string>, column: int): Option<string> {
    if 0 <= column < |row| then Some(row[column]) else None
  }

  function NonEmpty(s: string): Option<string> {
    if s == "" then None else Some(s)
  }

  function Read(host: Host, columns: Columns, row: seq<string>): Draft {
    Draft(
      Cell(row, columns.name).GetOr(""),
      var email := Cell(row, columns.email); if email.None? then None else NonEmpty(host.lower(host.trim(email.value))),
      NonEmpty(Cell(row, columns.phone).GetOr("")))
  }

  /** Column k is the first one under the title, and the row reaches it. */
  predicate Under(header: seq<string>, row: seq<string>, title: string, k: int) {
    0 <= k < |header| && header[k] == title && k < |row| && forall j | 0 <= j < k :: header[j] != title
  }

  predicate Missing(header: seq<string>, row: seq<string>, title: string) {
    forall k | 0 <= k < |header| :: !Under(header, row, title, k)
  }

  /** A row is read under the titles name, email and phone_number, wherever these columns stand: the
      address trimmed and in lower case; an empty address or phone number is none. */
  lemma ReadMeaning(host: Host, header: seq<string>, row: seq<string>)
    ensures var d := Read(host, ColumnsOf(header), row);
            && (forall k | Under(header, row, "name", k) :: d.name == row[k])
            && (forall k | Under(header, row, "email", k) ::
                  var email := host.lower(host.trim(row[k]));
                  d.email == if email == "" then None else Some(email))
            && (forall k | Under(header, row, "phone_number", k) ::
                  d.phone == if row[k] == "" then None else Some(row[k]))
            && (Missing(header, row, "name") ==> d.name == "")
            && (Missing(header, row, "email") ==> d.email == None)
            && (Missing(header, row, "phone_number") ==> d.phone == None)
  {
    var columns := ColumnsOf(header);
    assert 0 <= columns.name < |row| ==> Under(header, row, "name", columns.name);
    assert 0 <= columns.email < |row| ==> Under(header, row, "email", columns.email);
    assert 0 <= columns.phone < |row| ==> Under(header, row, "phone_number", columns.phone);
  }

  // ---- The job ----

  predicate HasEmail(contacts: seq<Draft>, email: string) {
    exists i | 0 <= i < |contacts| :: contacts[i].email == Some(email)
  }

  predicate Blank(host: Host, d: Draft) {
    host.trim(d.name) == "" && d.email.None?
  }

  /** Why the row is refused, if it is. */
  function Refusal(host: Host, contacts: seq<Draft>, d: Draft): Option<Reason> {
    if Blank(host, d) then Some(NoNameOrEmail)
    else if d.email.Some? && HasEmail(contacts, d.email.value) then Some(DuplicateEmail)
    else if !host.inserts(d) then Some(InsertFailed)
    else None
  }

  /** Contacts of the account, and the errors recorded for the import. */
  datatype Book = Book(contacts: seq<Draft>, errors: seq<ImportError>)

  function RowName(host: Host, d: Draft, number: int): string {
    if d.name != "" then d.name else d.email.GetOr(host.show(number))
  }

  function HandleRow(host: Host, book: Book, d: Draft, number: int): Book {
    var refusal := Refusal(host, book.contacts, d);
    if refusal.None? then book.(contacts := book.contacts + [d])
    else book.(errors := book.errors + [ImportError(RowName(host, d, number), refusal.value)])
  }

  /** The book after the first n rows. `processed + failed` names a row that has neither a
      name nor an e-mail address. */
  function BookAt(host: Host, start: seq<Draft>, drafts: seq<Draft>, n: nat): Book
    requires n <= |drafts|
  {
    if n == 0 then Book(start, [])
    else
      var before := BookAt(host, start, drafts, n - 1);
      HandleRow(host, before, drafts[n - 1], n - 1 + |before.errors| + 1)
  }

  lemma BookStep(host: Host, start: seq<Draft>, drafts: seq<Draft>, i: nat)
    requires i < |drafts|
    ensures var before := BookAt(host, start, drafts, i);
            BookAt(host, start, drafts, i + 1) == HandleRow(host, before, drafts[i], i + |before.errors| + 1)
  {
  }

  // ---- Which rows become contacts ----

  predicate Claimed(host: Host, drafts: seq<Draft>, email: string, n: nat)
    requires n <= |drafts|
  {
    exists j | 0 <= j < n :: drafts[j].email == Some(email) && host.inserts(drafts[j])
  }

  /** A row that has something to say, that the database takes, and whose address neither
      the account nor an earlier such row has. */
  predicate Creates(host: Host, start: seq<Draft>, drafts: seq<Draft>, i: nat)
    requires i < |drafts|
  {
    var d := drafts[i];
    && !(host.trim(d.name) == "" && d.email == None)
    && host.inserts(d)
    && (d.email.Some? ==> !HasEmail(start, d.email.value) && !Claimed(host, drafts, d.email.value, i))
  }

  function Created(host: Host, start: seq<Draft>, drafts: seq<Draft>, n: nat): seq<Draft>
    requires n <= |drafts|
  {
    if n == 0 then []
    else Created(host, start, drafts, n - 1) + if Creates(host, start, drafts, n - 1) then [drafts[n - 1]] else []
  }

  predicate EmailsDistinct(contacts: seq<Draft>) {
    forall i, j | 0 <= i < j < |contacts| && contacts[i].email.Some? :: contacts[i].email != contacts[j].email
  }

  lemma HasEmailSnoc(contacts: seq<Draft>, d: Draft, email: string)
    ensures HasEmail(contacts + [d], email) <==> HasEmail(contacts, email) || d.email == Some(email)
  {
    assert (contacts + [d])[|contacts|] == d;
    if HasEmail(contacts, email) {
      var i :| 0 <= i < |contacts| && contacts[i].email == Some(email);
      assert (contacts + [d])[i] == contacts[i];
    }
  }

  lemma {:induction false} EmailsKnown(host: Host, start: seq<Draft>, drafts: seq<Draft>, n: nat, email: string)
    requires n <= |drafts|
    ensures HasEmail(BookAt(host, start, drafts, n).contacts, email)
       <==> HasEmail(start, email) || Claimed(host, drafts, email, n)
  {
    if n > 0 {
      EmailsKnown(host, start, drafts, n - 1, email);
      var before, d := BookAt(host, start, drafts, n - 1), drafts[n - 1];
      HasEmailSnoc(before.contacts, d, email);
      assert Claimed(host, drafts, email, n)
        <==> Claimed(host, drafts, email, n - 1) || (d.email == Some(email) && host.inserts(d));
    }
  }

  /** The first reason that applies to a row that does not become a contact. */
  function ReasonOf(host: Host, start: seq<Draft>, drafts: seq<Draft>, i: nat): Reason
    requires i < |drafts|
  {
    var d := drafts[i];
    if host.trim(d.name) == "" && d.email == None then NoNameOrEmail
    else if d.email.Some? && (HasEmail(start, d.email.value) || Claimed(host, drafts, d.email.value, i))
    then DuplicateEmail
    else InsertFailed
  }

  /** Its error names the row, or else its address, or else the number of rows and errors so far. */
  function ErrorOf(host: Host, start: seq<Draft>, drafts: seq<Draft>, i: nat, number: int): ImportError
    requires i < |drafts|
  {
    var d := drafts[i];
    ImportError(if d.name != "" then d.name else if d.email.Some? then d.email.value else host.show(number),
                ReasonOf(host, start, drafts, i))
  }

  /** One error for every row that does not become a contact, in order. */
  function Errors(host: Host, start: seq<Draft>, drafts: seq<Draft>, n: nat): seq<ImportError>
    requires n <= |drafts|
  {
    if n == 0 then []
    else
      var before := Errors(host, start, drafts, n - 1);
      if Creates(host, start, drafts, n - 1) then before
      else before + [ErrorOf(host, start, drafts, n - 1, n + |before|)]
  }

  lemma RefusalIs(host: Host, start: seq<Draft>, drafts: seq<Draft>, i: nat)
    requires i < |drafts|
    ensures Refusal(host, BookAt(host, start, drafts, i).contacts, drafts[i])
         == if Creates(host, start, drafts, i) then None else Some(ReasonOf(host, start, drafts, i))
  {
    if drafts[i].email.Some? {
      EmailsKnown(host, start, drafts, i, drafts[i].email.value);
    }
  }

  /** What row i adds to the book. */
  lemma RowMeaning(host: Host, start: seq<Draft>, drafts: seq<Draft>, i: nat)
    requires i < |drafts|
    ensures var before, after := BookAt(host, start, drafts, i), BookAt(host, start, drafts, i + 1);
            if Creates(host, start, drafts, i)
            then after == before.(contacts := before.contacts + [drafts[i]])
            else after == before.(errors := before.errors
                   + [ErrorOf(host, start, drafts, i, i + 1 + |before.errors|)])
  {
    RefusalIs(host, start, drafts, i);
  }

  lemma {:induction false} ErrorsExact(host: Host, start: seq<Draft>, drafts: seq<Draft>, n: nat)
    requires n <= |drafts|
    ensures BookAt(host, start, drafts, n).errors == Errors(host, start, drafts, n)
  {
    if n > 0 {
      ErrorsExact(host, start, drafts, n - 1);
      RowMeaning(host, start, drafts, n - 1);
    }
  }

  lemma {:induction false} ContactsExact(host: Host, start: seq<Draft>, drafts: seq<Draft>, n: nat)
    requires n <= |drafts|
    ensures BookAt(host, start, drafts, n).contacts == start + Created(host, start, drafts, n)
    ensures |Created(host, start, drafts, n)| + |BookAt(host, start, drafts, n).errors| == n
  {
    if n > 0 {
      ContactsExact(host, start, drafts, n - 1);
      RowMeaning(host, start, drafts, n - 1);
    }
  }

  /** The rows that become contacts are exactly those that `Creates` selects, in order: among
      rows with the same new address, the first one the database takes. Every other row
      leaves one error. */
  lemma ImportExact(host: Host, start: seq<Draft>, drafts: seq<Draft>, n: nat)
    requires n <= |drafts|
    ensures var book := BookAt(host, start, drafts, n);
            && book.contacts == start + Created(host, start, drafts, n)
            && book.errors == Errors(host, start, drafts, n)
            && |Created(host, start, drafts, n)| + |book.errors| == n
  {
    ContactsExact(host, start, drafts, n);
    ErrorsExact(host, start, drafts, n);
  }

  lemma {:induction false} EmailsStayDistinct(host: Host, start: seq<Draft>, drafts: seq<Draft>, n: nat)
    requires n <= |drafts| && EmailsDistinct(start)
    ensures EmailsDistinct(BookAt(host, start, drafts, n).contacts)
  {
    if n > 0 {
      EmailsStayDistinct(host, start, drafts, n - 1);
    }
  }

  lemma {:induction false} NoneCreated(host: Host, start: seq<Draft>, drafts: seq<Draft>, n: nat)
    requires n <= |drafts|
    ensures Created(host, start, drafts, n) == [] <==> forall i: nat | i < n :: !Creates(host, start, drafts, i)
  {
    if n > 0 {
      NoneCreated(host, start, drafts, n - 1);
    }
  }

  function FinalStatus(processed: int, failed: int): int {
    if failed > 0 && processed - failed == 0 then FAILED else COMPLETED
  }

  /** The import fails, with status 3 and not 2, exactly when it had rows and none of them became
      a contact. */
  lemma FailedIff(host: Host, start: seq<Draft>, drafts: seq<Draft>)
    ensures FinalStatus(|drafts|, |BookAt(host, start, drafts, |drafts|).errors|)
         == if |drafts| > 0 && forall i: nat | i < |drafts| :: !Creates(host, start, drafts, i) then 3 else 2
  {
    ImportExact(host, start, drafts, |drafts|);
    NoneCreated(host, start, drafts, |drafts|);
  }

  /** Importing the same rows again creates only contacts without an address. */
  lemma ReimportCreatesNoAddress(host: Host, start: seq<Draft>, drafts: seq<Draft>, i: nat)
    requires i < |drafts| && drafts[i].email.Some?
    ensures !Creates(host, BookAt(host, start, drafts, |drafts|).contacts, drafts, i)
  {
    EmailsKnown(host, start, drafts, |drafts|, drafts[i].email.value);
  }

  // ---- Starting an import ----

  datatype Start = TooShort | NoNameColumn | Ready(header: seq<string>, rows: seq<seq<string>>)

  function NormalHeader(host: Host, header: seq<string>): seq<string> {
    seq(|header|, i requires 0 <= i < |header| => host.underscored(host.lower(host.trim(header[i]))))
  }

  function StartOf(host: Host, rows: seq<seq<string>>): Start {
    if |rows| < 2 then TooShort
    else
      var header := NormalHeader(host, rows[0]);
      if IndexOf(header, "name") < 0 then NoNameColumn else Ready(header, rows[1..])
  }

  predicate HasTitle(host: Host, header: seq<string>, title: string) {
    exists k | 0 <= k < |header| :: host.underscored(host.lower(host.trim(header[k]))) == title
  }

  /** A file needs a header and a row, and a column whose trimmed title, in lower case and with
      underscores, is name. */
  lemma StartMeaning(host: Host, rows: seq<seq<string>>)
    ensures var start := StartOf(host, rows);
            && (start == TooShort <==> |rows| <= 1)
            && (start == NoNameColumn <==> |rows| >= 2 && !HasTitle(host, rows[0], "name"))
            && (start.Ready? ==>
                  && start.rows == rows[1..] && |start.header| == |rows[0]|
                  && forall k | 0 <= k < |rows[0]| ::
                       start.header[k] == host.underscored(host.lower(host.trim(rows[0][k]))))
  {
    if |rows| >= 2 {
      var header := NormalHeader(host, rows[0]);
      assert HasTitle(host, rows[0], "name") <==> exists k | 0 <= k < |header| :: header[k] == "name" by {
        if k :| 0 <= k < |header| && header[k] == "name" {
          assert host.underscored(host.lower(host.trim(rows[0][k]))) == "name";
        }
        if HasTitle(host, rows[0], "name") {
          var k :| 0 <= k < |rows[0]| && host.underscored(host.lower(host.trim(rows[0][k]))) == "name";
          assert header[k] == "name";
        }
      }
    }
  }

  function Drafts(host: Host, columns: Columns, rows: seq<seq<string>>): seq<Draft> {
    seq(|rows|, i requires 0 <= i < |rows| => Read(host, columns, rows[i]))
  }

  // ---- The account being imported into ----

  class Importer {
    const host: Host
    var contacts: seq<Draft>
    var errors: seq<ImportError>
    var status: int
    var totalRecords: int
    var processedRecords: int

    constructor (host: Host, contacts: seq<Draft>)
      ensures this.host == host && this.contacts == contacts && errors == [] && status == 0
    {
      this.host, this.contacts, errors := host, contacts, [];
      status, totalRecords, processedRecords := PENDING, 0, 0;
    }

    method ImportRow(draft: Draft, number: int) returns (ok: bool)
      modifies this`contacts, this`errors
      ensures Book(contacts, errors) == HandleRow(host, old(Book(contacts, errors)), draft, number)
      ensures |errors| == |old(errors)| + if ok then 0 else 1
    {
      var refusal := Refusal(host, contacts, draft);
      ok := refusal.None?;
      if ok {
        contacts := contacts + [draft];
      } else {
        errors := errors + [ImportError(RowName(host, draft, number), refusal.value)];
      }
    }

    method RunJob(header: seq<string>, rows: seq<seq<string>>)
      requires errors == [] && processedRecords == 0
      modifies this
      ensures var drafts := Drafts(host, ColumnsOf(header), rows);
              && Book(contacts, errors) == BookAt(host, old(contacts), drafts, |drafts|)
              && status == FinalStatus(|rows|, |errors|)
      ensures processedRecords == |rows| && totalRecords == old(totalRecords)
    {
      status := PROCESSING;
      var processed, failed := 0, 0;
      var columns := ColumnsOf(header);
      ghost var drafts := Drafts(host, columns, rows);
      for i := 0 to |rows|
        invariant processed == processedRecords == i && failed == |errors| && totalRecords == old(totalRecords)
        invariant Book(contacts, errors) == BookAt(host, old(contacts), drafts, i)
      {
        BookStep(host, old(contacts), drafts, i);
        var ok := ImportRow(Read(host, columns, rows[i]), processed + failed + 1);
        failed := failed + if ok then 0 else 1;
        processed := processed + 1;
        processedRecords := processed;
      }
      status := if failed > 0 && processed - failed == 0 then FAILED else COMPLETED;
    }

    method StartContactImport(text: string) returns (start: Start)
      requires errors == []
      modifies this
      ensures start == StartOf(host, Csv.Scan(host.trim(text), [], [], "", false))
      ensures start.Ready? ==>
                var drafts := Drafts(host, ColumnsOf(start.header), start.rows);
                && Book(contacts, errors) == BookAt(host, old(contacts), drafts, |drafts|)
                && totalRecords == processedRecords == |start.rows|
                && status == FinalStatus(|start.rows|, |errors|)
      ensures !start.Ready? ==> contacts == old(contacts) && errors == old(errors)
    {
      var rows := Csv.ParseCsv(host.trim(text));
      if |rows| < 2 {
        return TooShort;
      }
      var header := NormalHeader(host, rows[0]);
      if IndexOf(header, "name") < 0 {
        return NoNameColumn;
      }
      status, totalRecords, processedRecords := PENDING, |rows| - 1, 0;
      RunJob(header, rows[1..]);
      start := Ready(header, rows[1..]);
    }
  }
}
