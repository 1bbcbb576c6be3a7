/** The admin's transaction report: one record per request, joined with the
    component and user tables by id, with "Unknown" and "Pending" standing
    in for missing values, and the CSV export, which joins fields with ","
    and lines with a line break and quotes nothing. */
module TransactionReport {
  import opened Strings
  import opened Values
  import opened Seqs
  import opened Records

  /** A row of the report. */
  datatype TransactionRecord = TransactionRecord(
    id: string,
    studentName: string,
    studentEmail: string,
    componentName: string,
    quantity: nat,
    status: string,
    requestDate: string,
    returnDate: string)

  /** The record shown for one request. `formatDate` stands for
      `new Date(...).toLocaleDateString()`, which depends on the locale. */
  function BuildRecord(req: Request, components: map<string, string>, users: map<string, StudentInfo>,
                       formatDate: string -> string): (t: TransactionRecord)
    ensures t.id == req.id && t.quantity == req.quantity && t.status == req.status
    ensures t.requestDate == formatDate(req.requestDate)
    // a student or component missing from its map reads "Unknown"
    ensures req.studentId !in users ==> t.studentName == "Unknown" && t.studentEmail == "Unknown"
    ensures req.componentId !in components ==> t.componentName == "Unknown"
    // a known, non-empty value is copied; an empty one also reads "Unknown"
    ensures req.studentId in users ==>
      t.studentName == (if users[req.studentId].name != "" then users[req.studentId].name else "Unknown") &&
      t.studentEmail == (if users[req.studentId].email != "" then users[req.studentId].email else "Unknown")
    ensures req.componentId in components ==>
      t.componentName == (if components[req.componentId] != "" then components[req.componentId] else "Unknown")
    // an absent or empty return date reads "Pending"
    ensures t.returnDate == (if req.returnDate.Some? && req.returnDate.value != "" then req.returnDate.value else "Pending")
  {
    var user := if req.studentId in users then Some(users[req.studentId]) else None;
    TransactionRecord(
      req.id,
      OrElse(if user.Some? then Some(user.value.name) else None, "Unknown"),
      OrElse(if user.Some? then Some(user.value.email) else None, "Unknown"),
      OrElse(if req.componentId in components then Some(components[req.componentId]) else None, "Unknown"),
      req.quantity,
      req.status,
      formatDate(req.requestDate),
      OrElse(req.returnDate, "Pending"))
  }

  /** `requestsData?.map(...) || []`: one record per request, in order. */
  function BuildRecords(rs: seq<Request>, components: map<string, string>, users: map<string, StudentInfo>,
                        formatDate: string -> string): (ts: seq<TransactionRecord>)
    ensures |ts| == |rs|
    ensures forall i :: 0 <= i < |rs| ==> ts[i] == BuildRecord(rs[i], components, users, formatDate)
  {
    seq(|rs|, i requires 0 <= i < |rs| => BuildRecord(rs[i], components, users, formatDate))
  }

  /** `fetchTransactions` on what the three queries returned: the two
      `forEach` loops fill the id maps, then the requests are mapped. */
  method FetchTransactions(requestRows: Option<seq<Request>>, componentRows: Option<seq<Component>>,
                           userRows: Option<seq<User>>, formatDate: string -> string)
    returns (txns: seq<TransactionRecord>)
    ensures txns == BuildRecords(RowsOf(requestRows),
                                 IndexOf(RowsOf(componentRows), ComponentKey, ComponentName),
                                 IndexOf(RowsOf(userRows), UserKey, UserContact), formatDate)
  {
    var componentMap := Index(RowsOf(componentRows), ComponentKey, ComponentName);
    var userMap := Index(RowsOf(userRows), UserKey, UserContact);
    txns := BuildRecords(RowsOf(requestRows), componentMap, userMap, formatDate);
  }

  /** A student name or e-mail shown in the report is that of the last user
      row with the request's student id, or "Unknown" when no row has that
      id. */
  lemma ReportedStudent(rs: seq<Request>, us: seq<User>, cs: seq<Component>, formatDate: string -> string, i: nat)
    requires i < |rs|
    ensures var t := BuildRecords(rs, IndexOf(cs, ComponentKey, ComponentName), IndexOf(us, UserKey, UserContact), formatDate)[i];
      (forall j :: 0 <= j < |us| ==> us[j].id != rs[i].studentId) ==> t.studentName == "Unknown" && t.studentEmail == "Unknown"
    ensures var t := BuildRecords(rs, IndexOf(cs, ComponentKey, ComponentName), IndexOf(us, UserKey, UserContact), formatDate)[i];
      t.studentName != "Unknown" ==>
        exists j :: 0 <= j < |us| && us[j].id == rs[i].studentId && us[j].name == t.studentName &&
          forall l :: j < l < |us| ==> us[l].id != rs[i].studentId
    ensures var t := BuildRecords(rs, IndexOf(cs, ComponentKey, ComponentName), IndexOf(us, UserKey, UserContact), formatDate)[i];
      t.studentEmail != "Unknown" ==>
        exists j :: 0 <= j < |us| && us[j].id == rs[i].studentId && us[j].email == t.studentEmail &&
          forall l :: j < l < |us| ==> us[l].id != rs[i].studentId
  {
    IndexOfLookup(us, UserKey, UserContact, rs[i].studentId);
  }

  /** The seven column headers of the export. */
  const Headers: seq<string> := ["Student Name", "Email", "Component", "Quantity", "Status", "Request Date", "Return Date"]

  /** The seven fields of a row, in header order; the quantity is written in
      decimal. */
  function Fields(t: TransactionRecord): (fs: seq<string>)
    ensures |fs| == |Headers|
  {
    [t.studentName, t.studentEmail, t.componentName, NatToString(t.quantity), t.status, t.requestDate, t.returnDate]
  }

  /** The header line followed by one line per record. */
  function CsvLines(ts: seq<TransactionRecord>): (lines: seq<string>)
    ensures |lines| == |ts| + 1
    ensures lines[0] == Join(Headers, ',')
    ensures forall i :: 0 <= i < |ts| ==> lines[i + 1] == Join(Fields(ts[i]), ',')
  {
    [Join(Headers, ',')] + seq(|ts|, i requires 0 <= i < |ts| => Join(Fields(ts[i]), ','))
  }

  /** The text `exportToCSV` puts in the download. */
  function ExportCsv(ts: seq<TransactionRecord>): string {
    Join(CsvLines(ts), '\n')
  }

  /** No field holds a comma or a line break. */
  predicate PlainFields(t: TransactionRecord) {
    forall f :: f in Fields(t) ==> ',' !in f && '\n' !in f
  }

  /** The export starts with the header line, and a line break follows it
      when there is at least one record. */
  lemma CsvStartsWithHeader(ts: seq<TransactionRecord>)
    ensures Join(Headers, ',') <= ExportCsv(ts)
    ensures ts != [] ==> ExportCsv(ts)[|Join(Headers, ',')|] == '\n'
  {
    JoinPrefix(CsvLines(ts), '\n');
  }

  /** The header line holds no line break and splits back into the
      headers. */
  lemma HeaderLine()
    ensures '\n' !in Join(Headers, ',')
    ensures Split(Join(Headers, ','), ',') == Headers
  {
    forall i | 0 <= i < |Headers| ensures ',' !in Headers[i] && '\n' !in Headers[i] {
      HeaderPlain(i);
    }
    JoinFree(Headers, ',', '\n');
    SplitJoin(Headers, ',');
  }

  /** No header holds a comma or a line break. */
  lemma HeaderPlain(i: nat)
    requires i < |Headers|
    ensures ',' !in Headers[i] && '\n' !in Headers[i]
  {
    var h := Headers[i];
    assert forall j :: 0 <= j < |h| ==> h[j] != ',' && h[j] != '\n' by {
      if i == 0 { assert h == "Student Name"; }
      else if i == 1 { assert h == "Email"; }
      else if i == 2 { assert h == "Component"; }
      else if i == 3 { assert h == "Quantity"; }
      else if i == 4 { assert h == "Status"; }
      else if i == 5 { assert h == "Request Date"; }
      else { assert h == "Return Date"; }
    }
  }

  /** A row whose fields hold no comma or line break is one line that splits
      back into its fields. */
  lemma RowLine(t: TransactionRecord)
    requires PlainFields(t)
    ensures '\n' !in Join(Fields(t), ',')
    ensures Split(Join(Fields(t), ','), ',') == Fields(t)
  {
    var fs := Fields(t);
    assert forall j :: 0 <= j < |fs| ==> ',' !in fs[j] && '\n' !in fs[j] by {
      forall j | 0 <= j < |fs| ensures ',' !in fs[j] && '\n' !in fs[j] {
        assert fs[j] in fs;
      }
    }
    JoinFree(fs, ',', '\n');
    SplitJoin(fs, ',');
  }

  /** When no field holds a comma or a line break, splitting the export at
      line breaks gives the header line and one line per record, in order,
      and splitting each line at commas gives back the headers and each
      record's seven fields. */
  lemma CsvRoundTrip(ts: seq<TransactionRecord>)
    requires forall i :: 0 <= i < |ts| ==> PlainFields(ts[i])
    ensures Split(ExportCsv(ts), '\n') == CsvLines(ts)
    ensures Split(CsvLines(ts)[0], ',') == Headers
    ensures forall i :: 0 <= i < |ts| ==> Split(CsvLines(ts)[i + 1], ',') == Fields(ts[i])
  {
    var lines := CsvLines(ts);
    HeaderLine();
    forall i | 0 <= i < |ts|
      ensures '\n' !in lines[i + 1] && Split(lines[i + 1], ',') == Fields(ts[i])
    {
      RowLine(ts[i]);
    }
    forall i | 0 <= i < |lines| ensures '\n' !in lines[i] {
      if i > 0 {
        assert '\n' !in lines[(i - 1) + 1];
      }
    }
    SplitJoin(lines, '\n');
  }

  /** The status pill of a report row: "Requested", "Approved" and
      "Returned" have their own colours and anything else, "Rejected"
      included, is red. */
  function ReportBadge(status: string): (badge: string)
    ensures badge == "bg-red-100 text-red-800" <==> status !in {"Approved", "Requested", "Returned"}
  {
    if status == "Approved" then "bg-green-100 text-green-800"
    else if status == "Requested" then "bg-yellow-100 text-yellow-800"
    else if status == "Returned" then "bg-gray-100 text-gray-800"
    else "bg-red-100 text-red-800"
  }
}
