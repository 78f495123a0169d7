/** The `POST` handler of app/api/membres/import/route.ts: check the session
    cookie, read the uploaded file, parse it, then take the rows one by one —
    validate, generate the identifiers, insert — and report how many were
    created and how many were skipped, with the reason for each. */
module ImportPipeline {
  import opened Wrappers
  import opened Strings
  import opened CsvParse
  import opened MemberStore
  import opened Validation
  import opened Identifiers
  import opened Normalize

  /** A `details.created` entry. */
  datatype Created = Created(nom: string, prenom: string, codeAdhesion: string)

  /** A `details.duplicates` entry: a row refused by validation. */
  datatype Duplicate = Duplicate(nom: string, prenom: string, reason: string)

  /** The `ImportResult` object. */
  datatype ImportResult = ImportResult(
    success: nat,
    errors: seq<ValidationError>,
    skipped: nat,
    created: seq<Created>,
    duplicates: seq<Duplicate>)

  /** The result so far, the table's columns and the rows inserted so far. */
  datatype ImportState = ImportState(result: ImportResult, cols: Columns, records: seq<MemberRecord>)

  /** The JSON response: HTTP status, `success`, `message` and `data`. */
  datatype Response = Response(status: int, success: bool, message: string, data: Option<ImportResult>)

  const NotAuthenticated: string := "Non authentifié"
  const NoFile: string := "Aucun fichier fourni"
  const InsertFailed: string := "Erreur lors de l'insertion: "
  const GeneralField: string := "general"

  /** `value || 'N/A'`. */
  function OrNA(v: string): string
  {
    if v == "" then "N/A" else v
  }

  /** `validationErrors.map(e => e.message)`. */
  function Messages(errs: seq<ValidationError>): seq<string>
  {
    seq(|errs|, k requires 0 <= k < |errs| => errs[k].message)
  }

  /** `Import terminé: N membre(s) créé(s), M ligne(s) ignorée(s)`. */
  function Summary(res: ImportResult): string
  {
    "Import terminé: " + NatStr(res.success) + " membre(s) créé(s), " + NatStr(res.skipped) + " ligne(s) ignorée(s)"
  }

  // --------------------------------------------------------- one row

  /** A row refused by validation: its errors, one more skipped line, and a
      `duplicates` entry whose reason lists the messages. */
  function Reject(res: ImportResult, row: Row, errs: seq<ValidationError>): ImportResult
  {
    res.(errors := res.errors + errs, skipped := res.skipped + 1,
         duplicates := res.duplicates + [Duplicate(OrNA(Field(row, "nom")), OrNA(Field(row, "prenom")), Join(Messages(errs), ", "))])
  }

  /** A row whose code generation or insert threw: one `general` error, one more skipped line. */
  function Fail(res: ImportResult, rowIndex: int, message: string): ImportResult
  {
    res.(errors := res.errors + [ValidationError(rowIndex, GeneralField, InsertFailed + message, None)],
         skipped := res.skipped + 1)
  }

  /** A row inserted: one more success and a `created` entry. */
  function Accept(res: ImportResult, row: Row, code: string): ImportResult
  {
    res.(success := res.success + 1, created := res.created + [Created(Field(row, "nom"), Field(row, "prenom"), code)])
  }

  /** What happens to one row. */
  datatype Outcome = Rejected(errs: seq<ValidationError>) | Failed(message: string) | Inserted(rec: MemberRecord)

  /** The fate of the row on spreadsheet line `rowIndex` against the table's
      current columns: refused by validation, thrown out of the `try` block
      (code generation, or an insert the database refuses — `faults` holds the
      message of every such insert, keyed by line), or inserted. */
  function Decide(cols: Columns, row: Row, rowIndex: int, passwordHash: string, faults: map<int, string>): Outcome
  {
    var errs := RowErrors(row, rowIndex, cols);
    if errs != [] then Rejected(errs)
    else
      var prenom, nom := Field(row, "prenom"), Field(row, "nom");
      match CodeAdhesion(prenom, nom, Field(row, "telephone_principal"), cols.codes)
      case Failure(msg) => Failed(msg)
      case Success(code) =>
        if rowIndex in faults then Failed(faults[rowIndex])
        else Inserted(NormalizeRow(row, code, Username(prenom, nom, cols.usernames), passwordHash))
  }

  /** The effect of a row's outcome on the result and the table. */
  function Apply(st: ImportState, row: Row, rowIndex: int, outcome: Outcome): ImportState
  {
    match outcome
    case Rejected(errs) => st.(result := Reject(st.result, row, errs))
    case Failed(msg) => st.(result := Fail(st.result, rowIndex, msg))
    case Inserted(rec) => ImportState(Accept(st.result, row, rec.codeAdhesion), st.cols.Insert(rec), st.records + [rec])
  }

  /** One turn of the loop. */
  function Step(st: ImportState, row: Row, rowIndex: int, passwordHash: string, faults: map<int, string>): ImportState
  {
    Apply(st, row, rowIndex, Decide(st.cols, row, rowIndex, passwordHash, faults))
  }

  /** The loop over all rows; row i (from 0) is spreadsheet line i + 2. */
  function Run(rows: seq<Row>, cols: Columns, passwordHash: string, faults: map<int, string>): ImportState
  {
    if rows == [] then ImportState(ImportResult(0, [], 0, [], []), cols, [])
    else
      var n := |rows| - 1;
      Step(Run(rows[..n], cols, passwordHash, faults), rows[n], n + 2, passwordHash, faults)
  }

  /** What the handler answers. `token` is the session cookie, `file` the
      uploaded text, `cols` the table before the import, `connectError` the
      failure of opening the database connection, if any. */
  function PostResponse(token: Option<string>, file: Option<string>, cols: Columns, connectError: Option<string>,
                        passwordHash: string, faults: map<int, string>): Response
  {
    if token.None? || token.value == "" then Response(401, false, NotAuthenticated, None)
    else if file.None? then Response(400, false, NoFile, None)
    else match ParseCsv(file.value)
      case Failure(msg) => Response(500, false, "Erreur: " + msg, None)
      case Success(rows) =>
        if connectError.Some? then Response(500, false, "Erreur: " + connectError.value, None)
        else
          var res := Run(rows, cols, passwordHash, faults).result;
          Response(200, true, Summary(res), Some(res))
  }

  // ------------------------------------------------------- the handler

  /** Validation, then code and username generation: the lookups of one
      turn of the loop, which change nothing. */
  method DecideRow(row: Row, rowIndex: int, table: MemberTable, passwordHash: string, faults: map<int, string>)
    returns (outcome: Outcome)
    ensures outcome == Decide(table.Snapshot(), row, rowIndex, passwordHash, faults)
  {
    var errs := ValidateRow(row, rowIndex, table);
    if |errs| > 0 {
      return Rejected(errs);
    }
    var prenom, nom := Field(row, "prenom"), Field(row, "nom");
    var code := GenerateCodeAdhesion(prenom, nom, Field(row, "telephone_principal"), table);
    if code.Failure? {
      return Failed(code.error);
    }
    var username := GenerateUsername(prenom, nom, table);
    var rec := NormalizeRow(row, code.value, username, passwordHash);
    if rowIndex in faults {
      return Failed(faults[rowIndex]);
    }
    outcome := Inserted(rec);
  }

  /** The rest of the loop body: record the outcome, inserting the row if it was accepted. */
  method ApplyOutcome(row: Row, rowIndex: int, table: MemberTable, outcome: Outcome, res: ImportResult)
    returns (next: ImportResult)
    requires table.Valid()
    modifies table
    ensures table.Valid()
    ensures var st := Apply(ImportState(res, old(table.Snapshot()), []), row, rowIndex, outcome);
      next == st.result && table.Snapshot() == st.cols && table.records == old(table.records) + st.records
  {
    next := res;
    match outcome
    case Rejected(errs) =>
      next := next.(errors := next.errors + errs, skipped := next.skipped + 1);
      next := next.(duplicates := next.duplicates
                      + [Duplicate(OrNA(Field(row, "nom")), OrNA(Field(row, "prenom")), Join(Messages(errs), ", "))]);
    case Failed(msg) =>
      next := next.(errors := next.errors + [ValidationError(rowIndex, GeneralField, InsertFailed + msg, None)],
                    skipped := next.skipped + 1);
    case Inserted(rec) =>
      table.Insert(rec);
      next := next.(success := next.success + 1);
      next := next.(created := next.created + [Created(Field(row, "nom"), Field(row, "prenom"), rec.codeAdhesion)]);
  }

  lemma RunSnoc(rows: seq<Row>, i: nat, cols: Columns, passwordHash: string, faults: map<int, string>)
    requires i < |rows|
    ensures Run(rows[..i + 1], cols, passwordHash, faults)
            == Step(Run(rows[..i], cols, passwordHash, faults), rows[i], i + 2, passwordHash, faults)
  {
    assert rows[..i + 1][..i] == rows[..i];
  }

  /** A turn of the loop only appends to the inserted rows, whatever came before. */
  lemma ApplyRecords(st: ImportState, row: Row, rowIndex: int, outcome: Outcome)
    ensures var a, b := Apply(st, row, rowIndex, outcome), Apply(st.(records := []), row, rowIndex, outcome);
      a.result == b.result && a.cols == b.cols && a.records == st.records + b.records
  {
  }

  /** One turn of the `for` loop, from the state the earlier turns left. */
  method ImportRow(ghost st: ImportState, ghost records0: seq<MemberRecord>, row: Row, rowIndex: int,
                   table: MemberTable, passwordHash: string, faults: map<int, string>, res: ImportResult)
    returns (next: ImportResult)
    requires table.Valid()
    requires res == st.result && table.Snapshot() == st.cols && table.records == records0 + st.records
    modifies table
    ensures table.Valid()
    ensures var st' := Step(st, row, rowIndex, passwordHash, faults);
      next == st'.result && table.Snapshot() == st'.cols && table.records == records0 + st'.records
  {
    var outcome := DecideRow(row, rowIndex, table, passwordHash, faults);
    ApplyRecords(st, row, rowIndex, outcome);
    next := ApplyOutcome(row, rowIndex, table, outcome, res);
  }

  /** The `for` loop of the handler. */
  method ImportRows(rows: seq<Row>, table: MemberTable, passwordHash: string, faults: map<int, string>)
    returns (res: ImportResult)
    requires table.Valid()
    modifies table
    ensures table.Valid()
    ensures var st := Run(rows, old(table.Snapshot()), passwordHash, faults);
      res == st.result && table.Snapshot() == st.cols && table.records == old(table.records) + st.records
  {
    ghost var cols0 := table.Snapshot();
    ghost var records0 := table.records;
    res := ImportResult(0, [], 0, [], []);
    for i := 0 to |rows|
      invariant table.Valid()
      invariant var st := Run(rows[..i], cols0, passwordHash, faults);
        res == st.result && table.Snapshot() == st.cols && table.records == records0 + st.records
    {
      RunSnoc(rows, i, cols0, passwordHash, faults);
      res := ImportRow(Run(rows[..i], cols0, passwordHash, faults), records0, rows[i], i + 2, table, passwordHash, faults, res);
    }
    assert rows[..|rows|] == rows;
  }

  /** `POST /api/membres/import`. */
  method Post(token: Option<string>, file: Option<string>, table: MemberTable, connectError: Option<string>,
              passwordHash: string, faults: map<int, string>) returns (resp: Response)
    requires table.Valid()
    modifies table
    ensures table.Valid()
    ensures resp == PostResponse(token, file, old(table.Snapshot()), connectError, passwordHash, faults)
    ensures resp.status == 200
            ==> table.Snapshot() == Run(ParseCsv(file.value).value, old(table.Snapshot()), passwordHash, faults).cols
    ensures resp.status != 200 ==> table.Snapshot() == old(table.Snapshot()) && table.records == old(table.records)
  {
    if token.None? || token.value == "" {
      return Response(401, false, NotAuthenticated, None);
    }
    if file.None? {
      return Response(400, false, NoFile, None);
    }
    var parsed := ParseCsvRows(file.value);
    if parsed.Failure? {
      return Response(500, false, "Erreur: " + parsed.error, None);
    }
    if connectError.Some? {
      return Response(500, false, "Erreur: " + connectError.value, None);
    }
    var res := ImportRows(parsed.value, table, passwordHash, faults);
    resp := Response(200, true, Summary(res), Some(res));
  }
}
