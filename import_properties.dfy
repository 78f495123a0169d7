/** What an import guarantees, over any spreadsheet and any prior table: every
    data line is counted once, as created or as skipped; every error points at a
    line of the file; the email, phone, NIN, NIF, membership code and username
    of each inserted member are new to the table and to the rest of the batch;
    and every referral code of an inserted member was known when it was
    checked. */
module ImportProperties {
  import opened Wrappers
  import opened Strings
  import opened CsvParse
  import opened MemberStore
  import opened Validation
  import opened Identifiers
  import opened Normalize
  import opened ImportPipeline

  /** None of the record's looked-up values is stored in `cols` yet. */
  predicate KeysNew(cols: Columns, rec: MemberRecord)
  {
    Present(rec.Email()) !! cols.emails && rec.TelephonePrincipal() !in cols.phones
    && rec.Nin() !in cols.nins && Present(rec.Nif()) !! cols.nifs
    && rec.codeAdhesion !in cols.codes && rec.username !in cols.usernames
  }

  /** The record's referral code is absent, blank or one of `codes`. */
  predicate ReferralKnown(codes: set<string>, rec: MemberRecord)
  {
    rec.CodeParrain().None? || Trim(rec.CodeParrain().value) == "" || rec.CodeParrain().value in codes
  }

  /** What the checks guarantee about a record inserted into `cols`. */
  predicate NewTo(cols: Columns, rec: MemberRecord)
  {
    KeysNew(cols, rec) && ReferralKnown(cols.codes, rec)
  }

  /** Two records share no looked-up value. */
  predicate KeysDistinct(a: MemberRecord, b: MemberRecord)
  {
    Present(a.Email()) !! Present(b.Email())
    && a.TelephonePrincipal() != b.TelephonePrincipal() && a.Nin() != b.Nin()
    && Present(a.Nif()) !! Present(b.Nif())
    && a.codeAdhesion != b.codeAdhesion && a.username != b.username
  }

  /** Each record was new to the columns as they stood when it was inserted. */
  predicate AllNew(cols: Columns, recs: seq<MemberRecord>)
  {
    forall j :: 0 <= j < |recs| ==> NewTo(InsertAll(cols, recs[..j]), recs[j])
  }

  /** The number of insertion failures among `errs`. */
  function GeneralCount(errs: seq<ValidationError>): nat
  {
    if errs == [] then 0
    else GeneralCount(errs[..|errs| - 1]) + (if errs[|errs| - 1].field == GeneralField then 1 else 0)
  }

  lemma {:induction false} GeneralCountAppend(a: seq<ValidationError>, b: seq<ValidationError>)
    ensures GeneralCount(a + b) == GeneralCount(a) + GeneralCount(b)
    decreases |b|
  {
    if b != [] {
      var n := |b| - 1;
      assert (a + b)[..|a + b| - 1] == a + b[..n];
      GeneralCountAppend(a, b[..n]);
    } else {
      assert a + b == a;
    }
  }

  /** Errors from validation are never `general` ones. */
  lemma {:induction false} NoGeneralInRowErrors(row: Row, rowIndex: int, cols: Columns, errs: seq<ValidationError>)
    requires forall k :: 0 <= k < |errs| ==> errs[k] in RowErrors(row, rowIndex, cols)
    ensures GeneralCount(errs) == 0
    decreases |errs|
  {
    if errs != [] {
      var n := |errs| - 1;
      ValidationErrorsShape(row, rowIndex, cols);
      assert errs[n] in RowErrors(row, rowIndex, cols);
      NoGeneralInRowErrors(row, rowIndex, cols, errs[..n]);
    }
  }

  // ------------------------------------------------------------- one row

  /** A row is refused by validation exactly when it is not acceptable; it is
      inserted exactly when it is acceptable, a code can be generated and the
      database takes the insert. */
  lemma DecideIff(cols: Columns, row: Row, rowIndex: int, passwordHash: string, faults: map<int, string>)
    ensures var o := Decide(cols, row, rowIndex, passwordHash, faults);
      (o.Rejected? <==> !Acceptable(row, cols))
      && (o.Inserted? <==> Acceptable(row, cols) && rowIndex !in faults
                           && CodeAdhesion(Field(row, "prenom"), Field(row, "nom"), Field(row, "telephone_principal"), cols.codes).Success?)
      && (o.Rejected? ==> o.errs != [] && forall e :: e in o.errs ==> e.row == rowIndex && e.field != GeneralField)
  {
    ValidationEmptyIff(row, rowIndex, cols);
    ValidationErrorsShape(row, rowIndex, cols);
  }

  /** An inserted row is stored from its own cells, with the default password
      hash, and none of its looked-up values was stored before. */
  lemma DecideInsertsNew(cols: Columns, row: Row, rowIndex: int, passwordHash: string, faults: map<int, string>)
    requires Decide(cols, row, rowIndex, passwordHash, faults).Inserted?
    ensures var rec := Decide(cols, row, rowIndex, passwordHash, faults).rec;
      NewTo(cols, rec) && rec.cells == row && rec.passwordHash == passwordHash
  {
    var prenom, nom := Field(row, "prenom"), Field(row, "nom");
    ValidationEmptyIff(row, rowIndex, cols);
    CodeAdhesionSpec(prenom, nom, Field(row, "telephone_principal"), cols.codes);
    UsernameSpec(prenom, nom, cols.usernames);
    assert Required[5].0 == "nin" && Required[6].0 == "telephone_principal";
  }

  // -------------------------------------------------------- the whole loop

  /** The bookkeeping of a loop state: created and inserted rows match one to
      one, every counted row is created or skipped, and the table's columns
      are the prior ones plus the inserted rows. */
  predicate Counted(st: ImportState, cols: Columns, n: nat)
  {
    st.result.success + st.result.skipped == n
    && |st.result.created| == st.result.success && |st.records| == st.result.success
    && st.cols == InsertAll(cols, st.records)
    && forall j :: 0 <= j < |st.records| ==>
         st.result.created[j] == Created(st.records[j].Nom(), st.records[j].Prenom(), st.records[j].codeAdhesion)
  }

  /** One turn keeps the bookkeeping, whatever the row's outcome, provided an
      inserted record is built from the row itself. */
  lemma ApplyCounted(st: ImportState, cols: Columns, n: nat, row: Row, rowIndex: int, o: Outcome)
    requires Counted(st, cols, n)
    requires o.Inserted? ==> o.rec.cells == row
    ensures Counted(Apply(st, row, rowIndex, o), cols, n + 1)
  {
    if o.Inserted? {
      var recs := st.records + [o.rec];
      assert recs[..|recs| - 1] == st.records;
    }
  }

  /** One turn of the loop keeps the bookkeeping. */
  lemma StepCounted(st: ImportState, cols: Columns, n: nat, row: Row, rowIndex: int, passwordHash: string, faults: map<int, string>)
    requires Counted(st, cols, n)
    ensures Counted(Step(st, row, rowIndex, passwordHash, faults), cols, n + 1)
  {
    var o := Decide(st.cols, row, rowIndex, passwordHash, faults);
    if o.Inserted? {
      DecideInsertsNew(st.cols, row, rowIndex, passwordHash, faults);
    }
    ApplyCounted(st, cols, n, row, rowIndex, o);
  }

  /** Every data row is counted once: as created (and then inserted, in
      order) or as skipped. */
  lemma {:induction false} RunCounts(rows: seq<Row>, cols: Columns, passwordHash: string, faults: map<int, string>)
    ensures Counted(Run(rows, cols, passwordHash, faults), cols, |rows|)
    decreases |rows|
  {
    if rows != [] {
      var n := |rows| - 1;
      RunCounts(rows[..n], cols, passwordHash, faults);
      StepCounted(Run(rows[..n], cols, passwordHash, faults), cols, n, rows[n], n + 2, passwordHash, faults);
    }
  }

  /** Skipped lines match the `duplicates` entries and the `general` errors. */
  predicate SkipsExplained(res: ImportResult)
  {
    res.skipped == |res.duplicates| + GeneralCount(res.errors)
  }

  /** Recording an outcome keeps the skipped lines explained, provided a
      refusal carries no `general` error. */
  lemma ApplySkipped(st: ImportState, row: Row, rowIndex: int, o: Outcome)
    requires SkipsExplained(st.result)
    requires o.Rejected? ==> GeneralCount(o.errs) == 0
    ensures SkipsExplained(Apply(st, row, rowIndex, o).result)
  {
    match o
    case Rejected(errs) =>
      GeneralCountAppend(st.result.errors, errs);
    case Failed(msg) =>
      var e := ValidationError(rowIndex, GeneralField, InsertFailed + msg, None);
      GeneralCountAppend(st.result.errors, [e]);
      assert GeneralCount([e]) == 1;
    case Inserted(_) =>
  }

  /** One turn of the loop keeps the skipped lines explained. */
  lemma StepSkipped(st: ImportState, row: Row, rowIndex: int, passwordHash: string, faults: map<int, string>)
    requires SkipsExplained(st.result)
    ensures SkipsExplained(Step(st, row, rowIndex, passwordHash, faults).result)
  {
    var o := Decide(st.cols, row, rowIndex, passwordHash, faults);
    if o.Rejected? {
      assert o.errs == RowErrors(row, rowIndex, st.cols);
      NoGeneralInRowErrors(row, rowIndex, st.cols, o.errs);
    }
    ApplySkipped(st, row, rowIndex, o);
  }

  /** A skipped row is either a refused one (with a `duplicates` entry) or a
      failed insertion (with one `general` error). */
  lemma {:induction false} RunSkipped(rows: seq<Row>, cols: Columns, passwordHash: string, faults: map<int, string>)
    ensures var res := Run(rows, cols, passwordHash, faults).result;
      res.skipped == |res.duplicates| + GeneralCount(res.errors)
    decreases |rows|
  {
    if rows != [] {
      var n := |rows| - 1;
      RunSkipped(rows[..n], cols, passwordHash, faults);
      StepSkipped(Run(rows[..n], cols, passwordHash, faults), rows[n], n + 2, passwordHash, faults);
    }
  }

  /** Every error names a line of the file: the header is line 1, so the data
      rows are lines 2 to `|rows| + 1`. */
  lemma {:induction false} RunErrorLines(rows: seq<Row>, cols: Columns, passwordHash: string, faults: map<int, string>)
    ensures forall e :: e in Run(rows, cols, passwordHash, faults).result.errors ==> 2 <= e.row <= |rows| + 1
    decreases |rows|
  {
    if rows != [] {
      var n := |rows| - 1;
      RunErrorLines(rows[..n], cols, passwordHash, faults);
      var st := Run(rows[..n], cols, passwordHash, faults);
      DecideIff(st.cols, rows[n], n + 2, passwordHash, faults);
    }
  }

  /** One turn keeps every inserted record new to what came before it. */
  lemma ApplyAllNew(st: ImportState, cols: Columns, row: Row, rowIndex: int, o: Outcome)
    requires AllNew(cols, st.records) && st.cols == InsertAll(cols, st.records)
    requires o.Inserted? ==> NewTo(st.cols, o.rec)
    ensures AllNew(cols, Apply(st, row, rowIndex, o).records)
  {
    if o.Inserted? {
      var recs := st.records + [o.rec];
      forall j | 0 <= j < |recs|
        ensures NewTo(InsertAll(cols, recs[..j]), recs[j])
      {
        if j < |st.records| {
          assert recs[..j] == st.records[..j];
        } else {
          assert recs[..j] == st.records;
        }
      }
    }
  }

  /** Each inserted member was new to the table as it stood when its row was
      checked, that is the prior table plus the members inserted before it. */
  lemma {:induction false} RunInsertsNew(rows: seq<Row>, cols: Columns, passwordHash: string, faults: map<int, string>)
    ensures AllNew(cols, Run(rows, cols, passwordHash, faults).records)
    decreases |rows|
  {
    if rows != [] {
      var n := |rows| - 1;
      RunInsertsNew(rows[..n], cols, passwordHash, faults);
      RunCounts(rows[..n], cols, passwordHash, faults);
      var st := Run(rows[..n], cols, passwordHash, faults);
      var o := Decide(st.cols, rows[n], n + 2, passwordHash, faults);
      if o.Inserted? {
        DecideInsertsNew(st.cols, rows[n], n + 2, passwordHash, faults);
      }
      ApplyAllNew(st, cols, rows[n], n + 2, o);
    }
  }

  /** Records inserted one after another, each new to the columns before it,
      are new to the first columns and pairwise share no looked-up value. */
  lemma AllNewKeys(cols: Columns, recs: seq<MemberRecord>, i: nat, j: nat)
    requires AllNew(cols, recs) && i < j < |recs|
    ensures KeysNew(cols, recs[j]) && KeysDistinct(recs[i], recs[j])
  {
    InsertAllHolds(cols, recs[..j]);
    assert recs[..j][i] == recs[i];
    assert NewTo(InsertAll(cols, recs[..j]), recs[j]);
  }

  /** No two members inserted by an import share an email, a principal phone,
      a NIN, a NIF, a membership code or a username, and none of these was in
      the table before. */
  lemma {:induction false} RunKeysUnique(rows: seq<Row>, cols: Columns, passwordHash: string, faults: map<int, string>)
    ensures var recs := Run(rows, cols, passwordHash, faults).records;
      (forall j :: 0 <= j < |recs| ==> KeysNew(cols, recs[j]))
      && forall i, j :: 0 <= i < j < |recs| ==> KeysDistinct(recs[i], recs[j])
  {
    var recs := Run(rows, cols, passwordHash, faults).records;
    RunInsertsNew(rows, cols, passwordHash, faults);
    forall j | 0 <= j < |recs|
      ensures KeysNew(cols, recs[j])
    {
      InsertAllHolds(cols, recs[..j]);
      assert NewTo(InsertAll(cols, recs[..j]), recs[j]);
    }
    forall i, j | 0 <= i < j < |recs|
      ensures KeysDistinct(recs[i], recs[j])
    {
      AllNewKeys(cols, recs, i, j);
    }
  }

  /** A referral code kept on an inserted member, unless blank, is the code of
      a member who was in the table before the import or was inserted earlier
      in the same import. */
  lemma {:induction false} RunReferralsKnown(rows: seq<Row>, cols: Columns, passwordHash: string, faults: map<int, string>)
    ensures var recs := Run(rows, cols, passwordHash, faults).records;
      forall j :: 0 <= j < |recs| && recs[j].CodeParrain().Some? && Trim(recs[j].CodeParrain().value) != "" ==>
        recs[j].CodeParrain().value in cols.codes
        || exists i :: 0 <= i < j && recs[i].codeAdhesion == recs[j].CodeParrain().value
  {
    var recs := Run(rows, cols, passwordHash, faults).records;
    RunInsertsNew(rows, cols, passwordHash, faults);
    forall j | 0 <= j < |recs| && recs[j].CodeParrain().Some? && Trim(recs[j].CodeParrain().value) != ""
      ensures recs[j].CodeParrain().value in cols.codes
              || exists i :: 0 <= i < j && recs[i].codeAdhesion == recs[j].CodeParrain().value
    {
      InsertAllCodes(cols, recs[..j]);
      assert NewTo(InsertAll(cols, recs[..j]), recs[j]);
      var c := recs[j].CodeParrain().value;
      if c !in cols.codes {
        var i :| 0 <= i < j && recs[..j][i].codeAdhesion == c;
        assert recs[..j][i] == recs[i];
      }
    }
  }

  // ------------------------------------------------------------ the handler

  /** The handler answers 401 exactly when the session cookie is missing or
      empty, 400 exactly when it is present but no file was sent, and 200
      exactly when the file has a header and a data line and the database
      connects; a 200 carries the import result, whose rows add up to the
      file's data lines, and its summary message. */
  lemma PostStatuses(token: Option<string>, file: Option<string>, cols: Columns, connectError: Option<string>,
                     passwordHash: string, faults: map<int, string>)
    ensures var resp := PostResponse(token, file, cols, connectError, passwordHash, faults);
      (resp.status == 401 <==> token.None? || token.value == "")
      && (resp.status == 400 <==> token.Some? && token.value != "" && file.None?)
      && (resp.status == 200 <==> token.Some? && token.value != "" && file.Some?
                                  && |DataLines(StripBom(file.value))| >= 2 && connectError.None?)
      && (resp.status == 200 ==> resp.success && resp.data.Some? && resp.message == Summary(resp.data.value)
                                 && resp.data.value.success + resp.data.value.skipped == |DataLines(StripBom(file.value))| - 1)
      && (resp.status != 200 ==> !resp.success && resp.data.None?)
  {
    if token.Some? && token.value != "" && file.Some? {
      ParseCsvFailsIff(file.value);
      var parsed := ParseCsv(file.value);
      if parsed.Success? {
        RunCounts(parsed.value, cols, passwordHash, faults);
      }
    }
  }
}
