/** `validateRow` of app/api/membres/import/route.ts: the ten mandatory
    columns, the four uniqueness lookups and the referral-code lookup, each
    adding one error to the list in that order. */
module Validation {
  import opened Wrappers
  import opened Strings
  import opened CsvParse
  import opened MemberStore

  /** One reported problem: the spreadsheet line, the column, the message and,
      for the lookups, the offending value. */
  datatype ValidationError = ValidationError(row: int, field: string, message: string, value: Option<string>)

  /** The mandatory columns, in the order they are checked, with their messages. */
  const Required: seq<(string, string)> := [
    ("nom", "Le nom est obligatoire"),
    ("prenom", "Le prénom est obligatoire"),
    ("sexe", "Le sexe est obligatoire"),
    ("date_de_naissance", "La date de naissance est obligatoire"),
    ("lieu_de_naissance", "Le lieu de naissance est obligatoire"),
    ("nin", "Le NIN est obligatoire"),
    ("telephone_principal", "Le téléphone principal est obligatoire"),
    ("adresse_complete", "L'adresse complète est obligatoire"),
    ("departement", "Le département est obligatoire"),
    ("commune", "La commune est obligatoire")
  ]

  const EmailTaken: string := "Cet email existe déjà"
  const PhoneTaken: string := "Ce téléphone existe déjà"
  const NinTaken: string := "Ce NIN existe déjà"
  const NifTaken: string := "Ce NIF existe déjà"
  const BadReferral: string := "Code de parrainage invalide"

  /** The columns a validation error can name: the mandatory ones, the four
      unique ones and `code_parrain`. */
  predicate IsCheckedField(f: string)
  {
    (exists p :: p in Required && p.0 == f)
    || f in {"email", "telephone_principal", "nin", "nif", "code_parrain"}
  }

  /** The errors of the mandatory checks listed in `checks`, in order. */
  function MissingErrors(row: Row, rowIndex: int, checks: seq<(string, string)>): seq<ValidationError>
  {
    if checks == [] then []
    else
      var n := |checks| - 1;
      MissingErrors(row, rowIndex, checks[..n])
      + (if Field(row, checks[n].0) == "" then [ValidationError(rowIndex, checks[n].0, checks[n].1, None)] else [])
  }

  /** `if (row.f) { SELECT ... WHERE f = ?; if found, report }`. */
  function TakenError(row: Row, rowIndex: int, field: string, message: string, column: set<string>): seq<ValidationError>
  {
    var v := Field(row, field);
    if v != "" && v in column then [ValidationError(rowIndex, field, message, Some(v))] else []
  }

  /** A referral code that is given and not blank must be somebody's `code_adhesion`. */
  function ReferralError(row: Row, rowIndex: int, codes: set<string>): seq<ValidationError>
  {
    var c := Field(row, "code_parrain");
    if c != "" && Trim(c) != "" && c !in codes then [ValidationError(rowIndex, "code_parrain", BadReferral, Some(c))] else []
  }

  /** The errors of the five lookups, in order. */
  function LookupErrors(row: Row, rowIndex: int, cols: Columns): seq<ValidationError>
  {
    TakenError(row, rowIndex, "email", EmailTaken, cols.emails)
    + TakenError(row, rowIndex, "telephone_principal", PhoneTaken, cols.phones)
    + TakenError(row, rowIndex, "nin", NinTaken, cols.nins)
    + TakenError(row, rowIndex, "nif", NifTaken, cols.nifs)
    + ReferralError(row, rowIndex, cols.codes)
  }

  /** What `validateRow` returns for a row against the table's current columns. */
  function RowErrors(row: Row, rowIndex: int, cols: Columns): seq<ValidationError>
  {
    MissingErrors(row, rowIndex, Required) + LookupErrors(row, rowIndex, cols)
  }

  /** A value that is blank (not looked up) or not yet stored in its column. */
  predicate Fresh(v: string, column: set<string>)
  {
    v == "" || v !in column
  }

  /** A row the import accepts, stated column by column: every mandatory column
      filled, no given email, phone, NIN or NIF already stored, and a referral
      code either blank or known. */
  predicate Acceptable(row: Row, cols: Columns)
  {
    (forall k :: 0 <= k < |Required| ==> Field(row, Required[k].0) != "")
    && Fresh(Field(row, "email"), cols.emails)
    && Fresh(Field(row, "telephone_principal"), cols.phones)
    && Fresh(Field(row, "nin"), cols.nins)
    && Fresh(Field(row, "nif"), cols.nifs)
    && (Trim(Field(row, "code_parrain")) == "" || Field(row, "code_parrain") in cols.codes)
  }

  // ------------------------------------------------------------ the checks

  lemma MissingStep(row: Row, rowIndex: int, k: nat)
    requires k < |Required|
    ensures MissingErrors(row, rowIndex, Required[..k + 1])
            == MissingErrors(row, rowIndex, Required[..k])
               + (if Field(row, Required[k].0) == "" then [ValidationError(rowIndex, Required[k].0, Required[k].1, None)] else [])
  {
    assert Required[..k + 1][..k] == Required[..k];
  }

  /** The ten mandatory-column checks, in the source's order. */
  method CheckRequired(row: Row, rowIndex: int) returns (errors: seq<ValidationError>)
    ensures errors == MissingErrors(row, rowIndex, Required)
  {
    errors := [];
    for k := 0 to |Required|
      invariant errors == MissingErrors(row, rowIndex, Required[..k])
    {
      var (field, message) := Required[k];
      if Field(row, field) == "" {
        errors := errors + [ValidationError(rowIndex, field, message, None)];
      }
      MissingStep(row, rowIndex, k);
    }
    assert Required[..|Required|] == Required;
  }

  /** `validateRow`: the lookups query the table as it stands, including the
      rows this import has already inserted. */
  method ValidateRow(row: Row, rowIndex: int, table: MemberTable) returns (errors: seq<ValidationError>)
    ensures errors == RowErrors(row, rowIndex, table.Snapshot())
  {
    var missing := CheckRequired(row, rowIndex);
    var found := CheckLookups(row, rowIndex, table);
    errors := missing + found;
  }

  /** The duplicate and referral lookups against the table. */
  method CheckLookups(row: Row, rowIndex: int, table: MemberTable) returns (errors: seq<ValidationError>)
    ensures errors == LookupErrors(row, rowIndex, table.Snapshot())
  {
    var e1 := CheckTaken(row, rowIndex, "email", EmailTaken, table.emails);
    var e2 := CheckTaken(row, rowIndex, "telephone_principal", PhoneTaken, table.phones);
    var e3 := CheckTaken(row, rowIndex, "nin", NinTaken, table.nins);
    var e4 := CheckTaken(row, rowIndex, "nif", NifTaken, table.nifs);
    var e5 := CheckReferral(row, rowIndex, table.codes);
    errors := e1 + e2 + e3 + e4 + e5;
  }

  /** A given value is looked up in its column and reported when found. */
  method CheckTaken(row: Row, rowIndex: int, field: string, message: string, column: set<string>)
    returns (errors: seq<ValidationError>)
    ensures errors == TakenError(row, rowIndex, field, message, column)
  {
    errors := [];
    var v := Field(row, field);
    if v != "" {
      if v in column {
        errors := [ValidationError(rowIndex, field, message, Some(v))];
      }
    }
  }

  /** A given, non-blank referral code is looked up among the membership
      codes and reported when missing. */
  method CheckReferral(row: Row, rowIndex: int, codes: set<string>) returns (errors: seq<ValidationError>)
    ensures errors == ReferralError(row, rowIndex, codes)
  {
    errors := [];
    var c := Field(row, "code_parrain");
    if c != "" && Trim(c) != "" {
      if c !in codes {
        errors := [ValidationError(rowIndex, "code_parrain", BadReferral, Some(c))];
      }
    }
  }

  // ------------------------------------------------------------ properties

  lemma {:induction false} MissingErrorsEmptyIff(row: Row, rowIndex: int, checks: seq<(string, string)>)
    ensures MissingErrors(row, rowIndex, checks) == []
            <==> forall k :: 0 <= k < |checks| ==> Field(row, checks[k].0) != ""
    decreases |checks|
  {
    if checks != [] {
      var n := |checks| - 1;
      MissingErrorsEmptyIff(row, rowIndex, checks[..n]);
      assert forall k :: 0 <= k < n ==> checks[..n][k] == checks[k];
    }
  }

  /** A row is rejected exactly when one of the checks fails: the error list is
      empty if and only if the row is acceptable. */
  lemma ValidationEmptyIff(row: Row, rowIndex: int, cols: Columns)
    ensures RowErrors(row, rowIndex, cols) == [] <==> Acceptable(row, cols)
  {
    MissingErrorsEmptyIff(row, rowIndex, Required);
  }

  lemma {:induction false} MissingErrorsShape(row: Row, rowIndex: int, checks: seq<(string, string)>)
    ensures forall e :: e in MissingErrors(row, rowIndex, checks) ==>
              e.row == rowIndex && e.value == None && (e.field, e.message) in checks
    decreases |checks|
  {
    if checks != [] {
      var n := |checks| - 1;
      MissingErrorsShape(row, rowIndex, checks[..n]);
      assert forall p :: p in checks[..n] ==> p in checks;
    }
  }

  lemma RequiredFieldsChecked()
    ensures forall p :: p in Required ==> IsCheckedField(p.0) && p.0 != "general"
  {
  }

  lemma LookupErrorsShape(row: Row, rowIndex: int, cols: Columns)
    ensures forall e :: e in LookupErrors(row, rowIndex, cols) ==>
              e.row == rowIndex && e.field in {"email", "telephone_principal", "nin", "nif", "code_parrain"}
              && e.value == Some(Field(row, e.field)) && e.value.value != ""
  {
    var parts := [TakenError(row, rowIndex, "email", EmailTaken, cols.emails),
                  TakenError(row, rowIndex, "telephone_principal", PhoneTaken, cols.phones),
                  TakenError(row, rowIndex, "nin", NinTaken, cols.nins),
                  TakenError(row, rowIndex, "nif", NifTaken, cols.nifs),
                  ReferralError(row, rowIndex, cols.codes)];
    assert LookupErrors(row, rowIndex, cols) == parts[0] + parts[1] + parts[2] + parts[3] + parts[4];
    forall e | e in LookupErrors(row, rowIndex, cols)
      ensures e.row == rowIndex && e.field in {"email", "telephone_principal", "nin", "nif", "code_parrain"}
              && e.value == Some(Field(row, e.field)) && e.value.value != ""
    {
      assert e in parts[0] || e in parts[1] || e in parts[2] || e in parts[3] || e in parts[4];
    }
  }

  /** Every error carries the row's line number and names a checked column
      (never `general`, which only insertion failures use); only the lookups
      carry a value, and it is the row's own value for that column. */
  lemma ValidationErrorsShape(row: Row, rowIndex: int, cols: Columns)
    ensures forall e :: e in RowErrors(row, rowIndex, cols) ==>
              e.row == rowIndex && IsCheckedField(e.field) && e.field != "general"
              && (e.value.Some? ==> e.value.value == Field(row, e.field) && e.value.value != "")
  {
    MissingErrorsShape(row, rowIndex, Required);
    RequiredFieldsChecked();
    LookupErrorsShape(row, rowIndex, cols);
  }

  lemma {:induction false} MissingReported(row: Row, rowIndex: int, checks: seq<(string, string)>, k: nat)
    requires k < |checks| && Field(row, checks[k].0) == ""
    ensures ValidationError(rowIndex, checks[k].0, checks[k].1, None) in MissingErrors(row, rowIndex, checks)
    decreases |checks|
  {
    var n := |checks| - 1;
    if k < n {
      assert checks[..n][k] == checks[k];
      MissingReported(row, rowIndex, checks[..n], k);
    }
  }

  /** Each blank mandatory column is reported with its own message. */
  lemma MissingFieldReported(row: Row, rowIndex: int, cols: Columns, k: nat)
    requires k < |Required| && Field(row, Required[k].0) == ""
    ensures ValidationError(rowIndex, Required[k].0, Required[k].1, None) in RowErrors(row, rowIndex, cols)
  {
    MissingReported(row, rowIndex, Required, k);
  }

  /** An email, phone, NIN or NIF already stored, and a referral code that is
      not blank and matches nobody, are reported with their value. */
  lemma TakenReported(row: Row, rowIndex: int, cols: Columns)
    ensures Field(row, "email") != "" && Field(row, "email") in cols.emails
            ==> ValidationError(rowIndex, "email", EmailTaken, Some(Field(row, "email"))) in RowErrors(row, rowIndex, cols)
    ensures Field(row, "telephone_principal") != "" && Field(row, "telephone_principal") in cols.phones
            ==> ValidationError(rowIndex, "telephone_principal", PhoneTaken, Some(Field(row, "telephone_principal"))) in RowErrors(row, rowIndex, cols)
    ensures Field(row, "nin") != "" && Field(row, "nin") in cols.nins
            ==> ValidationError(rowIndex, "nin", NinTaken, Some(Field(row, "nin"))) in RowErrors(row, rowIndex, cols)
    ensures Field(row, "nif") != "" && Field(row, "nif") in cols.nifs
            ==> ValidationError(rowIndex, "nif", NifTaken, Some(Field(row, "nif"))) in RowErrors(row, rowIndex, cols)
    ensures Trim(Field(row, "code_parrain")) != "" && Field(row, "code_parrain") !in cols.codes
            ==> ValidationError(rowIndex, "code_parrain", BadReferral, Some(Field(row, "code_parrain"))) in RowErrors(row, rowIndex, cols)
  {
  }
}
