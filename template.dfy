/** `GET /api/membres/template` (app/api/membres/template/route.ts): the CSV file
    offered as a starting point for an import — a byte-order mark, the header
    line, a line feed and one example line. */
module Template {
  import opened Wrappers
  import opened Strings
  import opened CsvParse
  import opened MemberStore
  import opened Validation
  import opened Identifiers

  /** The header line, one column per field of `membres` the import reads,
      written here in groups by topic (the list is the one shipped, in order). */
  const Headers: seq<string> :=
    ["nom", "prenom", "surnom", "sexe", "date_de_naissance", "lieu_de_naissance",
     "nom_pere", "nom_mere", "situation_matrimoniale", "nb_enfants", "nb_personnes_a_charge"]
    + ["nin", "nif", "telephone_principal", "telephone_etranger", "email"]
    + ["adresse_complete", "profession", "occupation", "departement", "commune", "section_communale"]
    + ["facebook", "instagram"]
    + ["a_ete_membre_politique", "nom_parti_precedent", "role_politique_precedent",
       "a_ete_membre_organisation", "nom_organisation_precedente", "role_organisation_precedent"]
    + ["referent_nom", "referent_prenom", "referent_adresse", "referent_telephone", "relation_avec_referent"]
    + ["a_ete_condamne", "a_violé_loi_drogue", "a_participe_activite_terroriste"]
    + ["code_parrain"]

  /** The example line, one cell per header, in the same groups. */
  const ExampleRow: seq<string> :=
    ["Dupont", "Jean", "JD", "Homme", "1990-01-15", "Port-au-Prince",
     "Pierre Dupont", "Marie Dupont", "Célibataire", "0", "2"]
    + ["123-456-7890", "987-654-3210", "50912345678", "+33612345678", "jean.dupont@example.com"]
    + ["123 Rue Example, Port-au-Prince", "Ingénieur", "Développeur", "Ouest", "Port-au-Prince", "Section 1"]
    + ["jean.dupont", "@jeandupont"]
    + ["0", "", "", "0", "", ""]
    + ["Paul Martin", "Sophie Martin", "456 Rue Référent", "50987654321", "Ami"]
    + ["0", "0", "0"]
    + ["AJD5678"]

  /** The file: byte-order mark, `headers.join(',')`, a line feed, `example.join(',')`. */
  function TemplateCsv(headers: seq<string>, example: seq<string>): string
  {
    [Bom] + Join([Join(headers, ","), Join(example, ",")], "\n")
  }

  /** The response body of the endpoint. */
  function TemplateFile(): string
  {
    TemplateCsv(Headers, ExampleRow)
  }

  /** A cell the parser reads back as written: no comma, no line feed, and no
      white space at either end for `trim` to remove. */
  predicate PlainCell(s: string)
  {
    ',' !in s && '\n' !in s && (s == [] || (!IsSpace(s[0]) && !IsSpace(s[|s| - 1])))
  }

  // ---------------------------------------------------------- round trip

  lemma TrimNotBlank(s: string)
    requires |s| > 0 && !IsSpace(s[0])
    ensures Trim(s) != ""
  {
    assert TrimStart(s) == s;
  }

  /** A joined line starts with its first cell. */
  lemma JoinStartsWithFirst(cells: seq<string>, sep: string)
    requires |cells| >= 1
    ensures Join(cells, sep)[..|cells[0]|] == cells[0]
  {
  }

  /** Splitting a joined line on commas and trimming gives the trimmed cells. */
  lemma {:induction false} FieldsOfJoin(cells: seq<string>)
    requires |cells| >= 1 && forall k :: 0 <= k < |cells| ==> ',' !in cells[k]
    ensures Fields(Join(cells, ",")) == Trims(cells)
  {
    SplitOfJoin(cells, ',');
  }

  lemma NonBlankPair(a: string, b: string)
    requires Trim(a) != "" && Trim(b) != ""
    ensures NonBlank([a, b]) == [a, b]
  {
    assert [a, b][1..] == [b];
    assert [b][1..] == [];
  }

  /** Trimming plain cells changes nothing. */
  lemma TrimsOfPlain(cells: seq<string>)
    requires forall k :: 0 <= k < |cells| ==> PlainCell(cells[k])
    ensures Trims(cells) == cells
  {
    forall k | 0 <= k < |cells|
      ensures Trim(cells[k]) == cells[k]
    {
      TrimNoOp(cells[k]);
    }
  }

  /** The two lines of a template file once the byte-order mark is removed. */
  lemma TemplateLines(headers: seq<string>, example: seq<string>)
    requires |headers| >= 1 && |example| >= 1
    requires forall k :: 0 <= k < |headers| ==> '\n' !in headers[k]
    requires forall k :: 0 <= k < |example| ==> '\n' !in example[k]
    requires |headers[0]| > 0 && !IsSpace(headers[0][0]) && |example[0]| > 0 && !IsSpace(example[0][0])
    ensures DataLines(StripBom(TemplateCsv(headers, example))) == [Join(headers, ","), Join(example, ",")]
  {
    var a, b := Join(headers, ","), Join(example, ",");
    assert Join([a, b], "\n") == a + "\n" + b;
    assert StripBom(TemplateCsv(headers, example)) == a + "\n" + b;
    JoinKeepsOut('\n', headers, ",");
    JoinKeepsOut('\n', example, ",");
    SplitAfterSeparator(a, b, '\n');
    SplitNoSeparator(b, '\n');
    assert Split(a + "\n" + b, '\n') == [a, b];
    JoinStartsWithFirst(headers, ",");
    JoinStartsWithFirst(example, ",");
    assert a[0] == headers[0][0] && b[0] == example[0][0];
    TrimNotBlank(a);
    TrimNotBlank(b);
    NonBlankPair(a, b);
  }

  /** The parse of a template file: one row, from its two lines. */
  lemma TemplateParsed(headers: seq<string>, example: seq<string>)
    requires |headers| >= 1 && |example| >= 1
    requires forall k :: 0 <= k < |headers| ==> '\n' !in headers[k]
    requires forall k :: 0 <= k < |example| ==> '\n' !in example[k]
    requires |headers[0]| > 0 && !IsSpace(headers[0][0]) && |example[0]| > 0 && !IsSpace(example[0][0])
    ensures ParseCsv(TemplateCsv(headers, example))
            == Success([RowOf(Fields(Join(headers, ",")), Fields(Join(example, ",")))])
  {
    var a, b := Join(headers, ","), Join(example, ",");
    TemplateLines(headers, example);
    assert [a, b][1..] == [b];
    assert RowsOf(Fields(a), [b]) == [LineRow(Fields(a), b)];
  }

  /** Whatever the cells, as long as none holds a comma or a line feed, the
      header cells are plain and both lines start with a visible character,
      the import's parser reads the template back as one row that maps each
      header to the trimmed cell in the same position. */
  lemma TemplateRoundTrip(headers: seq<string>, example: seq<string>)
    requires |headers| >= 1 && |example| >= 1
    requires forall k :: 0 <= k < |headers| ==> PlainCell(headers[k])
    requires forall k :: 0 <= k < |example| ==> ',' !in example[k] && '\n' !in example[k]
    requires |headers[0]| > 0 && !IsSpace(headers[0][0]) && |example[0]| > 0 && !IsSpace(example[0][0])
    ensures ParseCsv(TemplateCsv(headers, example)) == Success([RowOf(headers, Trims(example))])
  {
    TemplateParsed(headers, example);
    FieldsOfJoin(headers);
    FieldsOfJoin(example);
    TrimsOfPlain(headers);
  }

  /** Replacing two neighbouring cells by their comma-joined text leaves the
      joined line unchanged. */
  lemma {:induction false} JoinMergeCells(front: seq<string>, x: string, y: string, back: seq<string>)
    requires |front| >= 1 && |back| >= 1
    ensures Join(front + [x, y] + back, ",") == Join(front + [x + "," + y] + back, ",")
  {
    JoinAppend(front, [x, y] + back, ",");
    JoinAppend(front, [x + "," + y] + back, ",");
    assert front + [x, y] + back == front + ([x, y] + back);
    assert front + [x + "," + y] + back == front + ([x + "," + y] + back);
    assert ([x, y] + back)[1..] == [y] + back && ([y] + back)[1..] == back;
    assert ([x + "," + y] + back)[1..] == back;
  }

  /** `Trims` distributes over concatenation. */
  lemma TrimsAppend(a: seq<string>, b: seq<string>)
    ensures Trims(a + b) == Trims(a) + Trims(b)
  {
  }

  /** The cells at positions `lo` up to `hi` are plain, checked one at a time. */
  predicate PlainIn(cells: seq<string>, lo: nat, hi: nat)
    requires hi <= |cells|
    decreases hi - lo
  {
    lo >= hi || (PlainCell(cells[lo]) && PlainIn(cells, lo + 1, hi))
  }

  lemma {:induction false} PlainInOf(cells: seq<string>, lo: nat, hi: nat)
    requires lo <= hi <= |cells|
    requires forall k :: lo <= k < hi ==> PlainCell(cells[k])
    ensures PlainIn(cells, lo, hi)
    decreases hi - lo
  {
    if lo < hi {
      PlainInOf(cells, lo + 1, hi);
    }
  }

  lemma {:induction false} PlainInAll(cells: seq<string>, lo: nat, hi: nat)
    requires hi <= |cells| && PlainIn(cells, lo, hi)
    ensures forall k :: lo <= k < hi ==> PlainCell(cells[k])
    decreases hi - lo
  {
    if lo < hi {
      PlainInAll(cells, lo + 1, hi);
    }
  }

  lemma {:induction false} PlainInJoin(cells: seq<string>, lo: nat, mid: nat, hi: nat)
    requires lo <= mid <= hi <= |cells|
    requires PlainIn(cells, lo, mid) && PlainIn(cells, mid, hi)
    ensures PlainIn(cells, lo, hi)
    decreases mid - lo
  {
    if lo < mid {
      PlainInJoin(cells, lo + 1, mid, hi);
    }
  }

  /** Every cell but cell `i` is plain. */
  predicate PlainExcept(cells: seq<string>, i: nat)
  {
    i < |cells| && PlainIn(cells, 0, i) && PlainIn(cells, i + 1, |cells|)
  }

  /** Both lines hold only plain cells, each line starting with a visible
      character. */
  predicate PlainTemplate(headers: seq<string>, example: seq<string>)
  {
    |headers| >= 1 && |headers[0]| > 0 && PlainIn(headers, 0, |headers|)
    && |example| >= 1 && |example[0]| > 0 && PlainIn(example, 0, |example|)
  }

  /** As `PlainTemplate`, except that example cell `i` (neither the first nor
      the last) reads `x, z` with `x` and `z` plain. */
  predicate SplitTemplate(headers: seq<string>, example: seq<string>, i: nat, x: string, z: string)
  {
    |headers| >= 1 && |headers[0]| > 0 && PlainIn(headers, 0, |headers|)
    && 0 < i < |example| - 1 && |example[0]| > 0 && PlainExcept(example, i)
    && example[i] == x + ", " + z && PlainCell(x) && PlainCell(z)
  }

  /** A template whose cells are all plain is read back cell for cell. */
  lemma PlainRoundTrip(headers: seq<string>, example: seq<string>)
    requires PlainTemplate(headers, example)
    ensures ParseCsv(TemplateCsv(headers, example)) == Success([RowOf(headers, example)])
  {
    PlainInAll(headers, 0, |headers|);
    PlainInAll(example, 0, |example|);
    TemplateRoundTrip(headers, example);
    TrimsOfPlain(example);
  }

  /** The example line with cell `i` cut at its comma: `x` and `, z` become
      `x` and ` z`. */
  function SplitAt(example: seq<string>, i: nat, x: string, z: string): seq<string>
    requires i < |example|
  {
    example[..i] + [x, [' '] + z] + example[i + 1..]
  }

  /** Cutting the cell at its comma leaves the joined line as it was. */
  lemma SplitAtJoin(example: seq<string>, i: nat, x: string, z: string)
    requires 0 < i < |example| - 1 && example[i] == x + ", " + z
    ensures Join(SplitAt(example, i, x, z), ",") == Join(example, ",")
  {
    var front, back := example[..i], example[i + 1..];
    assert x + "," + ([' '] + z) == example[i];
    assert example == front + [example[i]] + back;
    JoinMergeCells(front, x, [' '] + z, back);
  }

  /** The pieces hold no comma and no line feed. */
  lemma SplitAtCells(example: seq<string>, i: nat, x: string, z: string)
    requires 0 < i < |example| - 1
    requires forall k :: 0 <= k < |example| && k != i ==> PlainCell(example[k])
    requires PlainCell(x) && PlainCell(z)
    ensures forall k :: 0 <= k < |SplitAt(example, i, x, z)| ==>
      ',' !in SplitAt(example, i, x, z)[k] && '\n' !in SplitAt(example, i, x, z)[k]
    ensures SplitAt(example, i, x, z)[0] == example[0]
  {
    var split := SplitAt(example, i, x, z);
    forall k | 0 <= k < |split|
      ensures ',' !in split[k] && '\n' !in split[k]
    {
      if k < i {
        assert split[k] == example[k];
      } else if k > i + 1 {
        assert split[k] == example[k - 1];
      }
    }
  }

  /** Trimming a run of plain cells changes nothing. */
  lemma TrimsOfPlainPrefix(cells: seq<string>, i: nat)
    requires i <= |cells| && PlainIn(cells, 0, i)
    ensures Trims(cells[..i]) == cells[..i]
  {
    PlainInAll(cells, 0, i);
    forall k | 0 <= k < i
      ensures Trim(cells[..i][k]) == cells[..i][k]
    {
      TrimNoOp(cells[k]);
    }
  }

  lemma TrimsOfPlainSuffix(cells: seq<string>, i: nat)
    requires i <= |cells| && PlainIn(cells, i, |cells|)
    ensures Trims(cells[i..]) == cells[i..]
  {
    PlainInAll(cells, i, |cells|);
    forall k | 0 <= k < |cells| - i
      ensures Trim(cells[i..][k]) == cells[i..][k]
    {
      TrimNoOp(cells[i + k]);
    }
  }

  lemma TrimsPair(a: string, b: string)
    ensures Trims([a, b]) == [Trim(a), Trim(b)]
  {
  }

  /** The two halves of a cell cut after its comma, trimmed. */
  lemma TrimsOfCutCell(x: string, z: string)
    requires PlainCell(x) && PlainCell(z)
    ensures Trims([x, [' '] + z]) == [x, z]
  {
    TrimsPair(x, [' '] + z);
    TrimLeadingSpace(' ', z);
    TrimNoOp(x);
    TrimNoOp(z);
  }

  /** Trimming the pieces drops the space after the comma and nothing else. */
  lemma SplitAtTrimmed(example: seq<string>, i: nat, x: string, z: string)
    requires 0 < i < |example| - 1 && PlainExcept(example, i)
    requires PlainCell(x) && PlainCell(z)
    ensures Trims(SplitAt(example, i, x, z)) == example[..i] + [x, z] + example[i + 1..]
  {
    var front, back := example[..i], example[i + 1..];
    TrimsOfPlainPrefix(example, i);
    TrimsOfPlainSuffix(example, i + 1);
    TrimsOfCutCell(x, z);
    assert SplitAt(example, i, x, z) == front + [x, [' '] + z] + back;
    TrimsThree(front, [x, [' '] + z], back, [x, z]);
  }

  /** Trimming three runs of cells, two of which trimming leaves alone. */
  lemma TrimsThree(front: seq<string>, mid: seq<string>, back: seq<string>, mid': seq<string>)
    requires Trims(front) == front && Trims(mid) == mid' && Trims(back) == back
    ensures Trims(front + mid + back) == front + mid' + back
  {
    TrimsAppend(front, mid);
    TrimsAppend(front + mid, back);
  }

  /** A template whose example cell `i` reads `x, z`: the parser cuts that cell
      at its comma and drops the space, so the row is built from one cell more
      than the example has, and every cell after `i` moves one column right. */
  lemma SplitCellRoundTrip(headers: seq<string>, example: seq<string>, i: nat, x: string, z: string)
    requires SplitTemplate(headers, example, i, x, z)
    ensures ParseCsv(TemplateCsv(headers, example))
            == Success([RowOf(headers, example[..i] + [x, z] + example[i + 1..])])
  {
    PlainInAll(headers, 0, |headers|);
    PlainInAll(example, 0, i);
    PlainInAll(example, i + 1, |example|);
    var split := SplitAt(example, i, x, z);
    SplitAtJoin(example, i, x, z);
    assert TemplateCsv(headers, example) == TemplateCsv(headers, split);
    SplitAtCells(example, i, x, z);
    SplitAtTrimmed(example, i, x, z);
    TemplateRoundTrip(headers, split);
  }

  /** The header line of such a template is still read back exactly. */
  lemma SplitCellHeaderLine(headers: seq<string>, example: seq<string>, i: nat, x: string, z: string)
    requires SplitTemplate(headers, example, i, x, z)
    ensures var lines := DataLines(StripBom(TemplateCsv(headers, example)));
      |lines| == 2 && Fields(lines[0]) == headers
  {
    PlainInAll(headers, 0, |headers|);
    PlainInAll(example, 0, i);
    PlainInAll(example, i + 1, |example|);
    var split := SplitAt(example, i, x, z);
    SplitAtJoin(example, i, x, z);
    assert TemplateCsv(headers, example) == TemplateCsv(headers, split);
    SplitAtCells(example, i, x, z);
    TemplateLines(headers, split);
    FieldsOfJoin(headers);
    TrimsOfPlain(headers);
  }

  /** Putting a plain cell in place of the one odd cell leaves only plain cells. */
  lemma ReplaceByPlain(cells: seq<string>, i: nat, c: string, updated: seq<string>)
    requires PlainExcept(cells, i) && PlainCell(c) && updated == cells[i := c]
    ensures |updated| == |cells| && PlainIn(updated, 0, |updated|)
    ensures i > 0 ==> updated[0] == cells[0]
  {
    PlainInAll(cells, 0, i);
    PlainInAll(cells, i + 1, |cells|);
    PlainInOf(updated, 0, |updated|);
  }

  /** A name whose later positions all hold other names is not among them. */
  lemma LastOccurrence(names: seq<string>, k: nat)
    requires k < |names|
    requires forall j :: k < j < |names| ==> names[j] != names[k]
    ensures names[k] !in names[k + 1..]
  {
  }

  // ------------------------------------------------------ the shipped file

  // The cells are checked a few at a time: each check reads every character.
  lemma HeadersPlain0() ensures PlainIn(Headers, 0, 8) {
    assert forall k :: 0 <= k < 8 ==> PlainCell(Headers[k]);
    PlainInOf(Headers, 0, 8);
  }
  lemma HeadersPlain1() ensures PlainIn(Headers, 8, 11) {
    assert forall k :: 8 <= k < 11 ==> PlainCell(Headers[k]);
    PlainInOf(Headers, 8, 11);
  }
  lemma HeadersPlain2() ensures PlainIn(Headers, 11, 14) {
    assert forall k :: 11 <= k < 14 ==> PlainCell(Headers[k]);
    PlainInOf(Headers, 11, 14);
  }
  lemma HeadersPlain3() ensures PlainIn(Headers, 14, 17) {
    assert forall k :: 14 <= k < 17 ==> PlainCell(Headers[k]);
    PlainInOf(Headers, 14, 17);
  }
  lemma HeadersPlain4() ensures PlainIn(Headers, 17, 21) {
    assert forall k :: 17 <= k < 21 ==> PlainCell(Headers[k]);
    PlainInOf(Headers, 17, 21);
  }
  lemma HeadersPlain5() ensures PlainIn(Headers, 21, 24) {
    assert forall k :: 21 <= k < 24 ==> PlainCell(Headers[k]);
    PlainInOf(Headers, 21, 24);
  }
  lemma HeadersPlain6() ensures PlainIn(Headers, 24, 26) {
    assert forall k :: 24 <= k < 26 ==> PlainCell(Headers[k]);
    PlainInOf(Headers, 24, 26);
  }
  lemma HeadersPlain7() ensures PlainIn(Headers, 26, 28) {
    assert forall k :: 26 <= k < 28 ==> PlainCell(Headers[k]);
    PlainInOf(Headers, 26, 28);
  }
  lemma HeadersPlain8() ensures PlainIn(Headers, 28, 29) {
    assert PlainCell(Headers[28]);
    PlainInOf(Headers, 28, 29);
  }
  lemma HeadersPlain9() ensures PlainIn(Headers, 29, 33) {
    assert forall k :: 29 <= k < 33 ==> PlainCell(Headers[k]);
    PlainInOf(Headers, 29, 33);
  }
  lemma HeadersPlain10() ensures PlainIn(Headers, 33, 37) {
    assert forall k :: 33 <= k < 37 ==> PlainCell(Headers[k]);
    PlainInOf(Headers, 33, 37);
  }
  lemma HeadersPlain11() ensures PlainIn(Headers, 37, 39) {
    assert forall k :: 37 <= k < 39 ==> PlainCell(Headers[k]);
    PlainInOf(Headers, 37, 39);
  }

  lemma HeadersPlainFrom21() ensures |Headers| == 39 && PlainIn(Headers, 21, 39) {
    HeadersPlain5();
    HeadersPlain6();
    HeadersPlain7();
    HeadersPlain8();
    HeadersPlain9();
    HeadersPlain10();
    HeadersPlain11();
    PlainInJoin(Headers, 33, 37, 39);
    PlainInJoin(Headers, 29, 33, 39);
    PlainInJoin(Headers, 28, 29, 39);
    PlainInJoin(Headers, 26, 28, 39);
    PlainInJoin(Headers, 24, 26, 39);
    PlainInJoin(Headers, 21, 24, 39);
  }

  /** No header holds a comma, a line feed or white space at either end. */
  lemma HeadersArePlain()
    ensures |Headers| == 39 && |Headers[0]| > 0 && PlainIn(Headers, 0, |Headers|)
  {
    HeadersPlainFrom21();
    HeadersPlain0();
    HeadersPlain1();
    HeadersPlain2();
    HeadersPlain3();
    HeadersPlain4();
    PlainInJoin(Headers, 17, 21, 39);
    PlainInJoin(Headers, 14, 17, 39);
    PlainInJoin(Headers, 11, 14, 39);
    PlainInJoin(Headers, 8, 11, 39);
    PlainInJoin(Headers, 0, 8, 39);
  }

  lemma ExamplePlain0() ensures PlainIn(ExampleRow, 0, 6) {
    assert forall k :: 0 <= k < 6 ==> PlainCell(ExampleRow[k]);
    PlainInOf(ExampleRow, 0, 6);
  }
  lemma ExamplePlain1() ensures PlainIn(ExampleRow, 6, 11) {
    assert forall k :: 6 <= k < 11 ==> PlainCell(ExampleRow[k]);
    PlainInOf(ExampleRow, 6, 11);
  }
  lemma ExamplePlain2() ensures PlainIn(ExampleRow, 11, 14) {
    assert forall k :: 11 <= k < 14 ==> PlainCell(ExampleRow[k]);
    PlainInOf(ExampleRow, 11, 14);
  }
  lemma ExamplePlain3() ensures PlainIn(ExampleRow, 14, 16) {
    assert forall k :: 14 <= k < 16 ==> PlainCell(ExampleRow[k]);
    PlainInOf(ExampleRow, 14, 16);
  }
  lemma ExamplePlain4() ensures PlainIn(ExampleRow, 17, 22) {
    assert forall k :: 17 <= k < 22 ==> PlainCell(ExampleRow[k]);
    PlainInOf(ExampleRow, 17, 22);
  }
  lemma ExamplePlain5() ensures PlainIn(ExampleRow, 22, 30) {
    assert forall k :: 22 <= k < 30 ==> PlainCell(ExampleRow[k]);
    PlainInOf(ExampleRow, 22, 30);
  }
  lemma ExamplePlain6() ensures PlainIn(ExampleRow, 30, 39) {
    assert forall k :: 30 <= k < 39 ==> PlainCell(ExampleRow[k]);
    PlainInOf(ExampleRow, 30, 39);
  }

  /** Every example cell but the address is plain. */
  lemma ExampleCellsPlain()
    ensures |ExampleRow| == 39 && |ExampleRow[0]| > 0 && PlainExcept(ExampleRow, 16)
  {
    ExamplePlain0();
    ExamplePlain1();
    ExamplePlain2();
    ExamplePlain3();
    ExamplePlain4();
    ExamplePlain5();
    ExamplePlain6();
    PlainInJoin(ExampleRow, 11, 14, 16);
    PlainInJoin(ExampleRow, 6, 11, 16);
    PlainInJoin(ExampleRow, 0, 6, 16);
    PlainInJoin(ExampleRow, 22, 30, 39);
    PlainInJoin(ExampleRow, 17, 22, 39);
  }

  const AddressStreet: string := "123 Rue Example"
  const AddressCity: string := "Port-au-Prince"

  /** The example address is a street and a city separated by a comma and a
      space, neither of which holds a comma. */
  lemma ExampleAddress()
    ensures ExampleRow[16] == AddressStreet + ", " + AddressCity
    ensures PlainCell(AddressStreet) && PlainCell(AddressCity)
  {
    AddressPartsPlain();
  }

  lemma AddressPartsPlain()
    ensures PlainCell(AddressStreet) && PlainCell(AddressCity)
  {
  }

  /** The header list holds every mandatory column of the validation. */
  lemma HeadersCoverRequired()
    ensures forall p :: p in Required ==> p.0 in Headers
  {
  }

  /** The example line as the import parses it: 40 cells, one more than the headers. */
  function ParsedExample(): seq<string>
  {
    ExampleRow[..16] + [AddressStreet, AddressCity] + ExampleRow[17..]
  }

  /** The shipped file is a split template, cut at the address. */
  lemma ShippedFileShape()
    ensures SplitTemplate(Headers, ExampleRow, 16, AddressStreet, AddressCity)
  {
    HeadersArePlain();
    ExampleCellsPlain();
    ExampleAddress();
  }

  /** What the import makes of the shipped file: one row, built from the 40
      cells of the example line. */
  lemma ExampleParsed()
    ensures ParseCsv(TemplateFile()) == Success([RowOf(Headers, ParsedExample())])
  {
    ShippedFileShape();
    SplitCellRoundTrip(Headers, ExampleRow, 16, AddressStreet, AddressCity);
  }

  /** The import reads the shipped header line back exactly. */
  lemma TemplateHeadersRecovered()
    ensures var lines := DataLines(StripBom(TemplateFile()));
      |lines| == 2 && Fields(lines[0]) == Headers
  {
    ShippedFileShape();
    SplitCellHeaderLine(Headers, ExampleRow, 16, AddressStreet, AddressCity);
  }

  /** From the address on, every parsed cell is the example cell of the
      column before it. */
  lemma ExampleCellsShifted()
    ensures |ParsedExample()| == 40
    ensures ParsedExample()[16] == AddressStreet && ParsedExample()[17] == AddressCity
    ensures forall k :: 18 <= k < |ParsedExample()| ==> ParsedExample()[k] == ExampleRow[k - 1]
  {
  }

  /** `adresse_complete`, `profession` and `code_parrain` each appear once. */
  lemma ShiftedHeadersOnce()
    ensures Headers[16] == "adresse_complete" && Headers[16] !in Headers[17..]
    ensures Headers[17] == "profession" && Headers[17] !in Headers[18..]
    ensures |Headers| == 39 && Headers[38] == "code_parrain" && Headers[38] !in Headers[39..]
  {
    assert forall j :: 17 <= j < 39 ==> Headers[j] != Headers[16];
    assert forall j :: 18 <= j < 39 ==> Headers[j] != Headers[17];
    LastOccurrence(Headers, 16);
    LastOccurrence(Headers, 17);
  }

  /** The comma inside the example address splits it: the import stores
      `adresse_complete` as `123 Rue Example` and `profession` as
      `Port-au-Prince`, and `code_parrain` is `0` (the example's
      `a_participe_activite_terroriste`) instead of `AJD5678`. */
  lemma ExampleRowShifted()
    ensures var row := RowOf(Headers, ParsedExample());
      Field(row, "adresse_complete") == AddressStreet && Field(row, "profession") == AddressCity
      && Field(row, "code_parrain") == "0" && ExampleRow[38] == "AJD5678"
  {
    ExampleCellsShifted();
    ShiftedHeadersOnce();
    assert ExampleRow[37] == "0" && ExampleRow[38] == "AJD5678";
    RowOfAt(Headers, ParsedExample(), 16);
    RowOfAt(Headers, ParsedExample(), 17);
    RowOfAt(Headers, ParsedExample(), 38);
  }

  /** Imported as shipped, the example row is refused whenever no member has
      the code `0`: its shifted `code_parrain` is an unknown referral. */
  lemma ExampleRowRejected(cols: Columns)
    requires "0" !in cols.codes
    ensures RowErrors(RowOf(Headers, ParsedExample()), 2, cols) != []
  {
    ExampleRowShifted();
    assert Trim("0") != "" by { TrimNoOp("0"); }
    TakenReported(RowOf(Headers, ParsedExample()), 2, cols);
  }

  lemma ExampleIdentity()
    ensures Headers[0] == "nom" && Headers[1] == "prenom" && Headers[13] == "telephone_principal"
    ensures ExampleRow[0] == "Dupont" && ExampleRow[1] == "Jean" && ExampleRow[13] == "50912345678"
    ensures ExampleRow[38] == "AJD5678"
  {
  }

  /** The example referral code is the base membership code the import derives
      from the example's own first name, last name and phone. */
  lemma ExampleReferralIsOwnCode()
    ensures Headers[0] == "nom" && Headers[1] == "prenom" && Headers[13] == "telephone_principal"
    ensures BaseCode(ExampleRow[1], ExampleRow[0], ExampleRow[13]) == Some(ExampleRow[38])
  {
    ExampleIdentity();
    ExamplePhoneDigits();
    JeanDupontBase();
  }

  // ------------------------------------------------------ corrected example

  const CorrectedAddress: string := "123 Rue Example Port-au-Prince"

  /** The example line with the comma taken out of the address. */
  const CorrectedExampleRow: seq<string> := ExampleRow[16 := CorrectedAddress]

  function CorrectedTemplateFile(): string
  {
    TemplateCsv(Headers, CorrectedExampleRow)
  }

  lemma CorrectedAddressPlain()
    ensures PlainCell(CorrectedAddress)
  {
  }

  /** The corrected file is a plain template. */
  lemma CorrectedFileShape()
    ensures PlainTemplate(Headers, CorrectedExampleRow)
    ensures |CorrectedExampleRow| == |Headers|
  {
    HeadersArePlain();
    CorrectedCellsPlain();
  }

  lemma CorrectedCellsPlain()
    ensures |CorrectedExampleRow| == 39 && |CorrectedExampleRow[0]| > 0
    ensures PlainIn(CorrectedExampleRow, 0, |CorrectedExampleRow|)
  {
    ExampleCellsPlain();
    CorrectedAddressPlain();
    ReplaceByPlain(ExampleRow, 16, CorrectedAddress, CorrectedExampleRow);
  }

  /** Without the comma, the import reads the example line cell for cell. */
  lemma CorrectedExampleParsed()
    ensures ParseCsv(CorrectedTemplateFile()) == Success([RowOf(Headers, CorrectedExampleRow)])
    ensures |CorrectedExampleRow| == |Headers|
  {
    CorrectedFileShape();
    PlainRoundTrip(Headers, CorrectedExampleRow);
  }

  /** ... and every cell lands under its own header: the address whole, and
      the referral code `AJD5678`. */
  lemma CorrectedExampleFields()
    ensures var row := RowOf(Headers, CorrectedExampleRow);
      Field(row, "adresse_complete") == CorrectedAddress && Field(row, "code_parrain") == "AJD5678"
  {
    ShiftedHeadersOnce();
    assert CorrectedExampleRow[16] == CorrectedAddress && CorrectedExampleRow[38] == "AJD5678";
    RowOfAt(Headers, CorrectedExampleRow, 16);
    RowOfAt(Headers, CorrectedExampleRow, 38);
  }
}
