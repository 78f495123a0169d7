/** The `insertData` object of the import endpoint
    (app/api/membres/import/route.ts): how one accepted spreadsheet row becomes
    one `membres` row. Optional text columns store `NULL` for an empty cell,
    the yes/no columns store 1 only for the text `1`, the counts store 0 for an
    empty cell, and every new member gets the role `membre`, the status
    `Membre pré-adhérent` and the shared default password hash.

    A record keeps the cells it was built from together with the generated
    values; each stored column is a member function giving that column's value
    by its rule. */
module Normalize {
  import opened Wrappers
  import opened CsvParse

  const MemberRole: string := "membre"
  const PreMemberStatus: string := "Membre pré-adhérent"

  /** `row.nb_enfants ? parseInt(row.nb_enfants) : 0`: a blank count is 0, any
      other text is whatever `parseInt` makes of it. */
  datatype Count = Zero | ParseIntOf(raw: string)

  /** `value || null`. */
  function OrNull(v: string): Option<string>
  {
    if v == "" then None else Some(v)
  }

  /** `value === '1' ? 1 : 0`. */
  function Flag(v: string): int
  {
    if v == "1" then 1 else 0
  }

  /** `value ? parseInt(value) : 0`. */
  function CountOf(v: string): Count
  {
    if v == "" then Zero else ParseIntOf(v)
  }

  /** The text a stored optional value reads back as (`NULL` reads as empty). */
  function Text(v: Option<string>): string
  {
    if v.Some? then v.value else ""
  }

  /** One new row of `membres`. */
  datatype MemberRecord = MemberRecord(
    cells: Row,
    username: string,
    codeAdhesion: string,
    passwordHash: string,
    roleUtilisateur: string,
    statuts: string)
  {
    function CodeParrain(): Option<string> { OrNull(Field(cells, "code_parrain")) }
    function Nom(): string { Field(cells, "nom") }
    function Prenom(): string { Field(cells, "prenom") }
    function Surnom(): Option<string> { OrNull(Field(cells, "surnom")) }
    function Sexe(): string { Field(cells, "sexe") }
    function LieuDeNaissance(): string { Field(cells, "lieu_de_naissance") }
    function DateDeNaissance(): string { Field(cells, "date_de_naissance") }
    function NomPere(): Option<string> { OrNull(Field(cells, "nom_pere")) }
    function NomMere(): Option<string> { OrNull(Field(cells, "nom_mere")) }
    function SituationMatrimoniale(): Option<string> { OrNull(Field(cells, "situation_matrimoniale")) }
    function NbEnfants(): Count { CountOf(Field(cells, "nb_enfants")) }
    function NbPersonnesACharge(): Count { CountOf(Field(cells, "nb_personnes_a_charge")) }
    function Nin(): string { Field(cells, "nin") }
    function Nif(): Option<string> { OrNull(Field(cells, "nif")) }
    function TelephonePrincipal(): string { Field(cells, "telephone_principal") }
    function TelephoneEtranger(): Option<string> { OrNull(Field(cells, "telephone_etranger")) }
    function Email(): Option<string> { OrNull(Field(cells, "email")) }
    function AdresseComplete(): string { Field(cells, "adresse_complete") }
    function Profession(): Option<string> { OrNull(Field(cells, "profession")) }
    function Occupation(): Option<string> { OrNull(Field(cells, "occupation")) }
    function Departement(): string { Field(cells, "departement") }
    function Commune(): string { Field(cells, "commune") }
    function SectionCommunale(): Option<string> { OrNull(Field(cells, "section_communale")) }
    function Facebook(): Option<string> { OrNull(Field(cells, "facebook")) }
    function Instagram(): Option<string> { OrNull(Field(cells, "instagram")) }
    function AEteMembrePolitique(): int { Flag(Field(cells, "a_ete_membre_politique")) }
    function RolePolitiquePrecedent(): Option<string> { OrNull(Field(cells, "role_politique_precedent")) }
    function NomPartiPrecedent(): Option<string> { OrNull(Field(cells, "nom_parti_precedent")) }
    function AEteMembreOrganisation(): int { Flag(Field(cells, "a_ete_membre_organisation")) }
    function RoleOrganisationPrecedent(): Option<string> { OrNull(Field(cells, "role_organisation_precedent")) }
    function NomOrganisationPrecedente(): Option<string> { OrNull(Field(cells, "nom_organisation_precedente")) }
    function ReferentNom(): Option<string> { OrNull(Field(cells, "referent_nom")) }
    function ReferentPrenom(): Option<string> { OrNull(Field(cells, "referent_prenom")) }
    function ReferentAdresse(): Option<string> { OrNull(Field(cells, "referent_adresse")) }
    function ReferentTelephone(): Option<string> { OrNull(Field(cells, "referent_telephone")) }
    function RelationAvecReferent(): Option<string> { OrNull(Field(cells, "relation_avec_referent")) }
    function AEteCondamne(): int { Flag(Field(cells, "a_ete_condamne")) }
    function AVioleLoiDrogue(): int { Flag(Field(cells, "a_violé_loi_drogue")) }
    function AParticipeActiviteTerroriste(): int { Flag(Field(cells, "a_participe_activite_terroriste")) }
  }

  /** `insertData` for a row, its generated code and username, and the hash
      of the default password. */
  function NormalizeRow(row: Row, code: string, username: string, passwordHash: string): MemberRecord
  {
    MemberRecord(row, username, code, passwordHash, MemberRole, PreMemberStatus)
  }

  // ------------------------------------------------- reading a record back

  /** The stored nullable text columns, each with its spreadsheet column name. */
  function OptionalCells(rec: MemberRecord): seq<(string, Option<string>)>
  {
    [("code_parrain", rec.CodeParrain()), ("surnom", rec.Surnom()),
     ("nom_pere", rec.NomPere()), ("nom_mere", rec.NomMere()),
     ("situation_matrimoniale", rec.SituationMatrimoniale()), ("nif", rec.Nif()),
     ("telephone_etranger", rec.TelephoneEtranger()), ("email", rec.Email()),
     ("profession", rec.Profession()), ("occupation", rec.Occupation()),
     ("section_communale", rec.SectionCommunale()), ("facebook", rec.Facebook()),
     ("instagram", rec.Instagram()), ("role_politique_precedent", rec.RolePolitiquePrecedent()),
     ("nom_parti_precedent", rec.NomPartiPrecedent()),
     ("role_organisation_precedent", rec.RoleOrganisationPrecedent()),
     ("nom_organisation_precedente", rec.NomOrganisationPrecedente()),
     ("referent_nom", rec.ReferentNom()), ("referent_prenom", rec.ReferentPrenom()),
     ("referent_adresse", rec.ReferentAdresse()), ("referent_telephone", rec.ReferentTelephone()),
     ("relation_avec_referent", rec.RelationAvecReferent())]
  }

  /** The stored text columns that are never `NULL`, with their column names. */
  function TextCells(rec: MemberRecord): seq<(string, string)>
  {
    [("nom", rec.Nom()), ("prenom", rec.Prenom()), ("sexe", rec.Sexe()),
     ("lieu_de_naissance", rec.LieuDeNaissance()), ("date_de_naissance", rec.DateDeNaissance()),
     ("nin", rec.Nin()), ("telephone_principal", rec.TelephonePrincipal()),
     ("adresse_complete", rec.AdresseComplete()), ("departement", rec.Departement()),
     ("commune", rec.Commune())]
  }

  /** The stored yes/no columns, with their column names. */
  function FlagCells(rec: MemberRecord): seq<(string, int)>
  {
    [("a_ete_membre_politique", rec.AEteMembrePolitique()),
     ("a_ete_membre_organisation", rec.AEteMembreOrganisation()),
     ("a_ete_condamne", rec.AEteCondamne()), ("a_violé_loi_drogue", rec.AVioleLoiDrogue()),
     ("a_participe_activite_terroriste", rec.AParticipeActiviteTerroriste())]
  }

  /** Every optional cell is stored as it was typed, an empty one as `NULL`:
      no empty string reaches the table, and reading the column back gives the
      cell. */
  lemma OptionalCellsKept(row: Row, code: string, username: string, passwordHash: string)
    ensures var cells := OptionalCells(NormalizeRow(row, code, username, passwordHash));
      |cells| == 22
      && forall k :: 0 <= k < |cells| ==>
           Text(cells[k].1) == Field(row, cells[k].0) && (cells[k].1.None? <==> Field(row, cells[k].0) == "")
  {
    var cells := OptionalCells(NormalizeRow(row, code, username, passwordHash));
    forall k | 0 <= k < |cells|
      ensures cells[k].1 == OrNull(Field(row, cells[k].0))
    {
    }
  }

  /** The mandatory cells are stored verbatim. */
  lemma TextCellsKept(row: Row, code: string, username: string, passwordHash: string)
    ensures var cells := TextCells(NormalizeRow(row, code, username, passwordHash));
      |cells| == 10 && forall k :: 0 <= k < |cells| ==> cells[k].1 == Field(row, cells[k].0)
  {
  }

  /** A yes/no column stores 0 or 1, and 1 exactly when the cell is `1`. */
  lemma FlagCellsAreBits(row: Row, code: string, username: string, passwordHash: string)
    ensures var cells := FlagCells(NormalizeRow(row, code, username, passwordHash));
      |cells| == 5
      && forall k :: 0 <= k < |cells| ==>
           (cells[k].1 == 0 || cells[k].1 == 1) && (cells[k].1 == 1 <==> Field(row, cells[k].0) == "1")
  {
  }

  /** The generated identifiers, the counts, the password hash and the fixed
      role and status. */
  lemma NormalizeRowFixed(row: Row, code: string, username: string, passwordHash: string)
    ensures var rec := NormalizeRow(row, code, username, passwordHash);
      rec.codeAdhesion == code && rec.username == username && rec.passwordHash == passwordHash
      && rec.roleUtilisateur == "membre" && rec.statuts == "Membre pré-adhérent"
      && (rec.NbEnfants() == Zero <==> Field(row, "nb_enfants") == "")
      && (rec.NbPersonnesACharge() == Zero <==> Field(row, "nb_personnes_a_charge") == "")
  {
  }
}
