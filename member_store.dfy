/** The `membres` MySQL table as the import endpoint sees it: point lookups by
    `email`, `telephone_principal`, `nin`, `nif`, `code_adhesion` and `username`,
    and one insert per accepted row. The table is a finite in-memory store. */
module MemberStore {
  import opened Wrappers
  import opened Normalize

  /** The values a nullable column contributes to its lookup set. */
  function Present(v: Option<string>): set<string>
  {
    if v.Some? then {v.value} else {}
  }

  /** The values stored in each looked-up column, whatever row they belong to. */
  datatype Columns = Columns(
    emails: set<string>,
    phones: set<string>,
    nins: set<string>,
    nifs: set<string>,
    codes: set<string>,
    usernames: set<string>)
  {
    /** The columns after one more row. */
    function Insert(rec: MemberRecord): Columns
    {
      Columns(emails + Present(rec.Email()), phones + {rec.TelephonePrincipal()},
              nins + {rec.Nin()}, nifs + Present(rec.Nif()),
              codes + {rec.codeAdhesion}, usernames + {rec.username})
    }

    /** Each of the row's looked-up values is found by its lookup. */
    predicate Holds(rec: MemberRecord)
    {
      Present(rec.Email()) <= emails && rec.TelephonePrincipal() in phones && rec.Nin() in nins
      && Present(rec.Nif()) <= nifs && rec.codeAdhesion in codes && rec.username in usernames
    }

    /** Every column of `this` is contained in the same column of `other`. */
    predicate Within(other: Columns)
    {
      emails <= other.emails && phones <= other.phones && nins <= other.nins
      && nifs <= other.nifs && codes <= other.codes && usernames <= other.usernames
    }
  }

  /** The columns after inserting `recs`, in order. */
  function InsertAll(cols: Columns, recs: seq<MemberRecord>): Columns
  {
    if recs == [] then cols else InsertAll(cols, recs[..|recs| - 1]).Insert(recs[|recs| - 1])
  }

  /** Inserting only adds: the old values stay, and every inserted row is found. */
  lemma {:induction false} InsertAllHolds(cols: Columns, recs: seq<MemberRecord>)
    ensures cols.Within(InsertAll(cols, recs))
    ensures forall i :: 0 <= i < |recs| ==> InsertAll(cols, recs).Holds(recs[i])
    decreases |recs|
  {
    if recs != [] {
      var n := |recs| - 1;
      InsertAllHolds(cols, recs[..n]);
      assert forall i :: 0 <= i < n ==> recs[..n][i] == recs[i];
    }
  }

  /** The codes column after the inserts is the old one plus the new codes. */
  lemma {:induction false} InsertAllCodes(cols: Columns, recs: seq<MemberRecord>)
    ensures InsertAll(cols, recs).codes == cols.codes + set i | 0 <= i < |recs| :: recs[i].codeAdhesion
    decreases |recs|
  {
    if recs != [] {
      var n := |recs| - 1;
      InsertAllCodes(cols, recs[..n]);
      var before := set i | 0 <= i < n :: recs[..n][i].codeAdhesion;
      var after := set i | 0 <= i < |recs| :: recs[i].codeAdhesion;
      assert after == before + {recs[n].codeAdhesion} by {
        forall c | c in after ensures c in before + {recs[n].codeAdhesion} {
          var i :| 0 <= i < |recs| && recs[i].codeAdhesion == c;
          if i < n { assert recs[..n][i] == recs[i]; }
        }
        forall c | c in before ensures c in after {
          var i :| 0 <= i < n && recs[..n][i].codeAdhesion == c;
          assert recs[..n][i] == recs[i];
        }
      }
    }
  }

  /** The table. The rows present before the import are known only through
      their column values; `records` lists the rows inserted through this handle. */
  class MemberTable {
    var emails: set<string>
    var phones: set<string>
    var nins: set<string>
    var nifs: set<string>
    var codes: set<string>
    var usernames: set<string>
    var records: seq<MemberRecord>

    function Snapshot(): Columns
      reads this
    {
      Columns(emails, phones, nins, nifs, codes, usernames)
    }

    /** Every inserted row can be found again. */
    ghost predicate Valid()
      reads this
    {
      forall i :: 0 <= i < |records| ==> Snapshot().Holds(records[i])
    }

    constructor (initial: Columns)
      ensures Valid() && Snapshot() == initial && records == []
    {
      emails, phones, nins, nifs := initial.emails, initial.phones, initial.nins, initial.nifs;
      codes, usernames := initial.codes, initial.usernames;
      records := [];
    }

    // `SELECT id FROM membres WHERE code_adhesion = ?` (or `username = ?`) returns a row.
    predicate HasCode(v: string) reads this { v in codes }
    predicate HasUsername(v: string) reads this { v in usernames }

    /** `INSERT INTO membres (...) VALUES (...)`: the row is stored and every
        lookup finds it from now on. */
    method Insert(rec: MemberRecord)
      requires Valid()
      modifies this
      ensures Valid()
      ensures Snapshot() == old(Snapshot()).Insert(rec)
      ensures records == old(records) + [rec]
    {
      emails := emails + Present(rec.Email());
      phones := phones + {rec.TelephonePrincipal()};
      nins := nins + {rec.Nin()};
      nifs := nifs + Present(rec.Nif());
      codes := codes + {rec.codeAdhesion};
      usernames := usernames + {rec.username};
      records := records + [rec];
    }
  }
}
