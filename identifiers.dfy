/** `generateCodeAdhesion` and `generateUsername` of
    app/api/membres/import/route.ts: build a base identifier from the member's
    names (and phone), then try the base and numbered variants of it, in order,
    until the table has no row with that value. */
module Identifiers {
  import opened Wrappers
  import opened Strings
  import opened MemberStore

  const CodeError: string := "Impossible de générer le code d'adhésion : prénom, nom ou téléphone invalide"

  /** `telephone.replace(/\D/g, '')`: the decimal digits, in order. */
  function Digits(s: string): (r: string)
    ensures |r| <= |s|
    ensures forall k :: 0 <= k < |r| ==> IsDigit(r[k])
  {
    if s == [] then []
    else (if IsDigit(s[0]) then [s[0]] else []) + Digits(s[1..])
  }

  /** A single character is kept exactly when it is a digit. */
  lemma DigitsOne(c: char)
    ensures Digits([c]) == (if IsDigit(c) then [c] else [])
  {
  }

  /** The filter works character by character: every digit is kept, in order. */
  lemma {:induction false} DigitsAppend(a: string, b: string)
    ensures Digits(a + b) == Digits(a) + Digits(b)
    decreases |a|
  {
    if a == [] {
      assert a + b == b;
    } else {
      assert (a + b)[0] == a[0] && (a + b)[1..] == a[1..] + b;
      DigitsAppend(a[1..], b);
    }
  }

  /** `A` + first letter of the first name + first letter of the family name
      (upper-cased) + the last four digits of the phone; `None` where the source
      throws: a name is empty or the phone has fewer than four digits. */
  function BaseCode(prenom: string, nom: string, telephone: string): Option<string>
  {
    var digits := Digits(telephone);
    if prenom == "" || nom == "" || |digits| < 4 then None
    else Some(['A', UpperChar(prenom[0]), UpperChar(nom[0])] + digits[|digits| - 4..])
  }

  /** The characters a username keeps: `[a-z0-9._]`. */
  predicate IsUsernameChar(c: char)
  {
    'a' <= c <= 'z' || IsDigit(c) || c == '.' || c == '_'
  }

  /** `.replace(/[^a-z0-9._]/g, '')`. */
  function KeepUsernameChars(s: string): (r: string)
    ensures |r| <= |s|
    ensures forall k :: 0 <= k < |r| ==> IsUsernameChar(r[k])
  {
    if s == [] then []
    else (if IsUsernameChar(s[0]) then [s[0]] else []) + KeepUsernameChars(s[1..])
  }

  /** A single character is kept exactly when it is one of `[a-z0-9._]`. */
  lemma KeepUsernameCharsOne(c: char)
    ensures KeepUsernameChars([c]) == (if IsUsernameChar(c) then [c] else [])
  {
  }

  /** The filter works character by character: every allowed character is
      kept, in order. */
  lemma {:induction false} KeepUsernameCharsAppend(a: string, b: string)
    ensures KeepUsernameChars(a + b) == KeepUsernameChars(a) + KeepUsernameChars(b)
    decreases |a|
  {
    if a == [] {
      assert a + b == b;
    } else {
      assert (a + b)[0] == a[0] && (a + b)[1..] == a[1..] + b;
      KeepUsernameCharsAppend(a[1..], b);
    }
  }

  /** `prenom.toLowerCase() + '.' + nom.toLowerCase()` with every other
      character removed. */
  function BaseUsername(prenom: string, nom: string): string
  {
    KeepUsernameChars(Lower(prenom) + "." + Lower(nom))
  }

  /** The k-th value tried: the base itself, then the base followed by a number.
      Codes number their retries from 1 (`offset` 0), usernames from 2
      (`offset` 1), because the username loop's counter starts at 1. */
  function Candidate(base: string, offset: nat, k: nat): string
  {
    if k == 0 then base else base + NatStr(k + offset)
  }

  /** Candidates from index `k` on, against the stored values not yet passed
      over (`pending`): the index of the first one the table does not hold.
      The result is free, every candidate before it (from `k`) is taken, and
      each rejected candidate used up one stored value, so the search ends. */
  function FirstFreeFrom(base: string, offset: nat, k: nat, pending: set<string>, taken: set<string>): (r: nat)
    requires forall j :: j >= k ==> (Candidate(base, offset, j) in pending <==> Candidate(base, offset, j) in taken)
    ensures r >= k && r - k <= |pending|
    ensures Candidate(base, offset, r) !in taken
    ensures forall j :: k <= j < r ==> Candidate(base, offset, j) in taken
    decreases |pending|
  {
    var c := Candidate(base, offset, k);
    if c !in pending then k
    else
      CandidatesAfter(base, offset, k, pending, taken);
      FirstFreeFrom(base, offset, k + 1, pending - {c}, taken)
  }

  /** The index of the first candidate the table does not hold. */
  function FirstFree(base: string, offset: nat, taken: set<string>): nat
  {
    FirstFreeFrom(base, offset, 0, taken, taken)
  }

  /** The value `generateCodeAdhesion` returns, or the error it throws. */
  function CodeAdhesion(prenom: string, nom: string, telephone: string, codes: set<string>): Result<string, string>
  {
    match BaseCode(prenom, nom, telephone)
    case None => Failure(CodeError)
    case Some(base) => Success(Candidate(base, 0, FirstFree(base, 0, codes)))
  }

  /** The value `generateUsername` returns. */
  function Username(prenom: string, nom: string, usernames: set<string>): string
  {
    var base := BaseUsername(prenom, nom);
    Candidate(base, 1, FirstFree(base, 1, usernames))
  }

  // ------------------------------------------------------------ the lookups

  /** `generateCodeAdhesion`: one `SELECT ... WHERE code_adhesion = ?` per
      candidate until one finds nothing. */
  method GenerateCodeAdhesion(prenom: string, nom: string, telephone: string, table: MemberTable)
    returns (r: Result<string, string>)
    ensures r == CodeAdhesion(prenom, nom, telephone, table.codes)
  {
    var digits := Digits(telephone);
    if prenom == "" || nom == "" || |digits| < 4 {
      r := Failure(CodeError);
    } else {
      var base := ['A', UpperChar(prenom[0]), UpperChar(nom[0])] + digits[|digits| - 4..];
      var code := base;
      var suffix: nat := 0;
      ghost var pending := table.codes;
      while table.HasCode(code)
        invariant code == Candidate(base, 0, suffix)
        invariant forall j :: j >= suffix ==> (Candidate(base, 0, j) in pending <==> Candidate(base, 0, j) in table.codes)
        invariant FirstFreeFrom(base, 0, suffix, pending, table.codes) == FirstFree(base, 0, table.codes)
        decreases |pending|
      {
        CandidatesAfter(base, 0, suffix, pending, table.codes);
        pending := pending - {code};
        suffix := suffix + 1;
        code := base + NatStr(suffix);
      }
      r := Success(code);
    }
  }

  /** `generateUsername`: the counter starts at 1 and is bumped before its
      first use, so the retries are `base2`, `base3`, ... */
  method GenerateUsername(prenom: string, nom: string, table: MemberTable) returns (username: string)
    ensures username == Username(prenom, nom, table.usernames)
  {
    var base := KeepUsernameChars(Lower(prenom) + "." + Lower(nom));
    username := base;
    var suffix: nat := 1;
    ghost var pending := table.usernames;
    while table.HasUsername(username)
      invariant suffix >= 1 && username == Candidate(base, 1, suffix - 1)
      invariant forall j :: j >= suffix - 1 ==> (Candidate(base, 1, j) in pending <==> Candidate(base, 1, j) in table.usernames)
      invariant FirstFreeFrom(base, 1, suffix - 1, pending, table.usernames) == FirstFree(base, 1, table.usernames)
      decreases |pending|
    {
      CandidatesAfter(base, 1, suffix - 1, pending, table.usernames);
      pending := pending - {username};
      suffix := suffix + 1;
      username := base + NatStr(suffix);
    }
  }

  // ------------------------------------------------------------ lemmas

  /** Two different indexes never give the same candidate. */
  lemma CandidatesDistinct(base: string, offset: nat, i: nat, j: nat)
    requires i != j
    ensures Candidate(base, offset, i) != Candidate(base, offset, j)
  {
    if i != 0 && j != 0 {
      var a, b := Candidate(base, offset, i), Candidate(base, offset, j);
      if a == b {
        assert a[|base|..] == NatStr(i + offset);
        assert b[|base|..] == NatStr(j + offset);
        NatStrInjective(i + offset, j + offset);
      }
    }
  }

  /** Passing over candidate k keeps the search's bookkeeping for the later ones. */
  lemma CandidatesAfter(base: string, offset: nat, k: nat, pending: set<string>, taken: set<string>)
    requires forall j :: j >= k ==> (Candidate(base, offset, j) in pending <==> Candidate(base, offset, j) in taken)
    ensures forall j :: j >= k + 1 ==>
              (Candidate(base, offset, j) in pending - {Candidate(base, offset, k)} <==> Candidate(base, offset, j) in taken)
  {
    forall j | j >= k + 1
      ensures Candidate(base, offset, j) in pending - {Candidate(base, offset, k)} <==> Candidate(base, offset, j) in taken
    {
      CandidatesDistinct(base, offset, j, k);
    }
  }

  /** The identifier chosen is the first candidate the table does not hold:
      it is free, every earlier candidate is taken, and no more than
      |taken| retries happen. */
  lemma FirstFreeIsFirst(base: string, offset: nat, taken: set<string>)
    ensures Candidate(base, offset, FirstFree(base, offset, taken)) !in taken
    ensures forall j :: 0 <= j < FirstFree(base, offset, taken) ==> Candidate(base, offset, j) in taken
    ensures FirstFree(base, offset, taken) <= |taken|
  {
  }

  /** Conversely, the first free candidate is the one chosen: the search is
      pinned down by "free, and every earlier one taken". */
  lemma FirstFreeUnique(base: string, offset: nat, taken: set<string>, k: nat)
    requires Candidate(base, offset, k) !in taken
    requires forall j :: 0 <= j < k ==> Candidate(base, offset, j) in taken
    ensures FirstFree(base, offset, taken) == k
  {
    FirstFreeIsFirst(base, offset, taken);
  }

  /** The code is refused exactly when a name is empty or the phone has fewer
      than four digits; otherwise it is new to the table and has the shape
      `A`, two upper-cased initials, four digits, then an optional number. */
  lemma CodeAdhesionSpec(prenom: string, nom: string, telephone: string, codes: set<string>)
    ensures CodeAdhesion(prenom, nom, telephone, codes).Failure?
            <==> prenom == "" || nom == "" || |Digits(telephone)| < 4
    ensures CodeAdhesion(prenom, nom, telephone, codes).Failure? ==> CodeAdhesion(prenom, nom, telephone, codes).error == CodeError
    ensures CodeAdhesion(prenom, nom, telephone, codes).Success? ==>
              var code := CodeAdhesion(prenom, nom, telephone, codes).value;
              var digits := Digits(telephone);
              code !in codes && |code| >= 7 && code[0] == 'A'
              && code[1] == UpperChar(prenom[0]) && code[2] == UpperChar(nom[0])
              && code[3..7] == digits[|digits| - 4..]
              && (forall k :: 7 <= k < |code| ==> IsDigit(code[k]))
  {
    var base := BaseCode(prenom, nom, telephone);
    if base.Some? {
      FirstFreeIsFirst(base.value, 0, codes);
      var k := FirstFree(base.value, 0, codes);
      if k > 0 {
        var code := Candidate(base.value, 0, k);
        assert code[..7] == base.value;
        assert forall i :: 7 <= i < |code| ==> code[i] == NatStr(k)[i - 7];
      }
    }
  }

  /** The username is new to the table, is made only of `[a-z0-9._]`, and
      starts with the filtered `prenom.nom`. */
  lemma UsernameSpec(prenom: string, nom: string, usernames: set<string>)
    ensures Username(prenom, nom, usernames) !in usernames
    ensures forall k :: 0 <= k < |Username(prenom, nom, usernames)| ==> IsUsernameChar(Username(prenom, nom, usernames)[k])
    ensures StartsWith(Username(prenom, nom, usernames), BaseUsername(prenom, nom))
  {
    var base := BaseUsername(prenom, nom);
    FirstFreeIsFirst(base, 1, usernames);
    var k := FirstFree(base, 1, usernames);
    if k > 0 {
      var u := base + NatStr(k + 1);
      assert forall i :: |base| <= i < |u| ==> u[i] == NatStr(k + 1)[i - |base|];
    }
  }

  lemma {:induction false} KeepUsernameCharsNoOp(s: string)
    requires forall k :: 0 <= k < |s| ==> IsUsernameChar(s[k])
    ensures KeepUsernameChars(s) == s
    decreases |s|
  {
    if s != [] {
      KeepUsernameCharsNoOp(s[1..]);
      assert s == [s[0]] + s[1..];
    }
  }

  /** Names made of ASCII letters give `prenom.nom` in lower case: the filter
      then removes nothing. */
  lemma BaseUsernameOfLetters(prenom: string, nom: string)
    requires forall k :: 0 <= k < |prenom| ==> 'A' <= prenom[k] <= 'Z' || 'a' <= prenom[k] <= 'z'
    requires forall k :: 0 <= k < |nom| ==> 'A' <= nom[k] <= 'Z' || 'a' <= nom[k] <= 'z'
    ensures BaseUsername(prenom, nom) == Lower(prenom) + "." + Lower(nom)
  {
    KeepUsernameCharsNoOp(Lower(prenom) + "." + Lower(nom));
  }

  /** A phone written in digits only is kept whole. */
  lemma {:induction false} DigitsOfDigits(s: string)
    requires forall k :: 0 <= k < |s| ==> IsDigit(s[k])
    ensures Digits(s) == s
    decreases |s|
  {
    if s != [] {
      DigitsOfDigits(s[1..]);
      assert s == [s[0]] + s[1..];
    }
  }

  /** Jean Dupont's phone, `50912345678`, as the template example gives it
      (written in two pieces so that the prover does not unfold `Digits` on it
      letter by letter). */
  const ExamplePhone: string := "5091234" + "5678"

  lemma ExamplePhoneDigits()
    ensures Digits(ExamplePhone) == ExamplePhone
    ensures ExamplePhone == "50912345678"
  {
    DigitsOfDigits(ExamplePhone);
  }

  lemma JeanDupontBase()
    ensures BaseCode("Jean", "Dupont", ExamplePhone) == Some("AJD5678")
  {
    ExamplePhoneDigits();
    assert ExamplePhone[|ExamplePhone| - 4..] == "5678";
    assert UpperChar("Jean"[0]) == 'J' && UpperChar("Dupont"[0]) == 'D';
    assert ['A', 'J', 'D'] + "5678" == "AJD5678";
  }

  /** Jean Dupont, phone 50912345678: `AJD5678`, then `AJD56781` once that
      code exists. */
  lemma JeanDupontCode()
    ensures CodeAdhesion("Jean", "Dupont", ExamplePhone, {}) == Success("AJD5678")
    ensures CodeAdhesion("Jean", "Dupont", ExamplePhone, {"AJD5678"}) == Success("AJD56781")
  {
    JeanDupontBase();
    FirstFreeUnique("AJD5678", 0, {}, 0);
    assert NatStr(1) == "1";
    assert Candidate("AJD5678", 0, 1) == "AJD56781";
    FirstFreeUnique("AJD5678", 0, {"AJD5678"}, 1);
  }

  lemma JeanDupontBaseUsername()
    ensures BaseUsername("Jean", "Dupont") == "jean.dupont"
  {
    assert Lower("Jean") == "jean" && Lower("Dupont") == "dupont";
    BaseUsernameOfLetters("Jean", "Dupont");
  }

  /** Jean Dupont's username: `jean.dupont`, then `jean.dupont2` once that
      one exists. */
  lemma JeanDupontUsername()
    ensures Username("Jean", "Dupont", {}) == "jean.dupont"
    ensures Username("Jean", "Dupont", {"jean.dupont"}) == "jean.dupont2"
  {
    JeanDupontBaseUsername();
    FirstFreeUnique("jean.dupont", 1, {}, 0);
    assert NatStr(2) == "2";
    assert Candidate("jean.dupont", 1, 1) == "jean.dupont2";
    FirstFreeUnique("jean.dupont", 1, {"jean.dupont"}, 1);
  }
}
