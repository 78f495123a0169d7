/** The annual-dues summary of components/cotisation-status.tsx: from the
    member's validated installments, the total paid, the balance still owed,
    whether the year is paid up, the installment list as displayed, and the two
    hints the card shows (the first minimum installment and the next one). */
module Cotisation {
  import opened Wrappers

  /** `COTISATION_ANNUELLE`, in gourdes. */
  const AnnualDues: int := 1500

  /** `MINIMUM_PREMIER_VERSEMENT`, in gourdes. */
  const MinimumInstallment: int := 150

  /** A validated installment as the backend returns it; `date_paiement` may be missing. */
  datatype Payment = Payment(id: int, montant: int, datePaiement: Option<string>, statutPaiement: string)

  /** An entry of the summary's `versements` list. */
  datatype Installment = Installment(id: int, montant: int, datePaiement: string, statutPaiement: string)

  /** `CotisationSummary`. */
  datatype Summary = Summary(
    totalPaye: int,
    soldeRestant: int,
    estComplet: bool,
    nombreVersements: nat,
    versements: seq<Installment>)

  /** The next-installment hint: the amount shown, and whether it is marked
      as the final balance. */
  datatype NextHint = NextHint(minimum: int, finalBalance: bool)

  function Max(a: int, b: int): int
  {
    if a >= b then a else b
  }

  function Min(a: int, b: int): int
  {
    if a <= b then a else b
  }

  /** `versements.reduce((sum, v) => sum + v.montant, 0)`, folded from the left. */
  function TotalPaid(ps: seq<Payment>): int
  {
    if ps == [] then 0 else TotalPaid(ps[..|ps| - 1]) + ps[|ps| - 1].montant
  }

  /** One entry of the displayed list: a missing date becomes `''`. */
  function Listed(p: Payment): Installment
  {
    Installment(p.id, p.montant, match p.datePaiement case None => "" case Some(d) => d, p.statutPaiement)
  }

  /** The summary `loadSummary` stores for the installments the backend returned. */
  function Summarize(ps: seq<Payment>): Summary
  {
    var total := TotalPaid(ps);
    Summary(total, Max(0, AnnualDues - total), total >= AnnualDues, |ps|,
            seq(|ps|, k requires 0 <= k < |ps| => Listed(ps[k])))
  }

  /** "Premier versement minimum : 150 HTG", shown while nothing has been paid. */
  function FirstInstallmentHint(s: Summary): Option<int>
  {
    if s.nombreVersements == 0 then Some(MinimumInstallment) else None
  }

  /** "Prochain versement : Minimum ... HTG", with "(solde final)" when the
      balance is below the minimum installment. */
  function NextInstallmentHint(s: Summary): Option<NextHint>
  {
    if !s.estComplet && s.soldeRestant > 0 then
      Some(NextHint(Min(s.soldeRestant, MinimumInstallment), s.soldeRestant < MinimumInstallment))
    else None
  }

  // ------------------------------------------------------------ lemmas

  /** The total of two runs of installments is the sum of their totals. */
  lemma {:induction false} TotalPaidAppend(a: seq<Payment>, b: seq<Payment>)
    ensures TotalPaid(a + b) == TotalPaid(a) + TotalPaid(b)
    decreases |b|
  {
    if b != [] {
      var n := |b| - 1;
      assert (a + b)[..|a + b| - 1] == a + b[..n];
      TotalPaidAppend(a, b[..n]);
    } else {
      assert a + b == a;
    }
  }

  /** The balance is never negative; the dues are complete exactly when it is
      zero; and while they are not, total paid plus balance is the annual dues. */
  lemma SummaryBalance(ps: seq<Payment>)
    ensures var s := Summarize(ps);
      s.soldeRestant >= 0
      && (s.estComplet <==> s.soldeRestant == 0)
      && (s.estComplet <==> TotalPaid(ps) >= AnnualDues)
      && (!s.estComplet ==> s.totalPaye + s.soldeRestant == AnnualDues)
      && s.soldeRestant <= Max(0, AnnualDues - s.totalPaye)
  {
  }

  /** The listed installments are the backend's, one for one and in order,
      with their ids, amounts and statuses; a missing date is shown as `''`;
      and the listed amounts add up to the total paid. */
  lemma SummaryListing(ps: seq<Payment>)
    ensures var s := Summarize(ps);
      s.nombreVersements == |ps| == |s.versements|
      && (forall k :: 0 <= k < |ps| ==>
            s.versements[k].id == ps[k].id && s.versements[k].montant == ps[k].montant
            && s.versements[k].statutPaiement == ps[k].statutPaiement
            && (ps[k].datePaiement.None? ==> s.versements[k].datePaiement == "")
            && (ps[k].datePaiement.Some? ==> s.versements[k].datePaiement == ps[k].datePaiement.value))
  {
  }

  /** One more installment of `p.montant >= 0` lowers the balance by that
      amount, down to zero, and never undoes completion. */
  lemma PaymentLowersBalance(ps: seq<Payment>, p: Payment)
    requires p.montant >= 0
    ensures var before, after := Summarize(ps), Summarize(ps + [p]);
      after.totalPaye == before.totalPaye + p.montant
      && after.soldeRestant == Max(0, before.soldeRestant - p.montant)
      && after.nombreVersements == before.nombreVersements + 1
      && (before.estComplet ==> after.estComplet)
  {
    TotalPaidAppend(ps, [p]);
    assert [p][..0] == [];
  }

  /** The first-installment hint is shown exactly when there is no
      installment yet, and then states 150. */
  lemma FirstHintIff(ps: seq<Payment>)
    ensures FirstInstallmentHint(Summarize(ps)).Some? <==> ps == []
    ensures FirstInstallmentHint(Summarize(ps)).Some? ==> FirstInstallmentHint(Summarize(ps)).value == MinimumInstallment
  {
  }

  /** The next-installment hint is shown exactly while the total paid is
      below the dues; it asks for the smaller of the balance and 150, a
      positive amount, and is marked final exactly when it asks for the whole
      balance below 150. */
  lemma NextHintIff(ps: seq<Payment>)
    ensures var s, h := Summarize(ps), NextInstallmentHint(Summarize(ps));
      (h.Some? <==> TotalPaid(ps) < AnnualDues)
      && (h.Some? ==>
            0 < h.value.minimum <= MinimumInstallment && h.value.minimum <= s.soldeRestant
            && (h.value.minimum == s.soldeRestant || h.value.minimum == MinimumInstallment)
            && (h.value.finalBalance <==> h.value.minimum < MinimumInstallment)
            && (h.value.finalBalance ==> h.value.minimum == s.soldeRestant))
  {
  }

  /** Paying what a final-balance hint asks completes the dues; paying what
      any other hint asks leaves a balance of 150 less. */
  lemma PayingTheHint(ps: seq<Payment>, p: Payment)
    requires NextInstallmentHint(Summarize(ps)).Some?
    requires p.montant == NextInstallmentHint(Summarize(ps)).value.minimum
    ensures var h := NextInstallmentHint(Summarize(ps)).value;
      (h.finalBalance ==> Summarize(ps + [p]).estComplet)
      && (!h.finalBalance ==> Summarize(ps + [p]).soldeRestant == Summarize(ps).soldeRestant - MinimumInstallment)
  {
    PaymentLowersBalance(ps, p);
    SummaryBalance(ps + [p]);
  }

  /** With no installment both hints are shown: 150 first, then 150 towards a
      balance of 1500. */
  lemma NoPaymentYet()
    ensures Summarize([]).soldeRestant == AnnualDues && !Summarize([]).estComplet
    ensures FirstInstallmentHint(Summarize([])) == Some(MinimumInstallment)
    ensures NextInstallmentHint(Summarize([])) == Some(NextHint(MinimumInstallment, false))
  {
  }
}
