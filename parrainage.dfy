/** The referral page app/dashboard/parrainage/page.tsx: the two counts of
    `calculateStats`, the search filter, a sponsor's sponsored members
    (`getFilleuls`), the top-ten ranking of `getTopParrains`, and the members
    the referral tree lists. */
module Parrainage {
  import opened Wrappers
  import opened Strings

  /** The fields of `Membre` (types/backend.ts) the page reads. */
  datatype Membre = Membre(
    id: int,
    username: string,
    codeAdhesion: string,
    codeParrain: Option<string>,
    nom: string,
    prenom: string)

  /** `m.code_parrain` is truthy: present and not the empty string. */
  predicate HasSponsor(m: Membre)
  {
    m.codeParrain.Some? && m.codeParrain.value != ""
  }

  // ------------------------------------------------------ filter and slice

  /** `xs.filter(p)`. */
  function Where<T>(xs: seq<T>, p: T -> bool): (r: seq<T>)
    ensures |r| <= |xs|
  {
    if xs == [] then []
    else Where(xs[..|xs| - 1], p) + (if p(xs[|xs| - 1]) then [xs[|xs| - 1]] else [])
  }

  /** `xs.slice(0, n)`. */
  function Take<T>(xs: seq<T>, n: nat): (r: seq<T>)
    ensures |r| == (if |xs| <= n then |xs| else n) && r == xs[..|r|]
  {
    if |xs| <= n then xs else xs[..n]
  }

  /** The filter keeps exactly the elements that pass. */
  lemma {:induction false} WhereIff<T>(xs: seq<T>, p: T -> bool, x: T)
    ensures x in Where(xs, p) <==> x in xs && p(x)
    decreases |xs|
  {
    if xs != [] {
      var n := |xs| - 1;
      WhereIff(xs[..n], p, x);
      assert xs == xs[..n] + [xs[n]];
    }
  }

  /** When every element passes, the filter returns the list itself, in order. */
  lemma {:induction false} WhereAll<T>(xs: seq<T>, p: T -> bool)
    requires forall k :: 0 <= k < |xs| ==> p(xs[k])
    ensures Where(xs, p) == xs
    decreases |xs|
  {
    if xs != [] {
      var n := |xs| - 1;
      WhereAll(xs[..n], p);
      assert xs == xs[..n] + [xs[n]];
    }
  }

  /** When no element passes, the filter returns nothing. */
  lemma {:induction false} WhereNone<T>(xs: seq<T>, p: T -> bool)
    requires forall k :: 0 <= k < |xs| ==> !p(xs[k])
    ensures Where(xs, p) == []
    decreases |xs|
  {
    if xs != [] {
      WhereNone(xs[..|xs| - 1], p);
    }
  }

  /** Filtering a list with a first element. */
  lemma {:induction false} WhereCons<T>(x: T, xs: seq<T>, p: T -> bool)
    ensures Where([x] + xs, p) == (if p(x) then [x] else []) + Where(xs, p)
    decreases |xs|
  {
    if xs == [] {
      assert ([x] + xs)[..0] == [];
    } else {
      var n := |xs| - 1;
      assert ([x] + xs)[..|xs|] == [x] + xs[..n];
      WhereCons(x, xs[..n], p);
    }
  }

  // ------------------------------------------------------------ the counts

  /** `allMembres.filter((m) => m.code_parrain)`: the members with a sponsor. */
  function Sponsored(ms: seq<Membre>): seq<Membre>
  {
    Where(ms, HasSponsor)
  }

  /** `new Set(... .map((m) => m.code_parrain))`: the distinct referral codes in use. */
  function SponsorCodes(ms: seq<Membre>): set<string>
  {
    if ms == [] then {}
    else
      var m := ms[|ms| - 1];
      SponsorCodes(ms[..|ms| - 1]) + (if HasSponsor(m) then {m.codeParrain.value} else {})
  }

  /** The integer part of the stats card (the average is left out). */
  datatype Stats = Stats(totalParrains: nat, totalFilleuls: nat)

  /** `calculateStats`. */
  function CalculateStats(ms: seq<Membre>): Stats
  {
    Stats(|SponsorCodes(ms)|, |Sponsored(ms)|)
  }

  lemma {:induction false} SponsorCodesIff(ms: seq<Membre>, c: string)
    ensures c in SponsorCodes(ms) <==> exists m :: m in ms && HasSponsor(m) && m.codeParrain.value == c
    decreases |ms|
  {
    if ms != [] {
      var n := |ms| - 1;
      SponsorCodesIff(ms[..n], c);
      assert ms == ms[..n] + [ms[n]];
    }
  }

  lemma {:induction false} SponsorCodesBound(ms: seq<Membre>)
    ensures |SponsorCodes(ms)| <= |Sponsored(ms)|
    decreases |ms|
  {
    if ms != [] {
      SponsorCodesBound(ms[..|ms| - 1]);
    }
  }

  /** `totalFilleuls` counts the members whose referral code is set and
      `totalParrains` the distinct such codes, so there are never more
      sponsors than sponsored members. */
  lemma StatsSpec(ms: seq<Membre>)
    ensures CalculateStats(ms).totalParrains <= CalculateStats(ms).totalFilleuls
    ensures forall m :: m in Sponsored(ms) <==> m in ms && HasSponsor(m)
    ensures forall c :: c in SponsorCodes(ms) <==> exists m :: m in ms && HasSponsor(m) && m.codeParrain.value == c
  {
    SponsorCodesBound(ms);
    forall m
      ensures m in Sponsored(ms) <==> m in ms && HasSponsor(m)
    {
      WhereIff(ms, HasSponsor, m);
    }
    forall c
      ensures c in SponsorCodes(ms) <==> exists m :: m in ms && HasSponsor(m) && m.codeParrain.value == c
    {
      SponsorCodesIff(ms, c);
    }
  }

  // ------------------------------------------------------------- filleuls

  /** `getFilleuls(code)`: `membres.filter((m) => m.code_parrain === code)`. */
  function Filleuls(ms: seq<Membre>, code: string): seq<Membre>
  {
    Where(ms, (m: Membre) => m.codeParrain == Some(code))
  }

  /** A sponsor's list holds exactly the members that name its code, in the
      order of the member list. */
  lemma FilleulsSpec(ms: seq<Membre>, code: string)
    ensures forall m :: m in Filleuls(ms, code) <==> m in ms && m.codeParrain == Some(code)
    ensures (forall k :: 0 <= k < |ms| ==> ms[k].codeParrain == Some(code)) ==> Filleuls(ms, code) == ms
  {
    forall m
      ensures m in Filleuls(ms, code) <==> m in ms && m.codeParrain == Some(code)
    {
      WhereIff(ms, (m: Membre) => m.codeParrain == Some(code), m);
    }
    if forall k :: 0 <= k < |ms| ==> ms[k].codeParrain == Some(code) {
      WhereAll(ms, (m: Membre) => m.codeParrain == Some(code));
    }
  }

  /** Taking one more member into account. */
  lemma FilleulsSnoc(ms: seq<Membre>, i: nat, c: string)
    requires i < |ms|
    ensures Filleuls(ms[..i + 1], c)
            == Filleuls(ms[..i], c) + (if ms[i].codeParrain == Some(c) then [ms[i]] else [])
  {
    assert ms[..i + 1][..i] == ms[..i];
  }

  // --------------------------------------------------------- top sponsors

  /** `membres.find((m) => m.code_adhesion === code)`: the first member with that code. */
  function FindByCode(ms: seq<Membre>, code: string): (r: Option<Membre>)
    ensures r.Some? ==> r.value in ms && r.value.codeAdhesion == code
    ensures r.None? <==> forall m :: m in ms ==> m.codeAdhesion != code
  {
    if ms == [] then None
    else if ms[0].codeAdhesion == code then Some(ms[0])
    else
      assert forall m :: m in ms ==> m == ms[0] || m in ms[1..];
      FindByCode(ms[1..], code)
  }

  /** A member whose referral the loop of `getTopParrains` counts: the code
      is set and some member holds it as membership code. */
  predicate Counts(ms: seq<Membre>, m: Membre)
  {
    HasSponsor(m) && FindByCode(ms, m.codeParrain.value).Some?
  }

  /** The keys of `parrainMap` once the first `n` members are visited, in
      insertion order: each counted referral code, from its first use. */
  function SponsorOrder(ms: seq<Membre>, n: nat): (order: seq<string>)
    requires n <= |ms|
    ensures forall k :: 0 <= k < |order| ==> order[k] != "" && FindByCode(ms, order[k]).Some?
  {
    if n == 0 then []
    else
      var prev := SponsorOrder(ms, n - 1);
      var m := ms[n - 1];
      if Counts(ms, m) && m.codeParrain.value !in prev then prev + [m.codeParrain.value] else prev
  }

  /** Each key is inserted once, every counted code is a key, and every key
      comes from a counted member. */
  lemma {:induction false} SponsorOrderSpec(ms: seq<Membre>, n: nat)
    requires n <= |ms|
    ensures var order := SponsorOrder(ms, n);
      (forall i, j :: 0 <= i < j < |order| ==> order[i] != order[j])
      && (forall k :: 0 <= k < n && Counts(ms, ms[k]) ==> ms[k].codeParrain.value in order)
      && (forall c :: c in order ==> exists k :: 0 <= k < n && Counts(ms, ms[k]) && ms[k].codeParrain.value == c)
  {
    if n > 0 {
      SponsorOrderSpec(ms, n - 1);
    }
  }

  /** A `parrainMap` value: the sponsor and the number of referrals counted. */
  datatype Entry = Entry(membre: Membre, count: nat)

  /** A JavaScript `Map`: its keys in insertion order and the value of each. */
  datatype SponsorMap = SponsorMap(keys: seq<string>, entries: map<string, Entry>)

  /** The entry of a counted code once every member is visited. */
  function SponsorEntry(ms: seq<Membre>, code: string): Entry
    requires FindByCode(ms, code).Some?
  {
    Entry(FindByCode(ms, code).value, |Filleuls(ms, code)|)
  }

  /** `Array.from(parrainMap.values())` once every member is visited. */
  function SponsorEntries(ms: seq<Membre>): (r: seq<Entry>)
  {
    var order := SponsorOrder(ms, |ms|);
    seq(|order|, k requires 0 <= k < |order| => SponsorEntry(ms, order[k]))
  }

  /** No counted code is used by the first `i` members. */
  lemma NoFilleulsYet(ms: seq<Membre>, i: nat, c: string)
    requires i <= |ms| && c != "" && FindByCode(ms, c).Some? && c !in SponsorOrder(ms, i)
    ensures Filleuls(ms[..i], c) == []
  {
    SponsorOrderSpec(ms, i);
    forall k | 0 <= k < |ms[..i]|
      ensures ms[..i][k].codeParrain != Some(c)
    {
      assert ms[..i][k] == ms[k];
    }
    WhereNone(ms[..i], (m: Membre) => m.codeParrain == Some(c));
  }

  /** The tally after the first `i` members: the keys in insertion order,
      and for each key its sponsor and the referrals counted so far. */
  ghost predicate TallyInv(ms: seq<Membre>, i: nat, tally: SponsorMap)
    requires i <= |ms|
  {
    tally.keys == SponsorOrder(ms, i)
    && (forall c :: c in tally.entries <==> c in tally.keys)
    && forall c :: c in tally.entries ==> EntryOk(ms, i, c, tally.entries[c])
  }

  /** `e` holds the sponsor with code `c` and its referrals among the first `i` members. */
  ghost predicate EntryOk(ms: seq<Membre>, i: nat, c: string, e: Entry)
    requires i <= |ms|
  {
    FindByCode(ms, c).Some? && e == Entry(FindByCode(ms, c).value, |Filleuls(ms[..i], c)|)
  }

  /** A member whose referral is not counted leaves the tally as it is. */
  lemma TallySkip(ms: seq<Membre>, i: nat, tally: SponsorMap)
    requires i < |ms| && TallyInv(ms, i, tally) && !Counts(ms, ms[i])
    ensures TallyInv(ms, i + 1, tally)
  {
    assert SponsorOrder(ms, i + 1) == SponsorOrder(ms, i);
    forall c | c in tally.entries
      ensures EntryOk(ms, i + 1, c, tally.entries[c])
    {
      FilleulsSnoc(ms, i, c);
      assert EntryOk(ms, i, c, tally.entries[c]);
    }
  }

  /** A referral to a sponsor already in the map counts one more. */
  lemma TallyBump(ms: seq<Membre>, i: nat, tally: SponsorMap, sponsor: Membre)
    requires i < |ms| && TallyInv(ms, i, tally) && HasSponsor(ms[i])
    requires FindByCode(ms, ms[i].codeParrain.value) == Some(sponsor)
    requires sponsor.codeAdhesion in tally.entries
    ensures var key := sponsor.codeAdhesion;
            TallyInv(ms, i + 1,
              tally.(entries := tally.entries[key := tally.entries[key].(count := tally.entries[key].count + 1)]))
  {
    var key := sponsor.codeAdhesion;
    var e := tally.entries[key];
    var entries := tally.entries[key := e.(count := e.count + 1)];
    assert ms[i].codeParrain == Some(key);
    assert SponsorOrder(ms, i + 1) == SponsorOrder(ms, i);
    forall c | c in entries
      ensures EntryOk(ms, i + 1, c, entries[c])
    {
      FilleulsSnoc(ms, i, c);
      assert EntryOk(ms, i, c, tally.entries[c]);
      if c == key {
        assert entries[c] == e.(count := e.count + 1);
      } else {
        assert entries[c] == tally.entries[c];
      }
    }
  }

  /** A referral to a sponsor not yet in the map adds it, with one referral. */
  lemma TallyAdd(ms: seq<Membre>, i: nat, tally: SponsorMap, sponsor: Membre)
    requires i < |ms| && TallyInv(ms, i, tally) && HasSponsor(ms[i])
    requires FindByCode(ms, ms[i].codeParrain.value) == Some(sponsor)
    requires sponsor.codeAdhesion !in tally.entries
    ensures var key := sponsor.codeAdhesion;
            TallyInv(ms, i + 1, SponsorMap(tally.keys + [key], tally.entries[key := Entry(sponsor, 1)]))
  {
    var key := sponsor.codeAdhesion;
    var entries := tally.entries[key := Entry(sponsor, 1)];
    assert ms[i].codeParrain == Some(key);
    assert key !in SponsorOrder(ms, i);
    assert SponsorOrder(ms, i + 1) == tally.keys + [key];
    forall c | c in entries
      ensures EntryOk(ms, i + 1, c, entries[c])
    {
      FilleulsSnoc(ms, i, c);
      if c == key {
        NoFilleulsYet(ms, i, key);
      } else {
        assert EntryOk(ms, i, c, tally.entries[c]);
      }
    }
  }

  /** One turn of the loop of `getTopParrains`, on the tally as a value. */
  function Tallied(ms: seq<Membre>, i: nat, tally: SponsorMap): SponsorMap
    requires i < |ms|
  {
    var m := ms[i];
    if !HasSponsor(m) then tally
    else match FindByCode(ms, m.codeParrain.value)
      case None => tally
      case Some(sponsor) =>
        var key := sponsor.codeAdhesion;
        if key in tally.entries then
          tally.(entries := tally.entries[key := tally.entries[key].(count := tally.entries[key].count + 1)])
        else
          SponsorMap(tally.keys + [key], tally.entries[key := Entry(sponsor, 1)])
  }

  /** Each turn keeps the tally in step with the members seen. */
  lemma TallyStep(ms: seq<Membre>, i: nat, tally: SponsorMap)
    requires i < |ms| && TallyInv(ms, i, tally)
    ensures TallyInv(ms, i + 1, Tallied(ms, i, tally))
  {
    var m := ms[i];
    if !HasSponsor(m) {
      TallySkip(ms, i, tally);
    } else {
      match FindByCode(ms, m.codeParrain.value)
      case None => TallySkip(ms, i, tally);
      case Some(sponsor) =>
        if sponsor.codeAdhesion in tally.entries {
          TallyBump(ms, i, tally, sponsor);
        } else {
          TallyAdd(ms, i, tally, sponsor);
        }
    }
  }

  /** The tally after the first `n` turns of the loop. */
  function TallyUpTo(ms: seq<Membre>, n: nat): SponsorMap
    requires n <= |ms|
  {
    if n == 0 then SponsorMap([], map[]) else Tallied(ms, n - 1, TallyUpTo(ms, n - 1))
  }

  lemma {:induction false} TallyUpToInv(ms: seq<Membre>, n: nat)
    requires n <= |ms|
    ensures TallyInv(ms, n, TallyUpTo(ms, n))
  {
    if n > 0 {
      TallyUpToInv(ms, n - 1);
      TallyStep(ms, n - 1, TallyUpTo(ms, n - 1));
    }
  }

  /** The `forEach` loop of `getTopParrains`: for each member whose referral
      code belongs to a member, count one more referral for that member. */
  method TallySponsors(ms: seq<Membre>) returns (tally: SponsorMap)
    ensures tally.keys == SponsorOrder(ms, |ms|)
    ensures forall c :: c in tally.entries <==> c in tally.keys
    ensures forall c :: c in tally.entries ==> tally.entries[c] == SponsorEntry(ms, c)
  {
    tally := SponsorMap([], map[]);
    for i := 0 to |ms|
      invariant tally == TallyUpTo(ms, i)
    {
      var membre := ms[i];
      if membre.codeParrain.Some? && membre.codeParrain.value != "" {
        var parrain := FindByCode(ms, membre.codeParrain.value);
        if parrain.Some? {
          var key := parrain.value.codeAdhesion;
          if key in tally.entries {
            var existing := tally.entries[key];
            tally := tally.(entries := tally.entries[key := existing.(count := existing.count + 1)]);
          } else {
            tally := SponsorMap(tally.keys + [key], tally.entries[key := Entry(parrain.value, 1)]);
          }
        }
      }
    }
    TallyUpToInv(ms, |ms|);
    assert ms[..|ms|] == ms;
  }

  /** Entries sorted by non-increasing count. */
  predicate SortedByCount(es: seq<Entry>)
  {
    forall i, j :: 0 <= i < j < |es| ==> es[i].count >= es[j].count
  }

  /** Insert `e` into a list sorted by decreasing count, after every entry
      whose count is at least its own. */
  function InsertByCount(sorted: seq<Entry>, e: Entry): seq<Entry>
  {
    if sorted == [] then [e]
    else if sorted[0].count >= e.count then [sorted[0]] + InsertByCount(sorted[1..], e)
    else [e] + sorted
  }

  /** `.sort((a, b) => b.count - a.count)`: by decreasing count and, since
      `Array.prototype.sort` is stable, equal counts in their original order. */
  function SortByCount(es: seq<Entry>): seq<Entry>
  {
    if es == [] then [] else InsertByCount(SortByCount(es[..|es| - 1]), es[|es| - 1])
  }

  /** The entries of one count, in order. */
  function WithCount(es: seq<Entry>, n: nat): seq<Entry>
  {
    if es == [] then [] else (if es[0].count == n then [es[0]] else []) + WithCount(es[1..], n)
  }

  lemma {:induction false} WithCountNone(es: seq<Entry>, n: nat)
    requires forall k :: 0 <= k < |es| ==> es[k].count != n
    ensures WithCount(es, n) == []
    decreases |es|
  {
    if es != [] {
      WithCountNone(es[1..], n);
    }
  }

  lemma {:induction false} WithCountAppend(a: seq<Entry>, b: seq<Entry>, n: nat)
    ensures WithCount(a + b, n) == WithCount(a, n) + WithCount(b, n)
    decreases |a|
  {
    if a == [] {
      assert a + b == b;
    } else {
      var head := if a[0].count == n then [a[0]] else [];
      assert (a + b)[0] == a[0] && (a + b)[1..] == a[1..] + b;
      assert WithCount(a + b, n) == head + WithCount(a[1..] + b, n);
      WithCountAppend(a[1..], b, n);
      assert WithCount(a, n) == head + WithCount(a[1..], n);
    }
  }

  /** An entry ranking at least as high as every entry of a sorted list can go in front. */
  lemma SortedCons(x: Entry, es: seq<Entry>)
    requires SortedByCount(es)
    requires forall k :: 0 <= k < |es| ==> x.count >= es[k].count
    ensures SortedByCount([x] + es)
  {
    var r := [x] + es;
    forall i, j | 0 <= i < j < |r|
      ensures r[i].count >= r[j].count
    {
      assert r[j] == es[j - 1];
      if i > 0 {
        assert r[i] == es[i - 1];
      }
    }
  }

  lemma {:induction false} InsertByCountPerm(sorted: seq<Entry>, e: Entry)
    ensures multiset(InsertByCount(sorted, e)) == multiset(sorted) + multiset{e}
    decreases |sorted|
  {
    if sorted != [] && sorted[0].count >= e.count {
      InsertByCountPerm(sorted[1..], e);
      assert sorted == [sorted[0]] + sorted[1..];
    }
  }

  lemma {:induction false} InsertByCountSorted(sorted: seq<Entry>, e: Entry)
    requires SortedByCount(sorted)
    ensures SortedByCount(InsertByCount(sorted, e))
    decreases |sorted|
  {
    if sorted == [] {
    } else if sorted[0].count >= e.count {
      var tail := sorted[1..];
      var rest := InsertByCount(tail, e);
      InsertByCountSorted(tail, e);
      InsertByCountPerm(tail, e);
      forall k | 0 <= k < |rest|
        ensures sorted[0].count >= rest[k].count
      {
        assert rest[k] in multiset(rest);
        if rest[k] != e {
          assert rest[k] in multiset(tail);
          var j :| 0 <= j < |tail| && tail[j] == rest[k];
          assert tail[j] == sorted[j + 1];
        }
      }
      SortedCons(sorted[0], rest);
    } else {
      SortedCons(e, sorted);
    }
  }

  lemma SortedTail(es: seq<Entry>)
    requires es != [] && SortedByCount(es)
    ensures SortedByCount(es[1..])
    ensures forall k :: 0 <= k < |es| ==> es[k].count <= es[0].count
  {
  }

  /** An entry ranking above the whole sorted list goes in front, which is
      also after every entry of its own count, since there is none. */
  lemma StableInFront(sorted: seq<Entry>, e: Entry, n: nat)
    requires forall k :: 0 <= k < |sorted| ==> sorted[k].count < e.count
    ensures WithCount([e] + sorted, n) == WithCount(sorted, n) + (if e.count == n then [e] else [])
  {
    if e.count == n {
      WithCountNone(sorted, n);
    }
    assert ([e] + sorted)[1..] == sorted;
  }

  lemma {:induction false} InsertByCountStable(sorted: seq<Entry>, e: Entry, n: nat)
    requires SortedByCount(sorted)
    ensures WithCount(InsertByCount(sorted, e), n) == WithCount(sorted, n) + (if e.count == n then [e] else [])
    decreases |sorted|
  {
    if sorted == [] {
    } else {
      SortedTail(sorted);
      var first, tail := sorted[0], sorted[1..];
      if first.count >= e.count {
        var rest := InsertByCount(tail, e);
        var head := if first.count == n then [first] else [];
        assert InsertByCount(sorted, e) == [first] + rest;
        assert ([first] + rest)[0] == first && ([first] + rest)[1..] == rest;
        assert WithCount([first] + rest, n) == head + WithCount(rest, n);
        InsertByCountStable(tail, e, n);
        assert WithCount(sorted, n) == head + WithCount(tail, n);
      } else {
        assert InsertByCount(sorted, e) == [e] + sorted;
        StableInFront(sorted, e, n);
      }
    }
  }

  /** The ranking is sorted by decreasing count, holds the same entries, and
      keeps entries of equal count in their original order. */
  lemma {:induction false} SortByCountSpec(es: seq<Entry>)
    ensures SortedByCount(SortByCount(es))
    ensures multiset(SortByCount(es)) == multiset(es)
    ensures forall n: nat :: WithCount(SortByCount(es), n) == WithCount(es, n)
    decreases |es|
  {
    if es != [] {
      var k := |es| - 1;
      SortByCountSpec(es[..k]);
      InsertByCountSorted(SortByCount(es[..k]), es[k]);
      InsertByCountPerm(SortByCount(es[..k]), es[k]);
      assert es == es[..k] + [es[k]];
      forall n: nat
        ensures WithCount(SortByCount(es), n) == WithCount(es, n)
      {
        InsertByCountStable(SortByCount(es[..k]), es[k], n);
        WithCountAppend(es[..k], [es[k]], n);
        assert WithCount([es[k]], n) == (if es[k].count == n then [es[k]] else []) by {
          assert [es[k]][1..] == [];
        }
      }
    }
  }

  /** `getTopParrains()`. */
  function TopSponsors(ms: seq<Membre>): seq<Entry>
  {
    Take(SortByCount(SponsorEntries(ms)), 10)
  }

  /** `getTopParrains`: tally, then sort, then keep ten. */
  method GetTopParrains(ms: seq<Membre>) returns (top: seq<Entry>)
    ensures top == TopSponsors(ms)
  {
    var tally := TallySponsors(ms);
    var values := seq(|tally.keys|, k requires 0 <= k < |tally.keys| => tally.entries[tally.keys[k]]);
    assert values == SponsorEntries(ms);
    top := Take(SortByCount(values), 10);
  }

  /** Every tallied entry is a member whose code other members name, with the
      number of members naming it. */
  lemma SponsorEntriesSpec(ms: seq<Membre>, e: Entry)
    requires e in SponsorEntries(ms)
    ensures e.membre in ms && e.membre == FindByCode(ms, e.membre.codeAdhesion).value
    ensures e.count == |Filleuls(ms, e.membre.codeAdhesion)| && e.count >= 1
  {
    var order := SponsorOrder(ms, |ms|);
    var i :| 0 <= i < |order| && SponsorEntries(ms)[i] == e;
    KeyNamed(ms, order[i]);
  }

  /** A key of the map is named by at least one member. */
  lemma KeyNamed(ms: seq<Membre>, c: string)
    requires c in SponsorOrder(ms, |ms|)
    ensures |Filleuls(ms, c)| >= 1
  {
    SponsorOrderSpec(ms, |ms|);
    var k :| 0 <= k < |ms| && Counts(ms, ms[k]) && ms[k].codeParrain.value == c;
    FilleulsSpec(ms, c);
    assert ms[k] in Filleuls(ms, c);
  }

  /** At most ten entries, by decreasing count, each with the exact number of
      members naming that sponsor's code; a code no member holds is never
      counted; and an entry left out ranks no higher than any kept one. */
  lemma TopSponsorsSpec(ms: seq<Membre>)
    ensures var top := TopSponsors(ms);
      |top| <= 10 && SortedByCount(top)
      && (forall e :: e in top ==>
            e in SponsorEntries(ms) && e.membre in ms && e.count >= 1
            && e.count == |Filleuls(ms, e.membre.codeAdhesion)|)
      && (forall e :: e in SponsorEntries(ms) && e !in top ==>
            |top| == 10 && forall t :: t in top ==> t.count >= e.count)
  {
    var es := SponsorEntries(ms);
    var sorted := SortByCount(es);
    var top := TopSponsors(ms);
    SortByCountSpec(es);
    forall e | e in top
      ensures e in es && e.membre in ms && e.count >= 1 && e.count == |Filleuls(ms, e.membre.codeAdhesion)|
    {
      assert e in multiset(sorted);
      SponsorEntriesSpec(ms, e);
    }
    forall e | e in es && e !in top
      ensures |top| == 10 && forall t :: t in top ==> t.count >= e.count
    {
      assert e in multiset(es);
      var j :| 0 <= j < |sorted| && sorted[j] == e;
      assert j >= |top|;
    }
  }

  // -------------------------------------------------------------- search

  /** One of `nom`, `prenom`, `username`, `code_adhesion`, lower-cased, holds the lower-cased term. */
  predicate Matches(m: Membre, term: string)
  {
    var t := Lower(term);
    Contains(Lower(m.nom), t) || Contains(Lower(m.prenom), t)
    || Contains(Lower(m.username), t) || Contains(Lower(m.codeAdhesion), t)
  }

  /** `filterMembres`: every member for an empty term, otherwise those that match. */
  function FilterMembres(ms: seq<Membre>, term: string): seq<Membre>
  {
    if term == "" then ms else Where(ms, (m: Membre) => Matches(m, term))
  }

  /** An empty term keeps the list; otherwise the result is the matching
      members, in the list's order. */
  lemma FilterMembresSpec(ms: seq<Membre>, term: string)
    ensures term == "" ==> FilterMembres(ms, term) == ms
    ensures term != "" ==> forall m :: m in FilterMembres(ms, term) <==> m in ms && Matches(m, term)
    ensures (forall k :: 0 <= k < |ms| ==> Matches(ms[k], term)) ==> FilterMembres(ms, term) == ms
    ensures |FilterMembres(ms, term)| <= |ms|
  {
    if term != "" {
      forall m
        ensures m in FilterMembres(ms, term) <==> m in ms && Matches(m, term)
      {
        WhereIff(ms, (m: Membre) => Matches(m, term), m);
      }
      if forall k :: 0 <= k < |ms| ==> Matches(ms[k], term) {
        WhereAll(ms, (m: Membre) => Matches(m, term));
      }
    }
  }

  // ---------------------------------------------------------- the tree

  /** The tree view: among the filtered members, those with at least one
      filleul in the whole list, the first twenty. */
  function TreeView(filtered: seq<Membre>, ms: seq<Membre>): seq<Membre>
  {
    Take(Where(filtered, HasFilleul(ms)), 20)
  }

  /** `getFilleuls(m.code_adhesion).length > 0`. */
  function HasFilleul(ms: seq<Membre>): Membre -> bool
  {
    (m: Membre) => |Filleuls(ms, m.codeAdhesion)| > 0
  }

  /** The first `n` elements a filter keeps are what it keeps of some prefix
      of the list: the slice takes them in list order. */
  lemma {:induction false} TakeWherePrefix<T>(xs: seq<T>, p: T -> bool, n: nat)
    ensures exists j :: 0 <= j <= |xs| && Take(Where(xs, p), n) == Where(xs[..j], p)
    decreases |xs|
  {
    if |Where(xs, p)| <= n {
      assert xs[..|xs|] == xs;
    } else {
      var m := |xs| - 1;
      TakeWherePrefix(xs[..m], p, n);
      var j :| 0 <= j <= m && Take(Where(xs[..m], p), n) == Where(xs[..m][..j], p);
      assert xs[..m][..j] == xs[..j];
      assert Where(xs, p)[..n] == Where(xs[..m], p)[..n];
    }
  }

  /** At most twenty members, each from the filtered list and with a filleul;
      when fewer than twenty qualify, all of them; and those shown are the
      ones with a filleul among a prefix of the filtered list, in its order. */
  lemma TreeViewSpec(filtered: seq<Membre>, ms: seq<Membre>)
    ensures var r := TreeView(filtered, ms);
      |r| <= 20
      && (forall m :: m in r ==> m in filtered && |Filleuls(ms, m.codeAdhesion)| > 0)
      && (forall m :: m in filtered && |Filleuls(ms, m.codeAdhesion)| > 0 && m !in r ==> |r| == 20)
      && exists j :: 0 <= j <= |filtered| && r == Where(filtered[..j], HasFilleul(ms))
  {
    var p := HasFilleul(ms);
    TakeWherePrefix(filtered, p, 20);
    var w := Where(filtered, p);
    forall m
      ensures m in w <==> m in filtered && p(m)
    {
      WhereIff(filtered, p, m);
    }
  }

  // ------------------------------------------- the sponsors the card counts

  /** What the card labelled "Membres avec au moins 1 filleul" evidently
      means to count: the members whose code at least one member names, that
      is the sponsors the ranking tallies. */
  function SponsorCount(ms: seq<Membre>): nat
  {
    |SponsorOrder(ms, |ms|)|
  }

  lemma {:induction false} DistinctCard(s: seq<string>)
    requires forall i, j :: 0 <= i < j < |s| ==> s[i] != s[j]
    ensures |(set x | x in s)| == |s|
    decreases |s|
  {
    if s != [] {
      var n := |s| - 1;
      DistinctCard(s[..n]);
      assert (set x | x in s) == (set x | x in s[..n]) + {s[n]};
      assert s[n] !in (set x | x in s[..n]);
    }
  }

  /** The non-empty membership codes that some member names as sponsor. */
  function NamedCodes(ms: seq<Membre>): set<string>
  {
    set m | m in ms && m.codeAdhesion != "" && |Filleuls(ms, m.codeAdhesion)| > 0 :: m.codeAdhesion
  }

  lemma KeyIsNamed(ms: seq<Membre>, c: string)
    requires c in SponsorOrder(ms, |ms|)
    ensures c in NamedCodes(ms)
  {
    KeyNamed(ms, c);
    var owner := FindByCode(ms, c).value;
    assert owner in ms && owner.codeAdhesion == c;
  }

  lemma NamedIsKey(ms: seq<Membre>, c: string)
    requires c in NamedCodes(ms)
    ensures c in SponsorOrder(ms, |ms|)
  {
    var owner :| owner in ms && owner.codeAdhesion != "" && |Filleuls(ms, owner.codeAdhesion)| > 0 && owner.codeAdhesion == c;
    var f := Filleuls(ms, c)[0];
    FilleulIn(ms, c, f);
    var k :| 0 <= k < |ms| && ms[k] == f;
    KeyOfCounted(ms, k);
  }

  /** A member of a sponsor's list names that sponsor's code. */
  lemma FilleulIn(ms: seq<Membre>, c: string, f: Membre)
    requires f in Filleuls(ms, c)
    ensures f in ms && f.codeParrain == Some(c)
  {
    WhereIff(ms, (m: Membre) => m.codeParrain == Some(c), f);
  }

  /** The code of a counted referral is a key of the map. */
  lemma KeyOfCounted(ms: seq<Membre>, k: nat)
    requires k < |ms| && Counts(ms, ms[k])
    ensures ms[k].codeParrain.value in SponsorOrder(ms, |ms|)
  {
    SponsorOrderSpec(ms, |ms|);
  }

  /** The corrected count is the number of distinct non-empty membership
      codes that some member names as sponsor. */
  lemma SponsorCountSpec(ms: seq<Membre>)
    ensures SponsorCount(ms) == |NamedCodes(ms)|
  {
    var order := SponsorOrder(ms, |ms|);
    forall c
      ensures c in order <==> c in NamedCodes(ms)
    {
      if c in order {
        KeyIsNamed(ms, c);
      }
      if c in NamedCodes(ms) {
        NamedIsKey(ms, c);
      }
    }
    SponsorOrderSpec(ms, |ms|);
    DistinctCard(order);
    assert (set x | x in order) == NamedCodes(ms);
  }

  /** As written, `totalParrains` also counts a referral code that belongs
      to no member: one member naming the unknown code `AXX0000` gives one
      "sponsor" while no member has a filleul. */
  lemma UnknownCodeCounted()
    ensures var ms := [Membre(1, "marie.paul", "AMP1234", Some("AXX0000"), "Paul", "Marie")];
      CalculateStats(ms).totalParrains == 1 && SponsorCount(ms) == 0
      && forall m :: m in ms ==> Filleuls(ms, m.codeAdhesion) == []
  {
    var ms := [Membre(1, "marie.paul", "AMP1234", Some("AXX0000"), "Paul", "Marie")];
    assert ms[..0] == [];
    assert SponsorCodes(ms) == {"AXX0000"};
    assert FindByCode(ms, "AXX0000").None?;
    FilleulsSpec(ms, "AMP1234");
    assert Filleuls(ms, "AMP1234") == [] by {
      WhereNone(ms, (m: Membre) => m.codeParrain == Some("AMP1234"));
    }
  }
}
