/**
 * The branch code of each site, from the prefixes its rows carry (apps/api/src/workforce-import/org.ts, lines 38-68).
 */
module BranchCodes {
  import opened Options
  import opened Sequences

  datatype SiteRow = SiteRow(code: Option<string>, branchName: Option<string>)

  /** One row's vote: its site claims its prefix. */
  datatype Claim = Claim(site: string, prefix: string)

  datatype Rank = Rank(prefix: string, count: nat)

  datatype Ambiguity = Ambiguity(site: string, counts: seq<Rank>)

  function ClaimOf(orgKey: string -> Option<string>, row: SiteRow): Option<Claim> {
    if row.code.None? || row.branchName.None? then None
    else
      var key := orgKey(row.branchName.value);
      if key.None? || |row.code.value| < 3 then None else Some(Claim(key.value, row.code.value[..3]))
  }

  function Claims(orgKey: string -> Option<string>, rows: seq<SiteRow>): seq<Claim> {
    if rows == [] then []
    else
      var n := |rows| - 1;
      var last := ClaimOf(orgKey, rows[n]);
      Claims(orgKey, rows[..n]) + (if last.Some? then [last.value] else [])
  }

  /** `counts.set(prefix, (counts.get(prefix) ?? 0) + 1)` on an insertion-ordered map. */
  function Bump(ranks: seq<Rank>, prefix: string): seq<Rank> {
    if ranks == [] then [Rank(prefix, 1)]
    else if ranks[0].prefix == prefix then [Rank(prefix, ranks[0].count + 1)] + ranks[1..]
    else [ranks[0]] + Bump(ranks[1..], prefix)
  }

  function SiteOf(c: Claim): string {
    c.site
  }

  /** The tally of one site. */
  function RanksOf(claims: seq<Claim>, site: string): seq<Rank> {
    if claims == [] then []
    else
      var n := |claims| - 1;
      var rest := RanksOf(claims[..n], site);
      if claims[n].site == site then Bump(rest, claims[n].prefix) else rest
  }

  predicate MoreClaims(a: Rank, b: Rank) {
    a.count > b.count
  }

  /** The prefix that wins a site: the top of the ranking, unless the second is its equal. */
  function Winner(ranks: seq<Rank>): Option<string> {
    var ranked := Sort(ranks, MoreClaims);
    if ranked == [] || (|ranked| > 1 && ranked[1].count >= ranked[0].count) then None
    else Some(ranked[0].prefix)
  }

  function CodesOf(claims: seq<Claim>, sites: seq<string>): map<string, string> {
    if sites == [] then map[]
    else
      var n := |sites| - 1;
      var rest, winner := CodesOf(claims, sites[..n]), Winner(RanksOf(claims, sites[n]));
      if winner.Some? then rest[sites[n] := winner.value] else rest
  }

  function AmbiguousOf(claims: seq<Claim>, sites: seq<string>): seq<Ambiguity> {
    if sites == [] then []
    else
      var n := |sites| - 1;
      var ranks := RanksOf(claims, sites[n]);
      AmbiguousOf(claims, sites[..n])
      + (if ranks != [] && Winner(ranks).None? then [Ambiguity(sites[n], ranks)] else [])
  }

  /** How many rows of the site carry the prefix. */
  function Votes(claims: seq<Claim>, site: string, prefix: string): nat {
    multiset(claims)[Claim(site, prefix)]
  }

  // ---------------------------------------------------------------- the two loops

  method Tally(orgKey: string -> Option<string>, rows: seq<SiteRow>)
    returns (sites: seq<string>, tally: map<string, seq<Rank>>)
    ensures sites == KeysOf(Claims(orgKey, rows), SiteOf)
    ensures forall s :: s in sites ==> s in tally && tally[s] == RanksOf(Claims(orgKey, rows), s)
  {
    hide Claims, RanksOf, KeysOf, Bump, ClaimOf;
    NothingClaimed(orgKey);
    assert rows[..0] == [];
    sites, tally := [], map[];
    for i := 0 to |rows|
      invariant sites == KeysOf(Claims(orgKey, rows[..i]), SiteOf)
      invariant tally.Keys == set s | s in sites
      invariant forall s :: s in sites ==> tally[s] == RanksOf(Claims(orgKey, rows[..i]), s)
      invariant forall s :: s !in sites ==> RanksOf(Claims(orgKey, rows[..i]), s) == []
    {
      OneMoreRow(orgKey, rows, i);
      var claim := ClaimOf(orgKey, rows[i]);
      if claim.Some? {
        var key := claim.value.site;
        var counts := if key in tally then tally[key] else [];
        if key !in tally {
          sites := sites + [key];
        }
        tally := tally[key := Bump(counts, claim.value.prefix)];
      }
    }
    assert rows[..|rows|] == rows;
  }

  lemma {:induction false} NothingClaimed(orgKey: string -> Option<string>)
    ensures KeysOf(Claims(orgKey, []), SiteOf) == [] && forall s :: RanksOf(Claims(orgKey, []), s) == []
  {
  }

  lemma {:induction false} OneMoreRow(orgKey: string -> Option<string>, rows: seq<SiteRow>, i: nat)
    requires i < |rows|
    ensures var before, after, c := Claims(orgKey, rows[..i]), Claims(orgKey, rows[..i + 1]), ClaimOf(orgKey, rows[i]);
            match c
            case None => after == before
            case Some(claim) =>
              && KeysOf(after, SiteOf)
                 == KeysOf(before, SiteOf) + (if claim.site in KeysOf(before, SiteOf) then [] else [claim.site])
              && forall s :: RanksOf(after, s)
                             == if s == claim.site then Bump(RanksOf(before, s), claim.prefix) else RanksOf(before, s)
  {
    hide ClaimOf, Bump;
    var before, after, c := Claims(orgKey, rows[..i]), Claims(orgKey, rows[..i + 1]), ClaimOf(orgKey, rows[i]);
    assert rows[..i + 1][..i] == rows[..i];
    if c.Some? {
      assert after == before + [c.value];
      assert after[..|after| - 1] == before;
    }
  }

  /** `deriveBranchCodes` */
  method DeriveBranchCodes(orgKey: string -> Option<string>, rows: seq<SiteRow>)
    returns (codes: map<string, string>, ambiguous: seq<Ambiguity>)
    ensures codes == CodesOf(Claims(orgKey, rows), KeysOf(Claims(orgKey, rows), SiteOf))
    ensures ambiguous == AmbiguousOf(Claims(orgKey, rows), KeysOf(Claims(orgKey, rows), SiteOf))
  {
    hide RanksOf, KeysOf, Sort, Claims;
    var sites, tally := Tally(orgKey, rows);
    ghost var claims := Claims(orgKey, rows);
    codes, ambiguous := map[], [];
    for i := 0 to |sites|
      invariant codes == CodesOf(claims, sites[..i])
      invariant ambiguous == AmbiguousOf(claims, sites[..i])
    {
      assert sites[..i + 1][..i] == sites[..i];
      assert sites[i] in sites;
      var counts := tally[sites[i]];
      var ranked := Sort(counts, MoreClaims);
      if ranked != [] {
        if |ranked| > 1 && ranked[1].count >= ranked[0].count {
          ambiguous := ambiguous + [Ambiguity(sites[i], counts)];
        } else {
          codes := codes[sites[i] := ranked[0].prefix];
        }
      }
    }
    assert sites[..|sites|] == sites;
  }

  // ---------------------------------------------------------------- a strict majority of the votes

  /** The tally lists each prefix once, with its votes. */
  ghost predicate Tallied(ranks: seq<Rank>, claims: seq<Claim>, site: string) {
    && (forall i, j :: 0 <= i < j < |ranks| ==> ranks[i].prefix != ranks[j].prefix)
    && (forall i :: 0 <= i < |ranks| ==> ranks[i].count > 0)
    && (forall p :: Listed(ranks, p) == Votes(claims, site, p))
  }

  /** The count recorded for a prefix, none if it is not listed. */
  function Listed(ranks: seq<Rank>, prefix: string): nat {
    if ranks == [] then 0
    else if ranks[0].prefix == prefix then ranks[0].count
    else Listed(ranks[1..], prefix)
  }

  lemma {:induction false} BumpLists(ranks: seq<Rank>, prefix: string, p: string)
    requires forall i, j :: 0 <= i < j < |ranks| ==> ranks[i].prefix != ranks[j].prefix
    requires forall i :: 0 <= i < |ranks| ==> ranks[i].count > 0
    ensures Listed(Bump(ranks, prefix), p) == Listed(ranks, p) + if p == prefix then 1 else 0
    ensures forall i, j :: 0 <= i < j < |Bump(ranks, prefix)| ==>
              Bump(ranks, prefix)[i].prefix != Bump(ranks, prefix)[j].prefix
    ensures forall i :: 0 <= i < |Bump(ranks, prefix)| ==> Bump(ranks, prefix)[i].count > 0
    ensures forall i :: 0 <= i < |Bump(ranks, prefix)| ==>
      || Bump(ranks, prefix)[i].prefix == prefix
      || (exists j :: 0 <= j < |ranks| && ranks[j].prefix == Bump(ranks, prefix)[i].prefix)
  {
    if ranks != [] && ranks[0].prefix != prefix {
      BumpLists(ranks[1..], prefix, p);
    }
  }

  lemma {:induction false} RanksTallied(claims: seq<Claim>, site: string)
    ensures Tallied(RanksOf(claims, site), claims, site)
  {
    hide Bump, Listed;
    if claims == [] {
      EmptyLists();
    } else {
      var n := |claims| - 1;
      RanksTallied(claims[..n], site);
      assert claims == claims[..n] + [claims[n]];
      var rest := RanksOf(claims[..n], site);
      if claims[n].site == site {
        BumpLists(rest, claims[n].prefix, "");
        forall p ensures Listed(RanksOf(claims, site), p) == Votes(claims, site, p) {
          BumpLists(rest, claims[n].prefix, p);
        }
      }
    }
  }

  lemma {:induction false} EmptyLists()
    ensures forall p :: Listed([], p) == 0
  {
  }

  lemma {:induction false} ListedAt(ranks: seq<Rank>, p: string)
    requires forall i, j :: 0 <= i < j < |ranks| ==> ranks[i].prefix != ranks[j].prefix
    ensures forall i :: 0 <= i < |ranks| && ranks[i].prefix == p ==> Listed(ranks, p) == ranks[i].count
    ensures Listed(ranks, p) > 0 ==> exists i :: 0 <= i < |ranks| && ranks[i] == Rank(p, Listed(ranks, p))
  {
    if ranks != [] && ranks[0].prefix != p {
      ListedAt(ranks[1..], p);
    }
  }

  /** More rows of the site carry this prefix than any other. */
  ghost predicate Dominates(claims: seq<Claim>, site: string, p: string) {
    Votes(claims, site, p) > 0 && forall q :: q != p ==> Votes(claims, site, q) < Votes(claims, site, p)
  }

  lemma {:induction false} MoreClaimsIsWeak()
    ensures StrictWeakOrder(MoreClaims)
  {
  }

  lemma {:induction false} WinnerIff(claims: seq<Claim>, site: string, p: string)
    ensures Winner(RanksOf(claims, site)) == Some(p) <==> Dominates(claims, site, p)
  {
    hide RanksOf, Sort, Listed;
    var ranks := RanksOf(claims, site);
    var ranked := Sort(ranks, MoreClaims);
    RanksTallied(claims, site);
    MoreClaimsIsWeak();
    SortSorts(ranks, MoreClaims);
    SortPermutes(ranks, MoreClaims);
    if Winner(ranks) == Some(p) {
      WinnerDominates(claims, site, ranks, ranked, p);
    }
    if Dominates(claims, site, p) {
      DominantWins(claims, site, ranks, ranked, p);
    }
  }

  lemma {:induction false} WinnerDominates(
    claims: seq<Claim>, site: string, ranks: seq<Rank>, ranked: seq<Rank>, p: string)
    requires Tallied(ranks, claims, site) && SortedBy(ranked, MoreClaims) && (forall x :: x in ranked <==> x in ranks)
    requires ranked != [] && ranked[0].prefix == p && (|ranked| > 1 ==> ranked[1].count < ranked[0].count)
    ensures Dominates(claims, site, p)
  {
    hide Votes, Listed;
    assert ranked[0] in ranks;
    var k :| 0 <= k < |ranks| && ranks[k] == ranked[0];
    ListedAt(ranks, p);
    forall q | q != p ensures Votes(claims, site, q) < Votes(claims, site, p) {
      ListedAt(ranks, q);
      if Listed(ranks, q) > 0 {
        var r := Rank(q, Listed(ranks, q));
        assert r in ranked;
        var i :| 0 <= i < |ranked| && ranked[i] == r;
        assert i > 1 ==> !MoreClaims(ranked[i], ranked[1]);
      }
    }
  }

  lemma {:induction false} DominantWins(
    claims: seq<Claim>, site: string, ranks: seq<Rank>, ranked: seq<Rank>, p: string)
    requires Tallied(ranks, claims, site) && SortedBy(ranked, MoreClaims) && (forall x :: x in ranked <==> x in ranks)
    requires |ranked| == |ranks| && multiset(ranked) == multiset(ranks)
    requires Dominates(claims, site, p)
    ensures ranked != [] && ranked[0].prefix == p && (|ranked| > 1 ==> ranked[1].count < ranked[0].count)
  {
    hide Votes, Listed;
    ListedAt(ranks, p);
    var top := Rank(p, Listed(ranks, p));
    assert top in ranked;
    var i :| 0 <= i < |ranked| && ranked[i] == top;
    assert ranked[0] in ranks;
    var k :| 0 <= k < |ranks| && ranks[k] == ranked[0];
    ListedAt(ranks, ranked[0].prefix);
    assert i > 0 ==> !MoreClaims(ranked[i], ranked[0]);
    assert ranked[0].prefix == p;
    if |ranked| > 1 {
      RanksDistinct(ranks);
      PermutationKeepsDistinct(ranks, ranked);
      assert ranked[1] in ranks;
      var j :| 0 <= j < |ranks| && ranks[j] == ranked[1];
      ListedAt(ranks, ranked[1].prefix);
      assert ranked[1] != ranked[0];
      assert ranked[1].prefix != p;
    }
  }

  lemma {:induction false} RanksDistinct(ranks: seq<Rank>)
    requires forall i, j :: 0 <= i < j < |ranks| ==> ranks[i].prefix != ranks[j].prefix
    ensures Distinct(ranks)
  {
  }

  lemma {:induction false} CodesMember(claims: seq<Claim>, sites: seq<string>, site: string)
    requires Distinct(sites)
    ensures site in CodesOf(claims, sites) <==> site in sites && Winner(RanksOf(claims, site)).Some?
    ensures site in CodesOf(claims, sites) ==> Some(CodesOf(claims, sites)[site]) == Winner(RanksOf(claims, site))
  {
    hide Winner, RanksOf;
    if sites != [] {
      var n := |sites| - 1;
      CodesMember(claims, sites[..n], site);
      assert sites == sites[..n] + [sites[n]];
    }
  }

  lemma {:induction false} VotedSite(claims: seq<Claim>, site: string, p: string)
    requires Votes(claims, site, p) > 0
    ensures site in KeysOf(claims, SiteOf)
  {
    KeysOfMember(claims, SiteOf);
    assert Claim(site, p) in claims;
  }

  /** A site gets a code exactly when one prefix outnumbers every other there, and that is its code. */
  lemma {:induction false} CodeIffDominant(claims: seq<Claim>, site: string, p: string)
    ensures var codes := CodesOf(claims, KeysOf(claims, SiteOf));
            (site in codes && codes[site] == p) <==> Dominates(claims, site, p)
  {
    hide Winner, RanksOf, CodesOf, Votes;
    KeysOfMember(claims, SiteOf);
    CodesMember(claims, KeysOf(claims, SiteOf), site);
    WinnerIff(claims, site, p);
    if Dominates(claims, site, p) {
      VotedSite(claims, site, p);
    }
  }

  lemma {:induction false} AmbiguousMember(claims: seq<Claim>, sites: seq<string>, site: string)
    ensures (exists a :: a in AmbiguousOf(claims, sites) && a.site == site)
      <==> site in sites && RanksOf(claims, site) != [] && Winner(RanksOf(claims, site)).None?
  {
    hide Winner, RanksOf;
    if sites != [] {
      var n := |sites| - 1;
      AmbiguousMember(claims, sites[..n], site);
      assert sites == sites[..n] + [sites[n]];
      var ranks := RanksOf(claims, sites[n]);
      var rest := AmbiguousOf(claims, sites[..n]);
      if a :| a in rest && a.site == site {
        assert a in AmbiguousOf(claims, sites);
      }
      if ranks != [] && Winner(ranks).None? && sites[n] == site {
        assert Ambiguity(site, ranks) in AmbiguousOf(claims, sites);
      }
    }
  }

  /** Every site that is voted on has a code or is reported, never both and never neither. */
  lemma {:induction false} CodedOrReported(claims: seq<Claim>, site: string)
    requires site in KeysOf(claims, SiteOf)
    ensures site in CodesOf(claims, KeysOf(claims, SiteOf)) <==>
      !exists a :: a in AmbiguousOf(claims, KeysOf(claims, SiteOf)) && a.site == site
  {
    hide Winner, RanksOf, CodesOf, AmbiguousOf, KeysOf;
    KeysOfMember(claims, SiteOf);
    CodesMember(claims, KeysOf(claims, SiteOf), site);
    AmbiguousMember(claims, KeysOf(claims, SiteOf), site);
    SiteHasRanks(claims, site);
  }

  lemma {:induction false} SiteHasRanks(claims: seq<Claim>, site: string)
    requires site in KeysOf(claims, SiteOf)
    ensures RanksOf(claims, site) != []
  {
    KeysOfMember(claims, SiteOf);
    var c :| c in claims && SiteOf(c) == site;
    RanksTallied(claims, site);
    assert c == Claim(site, c.prefix);
    assert Votes(claims, site, c.prefix) > 0;
    assert Listed(RanksOf(claims, site), c.prefix) > 0;
  }

  /** The codes do not depend on the order of the rows. */
  lemma {:induction false} CodesIgnoreOrder(claims: seq<Claim>, again: seq<Claim>)
    requires multiset(claims) == multiset(again)
    ensures CodesOf(claims, KeysOf(claims, SiteOf)) == CodesOf(again, KeysOf(again, SiteOf))
  {
    hide CodesOf, KeysOf;
    var a, b := CodesOf(claims, KeysOf(claims, SiteOf)), CodesOf(again, KeysOf(again, SiteOf));
    forall site | site in a ensures site in b && a[site] == b[site] {
      CodeIffDominant(claims, site, a[site]);
      CodeIffDominant(again, site, a[site]);
      SameDominance(claims, again, site, a[site]);
    }
    forall site | site in b ensures site in a {
      CodeIffDominant(claims, site, b[site]);
      CodeIffDominant(again, site, b[site]);
      SameDominance(claims, again, site, b[site]);
    }
  }

  lemma {:induction false} SameDominance(claims: seq<Claim>, again: seq<Claim>, site: string, p: string)
    requires multiset(claims) == multiset(again)
    ensures Dominates(claims, site, p) <==> Dominates(again, site, p)
  {
    forall q ensures Votes(claims, site, q) == Votes(again, site, q) {
    }
  }
}
