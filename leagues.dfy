/** The top-league allow-list: a league is eligible when one of eight
    competition names occurs in its name, as Python's case-sensitive
    `name in league` substring test decides. */
module Leagues {

  const TopLeagues: seq<string> :=
    ["Premier League", "La Liga", "Bundesliga", "Serie A",
     "Ligue 1", "Champions League", "Europa League", "Europa Conference League"]

  /** needle occurs in hay starting at index i. */
  predicate OccursAt(needle: string, hay: string, i: nat) {
    i + |needle| <= |hay| && hay[i..i + |needle|] == needle
  }

  ghost predicate IsSubstring(needle: string, hay: string) {
    exists i: nat :: OccursAt(needle, hay, i)
  }

  /** Searches hay for needle from index i onwards. */
  function ContainsFrom(hay: string, needle: string, i: nat): (b: bool)
    ensures b <==> exists j: nat :: i <= j && OccursAt(needle, hay, j)
    decreases |hay| + 1 - i
  {
    if |hay| < i + |needle| then false
    else if hay[i..i + |needle|] == needle then assert OccursAt(needle, hay, i); true
    else ContainsFrom(hay, needle, i + 1)
  }

  /** Python's `needle in hay` on strings. */
  function Contains(hay: string, needle: string): (b: bool)
    ensures b <==> IsSubstring(needle, hay)
  {
    ContainsFrom(hay, needle, 0)
  }

  /** `any(name in league for name in names)`. */
  function AnyContained(names: seq<string>, league: string): (b: bool)
    ensures b <==> exists k :: 0 <= k < |names| && IsSubstring(names[k], league)
  {
    if names == [] then false
    else Contains(league, names[0]) || AnyContained(names[1..], league)
  }

  /** The scanner's league filter. */
  predicate IsTopLeague(league: string) {
    AnyContained(TopLeagues, league)
  }

  /** The allow-list, stated without the search: some listed name occurs in
      the league name. */
  ghost predicate InAllowList(league: string) {
    exists name :: name in TopLeagues && IsSubstring(name, league)
  }

  lemma TopLeagueIsAllowListed(league: string)
    ensures IsTopLeague(league) <==> InAllowList(league)
  {
    if InAllowList(league) {
      var name :| name in TopLeagues && IsSubstring(name, league);
      var k :| 0 <= k < |TopLeagues| && TopLeagues[k] == name;
    }
  }

  /** Matching is by substring: a league name that embeds an eligible one (a
      prefix, a suffix, a sponsor's name around it) is eligible too. */
  lemma {:induction false} AllowListClosedUnderEmbedding(league: string, before: string, after: string)
    requires IsTopLeague(league)
    ensures IsTopLeague(before + league + after)
  {
    var wide := before + league + after;
    var k :| 0 <= k < |TopLeagues| && IsSubstring(TopLeagues[k], league);
    var name := TopLeagues[k];
    var i: nat :| OccursAt(name, league, i);
    assert wide[|before| + i..|before| + i + |name|] == league[i..i + |name|];
    assert OccursAt(name, wide, |before| + i);
  }
}
