/** The trigger engine: the league filter followed by three minute/score rules,
    tried in order, the first that holds producing the match's one signal. */
module Triggers {

  import opened Wrappers
  import opened Score
  import opened Leagues
  import opened Records

  datatype Rule = Trigger1 | Trigger2 | Trigger3

  /** What a signal message carries; the emoji and HTML layout of the text are
      not modelled. */
  datatype Signal = Signal(
    rule: Rule,
    fixture: int,
    home: string,
    away: string,
    score: string,
    league: string)

  /** The if/elif chain, comparing the formatted score text exactly as the
      scanner does. */
  function FireRule(minute: nat, score: string): Option<Rule> {
    if 27 <= minute <= 38 && score == "0:0" then Some(Trigger1)
    else if minute >= 72 && (score == "1:0" || score == "0:1") then Some(Trigger2)
    else if minute >= 65 && score == "1:1" then Some(Trigger3)
    else None
  }

  /** Rule 1, early goal: minutes 27 to 38 at 0-0. */
  ghost predicate EarlyGoalless(minute: nat, home: nat, away: nat) {
    27 <= minute <= 38 && home == 0 && away == 0
  }

  /** Rule 2, late single-goal lead: minute 72 or later at 1-0 or 0-1. */
  ghost predicate LateSingleGoal(minute: nat, home: nat, away: nat) {
    minute >= 72 && ((home == 1 && away == 0) || (home == 0 && away == 1))
  }

  /** Rule 3, late draw: minute 65 or later at 1-1. */
  ghost predicate LateOneAll(minute: nat, home: nat, away: nat) {
    minute >= 65 && home == 1 && away == 1
  }

  /** The signal for one extracted match, or None: the league filter first,
      then the rule chain on the formatted score. */
  function Evaluate(ev: Event): (r: Option<Signal>)
    ensures r.Some? ==>
      && r.value.fixture == ev.fixture
      && r.value.home == ev.home && r.value.away == ev.away
      && r.value.league == ev.league
  {
    if !IsTopLeague(ev.league) then None
    else
      var score := ScoreText(ev.homeGoals, ev.awayGoals);
      match FireRule(ev.minute, score)
      case None => None
      case Some(rule) => Some(Signal(rule, ev.fixture, ev.home, ev.away, score, ev.league))
  }

  /** What the trigger engine decides, in terms of goal counts rather than
      score text: nothing outside the allow-list, and otherwise the first of
      the three rules that holds. */
  lemma EvaluateFollowsRules(ev: Event)
    ensures !InAllowList(ev.league) ==> Evaluate(ev).None?
    ensures Evaluate(ev).Some? ==> Evaluate(ev).value.score == ScoreText(ev.homeGoals, ev.awayGoals)
    ensures (Evaluate(ev).Some? && Evaluate(ev).value.rule == Trigger1) <==>
      InAllowList(ev.league) && EarlyGoalless(ev.minute, ev.homeGoals, ev.awayGoals)
    ensures (Evaluate(ev).Some? && Evaluate(ev).value.rule == Trigger2) <==>
      && InAllowList(ev.league)
      && !EarlyGoalless(ev.minute, ev.homeGoals, ev.awayGoals)
      && LateSingleGoal(ev.minute, ev.homeGoals, ev.awayGoals)
    ensures (Evaluate(ev).Some? && Evaluate(ev).value.rule == Trigger3) <==>
      && InAllowList(ev.league)
      && !EarlyGoalless(ev.minute, ev.homeGoals, ev.awayGoals)
      && !LateSingleGoal(ev.minute, ev.homeGoals, ev.awayGoals)
      && LateOneAll(ev.minute, ev.homeGoals, ev.awayGoals)
  {
    TopLeagueIsAllowListed(ev.league);
    ScoreLiterals();
    ScoreTextInjective(ev.homeGoals, ev.awayGoals, 0, 0);
    ScoreTextInjective(ev.homeGoals, ev.awayGoals, 1, 0);
    ScoreTextInjective(ev.homeGoals, ev.awayGoals, 0, 1);
    ScoreTextInjective(ev.homeGoals, ev.awayGoals, 1, 1);
  }
}
