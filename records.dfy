/** A live-fixture record as the feed delivers it, and the fields the scanner
    reads out of it. Each nested key may be absent (reading it raises, and the
    scanner skips the match), present but null, or present with a value. */
module Records {

  import opened Wrappers

  datatype Field<T> = Missing | Null | Value(v: T)

  /** The keys the scanner reads: fixture.id, teams.home.name,
      teams.away.name, goals.home, goals.away, fixture.status.elapsed and
      league.name. A missing fixture id is None. */
  datatype RawRecord = RawRecord(
    fixtureId: Option<int>,
    homeName: Field<string>,
    awayName: Field<string>,
    homeGoals: Field<nat>,
    awayGoals: Field<nat>,
    elapsed: Field<nat>,
    league: Field<string>)

  /** A record once every field the rules need has been read. */
  datatype Event = Event(
    fixture: int,
    home: string,
    away: string,
    homeGoals: nat,
    awayGoals: nat,
    minute: nat,
    league: string)

  /** Python's `x or 0` on a goal count or an elapsed minute. */
  function OrZero(f: Field<nat>): (n: nat)
    requires !f.Missing?
    ensures f.Null? ==> n == 0
    ensures f.Value? ==> n == f.v
  {
    match f
    case Null => 0
    case Value(v) => v
  }

  /** A team name as an f-string prints it: a null name prints as "None". */
  function NameText(f: Field<string>): (s: string)
    requires !f.Missing?
    ensures f.Value? ==> s == f.v
    ensures f.Null? ==> s == "None"
  {
    match f
    case Null => "None"
    case Value(v) => v
  }

  /** The fields of one record, or None when reading one of them would raise:
      a missing key anywhere, or a null league name (the substring test on it
      raises). */
  function Extract(raw: RawRecord): (r: Option<Event>)
    ensures r.Some? <==>
      && raw.fixtureId.Some?
      && !raw.homeName.Missing? && !raw.awayName.Missing?
      && !raw.homeGoals.Missing? && !raw.awayGoals.Missing?
      && !raw.elapsed.Missing?
      && raw.league.Value?
    ensures r.Some? ==>
      && r.value.fixture == raw.fixtureId.value
      && r.value.league == raw.league.v
      && (raw.homeName.Value? ==> r.value.home == raw.homeName.v)
      && (raw.homeName.Null? ==> r.value.home == "None")
      && (raw.awayName.Value? ==> r.value.away == raw.awayName.v)
      && (raw.awayName.Null? ==> r.value.away == "None")
      && (raw.homeGoals.Null? ==> r.value.homeGoals == 0)
      && (raw.awayGoals.Null? ==> r.value.awayGoals == 0)
      && (raw.elapsed.Null? ==> r.value.minute == 0)
      && (raw.homeGoals.Value? ==> r.value.homeGoals == raw.homeGoals.v)
      && (raw.awayGoals.Value? ==> r.value.awayGoals == raw.awayGoals.v)
      && (raw.elapsed.Value? ==> r.value.minute == raw.elapsed.v)
  {
    if raw.fixtureId.None? || raw.homeName.Missing? || raw.awayName.Missing?
       || raw.homeGoals.Missing? || raw.awayGoals.Missing? || raw.elapsed.Missing?
       || !raw.league.Value?
    then None
    else Some(Event(raw.fixtureId.value, NameText(raw.homeName), NameText(raw.awayName),
                    OrZero(raw.homeGoals), OrZero(raw.awayGoals), OrZero(raw.elapsed),
                    raw.league.v))
  }
}
