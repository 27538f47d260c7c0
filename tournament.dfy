/** The tournament-state snapshot the widget observes, and the JavaScript truthiness
    tests the generator applies to it. A `State` is the projection of the published
    object onto `winner`, `players`, `rounds` and each match's `winner`. The generator
    reads only the length of `players`; the players' names are kept so that a change
    to them still counts as a change. The poller fingerprints the whole object; the
    model compares these projections instead. */
module Tournament {
  import opened Wrappers

  datatype Player = Player(name: string)

  /** A bracket entry: a match object whose `winner` may be absent, or a `null`
      entry on which reading `.winner` throws. */
  datatype Match = Match(winner: Option<string>) | NullMatch

  /** A round: an array of matches, or a `null` entry on which `.some` throws. */
  datatype Round = Round(matches: seq<Match>) | NullRound

  datatype State = State(winner: Option<string>, players: Option<seq<Player>>, rounds: Option<seq<Round>>)

  /** A name is truthy when it is present and not the empty string. */
  predicate Present(name: Option<string>) {
    name.Some? && name.value != ""
  }

  /** A match is decided when it has a truthy winner. */
  predicate Decided(m: Match) {
    m.Match? && Present(m.winner)
  }

  predicate AllDecided(ms: seq<Match>) {
    forall m :: m in ms ==> Decided(m)
  }

  /** A round every match of which is decided (an empty round is closed). */
  predicate Closed(r: Round) {
    r.Round? && AllDecided(r.matches)
  }

  /** A round holding at least one undecided match. */
  predicate Open(r: Round) {
    r.Round? && !AllDecided(r.matches)
  }

  /** Every round is an array and every match an object. */
  predicate WellFormed(rs: seq<Round>) {
    forall r :: r in rs ==> r.Round? && NullMatch !in r.matches
  }

  /** No match in any round has a truthy winner. */
  predicate NoneDecided(rs: seq<Round>) {
    forall r, m :: r in rs && r.Round? && m in r.matches ==> !Decided(m)
  }

  /** `some(match => !match.winner)` reaches a null entry: every match before it is decided. */
  predicate NullBeforeUndecided(ms: seq<Match>) {
    exists j :: 0 <= j < |ms| && ms[j] == NullMatch && forall i :: 0 <= i < j ==> Decided(ms[i])
  }

  /** `findIndex` reaches, past only closed rounds, a round on which `some` throws:
      a null round, or one whose null entry comes before any undecided match. */
  predicate BrokenBeforeOpen(rs: seq<Round>) {
    exists j :: 0 <= j < |rs| && (forall i :: 0 <= i < j ==> Closed(rs[i])) &&
      (rs[j].NullRound? || (rs[j].Round? && NullBeforeUndecided(rs[j].matches)))
  }
}
