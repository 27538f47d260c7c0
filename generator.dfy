/** `generateCommentary`: a first-match-wins mapping from a tournament snapshot to one
    line of commentary. The JavaScript array methods it uses are modelled one by one
    with an `Outcome` that records a thrown TypeError; `Generate` is the `try/catch`. */
module Generator {
  import opened Wrappers
  import opened Messages
  import opened Tournament

  /** The result of evaluating an expression that may throw. */
  datatype Outcome<+T> = Value(v: T) | Thrown

  /** What the generator returns: a line of text, or `undefined` when the fallback
      pool is empty. */
  datatype Commentary = Text(text: string) | Undefined

  /** `pick` is `Math.floor(Math.random() * pool.length)` for a draw in [0, 1). */
  predicate ValidPick(pool: seq<string>, pick: nat) {
    pick < |pool| || (|pool| == 0 && pick == 0)
  }

  /** `round.some(match => !match.winner)`, left to right, stopping at the first hit. */
  function SomeUndecided(ms: seq<Match>): (r: Outcome<bool>)
    ensures r.Value? ==> (r.v <==> !AllDecided(ms))
    ensures NullMatch !in ms ==> r.Value?
  {
    if |ms| == 0 then Value(false)
    else match ms[0]
      case NullMatch => Thrown
      case Match(w) =>
        if !Present(w) then assert ms[0] in ms; Value(true)
        else
          assert ms == [ms[0]] + ms[1..];
          SomeUndecided(ms[1..])
  }

  /** `rounds.findIndex(round => round.some(...))`: the index of the first open round, or -1. */
  function FindOpenRound(rs: seq<Round>): (r: Outcome<int>)
    ensures r.Value? ==> -1 <= r.v < |rs|
    ensures r.Value? && r.v >= 0 ==> Open(rs[r.v]) && forall i :: 0 <= i < r.v ==> Closed(rs[i])
    ensures r == Value(-1) ==> forall i :: 0 <= i < |rs| ==> Closed(rs[i])
    ensures WellFormed(rs) ==> r.Value?
  {
    if |rs| == 0 then Value(-1)
    else
      assert rs[0] in rs;
      match rs[0]
      case NullRound => Thrown
      case Round(ms) =>
        match SomeUndecided(ms)
        case Thrown => Thrown
        case Value(open) =>
          if open then Value(0)
          else
            assert forall r :: r in rs[1..] ==> r in rs;
            match FindOpenRound(rs[1..])
            case Thrown => Thrown
            case Value(k) => Value(if k == -1 then -1 else k + 1)
  }

  /** `findIndex(...) + 1 || rounds.length`: the 1-based number of the first open round,
      or the number of rounds when every round is closed. */
  function CurrentRound(rs: seq<Round>): (r: Outcome<nat>)
    requires |rs| > 0
    ensures r.Value? ==> 1 <= r.v <= |rs|
    ensures r.Value? ==>
      (Open(rs[r.v - 1]) && forall i :: 0 <= i < r.v - 1 ==> Closed(rs[i])) ||
      (r.v == |rs| && forall i :: 0 <= i < |rs| ==> Closed(rs[i]))
    ensures WellFormed(rs) ==> r.Value?
  {
    match FindOpenRound(rs)
    case Thrown => Thrown
    case Value(k) => Value(if k + 1 != 0 then k + 1 else |rs|)
  }

  /** `rounds.flat()`: every round's matches in order; a null round stays one null entry. */
  function Flatten(rs: seq<Round>): (ms: seq<Match>)
    ensures WellFormed(rs) <==> NullMatch !in ms
    ensures forall r, m :: r in rs && r.Round? && m in r.matches ==> m in ms
  {
    if |rs| == 0 then []
    else
      assert forall r :: r in rs ==> r == rs[0] || r in rs[1..];
      (match rs[0] case NullRound => [NullMatch] case Round(ms) => ms) + Flatten(rs[1..])
  }

  /** Array `reverse()` applied to the fresh array `flat()` returned. */
  function Reverse(s: seq<Match>): (r: seq<Match>)
    ensures |r| == |s|
    ensures forall i :: 0 <= i < |s| ==> r[i] == s[|s| - 1 - i]
    ensures forall x :: x in r <==> x in s
  {
    if |s| == 0 then [] else Reverse(s[1..]) + [s[0]]
  }

  /** `find(match => match.winner)`: the first decided match, or `undefined`. */
  function FindDecided(ms: seq<Match>): (r: Outcome<Option<Match>>)
    ensures r.Value? && r.v.Some? ==> Decided(r.v.value)
    ensures NullMatch !in ms ==> r.Value?
  {
    if |ms| == 0 then Value(None)
    else match ms[0]
      case NullMatch => Thrown
      case Match(w) =>
        if Present(w) then Value(Some(ms[0]))
        else
          assert forall m :: m in ms[1..] ==> m in ms;
          FindDecided(ms[1..])
  }

  /** The branch taken when `rounds` is a non-empty array. */
  function RoundsCommentary(rs: seq<Round>): (r: Outcome<Commentary>)
    requires |rs| > 0
    ensures r.Value? ==> r.v.Text?
    ensures WellFormed(rs) ==> r.Value?
    ensures BrokenBeforeOpen(rs) ==> r.Thrown?
  {
    FindOpenRoundThrows(rs);
    match CurrentRound(rs)
    case Thrown => Thrown
    case Value(n) =>
      match FindDecided(Reverse(Flatten(rs)))
      case Thrown => Thrown
      case Value(Some(m)) => Value(Text(AdvancesText(m.winner.value)))
      case Value(None) => Value(Text(UnderwayText(n)))
  }

  /** The body of the `try` block, rule by rule. */
  function Evaluate(state: Option<State>, pool: seq<string>, pick: nat): (r: Outcome<Commentary>)
    requires ValidPick(pool, pick)
    ensures r.Thrown? ==>
      state.Some? && !Present(state.value.winner) &&
      state.value.rounds.Some? && |state.value.rounds.value| > 0
    ensures r.Value? && r.v.Undefined? ==> |pool| == 0 && pick == 0
  {
    if state.None? then Value(Text(WaitingText))
    else if Present(state.value.winner) then Value(Text(VictoryText(state.value.winner.value)))
    else if state.value.rounds.Some? && |state.value.rounds.value| > 0 then
      RoundsCommentary(state.value.rounds.value)
    else if state.value.players.Some? && |state.value.players.value| > 0 then
      Value(Text(CompetitorsText(|state.value.players.value|)))
    else if pick < |pool| then Value(Text(pool[pick]))
    else Value(Undefined)
  }

  /** `generateCommentary`: anything thrown inside is caught and replaced by a fixed line. */
  function Generate(state: Option<State>, pool: seq<string>, pick: nat): (r: Commentary)
    requires ValidPick(pool, pick)
    ensures state.None? ==> r == Text(WaitingText)
    ensures r.Undefined? ==> |pool| == 0
  {
    match Evaluate(state, pool, pick)
    case Value(c) => c
    case Thrown => Text(FailSoftText)
  }

  // ---------------------------------------------------------------------------
  // What `find` returns: the three lemmas below cover every input.

  /** `find` returns the first decided match when everything before it is an undecided match. */
  lemma {:induction false} FindDecidedFirst(ms: seq<Match>, k: nat)
    requires k < |ms| && Decided(ms[k])
    requires forall i :: 0 <= i < k ==> ms[i].Match? && !Decided(ms[i])
    ensures FindDecided(ms) == Value(Some(ms[k]))
  {
    if k > 0 {
      FindDecidedFirst(ms[1..], k - 1);
    }
  }

  /** `find` returns `undefined` when every entry is an undecided match. */
  lemma {:induction false} FindDecidedNone(ms: seq<Match>)
    requires forall i :: 0 <= i < |ms| ==> ms[i].Match? && !Decided(ms[i])
    ensures FindDecided(ms) == Value(None)
  {
    if |ms| > 0 {
      FindDecidedNone(ms[1..]);
    }
  }

  /** `find` throws when it reaches a null entry before any decided match. */
  lemma {:induction false} FindDecidedThrows(ms: seq<Match>, k: nat)
    requires k < |ms| && ms[k] == NullMatch
    requires forall i :: 0 <= i < k ==> ms[i].Match? && !Decided(ms[i])
    ensures FindDecided(ms) == Thrown
  {
    if k > 0 {
      FindDecidedThrows(ms[1..], k - 1);
    }
  }

  /** `flat()` of a single round is its matches; of a single null round, one null entry. */
  lemma FlattenSingle(ms: seq<Match>)
    ensures Flatten([Round(ms)]) == ms
    ensures Flatten([NullRound]) == [NullMatch]
  {
    assert [Round(ms)][1..] == [];
    assert [NullRound][1..] == [];
  }

  /** `flat()` distributes over concatenation: it keeps the rounds' order and every
      match of each round, in order. */
  lemma {:induction false} FlattenAppend(a: seq<Round>, b: seq<Round>)
    ensures Flatten(a + b) == Flatten(a) + Flatten(b)
  {
    if a == [] {
      assert a + b == b;
    } else {
      assert (a + b)[0] == a[0];
      assert (a + b)[1..] == a[1..] + b;
      FlattenAppend(a[1..], b);
    }
  }

  /** Every non-null entry of the flattened rounds comes from some round. */
  lemma {:induction false} FlattenMember(rs: seq<Round>, m: Match)
    requires m in Flatten(rs) && m != NullMatch
    ensures exists r :: r in rs && r.Round? && m in r.matches
  {
    if |rs| > 0 {
      var head := match rs[0] case NullRound => [NullMatch] case Round(ms) => ms;
      assert Flatten(rs) == head + Flatten(rs[1..]);
      if m in head {
        assert rs[0] in rs;
      } else {
        FlattenMember(rs[1..], m);
        var r :| r in rs[1..] && r.Round? && m in r.matches;
        assert r in rs;
      }
    }
  }

  /** `some` throws exactly when it meets a null entry before any undecided match. */
  lemma {:induction false} SomeUndecidedThrows(ms: seq<Match>)
    ensures SomeUndecided(ms).Thrown? <==> NullBeforeUndecided(ms)
  {
    if |ms| == 0 {
    } else if ms[0] == NullMatch {
    } else if !Present(ms[0].winner) {
      forall j | 0 <= j < |ms| && ms[j] == NullMatch
        ensures !(forall i :: 0 <= i < j ==> Decided(ms[i]))
      {
        assert 0 < j && !Decided(ms[0]);
      }
    } else {
      var tail := ms[1..];
      SomeUndecidedThrows(tail);
      forall j | 0 <= j < |tail| && tail[j] == NullMatch && (forall i :: 0 <= i < j ==> Decided(tail[i]))
        ensures NullBeforeUndecided(ms)
      {
        assert ms[j + 1] == NullMatch && forall i :: 0 <= i < j + 1 ==> Decided(ms[i]);
      }
      forall j | 0 <= j < |ms| && ms[j] == NullMatch && (forall i :: 0 <= i < j ==> Decided(ms[i]))
        ensures NullBeforeUndecided(tail)
      {
        assert tail[j - 1] == NullMatch && forall i :: 0 <= i < j - 1 ==> Decided(tail[i]);
      }
    }
  }

  /** `findIndex` throws exactly when it reaches, past only closed rounds, a round on
      which `some` throws. */
  lemma {:induction false} FindOpenRoundThrows(rs: seq<Round>)
    ensures FindOpenRound(rs).Thrown? <==> BrokenBeforeOpen(rs)
  {
    if |rs| == 0 {
    } else if rs[0].NullRound? {
    } else {
      var ms := rs[0].matches;
      SomeUndecidedThrows(ms);
      if SomeUndecided(ms).Thrown? {
        assert rs[0].Round? && NullBeforeUndecided(rs[0].matches);
      } else if SomeUndecided(ms).v {
        forall j | 0 <= j < |rs| && (rs[j].NullRound? || (rs[j].Round? && NullBeforeUndecided(rs[j].matches)))
          ensures !(forall i :: 0 <= i < j ==> Closed(rs[i]))
        {
          assert 0 < j && !Closed(rs[0]);
        }
      } else {
        assert Closed(rs[0]);
        var tail := rs[1..];
        FindOpenRoundThrows(tail);
        forall j | 0 <= j < |tail| && (forall i :: 0 <= i < j ==> Closed(tail[i])) &&
          (tail[j].NullRound? || (tail[j].Round? && NullBeforeUndecided(tail[j].matches)))
          ensures BrokenBeforeOpen(rs)
        {
          assert rs[j + 1] == tail[j];
          assert forall i :: 0 <= i < j + 1 ==> Closed(rs[i]);
        }
        forall j | 0 <= j < |rs| && (forall i :: 0 <= i < j ==> Closed(rs[i])) &&
          (rs[j].NullRound? || (rs[j].Round? && NullBeforeUndecided(rs[j].matches)))
          ensures BrokenBeforeOpen(tail)
        {
          assert 0 < j;
          assert tail[j - 1] == rs[j];
          assert forall i :: 0 <= i < j - 1 ==> Closed(tail[i]);
        }
      }
    }
  }

  // ---------------------------------------------------------------------------
  // The decision rules of `generateCommentary`.

  /** A truthy overall winner is announced, whatever the rounds and players say. */
  lemma WinnerWins(s: State, pool: seq<string>, pick: nat)
    requires ValidPick(pool, pick)
    requires Present(s.winner)
    ensures Generate(Some(s), pool, pick) == Text(VictoryText(s.winner.value))
  {
  }

  /** With no overall winner and non-empty rounds on which `findIndex` does not throw,
      the winner of the last decided match in flattened order (last round first, last
      match first) advances, provided only undecided matches (no null) follow it. */
  lemma AdvancesNamesLastDecided(s: State, pool: seq<string>, pick: nat, k: nat)
    requires ValidPick(pool, pick)
    requires !Present(s.winner) && s.rounds.Some? && |s.rounds.value| > 0
    requires !BrokenBeforeOpen(s.rounds.value)
    requires k < |Flatten(s.rounds.value)| && Decided(Flatten(s.rounds.value)[k])
    requires forall i :: k < i < |Flatten(s.rounds.value)| ==>
      Flatten(s.rounds.value)[i].Match? && !Decided(Flatten(s.rounds.value)[i])
    ensures Generate(Some(s), pool, pick) == Text(AdvancesText(Flatten(s.rounds.value)[k].winner.value))
  {
    FindOpenRoundThrows(s.rounds.value);
    var ms := Flatten(s.rounds.value);
    FindDecidedFirst(Reverse(ms), |ms| - 1 - k);
  }

  /** On well-formed rounds, the last decided match in flattened order advances. */
  lemma WellFormedAdvancesNamesLastDecided(s: State, pool: seq<string>, pick: nat, k: nat)
    requires ValidPick(pool, pick)
    requires !Present(s.winner) && s.rounds.Some? && |s.rounds.value| > 0 && WellFormed(s.rounds.value)
    requires k < |Flatten(s.rounds.value)| && Decided(Flatten(s.rounds.value)[k])
    requires forall i :: k < i < |Flatten(s.rounds.value)| ==> !Decided(Flatten(s.rounds.value)[i])
    ensures Generate(Some(s), pool, pick) == Text(AdvancesText(Flatten(s.rounds.value)[k].winner.value))
  {
    var ms := Flatten(s.rounds.value);
    forall i | k < i < |ms|
      ensures ms[i].Match?
    {
      assert ms[i] in ms;
    }
    FindOpenRoundThrows(s.rounds.value);
    AdvancesNamesLastDecided(s, pool, pick, k);
  }

  /** With no match decided anywhere, the first non-empty round is announced as underway. */
  lemma UnderwayAtFirstNonEmptyRound(s: State, pool: seq<string>, pick: nat, i: nat)
    requires ValidPick(pool, pick)
    requires !Present(s.winner) && s.rounds.Some? && WellFormed(s.rounds.value)
    requires NoneDecided(s.rounds.value)
    requires i < |s.rounds.value| && s.rounds.value[i].matches != []
    requires forall j :: 0 <= j < i ==> s.rounds.value[j].matches == []
    ensures Generate(Some(s), pool, pick) == Text(UnderwayText(i + 1))
  {
    var rs := s.rounds.value;
    NothingDecidedFindsNone(rs);
    var n := CurrentRound(rs).v;
    assert rs[i] in rs && rs[i].matches[0] in rs[i].matches;
    assert !Closed(rs[i]);
  }

  /** With every round empty, the last round is announced as underway. */
  lemma UnderwayAtLastRoundWhenAllEmpty(s: State, pool: seq<string>, pick: nat)
    requires ValidPick(pool, pick)
    requires !Present(s.winner) && s.rounds.Some? && |s.rounds.value| > 0
    requires forall r :: r in s.rounds.value ==> r == Round([])
    ensures Generate(Some(s), pool, pick) == Text(UnderwayText(|s.rounds.value|))
  {
    var rs := s.rounds.value;
    NothingDecidedFindsNone(rs);
    var n := CurrentRound(rs).v;
    assert rs[n - 1] in rs;
  }

  /** With no match decided, scanning the flattened rounds from the end finds nothing. */
  lemma NothingDecidedFindsNone(rs: seq<Round>)
    requires WellFormed(rs) && NoneDecided(rs)
    ensures FindDecided(Reverse(Flatten(rs))) == Value(None)
  {
    var rev := Reverse(Flatten(rs));
    forall i | 0 <= i < |rev|
      ensures rev[i].Match? && !Decided(rev[i])
    {
      assert rev[i] in rev;
      if rev[i] != NullMatch {
        FlattenMember(rs, rev[i]);
      }
    }
    FindDecidedNone(rev);
  }

  /** Without rounds to report on, a non-empty players list gives the competitor count. */
  lemma PlayersAreCounted(s: State, pool: seq<string>, pick: nat)
    requires ValidPick(pool, pick)
    requires !Present(s.winner) && (s.rounds.None? || s.rounds.value == [])
    requires s.players.Some? && |s.players.value| > 0
    ensures Generate(Some(s), pool, pick) == Text(CompetitorsText(|s.players.value|))
  {
  }

  /** Otherwise the drawn element of the fallback pool is returned, or `undefined` for an empty pool. */
  lemma FallbackFromPool(s: State, pool: seq<string>, pick: nat)
    requires ValidPick(pool, pick)
    requires !Present(s.winner) && (s.rounds.None? || s.rounds.value == [])
    requires s.players.None? || s.players.value == []
    ensures |pool| > 0 ==> Generate(Some(s), pool, pick) == Text(pool[pick])
    ensures |pool| == 0 ==> Generate(Some(s), pool, pick) == Undefined
  {
  }

  // ---------------------------------------------------------------------------
  // Fail-soft behaviour on malformed shapes.

  /** Well-formed rounds never make the generator throw. */
  lemma WellFormedNeverThrows(state: Option<State>, pool: seq<string>, pick: nat)
    requires ValidPick(pool, pick)
    requires state.Some? && state.value.rounds.Some? ==> WellFormed(state.value.rounds.value)
    ensures Evaluate(state, pool, pick).Value?
  {
  }

  /** A thrown error never escapes: it becomes the fixed fail-soft line. */
  lemma ThrowBecomesFailSoft(state: Option<State>, pool: seq<string>, pick: nat)
    requires ValidPick(pool, pick)
    requires Evaluate(state, pool, pick).Thrown?
    ensures Generate(state, pool, pick) == Text(FailSoftText)
  {
  }

  /** A null entry that the scan from the end reaches before any decided match makes
      the generator fall back to the fail-soft line. */
  lemma NullAfterLastDecidedFailsSoft(s: State, pool: seq<string>, pick: nat, k: nat)
    requires ValidPick(pool, pick)
    requires !Present(s.winner) && s.rounds.Some? && |s.rounds.value| > 0
    requires k < |Flatten(s.rounds.value)| && Flatten(s.rounds.value)[k] == NullMatch
    requires forall i :: k < i < |Flatten(s.rounds.value)| ==>
      Flatten(s.rounds.value)[i].Match? && !Decided(Flatten(s.rounds.value)[i])
    ensures Generate(Some(s), pool, pick) == Text(FailSoftText)
  {
    var ms := Flatten(s.rounds.value);
    FindDecidedThrows(Reverse(ms), |ms| - 1 - k);
  }

  /** A null that `findIndex` reaches before the first open round makes the generator
      fall back to the fail-soft line, whatever the scan from the end would find. */
  lemma BrokenBeforeOpenFailsSoft(s: State, pool: seq<string>, pick: nat)
    requires ValidPick(pool, pick)
    requires !Present(s.winner) && s.rounds.Some? && |s.rounds.value| > 0
    requires BrokenBeforeOpen(s.rounds.value)
    ensures Generate(Some(s), pool, pick) == Text(FailSoftText)
  {
  }

  // ---------------------------------------------------------------------------
  // Worked examples.

  /** Round one decided, round two open: the scan from the end reaches round one's
      winner, so "A" advances; "Round 2 is underway!" is not produced. */
  lemma DecidedThenOpenRoundAdvances(pool: seq<string>, pick: nat)
    requires ValidPick(pool, pick)
    ensures Generate(Some(State(None, None, Some([Round([Match(Some("A"))]), Round([Match(None)])]))), pool, pick)
      == Text(AdvancesText("A"))
  {
    var rs := [Round([Match(Some("A"))]), Round([Match(None)])];
    assert Flatten(rs[1..]) == [Match(None)] + Flatten(rs[2..]);
    assert Flatten(rs) == [Match(Some("A"))] + Flatten(rs[1..]);
    WellFormedAdvancesNamesLastDecided(State(None, None, Some(rs)), pool, pick, 0);
  }

  /** Both rounds decided: the later winner advances. */
  lemma LaterWinnerAdvances(pool: seq<string>, pick: nat)
    requires ValidPick(pool, pick)
    ensures Generate(Some(State(None, None, Some([Round([Match(Some("A"))]), Round([Match(Some("B"))])]))), pool, pick)
      == Text(AdvancesText("B"))
  {
    var rs := [Round([Match(Some("A"))]), Round([Match(Some("B"))])];
    assert Flatten(rs[1..]) == [Match(Some("B"))] + Flatten(rs[2..]);
    assert Flatten(rs) == [Match(Some("A"))] + Flatten(rs[1..]);
    WellFormedAdvancesNamesLastDecided(State(None, None, Some(rs)), pool, pick, 1);
  }

  /** Eight players and nothing else: the count is spelled "8". */
  lemma EightPlayersCounted(pool: seq<string>, pick: nat, p: Player)
    requires ValidPick(pool, pick)
    ensures Generate(Some(State(None, Some([p, p, p, p, p, p, p, p]), None)), pool, pick)
      == Text("The tournament is about to begin with 8 competitors!")
  {
  }

  /** An empty-string winner is falsy: the players are counted instead. */
  lemma EmptyWinnerIgnored(pool: seq<string>, pick: nat, p: Player)
    requires ValidPick(pool, pick)
    ensures Generate(Some(State(Some(""), Some([p]), None)), pool, pick)
      == Text("The tournament is about to begin with 1 competitors!")
  {
  }

  /** A null round that neither scan reaches does no harm. */
  lemma UnreachedNullRoundIsHarmless(pool: seq<string>, pick: nat)
    requires ValidPick(pool, pick)
    ensures Generate(Some(State(None, None, Some([Round([Match(None)]), NullRound, Round([Match(Some("A"))])]))), pool, pick)
      == Text(AdvancesText("A"))
  {
    var rs := [Round([Match(None)]), NullRound, Round([Match(Some("A"))])];
    assert SomeUndecided([Match(None)]) == Value(true);
    assert FindOpenRound(rs) == Value(0);
    FindOpenRoundThrows(rs);
    var ms := Flatten(rs);
    assert ms == [Match(None)] + Flatten(rs[1..]);
    assert Flatten(rs[1..]) == [NullMatch] + Flatten(rs[2..]);
    assert Flatten(rs[2..]) == [Match(Some("A"))] + Flatten(rs[3..]);
    assert |ms| == 3 && ms[2] == Match(Some("A"));
    AdvancesNamesLastDecided(State(None, None, Some(rs)), pool, pick, 2);
  }

  /** A null first round makes `findIndex` throw: the fail-soft line is returned. */
  lemma NullFirstRoundFailsSoft(pool: seq<string>, pick: nat)
    requires ValidPick(pool, pick)
    ensures Generate(Some(State(None, None, Some([NullRound]))), pool, pick) == Text(FailSoftText)
  {
  }

  /** A null round after a closed one: `findIndex` throws on it, so the fail-soft line is
      returned although the scan from the end would find "B". */
  lemma NullAfterClosedRoundFailsSoft(pool: seq<string>, pick: nat)
    requires ValidPick(pool, pick)
    ensures Generate(Some(State(None, None, Some([Round([Match(Some("A"))]), NullRound, Round([Match(Some("B"))])]))), pool, pick)
      == Text(FailSoftText)
  {
    var rs := [Round([Match(Some("A"))]), NullRound, Round([Match(Some("B"))])];
    assert Closed(rs[0]);
    assert BrokenBeforeOpen(rs) by {
      assert forall i :: 0 <= i < 1 ==> Closed(rs[i]);
      assert rs[1].NullRound?;
    }
    BrokenBeforeOpenFailsSoft(State(None, None, Some(rs)), pool, pick);
  }
}
