# Boxy commentary: a Dafny model of the commentary core

Boxy is a floating widget that narrates a tournament. It polls a published
tournament-state snapshot, detects when the snapshot changes, and turns the new
snapshot into one line of commentary. This project models the three parts of
`boxy-commentary.js` that hold the logic:

- **The commentary generator** (`generateCommentary`), in modules `Tournament`
  and `Generator`. The snapshot is a `State` with optional `winner`, `players`
  and `rounds`. A round is an array of matches or a `null` entry (`NullRound`).
  A match has an optional `winner` or is a `null` entry (`NullMatch`).
  - JavaScript truthiness is explicit: an empty-string winner counts as absent.
  - The array methods the generator chains are modelled one by one: `some`,
    `findIndex`, `findIndex(...) + 1 || rounds.length`, `flat`, `reverse` and
    `find`. The ones that can throw (`some`, `findIndex` with the current
    round, and `find`) return an `Outcome` that records a thrown TypeError.
    `flat` and `reverse` return plain sequences.
  - `Generate` is the `try/catch`: every thrown error becomes the fixed line
    "An exciting match is happening now!".
  - `Math.random()` becomes the parameter `pick`, which must be a value
    `floor(r * pool.length)` can take.
  - An empty fallback pool makes the source return `undefined`. This is the
    `Undefined` commentary.
  - The snapshot is a value, so the generator cannot mutate it. In the source,
    `reverse()` works on the fresh array `flat()` returned, so it cannot
    either.
- **The configuration merge** (`mergeConfig`), in module `Configuration`.
  Configurations are values, so the defaults cannot be changed through the
  merged copy. In the source, the deep copy at line 84 ensures the same.
  Options that are absent or falsy keep their defaults. A poll interval of 0
  is falsy. Any supplied comment array replaces the pool, an empty one
  included. Position keys are overlaid one at a time.
- **The change-detecting poller**, in module `Polling`. Class `Widget` holds the
  module-level state `isInitialized`, `currentConfig`, `lastState` and
  `pollInterval`, plus the host's live interval timers.
  - `Init` is `initBoxyCommentary`, including its guard against a second call.
  - `StartPolling` clears the old timer before starting a new one.
  - `Tick` is the body of the interval callback.
  - `Next`, `Updates` and `LastSeen` describe runs of ticks as values.
  - `JSON.stringify` equality becomes structural equality of the projected
    `Option<State>` (see `Polling.Tick` under "## Left out").

Behaviour of the code worth noting:

- For `rounds = [[{winner:"A"}], [{}]]` the code does not announce round 2.
  It scans the flattened matches from the end, finds "A", and says
  "A advances to the next round!" (`Generator.DecidedThenOpenRoundAdvances`).
- The code validates no configuration: a negative interval is truthy and is
  used, and an empty comment array replaces the pool.
- The code has no `stop` operation and no "already running" error. It never
  clears the stored snapshot. A repeated init changes no state; it only logs
  a warning. A restart of polling replaces the timer.
- The generator reads the module-level `currentConfig`; `Tick` passes the
  widget's `config` field.

## Model

| member | source | states |
|---|---|---|
| Messages.NatToString | boxy-commentary.js:193-197 | the interpolated number is a non-empty string of decimal digits, with no leading zero unless it is "0" |
| Messages.NatToStringRoundTrip | boxy-commentary.js:193-197 | the round number and the player count interpolated into the messages read back as exactly that number |
| Messages.NatToStringInjective | boxy-commentary.js:193-197 | different counts give different message texts |
| Generator.SomeUndecided | boxy-commentary.js:185 | when `some` returns, it says whether the round holds a match without a truthy winner; it cannot throw on a round without null entries |
| Generator.FindOpenRound | boxy-commentary.js:184-185 | `findIndex` returns the first round with an undecided match, every earlier round being fully decided, or -1 when every round is fully decided; it cannot throw on well-formed rounds |
| Generator.CurrentRound | boxy-commentary.js:184-186 | the current round N satisfies 1 <= N <= number of rounds; it is the first open round, or the last round when every round is closed |
| Generator.Flatten | boxy-commentary.js:188 | `flat()` keeps every match of every round; the flattened list has a null entry exactly when some round or match is null |
| Generator.Reverse | boxy-commentary.js:188 | `reverse()` keeps the length and the elements and puts element i at position length-1-i |
| Generator.FindDecided | boxy-commentary.js:188 | `find` returns only a match with a truthy winner, and cannot throw on a list without null entries |
| Generator.FindDecidedFirst | boxy-commentary.js:188 | `find` returns the first decided match when only undecided matches precede it |
| Generator.FindDecidedNone | boxy-commentary.js:188 | `find` returns `undefined` when every entry is an undecided match |
| Generator.FindDecidedThrows | boxy-commentary.js:188 | `find` throws when it meets a null entry before any decided match |
| Generator.FlattenSingle | boxy-commentary.js:188 | `flat()` of one round is its matches, and of one null round a single null entry |
| Generator.FlattenAppend | boxy-commentary.js:188 | `flat()` distributes over concatenation, so it keeps the rounds' order and each round's matches in order |
| Generator.FlattenMember | boxy-commentary.js:188 | every non-null flattened entry is a match of some round |
| Generator.SomeUndecidedThrows | boxy-commentary.js:185 | `some` throws exactly when it meets a null entry before any undecided match |
| Generator.FindOpenRoundThrows | boxy-commentary.js:184-185 | `findIndex` throws exactly when it reaches, past only fully decided rounds, a null round or a round whose null entry comes before any undecided match |
| Generator.RoundsCommentary | boxy-commentary.js:183-194 | the rounds branch yields text whenever it does not throw; it never throws on well-formed rounds, and it always throws when `findIndex` reaches a null first |
| Generator.Evaluate | boxy-commentary.js:179-201 | only the rounds branch (no truthy winner, non-empty rounds) can throw; `undefined` comes only from an empty pool with draw 0 |
| Generator.Generate | boxy-commentary.js:178-206 | an absent state gives the waiting message; `undefined` is returned only for an empty fallback pool |
| Generator.WinnerWins | boxy-commentary.js:181 | a truthy overall winner gives the victory line, whatever the rounds and players hold |
| Generator.AdvancesNamesLastDecided | boxy-commentary.js:183-191 | with no overall winner and non-empty rounds on which `findIndex` does not throw, the winner of the last decided match in flattened order (last round first, last match first) advances, provided only undecided matches, with no null among them, follow it |
| Generator.WellFormedAdvancesNamesLastDecided | boxy-commentary.js:183-191 | on well-formed non-empty rounds with no overall winner, the winner of the last decided match in flattened order advances |
| Generator.UnderwayAtFirstNonEmptyRound | boxy-commentary.js:183-193 | on null-free rounds with no match decided, the 1-based index of the first non-empty round is announced as underway |
| Generator.UnderwayAtLastRoundWhenAllEmpty | boxy-commentary.js:183-193 | with every round empty, the round count is announced as underway |
| Generator.NothingDecidedFindsNone | boxy-commentary.js:188-193 | on null-free rounds with no match decided, the scan from the end finds nothing |
| Generator.PlayersAreCounted | boxy-commentary.js:196-198 | with no winner and no rounds, a non-empty players list gives the competitor-count line for its length |
| Generator.FallbackFromPool | boxy-commentary.js:200-201 | otherwise the result is the pool element the draw selects, `pool[pick]`, or `undefined` for an empty pool |
| Generator.WellFormedNeverThrows | boxy-commentary.js:183-201 | rounds without null entries never make evaluation throw |
| Generator.ThrowBecomesFailSoft | boxy-commentary.js:202-205 | a thrown error never escapes; it becomes the fixed fail-soft line |
| Generator.BrokenBeforeOpenFailsSoft | boxy-commentary.js:184-205 | a null that `findIndex` reaches before the first open round gives the fail-soft line, whatever the scan from the end would find |
| Generator.NullAfterLastDecidedFailsSoft | boxy-commentary.js:188-205 | a null entry after the last decided match (in flattened order) makes the generator return the fail-soft line |
| Generator.DecidedThenOpenRoundAdvances | boxy-commentary.js:183-191 | [[A], [undecided]] gives "A advances to the next round!" |
| Generator.LaterWinnerAdvances | boxy-commentary.js:183-191 | [[A], [B]] gives "B advances to the next round!" |
| Generator.EightPlayersCounted | boxy-commentary.js:196-198 | eight players and nothing else give the line with "8" |
| Generator.EmptyWinnerIgnored | boxy-commentary.js:181-198 | an empty-string winner is falsy, so the players are counted |
| Generator.UnreachedNullRoundIsHarmless | boxy-commentary.js:184-191 | example: [[undecided], null, [A]] gives "A advances", because neither scan reaches the null |
| Generator.NullAfterClosedRoundFailsSoft | boxy-commentary.js:184-205 | [[A], null, [B]] gives the fail-soft line, although B is the last decided match |
| Generator.NullFirstRoundFailsSoft | boxy-commentary.js:184-205 | a null first round makes `findIndex` throw, and the fail-soft line is returned |
| Configuration.MergeConfig | boxy-commentary.js:83-99 | the interval is the user's when truthy and 1000 otherwise, so it is never 0; a supplied pool replaces the default wholesale; position keys are the union of the default and the user's keys, with the user's value winning per key |
| Configuration.NoOptionsGiveDefaults | boxy-commentary.js:83-99 | absent options, all-absent options, or an interval of 0 give exactly the defaults |
| Configuration.MergeIsFixpoint | boxy-commentary.js:83-99 | merging an effective configuration back over the defaults reproduces it |
| Configuration.EmptyPoolOnlyFromUser | boxy-commentary.js:93-95 | the merged pool is empty only when the user supplied an empty array |
| Polling.Next | boxy-commentary.js:152-157 | a falsy sample leaves the stored snapshot alone; the snapshot changes exactly when the sample is present and differs from it, and then becomes the sample |
| Polling.AbsentSamplesIgnored | boxy-commentary.js:151-158 | dropping the falsy samples from a run changes neither the number of updates nor the final snapshot |
| Polling.RepeatedSamplesUpdateOnce | boxy-commentary.js:153-157 | giving every sample twice in a row triggers no extra update and leaves the same final snapshot |
| Polling.UpdatesBounded | boxy-commentary.js:151-158 | a run never triggers more updates than it has present samples |
| Polling.LastSeenIsLastPresent | boxy-commentary.js:152-155 | after a run, the stored snapshot is the last present sample, or the old one if there was none |
| Polling.Widget.constructor | boxy-commentary.js:24-28 | before init: defaults copied, nothing stored, no timer |
| Polling.Widget.StartPolling | boxy-commentary.js:146-160 | the old timer is cleared before a new one with the given period starts; exactly one timer is live afterwards |
| Polling.Widget.Init | boxy-commentary.js:102-143 | a second call after a successful one changes nothing; otherwise the merged config is stored, and if the widget can be built, polling starts with its interval and the widget becomes initialised; if it cannot, the timer state is untouched |
| Polling.Widget.Tick | boxy-commentary.js:151-159 | the snapshot advances by `Next`; commentary is emitted exactly when the sample changed, and it is the generator's line for that sample |
| Polling.AtMostOneTimer | boxy-commentary.js:146-151 | at most one interval timer is ever live |

## Left out

- DOM and presentation are not modelled: shadow-root creation, the widget markup,
  the `innerHTML` rendering in `updateCommentary` and the CSS in `getStyles`.
  `Tick` returns the commentary it would render instead of rendering it.
- Init only learns through `hostReady` whether building the DOM throws. That
  covers a missing `document.body`, for example.
- Timer timing is not modelled. `setInterval` and `clearInterval` are modelled
  only as live timer handles, and ticks are method calls given the sample.
- Auto-initialisation on `data-boxy` / `DOMContentLoaded` and the
  `window.BoxyCommentary` export are not modelled. `Tick` takes the sample as
  a parameter in place of the `window.tournamentState` global.
- `Math.random()` becomes the `pick` parameter.
- `console` logging is not modelled.
- Malformed shapes: the model has only null rounds and null
  matches as malformed shapes. Exotic JavaScript values are not modelled: a
  non-array truthy `rounds`, a number or plain object used as a round, a
  non-string winner, or a `players` value that is not an array.
- Polling.Tick: change detection compares, with structural equality, the
  projection of the sample onto `winner`, the players' names, `rounds` and each
  match's `winner`. The source compares the
  `JSON.stringify` text of the whole published object. So the model emits nothing
  where the source re-renders in these cases:
  - a change only in a field outside that projection, such as scores, a
    status or a match's participants; in the fallback branch the source then
    shows a freshly drawn line;
  - `null` versus absent, for a match winner, the overall winner, `players`
    or `rounds`;
  - the same content with a different key order.
- Configuration.MergeConfig: the merged pool is the user's array by reference in
  the source, so later mutation of that array would change the pool. Values here
  cannot alias. Position values are strings only.
- `NaN` intervals are not modelled.
- server.js is not part of this model. It is a static file server with no
  logic beyond I/O.
