# Imposter word game: a Dafny model of the round logic

The game runs on one device that the players pass around. One player types
in the roster. A round then draws a secret word and picks some players as
imposters. Each player privately flips their own card, and at the end the
imposters are disclosed. This project models the game logic of `script.js`
without the page around it. The whole state is one immutable record: word
list, roster, cards, card cursor, active screen, shown error and shown
disclosure. Each button handler is a pure function on that record. The two
random draws are explicit inputs, named `Draw`: the word index and the
shuffled copy of the roster.

Modules, leaf first:

- `Text` (`text.dfy`): the JavaScript runtime pieces the game relies on.
  These are `String.prototype.trim`, with the ECMAScript whitespace set,
  `Array.prototype.join`, and the decimal rendering of integers in
  template literals.
- `Seqs` (`seqs.dfy`): duplicate freedom, the two array filters the game
  uses, and facts about shuffles of duplicate-free sequences.
- `Roster` (`roster.dfy`): `addPlayer`.
- `Roles` (`roles.dfy`): `assignRolesAndStart`. This covers the imposter
  selection `slice(0, k)`, the card texts, and the partner lists.
- `Disclosure` (`disclosure.dfy`): `revealImposter`.
- `Game` (`game.dfy`): the state record and its transitions. These are
  `startGame` with its two guards, `nextPlayer`, `playAgain`,
  `editPlayers` and `newGame`, plus the state invariant and whole-round
  lemmas.

## Model

| member | source | states |
|---|---|---|
| Text.Trim | script.js:54 | The trimmed name has no whitespace at either end and is no longer than the input. |
| Text.TrimIsInfix | script.js:54 | The trimmed name is a contiguous piece of the input, and only whitespace surrounds it there. |
| Text.TrimOfPadded | script.js:54 | Trimming is fully determined by that shape: any trimmed string padded with whitespace on both sides trims back to itself. |
| Text.TrimIdempotent | script.js:54 | Trimming an already trimmed name changes nothing. |
| Text.IntToString | script.js:77 | A count renders as a non-empty decimal string that starts with a minus sign exactly when the count is negative. There is no leading zero: a string starting with `0` is exactly `"0"`, and the minus sign is never followed by `0`. |
| Text.IntToStringRoundTrip | script.js:77 | The rendering of any integer is an optional minus sign followed by digits, and reading it back gives that integer. |
| Text.Join | script.js:103 | `join` of no names is empty and of one name is that name. Otherwise the joined string starts with the first name and ends with the last. |
| Text.JoinSnoc | script.js:103 | Appending one more name to a non-empty list appends the separator and that name to the joined string. |
| Roster.AddPlayer | script.js:54-56 | If the trimmed name is non-empty and not yet present, it is appended at the end. Otherwise, when the name is empty or already present under exact comparison, the roster is unchanged. |
| Roster.AddPlayerKeepsNoDup | script.js:55-56 | A duplicate-free roster stays duplicate-free. |
| Roster.AddPlayerIdempotent | script.js:55-56 | Entering the same text twice has the effect of entering it once. |
| Roster.AddTwiceLeavesOneCopy | script.js:55-56 | After entering a name twice, the roster holds exactly one copy of it and has grown by at most one. |
| Roster.AddPlayerCaseSensitive | script.js:54-55 | The comparison is exact and case-sensitive. `" bob "` joins a roster holding `"Bob"` as a separate player. |
| Seqs.Without | script.js:102 | Filtering out one name removes every copy of it and keeps every other name as often as it occurred. |
| Seqs.WithoutOfNoDup | script.js:102-103 | On a duplicate-free selection containing the player, the partner list has one entry fewer and never names the player. It is exactly the selection with the player's entry cut out, the others in their original order. |
| Roles.SliceTo | script.js:92 | The selected imposters are a prefix of the shuffle. Its length follows JavaScript's `slice(0, k)`: clamped for a large `k`, counted from the end for a negative `k`. |
| Roles.ImposterBase | script.js:96-98 | With hints on, an imposter card's text opens with "Hint: " followed by exactly the drawn hint. With hints off, it is the fixed prompt. |
| Roles.PartnerSuffix | script.js:100-104 | The partner text is empty exactly when at most one imposter was selected. Otherwise it is the partner label followed by the other selected names joined with ", ". |
| Roles.RoleFor | script.js:95-109 | A selected player gets the role "Imposter". Any other player gets the drawn word and the fixed "not the imposter" notice. |
| Roles.AssignRoles | script.js:94-110 | There is one card per player, in roster order, with the player's name. Selected players are imposters. Everyone else gets the word and the notice, so all non-imposter cards carry the same role. |
| Roles.ImposterNames | script.js:148-149 | A name is in the filtered list exactly when some card says "Imposter" and carries that name. The list is no longer than the card list. |
| Roles.ImposterNamesOfAssignment | script.js:92-95 | After assignment, the imposter cards name exactly the roster filtered by the selected prefix of the shuffle, in roster order. This assumes the word is not "Imposter". |
| Roles.ImposterCountExact | script.js:92-95 | Take a duplicate-free roster, a shuffle of it and `0 <= k <= n`. Then exactly `k` cards say "Imposter", and their names are exactly the first `k` names of the shuffle. |
| Roles.ImposterInfoShape | script.js:96-104 | An imposter card holds the hint or the prompt. With more than one imposter selected, the partner label follows, with a list of the `|selected| - 1` other selected imposters (that is `k - 1` when `0 <= k <= n`) that never names the player themself. With one imposter there is no partner text. |
| Roles.ImposterInfoStartsWithHint | script.js:96-98 | With hints on, an imposter card starts with "Hint: " and the drawn hint. |
| Roles.PairPartners | script.js:101-103 | With two selected imposters, each one's partner list is exactly the other one. |
| Roles.TwoImpostersSeeEachOther | script.js:92-106 | Take four players, two imposters and no hints. Each imposter card reads the prompt, then the partner label, then the other imposter's name. |
| Disclosure.RevealText | script.js:148-153 | The sentence opens with the singular lead exactly when exactly one card says "Imposter", and then names that player. Otherwise it opens with the plural lead, followed by the imposter names joined with ", ". |
| Disclosure.RevealOneImposter | script.js:148-152 | When exactly one card says "Imposter", the disclosure is "The imposter was: " and that player's name. |
| Disclosure.RevealNoImposter | script.js:151-153 | When no card says "Imposter", the plural lead stands alone. |
| Disclosure.RevealOfRound | script.js:148-153 | After a round with `k` imposters, one imposter gives the singular sentence naming the first player of the shuffle. Otherwise the plural sentence lists, in roster order, exactly the `k` selected players. |
| Game.Loaded | script.js:10-26 | Once the words load, the setup screen shows, with an empty roster and nothing displayed. This initial state satisfies the invariant that every transition keeps. |
| Game.AddPlayer | script.js:50-56 | Adding a player changes only the roster, as Roster.AddPlayer describes. |
| Game.Assign | script.js:86-112 | Assignment deals new cards for the unchanged roster and resets the cursor to 0. Nothing else in the state changes. |
| Game.StartGame | script.js:69-82 | Fewer than 3 players shows the minimum-players message and changes nothing else. With at least 3 but fewer than `k + 1`, the k-dependent message shows instead. Otherwise the cards are dealt, the cursor is 0, no error shows, and the reveal screen is active. Roster, word list and disclosure are kept. |
| Game.NextPlayer | script.js:136-143 | The cursor moves forward by exactly one. The end screen shows exactly when it reaches the number of cards. Nothing but the cursor and the screen changes. |
| Game.AdvanceWalk | script.js:136-143 | From the first card, `m` presses put the cursor at `m`. The end screen appears at press `L` (the number of cards) and not before. |
| Game.RevealImposter | script.js:147-156 | The disclosure shown is the sentence `Disclosure.RevealText` makes from the current cards. Nothing else in the state changes. |
| Game.RevealIdempotent | script.js:147-156 | Disclosing twice gives the same state as disclosing once. |
| Game.PlayAgain | script.js:165-170 | The roster is kept and new cards are dealt over it. The cursor is 0, the reveal screen shows, and the disclosure and error are hidden. The word list is kept. |
| Game.EditPlayers | script.js:172-176 | The roster is kept, the setup screen shows, and the disclosure and error are hidden. Cards, cursor and word list stay as they were. |
| Game.NewGame | script.js:178-184 | The roster is emptied, the setup screen shows, and the disclosure and error are hidden. Cards, cursor and word list stay as they were. |
| Game.AddPlayerKeepsValid | script.js:50-56 | Adding a player on the setup screen keeps the invariant. |
| Game.StartGameKeepsValid | script.js:69-82 | Starting a round from the setup screen keeps the invariant, whichever guard decides. |
| Game.NextPlayerKeepsValid | script.js:136-143 | Pressing next on the reveal screen keeps the invariant. The cursor stays on a card or lands just past the last one as the end screen appears. |
| Game.PlayAgainKeepsValid | script.js:165-170 | Playing again from the end screen keeps the invariant. |
| Game.TransitionsKeepValid | script.js:50-184 | Every handler, fired from the screen where its button lives, keeps the invariant. The invariant: the roster is duplicate-free, the cards match the roster one to one during a round, and the cursor is on a card (reveal screen) or just past the last one (end screen). |
| Game.RoundFromStart | script.js:69-153 | After a successful start with `k >= 1`, exactly `k` cards are imposters: the first `k` of the shuffle. One press per card reaches the end screen. With one imposter, the disclosure names the first player of the shuffle. With any other count, it is the plural sentence listing the selected players in roster order. |
| Game.NeedMoreMessage | script.js:77 | The "not enough players" message opens with "You need at least " and ends with " imposter(s).", with the counts in between. |
| Game.NeedMoreMessageStatesCounts | script.js:76-77 | The "not enough players" message contains `k + 1` and `k` as decimal numbers, at fixed positions, and they read back to those values. |
| Game.ResetScopes | script.js:165-183 | `newGame` empties the roster, while `editPlayers` and `playAgain` keep it. `playAgain` deals a valid new round with exactly `k` imposters. |

## Left out

- Loading `words.json` (script.js:17-32): the fetch, the JSON parsing and the load-failure message are asynchronous I/O. The word list is a given sequence of `{word, hint}` entries, and `Game.Loaded` models only the success path.
- Page rendering: screen switching, the error banner's styling, the roster list items, input focus, the Enter key handler, the card flip handlers, the `setTimeout` and the `innerHTML` rendering of the card (script.js:36-46, 57-66, 119-133, 155-162). The model keeps only the logical effect: which screen is active, which error or disclosure text is shown, and the card cursor.
- Randomness: `Math.random` and the comparator-based `sort` shuffle at script.js:92. These are the `Draw` parameter. `Game.DrawFits` requires the index to be in range and the order to be a rearrangement of the roster. No claim is made about the distribution, and the comparator shuffle is not uniform.
- `parseInt` of the imposter-count field (script.js:75, 89): the count is an `int`, and a NaN count is not modelled. The code does not reject 0 or negative counts, and neither does the model. `Roles.SliceTo` gives `slice`'s behaviour for them.
- Game.NeedMoreMessage: `Text.IntToString` renders every integer in plain decimal. JavaScript switches to exponent notation (`1e+21`) from 10^21 on, and loses exactness above 2^53. So the message text matches the source only for counts of ordinary size.
- Strings: JavaScript strings are sequences of UTF-16 code units, while Dafny's `string` holds Unicode scalar values. A name containing a lone surrogate cannot be represented, and lengths are counted in characters rather than code units. The game never uses string lengths.
- Roles.ImposterCountExact: stated for `0 <= k <= n` only. For a negative `k`, `Roles.SliceTo` keeps `n + k` names as JavaScript does, but no lemma counts those cards.
- An empty word list: the code would read an out-of-range entry at script.js:88. The model requires a word index in range, so no round can start without words.
- A drawn word equal to "Imposter": the disclosure filter at script.js:148 would count those cards as imposters. The counting and disclosure lemmas require the word to differ from "Imposter".
- A missing `hint` in a word entry, which would print as "undefined": every entry carries a hint string.
- `script.js` has no topic selection, no way to remove a player, and no gate that requires a card to be viewed before moving on. `nextPlayer` advances unconditionally, and so does the model.
- `newGame` leaves the previous round's cards in place, as the code does. Only the roster is cleared.
