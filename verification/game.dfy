/** The game as one immutable state record and the pure transitions the
    page's buttons trigger: adding players, starting a round, walking the
    cards, disclosing the imposters and the three ways back to setup. */
module Game {
  import opened Text
  import opened Seqs
  import Roster
  import opened Roles
  import Disclosure

  datatype Option<T> = None | Some(value: T)

  /** Which screen is active once the word list has loaded. */
  datatype Screen = Setup | Reveal | End

  /** The script's global state: word list, roster, the round's cards, the
      card cursor, the active screen, the shown error message and the shown
      disclosure sentence (`None` when hidden). */
  datatype State = State(
    words: seq<WordEntry>,
    players: seq<string>,
    roles: seq<Assignment>,
    cursor: int,
    screen: Screen,
    error: Option<string>,
    disclosure: Option<string>)

  /** The outcome of the two random draws of one round: the index produced
      by `Math.floor(Math.random() * wordData.length)` and the shuffled copy
      of the roster. */
  datatype Draw = Draw(wordIndex: int, order: seq<string>)

  /** A draw the script could actually produce for this state. */
  predicate DrawFits(g: State, d: Draw) {
    0 <= d.wordIndex < |g.words| && IsShuffleOf(d.order, g.players)
  }

  const MinPlayersMessage := "A minimum of 3 players is required."

  /** The message shown when the roster is too small for `k` imposters. */
  function NeedMoreMessage(k: int): (m: string)
    ensures var lead, tail := "You need at least ", " imposter(s).";
            && |lead| + |tail| < |m|
            && m[..|lead|] == lead
            && m[|m| - |tail|..] == tail
  {
    "You need at least " + IntToString(k + 1) + " players for " + IntToString(k) + " imposter(s)."
  }

  /** The state once the word list has loaded: setup screen, empty roster. */
  function Loaded(words: seq<WordEntry>): (g: State)
    ensures g.screen == Setup && g.players == [] && g.words == words
    ensures g.error == None && g.disclosure == None
    ensures Valid(g)
  {
    State(words, [], [], 0, Setup, None, None)
  }

  /** `addPlayer` on the whole state: only the roster changes. */
  function AddPlayer(g: State, input: string): (r: State)
    ensures r.players == Roster.AddPlayer(g.players, input)
    ensures r.(players := g.players) == g
  {
    g.(players := Roster.AddPlayer(g.players, input))
  }

  /** `assignRolesAndStart`: fresh cards for the current roster and the
      cursor back on the first card. */
  function Assign(g: State, k: int, hints: bool, d: Draw): (r: State)
    requires DrawFits(g, d)
    ensures r.roles == AssignRoles(g.players, g.words[d.wordIndex], d.order, k, hints)
    ensures r.cursor == 0
    ensures r.(roles := g.roles, cursor := g.cursor) == g
  {
    g.(roles := AssignRoles(g.players, g.words[d.wordIndex], d.order, k, hints), cursor := 0)
  }

  /** `startGame`: hide any old error, then two guards in order (at least
      three players; at least `k + 1` players), and only when both pass
      assign roles and switch to the reveal screen. A failing guard shows
      its message and changes nothing else. The draw is only consulted
      when both guards pass. */
  function StartGame(g: State, k: int, hints: bool, d: Draw): (r: State)
    requires |g.players| >= 3 && |g.players| >= k + 1 ==> DrawFits(g, d)
    ensures |g.players| < 3 ==> r == g.(error := Some(MinPlayersMessage))
    ensures 3 <= |g.players| < k + 1 ==> r == g.(error := Some(NeedMoreMessage(k)))
    ensures |g.players| >= 3 && |g.players| >= k + 1 ==>
              && r.screen == Reveal && r.error == None && r.cursor == 0
              && r.players == g.players
              && r.roles == AssignRoles(g.players, g.words[d.wordIndex], d.order, k, hints)
              && r.(roles := g.roles, cursor := g.cursor, screen := g.screen, error := g.error) == g
  {
    var cleared := g.(error := None);
    if |g.players| < 3 then cleared.(error := Some(MinPlayersMessage))
    else if |g.players| < k + 1 then cleared.(error := Some(NeedMoreMessage(k)))
    else Assign(cleared, k, hints, d).(screen := Reveal)
  }

  /** `nextPlayer`: the cursor moves forward by exactly one; once it
      reaches the number of cards the end screen is shown. */
  function NextPlayer(g: State): (r: State)
    ensures r.cursor == g.cursor + 1
    ensures r.roles == g.roles && r.players == g.players
    ensures r.screen == (if g.cursor + 1 < |g.roles| then g.screen else End)
    ensures r.(cursor := g.cursor, screen := g.screen) == g
  {
    var c := g.cursor + 1;
    if c < |g.roles| then g.(cursor := c) else g.(cursor := c, screen := End)
  }

  /** `nextPlayer` pressed `m` times in a row. */
  function Advance(g: State, m: nat): State {
    if m == 0 then g else NextPlayer(Advance(g, m - 1))
  }

  /** `revealImposter`: show the disclosure sentence for the current cards. */
  function RevealImposter(g: State): (r: State)
    ensures r.disclosure == Some(Disclosure.RevealText(g.roles))
    ensures r.(disclosure := g.disclosure) == g
  {
    g.(disclosure := Some(Disclosure.RevealText(g.roles)))
  }

  /** `playAgain`: hide disclosure and error, then a fresh assignment over
      the same roster and back to the reveal screen. */
  function PlayAgain(g: State, k: int, hints: bool, d: Draw): (r: State)
    requires DrawFits(g, d)
    ensures r.players == g.players
    ensures r.roles == AssignRoles(g.players, g.words[d.wordIndex], d.order, k, hints)
    ensures r.cursor == 0 && r.screen == Reveal
    ensures r.error == None && r.disclosure == None
    ensures r.(roles := g.roles, cursor := g.cursor, screen := g.screen, error := g.error, disclosure := g.disclosure) == g
  {
    Assign(g.(disclosure := None, error := None), k, hints, d).(screen := Reveal)
  }

  /** `editPlayers`: hide disclosure and error, back to setup, roster kept. */
  function EditPlayers(g: State): (r: State)
    ensures r.players == g.players && r.screen == Setup
    ensures r.error == None && r.disclosure == None
    ensures r.(screen := g.screen, error := g.error, disclosure := g.disclosure) == g
  {
    g.(disclosure := None, error := None, screen := Setup)
  }

  /** `newGame`: hide disclosure and error, empty the roster, back to setup. */
  function NewGame(g: State): (r: State)
    ensures r.players == [] && r.screen == Setup
    ensures r.error == None && r.disclosure == None
    ensures r.(players := g.players, screen := g.screen, error := g.error, disclosure := g.disclosure) == g
  {
    g.(disclosure := None, error := None, players := [], screen := Setup)
  }

  /** The state invariant: the roster never holds a name twice, and while a
      round is on screen its cards match the roster one to one and the
      cursor points at a card (reveal) or just past the last one (end). */
  predicate Valid(g: State) {
    && NoDup(g.players)
    && (g.screen == Reveal || g.screen == End ==>
          && |g.players| >= 3
          && |g.roles| == |g.players|
          && (forall i :: 0 <= i < |g.roles| ==> g.roles[i].name == g.players[i]))
    && (g.screen == Reveal ==> 0 <= g.cursor < |g.roles|)
    && (g.screen == End ==> g.cursor == |g.roles|)
  }

  /** The reveal walk: from the first card, after `m` presses the cursor is
      at `m`, and the end screen shows exactly when `m` is the number of
      cards, so the `L`-th press (and no earlier one) ends the reveal. */
  lemma {:induction false} AdvanceWalk(g: State, m: nat)
    requires g.screen == Reveal && g.cursor == 0
    requires 1 <= |g.roles| && m <= |g.roles|
    ensures Advance(g, m).cursor == m
    ensures Advance(g, m).roles == g.roles && Advance(g, m).players == g.players
    ensures Advance(g, m).screen == End <==> m == |g.roles|
    ensures m < |g.roles| ==> Advance(g, m).screen == Reveal
  {
    if m > 0 {
      AdvanceWalk(g, m - 1);
    }
  }

  lemma AddPlayerKeepsValid(g: State, input: string)
    requires Valid(g) && g.screen == Setup
    ensures Valid(AddPlayer(g, input))
  {
    Roster.AddPlayerKeepsNoDup(g.players, input);
  }

  lemma StartGameKeepsValid(g: State, k: int, hints: bool, d: Draw)
    requires Valid(g) && g.screen == Setup
    requires |g.players| >= 3 && |g.players| >= k + 1 ==> DrawFits(g, d)
    ensures Valid(StartGame(g, k, hints, d))
  {
  }

  lemma NextPlayerKeepsValid(g: State)
    requires Valid(g) && g.screen == Reveal
    ensures Valid(NextPlayer(g))
  {
  }

  lemma PlayAgainKeepsValid(g: State, k: int, hints: bool, d: Draw)
    requires Valid(g) && g.screen == End && DrawFits(g, d)
    ensures Valid(PlayAgain(g, k, hints, d))
  {
  }

  /** Every transition the page can trigger, fired from the screen that
      shows its button, keeps the invariant. */
  lemma TransitionsKeepValid(g: State, input: string, k: int, hints: bool, d: Draw)
    requires Valid(g)
    ensures g.screen == Setup ==> Valid(AddPlayer(g, input))
    ensures (g.screen == Setup && (|g.players| >= 3 && |g.players| >= k + 1 ==> DrawFits(g, d)))
              ==> Valid(StartGame(g, k, hints, d))
    ensures g.screen == Reveal ==> Valid(NextPlayer(g))
    ensures Valid(RevealImposter(g))
    ensures g.screen == End && DrawFits(g, d) ==> Valid(PlayAgain(g, k, hints, d))
    ensures Valid(EditPlayers(g)) && Valid(NewGame(g))
  {
    if g.screen == Setup {
      AddPlayerKeepsValid(g, input);
      if |g.players| >= 3 && |g.players| >= k + 1 ==> DrawFits(g, d) {
        StartGameKeepsValid(g, k, hints, d);
      }
    } else if g.screen == Reveal {
      NextPlayerKeepsValid(g);
    } else if g.screen == End && DrawFits(g, d) {
      PlayAgainKeepsValid(g, k, hints, d);
    }
  }

  /** The full round: after a successful start, the cards show exactly `k`
      imposters, namely the first `k` players of the shuffle; pressing next
      once per card reaches the end screen; and the disclosure names the
      selected players: the first of the shuffle alone, or all `k` of them
      in roster order. */
  lemma RoundFromStart(g: State, k: int, hints: bool, d: Draw)
    requires Valid(g) && g.screen == Setup
    requires 1 <= k && |g.players| >= 3 && |g.players| >= k + 1
    requires DrawFits(g, d) && g.words[d.wordIndex].word != ImposterRole
    ensures var s := StartGame(g, k, hints, d);
            var done := Advance(s, |g.players|);
            && Valid(s)
            && |ImposterNames(s.roles)| == k
            && Elements(ImposterNames(s.roles)) == Elements(d.order[..k])
            && done.screen == End && Valid(done)
            && (k == 1 ==> RevealImposter(done).disclosure == Some(Disclosure.SingularLead + d.order[0]))
            && (k != 1 ==> RevealImposter(done).disclosure
                             == Some(Disclosure.PluralLead + Join(FilterIn(g.players, d.order[..k]), ListSeparator)))
  {
    var s := StartGame(g, k, hints, d);
    var entry := g.words[d.wordIndex];
    ImposterCountExact(g.players, entry, d.order, k, hints);
    AdvanceWalk(s, |g.players|);
    Disclosure.RevealOfRound(g.players, entry, d.order, k, hints);
  }

  /** The "not enough players" message states the required minimum `k + 1`
      and the requested imposter count `k`, both as decimal numbers that
      read back to those values. */
  lemma NeedMoreMessageStatesCounts(k: int)
    ensures var m := NeedMoreMessage(k);
            var need := IntToString(k + 1);
            var asked := IntToString(k);
            var p := |"You need at least "|;
            var q := p + |need| + |" players for "|;
            && q + |asked| <= |m|
            && m[p..p + |need|] == need && ParseInt(need) == k + 1
            && m[q..q + |asked|] == asked && ParseInt(asked) == k
  {
    IntToStringRoundTrip(k + 1);
    IntToStringRoundTrip(k);
  }

  /** Resetting: `newGame` empties the roster, `editPlayers` and `playAgain`
      keep it, and `playAgain` deals a fresh round over that same roster. */
  lemma ResetScopes(g: State, k: int, hints: bool, d: Draw)
    requires Valid(g) && g.screen == End && DrawFits(g, d)
    requires 1 <= k && |g.players| >= k + 1 && g.words[d.wordIndex].word != ImposterRole
    ensures NewGame(g).players == [] && EditPlayers(g).players == g.players
    ensures var p := PlayAgain(g, k, hints, d);
            && p.players == g.players && Valid(p)
            && |ImposterNames(p.roles)| == k
  {
    ImposterCountExact(g.players, g.words[d.wordIndex], d.order, k, hints);
  }

  /** Disclosing twice shows the same sentence as disclosing once. */
  lemma RevealIdempotent(g: State)
    ensures RevealImposter(RevealImposter(g)) == RevealImposter(g)
  {
  }
}
