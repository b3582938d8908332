# Imaginarium and tic-tac-toe game engines, modelled in Dafny

This project models the game logic of a small party-game server written in Python.

**Imaginarium.** The main part is the Imaginarium room (`Game` in `back/imaginarium/mechanics.py`), an association card game:

- Players join a room and are seated in a random order. Each holds a hand of six picture cards.
- In turn, one player is the storyteller. The storyteller puts a card face down and says an association.
- Every other player adds a decoy card from their own hand.
- Then every other player guesses which card on the table was the storyteller's.
- Points go to the storyteller, to correct guessers and to owners of decoys that drew guesses.
- Cards return to the deck, hands are refilled from its front, and the next seat tells a story.
- The first player, in seating order, holding the maximum score of at least 40 wins.

**Tic-tac-toe.** The second part is the two-player tic-tac-toe engine:

- The current engine is `back/tic_tac_toe/Game.py`.
- The older engine is `back/Game.py`. It records a winner and never passes the move.
- Seat bookkeeping for a client is in `back/tic_tac_toe/Player.py`.

## How the model is built

- **State is immutable.** A room is an immutable `Room.Game` value and every operation is a pure function from room to room.
  - Player and card ids are natural numbers.
  - The shuffled card set and the shuffled seating order of `start_game` are parameters.
  - The tic-tac-toe seat coin flip is the `coin` parameter.
- **Ordered dictionaries.** Python dictionaries whose iteration order matters are ordered association lists, `OrderedMap.OMap`. This covers the table, the bets and the guesses. `Put` overwrites in place and appends new keys, as Python does.
- **The bet loop as two folds.** The loop of `place_cards` removes each bet card from its owner's hand and puts it on the table. Neither step reads what the other writes, so the model splits the loop into `Turns.TakeBets` (hands) and `Turns.LayBets` (table), each over the bets in order.
- **Derived storyteller.** The storyteller is `Room.Current`, `players[turn]` once the game has started. The source keeps `current_player` equal to it in every method that moves `turn`.
- **Exceptions.**
  - Where the source raises (KeyError, ValueError, TypeError, IndexError, ZeroDivisionError, a failed `assert`), the Dafny member either has a precondition naming exactly that situation, or returns an `Options.Result`/`Options.Option` whose error case is that exception.
  - The tic-tac-toe `move` exceptions are the `MoveError` cases, because callers catch them.
- **Left players' scores.** A departed player's score is the text `did_not_finish N` in the source. It is `Score.Suspended(N)` here. `ScoreText` proves that writing and reading that text round-trips.
- **Room invariant.** `Room.Valid` is the invariant every transition is proved to keep. Its core is card conservation: the deck, the seated hands and the table together hold every card exactly once (`Room.Pool`, `Room.NoDuplicates`). It also requires:
  - distinct seats;
  - numeric, non-negative scores for seated players;
  - hands of at most six cards;
  - a storyteller index in range once started.

## Model

| member | source | states |
|---|---|---|
| Room.NewRoom | back/imaginarium/mechanics.py:80-102 | a fresh room is waiting, has no players and no cards, has a winning score of 40, and satisfies the room invariant |
| Dealing.DealHand | back/imaginarium/mechanics.py:316-320 | only that hand and the deck change; the old hand is a prefix of the new one; hand followed by deck is unchanged as a sequence; a hand of at most six is filled to six or until the deck runs out |
| Dealing.DealAll | back/imaginarium/mechanics.py:144-145 | dealing round the table keeps the set of hand owners and leaves the hands of players not dealt to untouched |
| Dealing.DealAllGrows | back/imaginarium/mechanics.py:144-145 | a player dealt to only gains cards at the end of their hand, and a hand of at most six never exceeds six |
| Dealing.DealConserves | back/imaginarium/mechanics.py:316-320 | dealing neither creates nor loses a card: the pool of deck, hands and table is unchanged |
| Dealing.DealAllTakesFromFront | back/imaginarium/mechanics.py:316-320 | dealing round the table only ever takes cards from the front of the deck: what remains is a suffix of the old deck |
| Dealing.DealAllFills | back/imaginarium/mechanics.py:144-145 | when the deck covers what the hands lack, every dealt hand ends with exactly six cards |
| Turns.StartGame | back/imaginarium/mechanics.py:135-147 | the seating becomes the given shuffle; the first seat is storyteller; every turn flag is cleared; hands only grow; scores, table, bets, guesses, lead card, association, winner and winning score are untouched |
| TurnInvariants.StartGameValid | back/imaginarium/mechanics.py:135-147 | from a valid waiting room with a duplicate-free card set, the started room is valid, holds exactly the new card set, and gives everyone six cards when there are at least six per player |
| Turns.StartTurn | back/imaginarium/mechanics.py:149-166 | the lead card leaves the storyteller's hand and is the only table card, owned by the storyteller; only the storyteller's turn is marked ended; bets are cleared; phase becomes MATCHING; deck, seating, scores, guesses, lead card, winner and winning score are untouched |
| TurnInvariants.StartTurnConserves | back/imaginarium/mechanics.py:162-164 | the only card movement is the lead card going from the storyteller's hand to the new table; whatever lay on the replaced table leaves the pool |
| TurnInvariants.StartTurnValid | back/imaginarium/mechanics.py:149-166 | from a valid room with an empty table, the room stays valid with the same cards |
| TurnInvariants.TellStory | back/imaginarium/mechanics.py:249-250 | choosing a card of the storyteller's hand and telling the story leaves exactly that card on the table, one copy fewer in the hand, and a valid room with the same cards |
| Actions.AddLeadCard | back/imaginarium/mechanics.py:249-250 | records the chosen lead card and changes nothing else, so no card moves and a valid room stays valid |
| Actions.MakeBet | back/imaginarium/mechanics.py:231-237 | a bet is recorded only for a player whose turn is open and who holds the card; otherwise nothing changes; bets stay one per player |
| Actions.MakeBetOnlyOwnEntry | back/imaginarium/mechanics.py:231-237 | a bet never changes another player's bet |
| Actions.MakeGuess | back/imaginarium/mechanics.py:239-247 | a guess is recorded only for a player whose turn is open, on a table card the player does not own; otherwise nothing changes |
| Actions.MakeGuessOnlyOwnEntry | back/imaginarium/mechanics.py:239-247 | a guess never changes another player's guess |
| Turns.TakeBets | back/imaginarium/mechanics.py:172-173 | the hands half of the bet loop: the set of hand owners is kept |
| Turns.LayBets | back/imaginarium/mechanics.py:172-174 | the table half of the bet loop: the table stays a dictionary (no card appears twice as a key) |
| Turns.TakeBetsRemovesBet | back/imaginarium/mechanics.py:172-173 | each bettor's hand becomes their old hand with the first copy of the bet card removed |
| Turns.TakeBetsKeepsHand | back/imaginarium/mechanics.py:172-173 | a player without a bet keeps their hand unchanged |
| Turns.PlaceCards | back/imaginarium/mechanics.py:168-179 | the corrected `place_cards`, defined for every bet list: guesses are cleared; only the storyteller's turn is ended; phase becomes GUESSING; only hands, table, turn flags, guesses and phase change |
| Turns.HeldBets | back/imaginarium/mechanics.py:172-173 | the bets kept are exactly those whose bettor still holds the bet card, in bet order; when every bet is held, all are kept |
| Turns.PlaceBetsAsWritten | back/imaginarium/mechanics.py:172-174 | the source's bet loop raises exactly when some bettor no longer holds their bet card; otherwise it takes each bet card from its hand and lays it on the table |
| Turns.PlaceCardsAsWritten | back/imaginarium/mechanics.py:168-179 | the source's `place_cards` raises exactly when some bet is no longer held, and otherwise gives the same room as the corrected version |
| Turns.PlaceCardsSkipsLostBets | back/imaginarium/mechanics.py:168-179 | the corrected `place_cards` is the source's run on the bets still held, with the bets themselves left in place |
| Turns.PlaceCardsMovesBets | back/imaginarium/mechanics.py:172-174 | each bettor still holding their bet card loses exactly that card; every other hand is unchanged; every such bet card and every card already on the table is on the table afterwards; a card nobody bet keeps its table owner; when the held bet cards are distinct, each lies on the table owned by its bettor |
| Turns.LayBetsOnTable | back/imaginarium/mechanics.py:172-174 | laying the bets keeps every table card and adds every bet card |
| Turns.LayBetsKeeps | back/imaginarium/mechanics.py:174 | a card that nobody bet keeps the owner it had on the table, or stays absent |
| Turns.LayBetsOwner | back/imaginarium/mechanics.py:172-174 | a bet card that no later bet names ends up on the table owned by the player who bet it (a later bet of the same card would overwrite the owner) |
| TurnInvariants.PlaceOneConserves | back/imaginarium/mechanics.py:173-174 | one bet card leaving its owner's hand and landing on the table conserves the multiset of hand and table cards |
| TurnInvariants.PlaceBetsConserves | back/imaginarium/mechanics.py:172-174 | moving bet cards onto the table conserves the multiset of hand and table cards |
| TurnInvariants.PlaceCardsConserves | back/imaginarium/mechanics.py:172-174 | moving the bets onto the table leaves the pool of deck, hands and table unchanged |
| TurnInvariants.PlaceCardsValid | back/imaginarium/mechanics.py:168-179 | placing the bets keeps a valid room valid, and the pool of deck, hands and table is the same afterwards |
| TurnInvariants.BetCardsDistinct | back/imaginarium/mechanics.py:172-174 | in a valid room, the bets still held never name the same card twice |
| TurnInvariants.PlaceCardsBettorsOwnBets | back/imaginarium/mechanics.py:172-174 | in a valid room, after the bets are placed every bet card its bettor still held lies on the table owned by that bettor |
| TurnInvariants.PlaceCardsCrashesAfterLeaving | back/imaginarium/mechanics.py:172-173 | in a valid room in MATCHING, a player who bets and then leaves makes the source's `place_cards` raise; the corrected one keeps the room valid with the same cards |
| Actions.FinishTurnAsWritten | back/imaginarium/mechanics.py:217-220 | the source's `finish_turn` raises exactly in GUESSING for a player without a guess; otherwise it marks the player's turn ended |
| Actions.FinishTurnCrashes | back/imaginarium/mechanics.py:218 | a concrete room (one seated player, guessing, no guesses) on which the source's `finish_turn` raises KeyError |
| Actions.FinishTurn | back/imaginarium/mechanics.py:217-220 | a player without a guess cannot end their turn during GUESSING (no-op); otherwise their turn is ended; no other flag changes |
| Actions.FinishTurnAgrees | back/imaginarium/mechanics.py:217-220 | the corrected `finish_turn` equals the source wherever the source does not raise, and is a no-op where it does |
| Actions.FinishTurnIdempotent | back/imaginarium/mechanics.py:217-220 | ending a turn twice is the same as ending it once |
| Actions.AllTurnsEnded | back/imaginarium/mechanics.py:222-229 | answers true exactly when every seated player's turn has ended; fails its assertion exactly when the first open turn is the storyteller's; always answers when the storyteller's turn has ended |
| Scoring.ValuateGuesses | back/imaginarium/mechanics.py:181-215 | the corrected `valuate_guesses`, in which a correct guesser who has left gets no points: phase becomes INTERLUDE; only scores change, and which players hold a numeric score is unchanged |
| Scoring.ValuateGuessesAsWritten | back/imaginarium/mechanics.py:181-215 | the source's `valuate_guesses` raises TypeError exactly when some but not all guesses found the lead card and a correct guesser's score is a `did_not_finish` text; otherwise, when every correct guesser is seated, it gives the same room as the corrected version |
| Scoring.AwardHitsAgree | back/imaginarium/mechanics.py:205-208 | when every correct guesser is seated and scored, the source's loop over correct guesses and the corrected one give the same scores |
| TurnInvariants.ValidScoringDefined | back/imaginarium/mechanics.py:181-215 | a valid started room whose wrong guesses name table cards meets every condition scoring needs |
| TurnInvariants.ScoringCrashesAfterLeaving | back/imaginarium/mechanics.py:203-208 | in a valid room in GUESSING where some guess missed, a player who guesses the lead card and then leaves makes the source's `valuate_guesses` raise; the corrected one keeps the room valid with the same cards |
| Scoring.ValuateMatchesReference | back/imaginarium/mechanics.py:181-215 | every player's new score equals an independent closed form, split by "all guessed the lead card", "none did" and "some did": storyteller penalty clamped at zero, storyteller 3 plus one per correct guess, 3 per correct guess if seated, one per guess on one's decoy if seated |
| Scoring.ValuateNoneHitAt | back/imaginarium/mechanics.py:196-215 | when nobody found the lead card, each player's new score is the closed form: storyteller loses two clamped at zero, plus one per guess on one's decoy if seated |
| Scoring.ValuateMixedAt | back/imaginarium/mechanics.py:203-215 | when some but not all found the lead card, each player's new score is the closed form: storyteller gains three plus one per correct guess, each seated correct guesser three, plus decoy points |
| Scoring.ValuateOnlyStorytellerLoses | back/imaginarium/mechanics.py:181-215 | no player other than the storyteller ever loses points in scoring |
| Scoring.ValuateMixedRewardsStoryteller | back/imaginarium/mechanics.py:200-205 | when some but not all guess the lead card, the storyteller gains at least four points |
| Scoring.ValuateValid | back/imaginarium/mechanics.py:181-215 | the corrected scoring keeps a valid room valid (scores stay non-negative), also when a correct guesser has left, and moves no card |
| Turns.EndTurn | back/imaginarium/mechanics.py:252-272 | the storyteller seat advances cyclically; table cards go to the bottom of the deck and hands are refilled from its front, so the new deck is a suffix of the old deck followed by the table cards; turn flags, lead card and association are cleared; phase becomes STORYTELLING; seating, scores, bets, guesses, winner and winning score are left as they were |
| TurnInvariants.EndTurnValid | back/imaginarium/mechanics.py:252-272 | ending a turn keeps a valid room valid |
| TurnInvariants.EndTurnConserves | back/imaginarium/mechanics.py:259-266 | returning the table to the deck and dealing conserves every card |
| TurnInvariants.EndTurnFills | back/imaginarium/mechanics.py:268-269 | when deck and returned table cards cover what hands lack, every hand is full after the turn ends |
| Victory.Finished | back/imaginarium/mechanics.py:274-283 | returns a player exactly when some seated player has a non-negative score reaching the winning score; the player returned is the first in seating order holding the maximum |
| Victory.EndGame | back/imaginarium/mechanics.py:285-287 | the room reaches VICTORY with the given winner; nothing else changes, so players, scores and cards are kept and a valid room stays valid |
| Membership.AddPlayer | back/imaginarium/mechanics.py:104-119 | the player sits last with turn ended, a suspended score is restored (else 0), a hand is dealt from the deck once the game is running, and the storyteller and other players are untouched |
| Membership.RemovePlayer | back/imaginarium/mechanics.py:121-133 | one seat is removed; before the game the score is forgotten; during the game the hand goes under the deck, the score is suspended and the storyteller index is reduced modulo the new table size |
| Membership.LeaveAndRejoinRestoresScore | back/imaginarium/mechanics.py:104-133 | leaving a running game and rejoining gives back the old score, a seat at the end and a freshly dealt hand |
| Membership.LeaveBeforeStartForgetsScore | back/imaginarium/mechanics.py:131-133 | leaving before the start and rejoining starts from zero |
| Membership.AddPlayerValid | back/imaginarium/mechanics.py:104-119 | joining keeps a valid room valid and conserves every card |
| Membership.RemovePlayerValid | back/imaginarium/mechanics.py:121-133 | leaving keeps a valid room valid and conserves every card |
| Membership.RemovePlayerFrame | back/imaginarium/mechanics.py:121-133 | leaving changes only the leaver's entries: their score stops counting as a number but keeps its value, their hand is emptied during a game, and every other player's score and hand stay as they were |
| ScoreText.Format | back/imaginarium/mechanics.py:130 | a departed player's score is written as `did_not_finish ` followed by its decimal digits |
| ScoreText.ParseFormat | back/imaginarium/mechanics.py:113-115 | the `did_not_finish N` text written on leaving reads back as N on rejoining |
| Snapshot.Voters | back/imaginarium/mechanics.py:289-294 | the voters of a card are exactly the players whose guess is that card |
| Snapshot.MakeView | back/imaginarium/mechanics.py:333-385 | the view shows the viewer's badge, hand and phase-dependent selected card, every other player, and the table cards in laying order |
| Snapshot.ViewHidesOwners | back/imaginarium/mechanics.py:359-368 | an owner is shown exactly on the viewer's own cards, and only players who guessed a card are listed as its voters |
| Snapshot.ViewListsEveryVoter | back/imaginarium/mechanics.py:289-294 | every player who guessed one of the viewer's cards is listed among its voters |
| Snapshot.ViewShowsOpponents | back/imaginarium/mechanics.py:336-340 | the opponents shown are exactly the other seated players |
| Board.HasLineIff | back/tic_tac_toe/Game.py:63-75 | the row, column and diagonal scans find a line exactly when one side holds one of the eight lines |
| Board.NewLineIsMover | back/tic_tac_toe/Game.py:59-75 | on a board without a line, a line completed by a new mark belongs to the mover, and the other side has none |
| Board.PlaceCounts | back/tic_tac_toe/Game.py:59 | marking an empty square adds one mark for the mover and none for the other side |
| TicTacToe.NewGame | back/tic_tac_toe/Game.py:83-88 | the board is empty and X is to move; the seats stay |
| TicTacToe.CheckWin | back/tic_tac_toe/Game.py:63-81 | a line gives a win for the mover, a full board without a line gives a draw, both reset the game; otherwise nothing changes |
| TicTacToe.Move | back/tic_tac_toe/Game.py:49-81 | refusals, in order: button outside 0..8, wrong side to move, occupied square; on an accepted move, with the mover's mark placed, the outcome is a win for the mover exactly when a line exists, a draw exactly when the board is full without a line, and play continues otherwise; a move that ends nothing marks only its square and passes the move; an ending move resets the board |
| TicTacToe.MoveKeepsPlayable | back/tic_tac_toe/Game.py:49-88 | every accepted move keeps mark counts balanced with the side to move and leaves no completed line |
| TicTacToe.WinBelongsToMover | back/tic_tac_toe/Game.py:59-75 | on a playable table, a reported win names the mover, whose mark completed one of their lines |
| TicTacToe.DrawIsXsMove | back/tic_tac_toe/Game.py:76-81 | on a playable table only X can make the drawing move |
| Seating.AddPlayer | back/tic_tac_toe/Game.py:29-39 | the player is seated; into a coin-chosen seat when both are free; into the free seat when exactly one is free, the other occupant staying put; when both are taken O's occupant is replaced |
| Seating.LeavePlayer | back/tic_tac_toe/Game.py:41-47 | frees the X seat if the player holds it, else the O seat, and reports which; reports nothing when the player holds no seat |
| Seating.JoinLeaveRoundTrip | back/tic_tac_toe/Game.py:29-47 | joining a free seat and leaving again restores the seats exactly |
| LegacyTicTacToe.AddPlayer | back/Game.py:31-41 | the seats become exactly those of the newer engine's seating rule; id, board, winner and move order untouched |
| LegacyTicTacToe.TwoJoinersFillTable | back/Game.py:31-41 | two different players joining a new table hold one seat each, whatever the coin; a third joiner takes O and leaves X alone |
| LegacyTicTacToe.CheckWin | back/Game.py:56-69 | answers true exactly when some line is uniform and non-empty, then recording the mover as winner; otherwise nothing changes |
| LegacyTicTacToe.Move | back/Game.py:43-54 | the same refusals as the newer engine; an accepted move marks the square, keeps the move order, and answers whether a line now exists |
| LegacyTicTacToe.OnlyXEverMoves | back/Game.py:43-54 | from a new table, after any sequence of requests, every move by anyone but X's holder is refused |
| LegacyTicTacToe.WinnerSticks | back/Game.py:56-69 | once a winner is recorded it is never cleared by later moves |
| SeatPlayer.JoinGame | back/tic_tac_toe/Player.py:14-21 | refused with no change when the player is already at a table or both seats are taken; otherwise the player remembers the table and the seats become those of the shared seating rule, displacing no one |
| SeatPlayer.LeaveGame | back/tic_tac_toe/Player.py:23-25 | the player forgets the table and the seat it held is freed |
| SeatPlayer.JoinThenLeave | back/tic_tac_toe/Player.py:14-25 | a free player joining a table with a free seat and leaving again restores both player and table |

## Left out

- Networking, persistence and logging (the Flask/websocket servers, id registries, `logger` calls) are not modelled. Ids drawn with `uuid1` or `randint` are parameters.
- Card sourcing (`_fix_packs`, `_packs_to_cards`, which read image files) and the shuffles are parameters of `Turns.StartGame`: the new card set and the new seating order.
- Looking up a card id in the card registry (`Card.card_ids[...]` in `make_bet`, `make_guess`, `add_lead_card`) is not modelled. Cards are their ids, so the KeyError for an unknown id is left out.
- The DIXIT rule set is never selected by the source (the setting is fixed to IMAGINARIUM), so only IMAGINARIUM scoring is modelled. The `move_time` setting and `players_to_start` are unused by the core and left out.
- Turns.StartGame keeps every score as it is, because `start_game` (back/imaginarium/mechanics.py:135-147) never assigns `result`.
- Scoring.ValuateGuesses requires `ScoringDefined`: a numeric storyteller score, every wrong guess on a table card, and numeric scores for seated decoy owners and seated correct guessers. In a valid room only the table condition is not automatic (TurnInvariants.ValidScoringDefined). The source raises KeyError or TypeError when the condition fails; that is not modelled.
- Scoring.ValuateGuesses does not raise as the source does: it gives no points to a correct guesser who has left, where `self.result[player] += 3` (back/imaginarium/mechanics.py:207) raises TypeError on the `did_not_finish` text. The storyteller still gets the point for that guess. The raising behaviour is Scoring.ValuateGuessesAsWritten, described under Findings.
- Scoring.ValuateGuessesAsWritten returns the exception only. By then the source has set INTERLUDE and changed the storyteller's and earlier guessers' scores; that half-updated room is not modelled.
- Turns.StartGame requires at least one player, because `self.players[self.turn]` (back/imaginarium/mechanics.py:146) raises IndexError on an empty room; that crash is not modelled.
- Membership.RemovePlayer requires more than one seat once the game has started, because the source's `turn %= len(players)` divides by zero when the last player leaves. It requires the leaver to be seated, because `list.remove` raises otherwise.
- Membership.AddPlayer requires that a score already recorded for the player is a suspended one. A numeric score makes the source's `.split()` raise. In a valid room this also excludes seating a player twice.
- Turns.StartTurn requires the chosen lead card to be in the storyteller's hand. `add_lead_card` never checks the card, and the `remove` in `start_turn` (back/imaginarium/mechanics.py:164) raises ValueError otherwise, after the association, flags, bets and table have already been overwritten; that crash and the half-updated room are not modelled.
- Turns.PlaceCards does not raise as the source does: it drops the bet of a player who no longer holds the bet card, where `self.hands[player].remove(card)` (back/imaginarium/mechanics.py:173) raises ValueError; the raising behaviour is Turns.PlaceCardsAsWritten, described under Findings.
- Turns.PlaceCardsAsWritten returns the exception only. The bets handled before the one that raises have already been moved in the source; that half-updated room is not modelled.
- The phase-advancing operations (`Turns.StartTurn`, `Turns.PlaceCards`, `Turns.EndTurn`) require a started game with a storyteller. That is what their uses in the source guarantee; they do not check their phase themselves.
- The `player.current_game` back-reference that `add_player` sets and `remove_player` clears (back/imaginarium/mechanics.py:110, 124) is not modelled: it is a field of the separate `Player` object, the room model identifies players by id, and nothing in the room reads it.
- Snapshot.MakeView models the content of the view, not its JSON layout. Display names are not modelled, so a badge carries the player id.
- ScoreText.Parse reads only texts of the shape `did_not_finish N` with N a non-negative decimal. Python's `split`/`int` accept more spellings, which the source never writes.
- The tic-tac-toe `__main__` console drivers and `get_all_ids` are not modelled.

## Findings

| source | as written | input that shows it | evidently intended | confidence | as-written member | corrected member |
|---|---|---|---|---|---|---|
| back/imaginarium/mechanics.py:218 | `self.guesses[player] is None` reads the guess with `[]`, which raises KeyError when the player has not guessed; stored guesses are never None | a room in GUESSING where a player, such as the storyteller, has made no guess, then `finish_turn(player)` | a player without a guess cannot end their turn during GUESSING, so the call does nothing | high, not executed | Actions.FinishTurnAsWritten, Actions.FinishTurnCrashes | Actions.FinishTurn |
| back/imaginarium/mechanics.py:172-173 | `place_cards` calls `self.hands[player].remove(card)` for every entry of `bets`, but `remove_player` (mechanics.py:128-129) empties a departing player's hand during a game and keeps their bet, so `remove` raises ValueError | a room in MATCHING where a player other than the storyteller calls `make_bet`, then `remove_player` for that player, then `place_cards` | the bet of a player who left is dropped and the other bets are placed | high, not executed | Turns.PlaceCardsAsWritten, TurnInvariants.PlaceCardsCrashesAfterLeaving | Turns.PlaceCards, TurnInvariants.PlaceCardsValid |
| back/imaginarium/mechanics.py:207 | in the mixed case `valuate_guesses` runs `self.result[player] += 3` for every correct guesser, but `remove_player` (mechanics.py:130) has turned a departed player's score into a `did_not_finish` text and kept their guess, so the addition raises TypeError; the decoy loop checks `card_owner in self.players` (line 214), this loop does not | a room in GUESSING where one player guessed a decoy, then another player (not the storyteller) calls `make_guess` with the lead card, then `remove_player` for that player, then `valuate_guesses` | a correct guesser who has left gets no points, like a departed decoy owner | high, not executed | Scoring.ValuateGuessesAsWritten, TurnInvariants.ScoringCrashesAfterLeaving | Scoring.ValuateGuesses, Scoring.ValuateValid |
