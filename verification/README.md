# Crypto Wordle: the client-side turn state machine

The game is a word-guessing screen in a single React component. The target
word, the scoring and the payout live in a blockchain contract. The screen
reaches it through a browser wallet. What the component decides by itself is
small:

- `handleEnter` is the submit button. It checks the text field, records the
  guess, sends it as a transaction, uses up a row and reports the verdict.
- `startNewGame` resets the board.
- `start_game_user` is the restart button, also run once on mount. It pays for
  a game, resets the board and fetches the new target word.
- The board marks a cell when the guess has the target's letter in that column.

This project models exactly that, as pure functions over an immutable
`Session` record:

- **Modules.** `Session` holds the state and the setter calls, with `Commit`,
  the rule that the last setter call for each piece of state wins. `App` holds
  the handlers: each returns the setter calls and contract calls it makes, in
  order. `Remote` holds the outcomes of the contract calls. `Messages` holds
  the status line as a datatype, rendered by `Text` with the component's own
  strings. `Board` holds the grid.
- **Properties.** `Turns` and `Starts` state what one press of each button
  does. `Play` holds the invariants of whole sessions.
- **Remote calls.** Each contract call (`startGame`, `guessWord`,
  `getCurrentWord`) becomes a parameter: `Confirmed`, `Declined` (wallet error
  code 4001), `Failed`, `NoAccount`, `LookupFailed` (the account lookup itself
  threw, so nothing was sent), or `Fetched(word)` / `FetchFailed` for the
  read.
- **Snapshots.** A handler reads the state as it was when it was called.

The model keeps the component's quirks:

- A correct guess decrements the row counter instead of setting the game-over
  marker `-1`. Guesses stay accepted while the counter is at least 0. After a
  win on the last row the counter is 0, so a sixth guess is still recorded;
  it ends the game (the counter reaches -1 either way) and the board never
  draws it (`GuessAfterLastRowWin`).
- The guess transaction cannot stop a turn. `check_word_user` swallows every
  error, so a declined or failed guess still uses up its row. Its error
  message is overwritten by the verdict (`EnterOutcomeIrrelevant`,
  `EnterShown`).
- Before the first successful start, the target word is empty. No guess is
  accepted then (`NoGuessWithoutTarget`). The initial row counter is 0, so the
  row-count invariant only holds once a game has started (`Play.Playing`).

The code grades cells only as an exact letter match; it has
no "present elsewhere" grade. It keeps no busy flag. The difficulty button has
no handler in this component.

## Model

| member | source | states |
|---|---|---|
| `Session.LastMessageWins` | dapp_project2/crypto_wordle/cotracts_app/App.js:167-181 | After a batch of setter calls, the status line is the last one set, or the old one if none was set |
| `Session.CommitConcat` | dapp_project2/crypto_wordle/cotracts_app/App.js:163-182 | Setter calls split over an await take effect as one batch in call order |
| `App.Perform` | dapp_project2/crypto_wordle/cotracts_app/App.js:167-181 | The status line a handler leaves on screen is the last one it set; a handler that sets none leaves it unchanged |
| `Starts.NewGame` | dapp_project2/crypto_wordle/cotracts_app/App.js:148-153 | `startNewGame` leaves no guesses, 5 rows, an empty text field and a blank status line, and keeps the target word |
| `Turns.CheckWordUserReports` | dapp_project2/crypto_wordle/cotracts_app/App.js:94-123 | For every outcome, `check_word_user` touches only the status line. It sets nothing iff no account was found. It shows the signing notice iff an account was found, and sends the guess iff so. The decline line appears iff the wallet answered 4001. It ends on an error line iff the send or the lookup failed |
| `Turns.Enter` | dapp_project2/crypto_wordle/cotracts_app/App.js:155-184 | Pressing submit never changes the target word |
| `Turns.EnterIgnored` | dapp_project2/crypto_wordle/cotracts_app/App.js:156-157 | With an empty text field or row counter -1, submit changes nothing, shows nothing and calls nothing |
| `Turns.EnterLengthChecked` | dapp_project2/crypto_wordle/cotracts_app/App.js:158-161 | A guess of the wrong length only sets the mismatch line with the target's length; no guess recorded, no call made |
| `Turns.NoGuessWithoutTarget` | dapp_project2/crypto_wordle/cotracts_app/App.js:155-161 | While the target word is empty, submit never records a guess, never moves the row counter and never calls the contract |
| `Turns.AcceptedCommit` | dapp_project2/crypto_wordle/cotracts_app/App.js:163-182 | An accepted guess: guesses gain the input at the end and the text field is cleared. The row counter becomes -1 on a wrong last-row guess and drops by one otherwise. The status line is the verdict |
| `Turns.EnterConsumesTurn` | dapp_project2/crypto_wordle/cotracts_app/App.js:163-170 | For every outcome of the guess transaction, the guess is appended, the field cleared and a row used up |
| `Turns.EnterOutcomeIrrelevant` | dapp_project2/crypto_wordle/cotracts_app/App.js:114-122 | The state after submit is the same whatever the guess transaction did, because its errors are swallowed |
| `Turns.EnterWin` | dapp_project2/crypto_wordle/cotracts_app/App.js:170-174 | A correct guess decrements the row counter rather than setting the -1 marker, and shows the correct message. At counter 0 that decrement itself reaches -1 |
| `Turns.EnterLoss` | dapp_project2/crypto_wordle/cotracts_app/App.js:175-179 | A wrong guess with row counter at most 1 sets it to -1 with the game-over line, whose text contains the target word |
| `Turns.EnterWrong` | dapp_project2/crypto_wordle/cotracts_app/App.js:180-182 | A wrong guess with more than one row left drops the counter by one, to at least 1, with the wrong message |
| `Turns.EnterShown` | dapp_project2/crypto_wordle/cotracts_app/App.js:163-182 | An accepted guess shows the checking notice, then whatever the transaction reported, then the verdict. A decline is shown but does not stay |
| `Turns.EnterCalls` | dapp_project2/crypto_wordle/cotracts_app/App.js:168-179 | An accepted guess sends the guess only when the account lookup found an account. It then reads the balance after a win or a loss only. A missing account or a failed lookup sends nothing |
| `Starts.StartWithoutAccount` | dapp_project2/crypto_wordle/cotracts_app/App.js:44-47 | With no account, restart changes nothing and calls nothing |
| `Starts.StartRejected` | dapp_project2/crypto_wordle/cotracts_app/App.js:38-69 | A declined or failed start, or a failed account lookup, changes only the status line: the decline line for code 4001, a different error line otherwise. Guesses and rows are kept. A failed lookup sends nothing and shows no signing notice |
| `Starts.StartConfirmed` | dapp_project2/crypto_wordle/cotracts_app/App.js:49-59 | A confirmed start resets the board and leaves a blank status line. The target becomes the fetched word, or stays the old one if the fetch fails. It calls start, balance, word in that order |
| `Messages.DecimalRoundTrip` | dapp_project2/crypto_wordle/cotracts_app/App.js:159 | The letter count printed in the mismatch line reads back as the count itself |
| `Messages.MismatchShowsCount` | dapp_project2/crypto_wordle/cotracts_app/App.js:159 | Two mismatch lines have the same text exactly when they report the same count |
| `Messages.GameOverRevealsAnswer` | dapp_project2/crypto_wordle/cotracts_app/App.js:176 | The game-over line contains the answer verbatim, right after its fixed prefix |
| `Board.CellAt` | dapp_project2/crypto_wordle/cotracts_app/App.js:200-205 | A cell is marked "correct" iff its row has a guess with a letter in that column equal to the target's. It shows that letter if any, otherwise nothing |
| `Board.BoardShowsGuesses` | dapp_project2/crypto_wordle/cotracts_app/App.js:197-209 | When every guess has the target's length, row r of the board spells guess r letter by letter. Rows without a guess are empty and unmarked. For a non-empty target, a row is fully marked iff its guess is the target |
| `Board.RowAllMatchIff` | dapp_project2/crypto_wordle/cotracts_app/App.js:201-203 | A full-length guess's row is entirely marked iff the guess equals the target, which agrees with the win test |
| `Board.OnlyFirstRowsDrawn` | dapp_project2/crypto_wordle/cotracts_app/App.js:197 | Guesses after the fifth never change the board |
| `Play.TypedKeeps` | dapp_project2/crypto_wordle/cotracts_app/App.js:219 | Typing replaces the text field and nothing else |
| `Play.PlayingKept` | dapp_project2/crypto_wordle/cotracts_app/App.js:148-184 | Every action keeps a started game's invariant: row counter in -1..5, guesses plus rows equal 5 while the row is ≥ 0, at most 6 guesses, each of the target's length |
| `Play.ConsistentKept` | dapp_project2/crypto_wordle/cotracts_app/App.js:7-12 | From the mounted state (no guesses, row 0) every action leads to a state that is still unstarted or a started game |
| `Play.RunKeepsPlaying` | dapp_project2/crypto_wordle/cotracts_app/App.js:148-184 | Any sequence of actions keeps a started game's invariant |
| `Play.RunKeepsConsistent` | dapp_project2/crypto_wordle/cotracts_app/App.js:7-12 | Any sequence of actions from a consistent state stays consistent |
| `Play.Reachable` | dapp_project2/crypto_wordle/cotracts_app/App.js:148-153 | Every state reachable from mount is consistent. After a confirmed start, every later state has guesses plus rows equal to 5 whenever the row counter is ≥ 0 |
| `Play.GameOverAbsorbs` | dapp_project2/crypto_wordle/cotracts_app/App.js:157 | Once the row counter is -1, typing and submitting never change the guesses, counter, status line or target; only a restart does |
| `Play.WinMarksRow` | dapp_project2/crypto_wordle/cotracts_app/App.js:170-173 | After a correct guess made within the first five rows, every cell of its row is marked "correct" |
| `Play.WinOnLastRow` | dapp_project2/crypto_wordle/cotracts_app/App.js:170-173 | Witness: a correct guess with one row left leaves the counter at 0, not at the game-over marker -1 |
| `Play.GuessAfterLastRowWin` | dapp_project2/crypto_wordle/cotracts_app/App.js:170-178 | For every started game with one row left and the target in the field: the win leaves the counter at 0, not -1, with 5 guesses. Any further guess of the right length is then accepted as a sixth guess. It sets the counter to -1, shows the correct or game-over line, and leaves the board unchanged |

## Left out

- The wallet and contract plumbing is left out: provider construction, contract construction and the account lookup. Only its outcomes are modelled, as parameters. These are foreign library and network calls.
- `getContractBalance` is left out apart from the fact that it is called. Its result only feeds the balance readout, through a library's wei-to-ether formatting, and never touches game state.
- App.GetContractBalance: assumes the wallet's account list does not change during one handler. A guess that found no account is followed by no balance read.
- App.CheckWordUser: an exception from the account lookup is `LookupFailed` and shows the generic error line. One that carried error code 4001 would show the decline line instead; a lookup error with that code is not modelled.
- App.StartGameUser: the same holds for the start-time account lookup.
- The commented-out wallet bootstrap, console logging and all markup except the board cells are left out. They have no effect on state.
- The difficulty button is left out. It has no handler in this component, so there is no multiplier or attempt reduction to model.
- Re-entrancy is left out: a second press while a transaction is pending, or a stale response landing after a restart. Each action is taken to finish before the next begins. React batching and render timing are left out for the same reason.
- Mounting is not a separate transition. The mount effect runs `start_game_user` once. Here that is a `Restarted` action, and `Play.Reachable` covers every action sequence from the mounted state, including those that start with it.
- String lengths count Unicode scalar values. JavaScript counts UTF-16 code units. The two agree on every character outside the supplementary planes, which includes Hangul and ASCII.
- The row counter is an unbounded integer. JavaScript numbers are doubles, and the counter only takes values from -1 to 5.
