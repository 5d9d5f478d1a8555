/** The component's event handlers as pure functions.

    Each handler reads the snapshot it is given and returns an `Effect`: the
    setter calls it makes, in order, and the contract calls it sends through
    the wallet. Every remote call is replaced by its outcome, passed in as a
    parameter, so the asynchronous handlers become plain functions. `Perform`
    lets an effect take place.
 */
module App {
  import opened Messages
  import opened Remote
  import opened Session

  /** Rows of the board, and attempts of a new game. */
  const Attempts: int := 5

  datatype Effect = Effect(updates: seq<Update>, calls: seq<Call>)

  const Nothing: Effect := Effect([], [])

  /** `a` followed by `b`. */
  function Then(a: Effect, b: Effect): Effect {
    Effect(a.updates + b.updates, a.calls + b.calls)
  }

  lemma CommitThen(s: Session, a: Effect, b: Effect)
    ensures Commit(s, Then(a, b).updates) == Commit(Commit(s, a.updates), b.updates)
    ensures Shown(Then(a, b).updates) == Shown(a.updates) + Shown(b.updates)
  {
    CommitConcat(s, a.updates, b.updates);
    ShownConcat(a.updates, b.updates);
  }

  /** The outcome of a handler: the state it leaves, every status line it set
      on the way (the last one is the one left on screen), and the contract
      calls it made. */
  datatype Step = Step(after: Session, shown: seq<Msg>, calls: seq<Call>)

  function Perform(s: Session, e: Effect): (t: Step)
    ensures t.shown == [] ==> t.after.message == s.message
    ensures t.shown != [] ==> t.after.message == t.shown[|t.shown| - 1]
  {
    LastMessageWins(s, e.updates);
    Step(Commit(s, e.updates), Shown(e.updates), e.calls)
  }

  /** `startNewGame`: clear the board, the text field and the status line and
      grant a full set of attempts. */
  function StartNewGame(): Effect {
    Effect([SetWords([]), SetCurrentRow(Attempts), SetMessage(Blank), SetInput("")], [])
  }

  /** `getContractBalance`: a read whose result only feeds the balance readout,
      which is not part of the model. It finds an account exactly when the
      handler that calls it did. */
  function GetContractBalance(hasAccount: bool): Effect {
    if hasAccount then Effect([], [ContractBalanceRead]) else Nothing
  }

  /** `get_curr_word_owner`: on success the fetched word becomes the target;
      a failure is swallowed. */
  function GetCurrWordOwner(fetch: FetchOutcome): Effect {
    match fetch
    case Fetched(w) => Effect([SetTargetWord(w)], [CurrentWordRead])
    case FetchFailed => Effect([], [CurrentWordRead])
  }

  /** `check_word_user`: send the guess; every failure is caught and only
      changes the status line. */
  function CheckWordUser(word: string, outcome: TxOutcome): Effect {
    match outcome
    case NoAccount => Nothing
    case LookupFailed => Effect([SetMessage(GuessError)], [])
    case Confirmed => Effect([SetMessage(AwaitingSignature)], [GuessWordTx(word)])
    case Declined =>
      Effect([SetMessage(AwaitingSignature), SetMessage(SignatureDeclined)], [GuessWordTx(word)])
    case Failed =>
      Effect([SetMessage(AwaitingSignature), SetMessage(GuessError)], [GuessWordTx(word)])
  }

  /** `start_game_user`: pay for a new game; on success reset the board,
      refresh the balance and fetch the new target word. */
  function StartGameUser(start: TxOutcome, fetch: FetchOutcome): Effect {
    match start
    case NoAccount => Nothing
    case LookupFailed => Effect([SetMessage(StartError)], [])
    case Declined =>
      Effect([SetMessage(AwaitingSignature), SetMessage(SignatureDeclined)], [StartGameTx])
    case Failed =>
      Effect([SetMessage(AwaitingSignature), SetMessage(StartError)], [StartGameTx])
    case Confirmed =>
      Then(Effect([SetMessage(AwaitingSignature), SetMessage(GameStarted)], [StartGameTx]),
      Then(StartNewGame(),
      Then(GetContractBalance(true),
           GetCurrWordOwner(fetch))))
  }

  /** The part of `handleEnter` after validation: record the guess, clear the
      text field, send the guess and use up a row, whatever the outcome. */
  function Submit(s: Session, guess: TxOutcome): Effect {
    Then(Effect([SetWords(s.words + [s.input]), SetInput(""), SetMessage(Checking)], []),
    Then(CheckWordUser(s.input, guess),
         Effect([SetCurrentRow(s.currentRow - 1)], [])))
  }

  /** The verdict part of `handleEnter`, run after the guess was sent and the
      row counter decremented. */
  function Verdict(s: Session, hasAccount: bool): Effect
    requires s.input != "" && s.currentRow != -1 && |s.input| == |s.targetWord|
  {
    if s.input == s.targetWord then
      Then(Effect([SetMessage(Correct)], []), GetContractBalance(hasAccount))
    else if s.currentRow <= 1 then
      Then(Effect([SetMessage(GameOver(s.targetWord)), SetCurrentRow(-1)], []),
           GetContractBalance(hasAccount))
    else
      Effect([SetMessage(Wrong)], [])
  }

  /** `handleEnter`: validate the text field, then record the guess, send it,
      use up a row and report the verdict. */
  function HandleEnter(s: Session, guess: TxOutcome): Effect {
    if s.input == "" then Nothing
    else if s.currentRow == -1 then Nothing
    else if |s.input| != |s.targetWord| then
      Effect([SetMessage(LengthMismatch(|s.targetWord|))], [])
    else
      Then(Submit(s, guess), Verdict(s, guess.FoundAccount()))
  }

  /** The `onChange` handler of the text field. */
  function TypeInput(text: string): Effect {
    Effect([SetInput(text)], [])
  }
}
