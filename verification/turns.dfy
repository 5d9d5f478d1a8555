/** What one press of the submit button does (`handleEnter`), stated against
    the state it starts from and the outcome of the guess transaction. */
module Turns {
  import opened Messages
  import opened Remote
  import opened Session
  import opened App

  /** Pressing the submit button with the text field as it is. */
  function Enter(s: Session, guess: TxOutcome): (t: Step)
    ensures t.after.targetWord == s.targetWord
  {
    EnterFrame(s, guess);
    Perform(s, HandleEnter(s, guess))
  }

  /** The guard chain lets the guess through. */
  predicate Accepts(s: Session) {
    s.input != "" && s.currentRow != -1 && |s.input| == |s.targetWord|
  }

  /** The status lines `check_word_user` sets for each outcome. */
  function GuessMessages(guess: TxOutcome): (ms: seq<Msg>)
    ensures ms == Shown(CheckWordUser("", guess).updates)
  {
    match guess
    case NoAccount => []
    case LookupFailed => [GuessError]
    case Confirmed => [AwaitingSignature]
    case Declined => [AwaitingSignature, SignatureDeclined]
    case Failed => [AwaitingSignature, GuessError]
  }

  /** What `check_word_user` reports, for every outcome: nothing without an
      account; the signing notice exactly when an account was found and the
      guess sent; the decline line exactly for code 4001; and an error line
      last exactly when something went wrong. It only ever sets the status
      line, and sends the guess exactly when an account was found. */
  lemma CheckWordUserReports(word: string, guess: TxOutcome)
    ensures var e := CheckWordUser(word, guess);
            var ms := Shown(e.updates);
            && (ms == [] <==> guess.NoAccount?)
            && (AwaitingSignature in ms <==> guess.FoundAccount())
            && (SignatureDeclined in ms <==> guess.Declined?)
            && ((ms != [] && ms[|ms| - 1] in [SignatureDeclined, GuessError])
                <==> guess.Declined? || guess.Failed? || guess.LookupFailed?)
            && (forall i :: 0 <= i < |e.updates| ==> e.updates[i].SetMessage?)
            && e.calls == (if guess.FoundAccount() then [GuessWordTx(word)] else [])
  {
    var e := CheckWordUser(word, guess);
    match guess {
      case NoAccount =>
      case LookupFailed =>
        ShownCons(e.updates[0], []);
      case Confirmed =>
        ShownCons(e.updates[0], []);
      case Declined =>
        ShownCons(e.updates[0], e.updates[1..]);
        ShownCons(e.updates[1], []);
      case Failed =>
        ShownCons(e.updates[0], e.updates[1..]);
        ShownCons(e.updates[1], []);
    }
  }

  lemma EnterFrame(s: Session, guess: TxOutcome)
    ensures Commit(s, HandleEnter(s, guess).updates).targetWord == s.targetWord
  {
    if Accepts(s) {
      AcceptedCommit(s, guess);
    } else if s.input != "" && s.currentRow != -1 {
      CommitCons(s, SetMessage(LengthMismatch(|s.targetWord|)), []);
    }
  }

  /** The state after the guess is recorded and sent, before the verdict. */
  lemma SentCommit(s: Session, guess: TxOutcome)
    requires Accepts(s)
    ensures var c := Commit(s, Submit(s, guess).updates);
            c.words == s.words + [s.input] && c.input == "" && c.targetWord == s.targetWord
            && c.currentRow == s.currentRow - 1
  {
    var a := [SetWords(s.words + [s.input]), SetInput(""), SetMessage(Checking)];
    var b := CheckWordUser(s.input, guess).updates;
    var c := [SetCurrentRow(s.currentRow - 1)];
    assert Submit(s, guess).updates == a + (b + c);
    CommitConcat(s, a, b + c);
    CommitCons(s, a[0], a[1..]);
    CommitCons(Apply(s, a[0]), a[1], a[2..]);
    CommitCons(Apply(Apply(s, a[0]), a[1]), a[2], []);
    var s1 := Commit(s, a);
    assert s1 == Session(s.words + [s.input], s.currentRow, "", Checking, s.targetWord);
    CommitConcat(s1, b, c);
    MessagesOnly(s1, b);
    CommitCons(Commit(s1, b), c[0], []);
  }

  /** The verdict batch, applied to any state. */
  lemma VerdictCommit(c: Session, s: Session, hasAccount: bool)
    requires Accepts(s)
    ensures var won := s.input == s.targetWord;
            var lost := !won && s.currentRow <= 1;
            Commit(c, Verdict(s, hasAccount).updates) ==
              c.(currentRow := if lost then -1 else c.currentRow,
                 message := if won then Correct else if lost then GameOver(s.targetWord) else Wrong)
  {
    var v := Verdict(s, hasAccount).updates;
    if s.input == s.targetWord {
      assert v == [SetMessage(Correct)];
      CommitCons(c, v[0], []);
    } else if s.currentRow <= 1 {
      assert v == [SetMessage(GameOver(s.targetWord)), SetCurrentRow(-1)];
      CommitCons(c, v[0], v[1..]);
      CommitCons(Apply(c, v[0]), v[1], []);
    } else {
      assert v == [SetMessage(Wrong)];
      CommitCons(c, v[0], []);
    }
  }

  /** The committed state of an accepted guess. */
  lemma AcceptedCommit(s: Session, guess: TxOutcome)
    requires Accepts(s)
    ensures var won := s.input == s.targetWord;
            var lost := !won && s.currentRow <= 1;
            Commit(s, HandleEnter(s, guess).updates) == Session(
              s.words + [s.input],
              if lost then -1 else s.currentRow - 1,
              "",
              if won then Correct else if lost then GameOver(s.targetWord) else Wrong,
              s.targetWord)
  {
    var pre := Submit(s, guess).updates;
    var v := Verdict(s, guess.FoundAccount()).updates;
    CommitConcat(s, pre, v);
    SentCommit(s, guess);
    VerdictCommit(Commit(s, pre), s, guess.FoundAccount());
  }

  /** An empty text field, or a finished game, makes the button do nothing:
      no state changes, no status line is set, no contract call is made. */
  lemma EnterIgnored(s: Session, guess: TxOutcome)
    requires s.input == "" || s.currentRow == -1
    ensures Enter(s, guess) == Step(s, [], [])
  {
  }

  /** A guess of the wrong length only sets the status line, which reports the
      target's length; nothing is recorded and nothing is sent. */
  lemma EnterLengthChecked(s: Session, guess: TxOutcome)
    requires s.input != "" && s.currentRow != -1 && |s.input| != |s.targetWord|
    ensures var t := Enter(s, guess);
            t.after == s.(message := LengthMismatch(|s.targetWord|))
            && t.shown == [LengthMismatch(|s.targetWord|)] && t.calls == []
  {
    CommitCons(s, SetMessage(LengthMismatch(|s.targetWord|)), []);
  }

  /** While no target word is known, no guess is ever recorded or sent. */
  lemma NoGuessWithoutTarget(s: Session, guess: TxOutcome)
    requires s.targetWord == ""
    ensures var t := Enter(s, guess);
            t.after.words == s.words && t.after.currentRow == s.currentRow
            && t.after.input == s.input && t.calls == []
  {
    if s.input != "" && s.currentRow != -1 {
      EnterLengthChecked(s, guess);
    }
  }

  /** An accepted guess is appended to the board and the text field cleared,
      and a row is used up whatever the guess transaction did: confirmed,
      declined, failed or never sent for want of an account. */
  lemma EnterConsumesTurn(s: Session, guess: TxOutcome)
    requires Accepts(s)
    ensures var t := Enter(s, guess);
            t.after.words == s.words + [s.input] && t.after.input == ""
            && (t.after.currentRow == s.currentRow - 1 || t.after.currentRow == -1)
  {
    AcceptedCommit(s, guess);
  }

  /** The outcome of the guess transaction has no effect on the state left
      behind: every failure is swallowed and its status line overwritten. */
  lemma EnterOutcomeIrrelevant(s: Session, g1: TxOutcome, g2: TxOutcome)
    ensures Enter(s, g1).after == Enter(s, g2).after
  {
    if Accepts(s) {
      AcceptedCommit(s, g1);
      AcceptedCommit(s, g2);
    }
  }

  /** A correct guess uses up one row by decrementing the counter rather than
      setting the game-over marker, and says so. Only a correct guess made at
      counter 0 reaches -1 this way. */
  lemma EnterWin(s: Session, guess: TxOutcome)
    requires Accepts(s) && s.input == s.targetWord
    ensures Enter(s, guess).after.currentRow == s.currentRow - 1
    ensures Enter(s, guess).after.message == Correct
  {
    AcceptedCommit(s, guess);
  }

  /** A wrong guess on the last row ends the game and reveals the answer. */
  lemma EnterLoss(s: Session, guess: TxOutcome)
    requires Accepts(s) && s.input != s.targetWord && s.currentRow <= 1
    ensures Enter(s, guess).after.currentRow == -1
    ensures Enter(s, guess).after.message == GameOver(s.targetWord)
    ensures Infix(s.targetWord, Text(Enter(s, guess).after.message))
  {
    AcceptedCommit(s, guess);
    GameOverRevealsAnswer(s.targetWord);
  }

  /** A wrong guess with rows to spare uses up one row. */
  lemma EnterWrong(s: Session, guess: TxOutcome)
    requires Accepts(s) && s.input != s.targetWord && s.currentRow > 1
    ensures Enter(s, guess).after.currentRow == s.currentRow - 1 >= 1
    ensures Enter(s, guess).after.message == Wrong
  {
    AcceptedCommit(s, guess);
  }

  lemma SubmitShown(s: Session, guess: TxOutcome)
    ensures Shown(Submit(s, guess).updates) == [Checking] + GuessMessages(guess)
  {
    var a := [SetWords(s.words + [s.input]), SetInput(""), SetMessage(Checking)];
    var b := CheckWordUser(s.input, guess).updates;
    var c := [SetCurrentRow(s.currentRow - 1)];
    assert Submit(s, guess).updates == a + (b + c);
    ShownConcat(a, b + c);
    ShownConcat(b, c);
    ShownCons(a[0], a[1..]);
    ShownCons(a[1], a[2..]);
    ShownCons(a[2], []);
    assert Shown(c) == [];
    assert Shown(b) == Shown(CheckWordUser("", guess).updates);
    assert Shown(b + c) == Shown(b);
  }

  lemma VerdictShown(s: Session, hasAccount: bool)
    requires Accepts(s)
    ensures var won := s.input == s.targetWord;
            var lost := !won && s.currentRow <= 1;
            Shown(Verdict(s, hasAccount).updates)
              == [if won then Correct else if lost then GameOver(s.targetWord) else Wrong]
  {
  }

  /** The status lines of an accepted guess: the checking notice, whatever
      the guess transaction reported, then the verdict, which stays. So a
      declined or failed guess is reported only until the verdict replaces it. */
  lemma EnterShown(s: Session, guess: TxOutcome)
    requires Accepts(s)
    ensures var t := Enter(s, guess);
            t.shown == [Checking] + GuessMessages(guess) + [t.after.message]
    ensures guess.Declined? ==> SignatureDeclined in Enter(s, guess).shown
                                && Enter(s, guess).after.message != SignatureDeclined
  {
    SubmitShown(s, guess);
    VerdictShown(s, guess.FoundAccount());
    ShownConcat(Submit(s, guess).updates, Verdict(s, guess.FoundAccount()).updates);
    AcceptedCommit(s, guess);
  }

  /** The contract calls of an accepted guess: the guess itself when the
      account lookup found an account, then a balance refresh when the game is
      won or lost. */
  lemma EnterCalls(s: Session, guess: TxOutcome)
    requires Accepts(s)
    ensures var t := Enter(s, guess);
            var finished := s.input == s.targetWord || s.currentRow <= 1;
            t.calls == (if !guess.FoundAccount() then []
                        else [GuessWordTx(s.input)] + (if finished then [ContractBalanceRead] else []))
  {
  }
}
