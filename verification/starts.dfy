/** What pressing the restart button (or mounting the component) does
    (`start_game_user`), for each outcome of the start transaction and of the
    word fetch that follows it. */
module Starts {
  import opened Messages
  import opened Remote
  import opened Session
  import opened App

  /** The state `startNewGame` leaves behind. */
  function NewGame(s: Session): (r: Session)
    ensures r.words == [] && r.input == "" && r.message == Blank
    ensures r.currentRow == Attempts && r.currentRow > 0
    ensures r.targetWord == s.targetWord
  {
    var us := StartNewGame().updates;
    CommitCons(s, us[0], us[1..]);
    CommitCons(Apply(s, us[0]), us[1], us[2..]);
    CommitCons(Apply(Apply(s, us[0]), us[1]), us[2], us[3..]);
    CommitCons(Apply(Apply(Apply(s, us[0]), us[1]), us[2]), us[3], []);
    Commit(s, us)
  }

  /** Pressing restart. */
  function Restart(s: Session, start: TxOutcome, fetch: FetchOutcome): Step {
    Perform(s, StartGameUser(start, fetch))
  }

  /** Without an account nothing happens at all. */
  lemma StartWithoutAccount(s: Session, fetch: FetchOutcome)
    ensures Restart(s, NoAccount, fetch) == Step(s, [], [])
  {
  }

  /** A start that is declined, fails, or cannot even look up the accounts
      leaves the game as it was and reports the failure; a decline is reported
      differently from every other failure. A failed lookup sends nothing and
      skips the signing notice. */
  lemma StartRejected(s: Session, start: TxOutcome, fetch: FetchOutcome)
    requires start.Declined? || start.Failed? || start.LookupFailed?
    ensures var t := Restart(s, start, fetch);
            var m := if start.Declined? then SignatureDeclined else StartError;
            t.after == s.(message := m)
            && t.shown == (if start.LookupFailed? then [] else [AwaitingSignature]) + [m]
            && t.calls == (if start.LookupFailed? then [] else [StartGameTx])
    ensures Text(Restart(s, Declined, fetch).after.message)
            != Text(Restart(s, Failed, fetch).after.message)
  {
  }

  lemma ConfirmedCommit(s: Session, fetch: FetchOutcome)
    ensures Commit(s, StartGameUser(Confirmed, fetch).updates)
            == NewGame(s).(targetWord := if fetch.Fetched? then fetch.word else s.targetWord)
  {
    var a := Effect([SetMessage(AwaitingSignature), SetMessage(GameStarted)], [StartGameTx]);
    var c := GetContractBalance(true);
    var d := GetCurrWordOwner(fetch);
    CommitThen(s, a, Then(StartNewGame(), Then(c, d)));
    MessagesOnly(s, a.updates);
    var s1 := Commit(s, a.updates);
    CommitThen(s1, StartNewGame(), Then(c, d));
    var s2 := NewGame(s1);
    CommitThen(s2, c, d);
    if fetch.Fetched? {
      CommitCons(s2, SetTargetWord(fetch.word), []);
    }
  }

  lemma ConfirmedShown(fetch: FetchOutcome)
    ensures Shown(StartGameUser(Confirmed, fetch).updates) == [AwaitingSignature, GameStarted, Blank]
  {
    var a := Effect([SetMessage(AwaitingSignature), SetMessage(GameStarted)], [StartGameTx]);
    var b := StartNewGame().updates;
    var c := GetContractBalance(true);
    var d := GetCurrWordOwner(fetch);
    var s := Mounted();
    CommitThen(s, a, Then(StartNewGame(), Then(c, d)));
    CommitThen(s, StartNewGame(), Then(c, d));
    CommitThen(s, c, d);
    ShownCons(a.updates[0], a.updates[1..]);
    ShownCons(a.updates[1], []);
    ShownCons(b[0], b[1..]);
    ShownCons(b[1], b[2..]);
    ShownCons(b[2], b[3..]);
    ShownCons(b[3], []);
    if fetch.Fetched? {
      ShownCons(d.updates[0], []);
    }
  }

  /** A confirmed start resets the game, leaves the status line blank (the
      success notice is overwritten by the reset), and takes the fetched word
      as the new target, keeping the old one when the fetch fails. */
  lemma StartConfirmed(s: Session, fetch: FetchOutcome)
    ensures var t := Restart(s, Confirmed, fetch);
            var target := if fetch.Fetched? then fetch.word else s.targetWord;
            t.after == NewGame(s).(targetWord := target)
            && t.after == Session([], Attempts, "", Blank, target)
            && t.shown == [AwaitingSignature, GameStarted, Blank]
            && t.calls == [StartGameTx, ContractBalanceRead, CurrentWordRead]
  {
    ConfirmedCommit(s, fetch);
    ConfirmedShown(fetch);
  }
}
