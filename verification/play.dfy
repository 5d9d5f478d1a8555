/** Whole sessions: any sequence of user actions from mounting on, and the
    invariants every state they reach keeps. One action finishes before the
    next begins. */
module Play {
  import opened Messages
  import opened Remote
  import opened Session
  import opened App
  import opened Turns
  import opened Starts
  import opened Board

  datatype Action =
    | Typed(text: string)                               // the text field changed
    | Pressed(guess: TxOutcome)                         // the submit button
    | Restarted(start: TxOutcome, fetch: FetchOutcome)  // the restart button, or mounting

  function Act(s: Session, a: Action): Session {
    match a
    case Typed(text) => Commit(s, TypeInput(text).updates)
    case Pressed(guess) => Enter(s, guess).after
    case Restarted(start, fetch) => Restart(s, start, fetch).after
  }

  function Run(s: Session, acts: seq<Action>): Session
    decreases |acts|
  {
    if acts == [] then s else Run(Act(s, acts[0]), acts[1..])
  }

  /** The state of a game that has been started: rows left and guesses made
      add up to the attempts of a new game until the game ends, when the row
      counter is -1; at most one guess more than there are rows is recorded. */
  predicate Playing(s: Session) {
    && -1 <= s.currentRow <= Attempts
    && |s.words| <= Attempts + 1
    && AllFit(s.words, s.targetWord)
    && (s.currentRow >= 0 ==> |s.words| + s.currentRow == Attempts)
  }

  /** The state before any start transaction went through. */
  predicate Unstarted(s: Session) {
    s.words == [] && s.currentRow == 0
  }

  predicate Consistent(s: Session) {
    Unstarted(s) || Playing(s)
  }

  lemma TypedKeeps(s: Session, text: string)
    ensures Act(s, Typed(text)) == s.(input := text)
  {
    assert TypeInput(text).updates == [SetInput(text)];
    CommitCons(s, SetInput(text), []);
    assert [SetInput(text)] + [] == [SetInput(text)];
  }

  /** Every action keeps a started game consistent, and a confirmed start
      starts one from any state. */
  lemma PlayingKept(s: Session, a: Action)
    requires Playing(s)
    ensures Playing(Act(s, a))
  {
    match a
    case Typed(text) => TypedKeeps(s, text);
    case Pressed(guess) =>
      if Accepts(s) {
        AcceptedCommit(s, guess);
        var s' := Act(s, a);
        assert s'.words == s.words + [s.input];
        forall i | 0 <= i < |s'.words| ensures |s'.words[i]| == |s'.targetWord| {
          if i < |s.words| {
            assert s'.words[i] == s.words[i];
          }
        }
      } else if s.input != "" && s.currentRow != -1 {
        EnterLengthChecked(s, guess);
      } else {
        EnterIgnored(s, guess);
      }
    case Restarted(start, fetch) =>
      if start.Confirmed? {
        StartConfirmed(s, fetch);
      } else if start.NoAccount? {
        StartWithoutAccount(s, fetch);
      } else {
        StartRejected(s, start, fetch);
      }
  }

  lemma ConsistentKept(s: Session, a: Action)
    requires Consistent(s)
    ensures Consistent(Act(s, a))
  {
    if Playing(s) {
      PlayingKept(s, a);
    } else {
      match a
      case Typed(text) => TypedKeeps(s, text);
      case Pressed(guess) =>
        if Accepts(s) {
          AcceptedCommit(s, guess);
        } else if s.input != "" && s.currentRow != -1 {
          EnterLengthChecked(s, guess);
        } else {
          EnterIgnored(s, guess);
        }
      case Restarted(start, fetch) =>
        if start.Confirmed? {
          StartConfirmed(s, fetch);
        } else if start.NoAccount? {
          StartWithoutAccount(s, fetch);
        } else {
          StartRejected(s, start, fetch);
        }
    }
  }

  lemma {:induction false} RunKeepsPlaying(s: Session, acts: seq<Action>)
    requires Playing(s)
    ensures Playing(Run(s, acts))
    decreases |acts|
  {
    if acts != [] {
      PlayingKept(s, acts[0]);
      RunKeepsPlaying(Act(s, acts[0]), acts[1..]);
    }
  }

  lemma {:induction false} RunKeepsConsistent(s: Session, acts: seq<Action>)
    requires Consistent(s)
    ensures Consistent(Run(s, acts))
    decreases |acts|
  {
    if acts != [] {
      ConsistentKept(s, acts[0]);
      RunKeepsConsistent(Act(s, acts[0]), acts[1..]);
    }
  }

  /** Every state reachable from mounting is consistent; every state after a
      confirmed start satisfies the started-game invariant. Its row-count
      conjunct, already part of `Playing`, is repeated for readability. */
  lemma Reachable(acts: seq<Action>, fetch: FetchOutcome, later: seq<Action>)
    ensures Consistent(Run(Mounted(), acts))
    ensures var s := Run(Run(Mounted(), acts), [Restarted(Confirmed, fetch)] + later);
            Playing(s) && (s.currentRow >= 0 ==> |s.words| + s.currentRow == Attempts)
  {
    RunKeepsConsistent(Mounted(), acts);
    var s0 := Run(Mounted(), acts);
    StartConfirmed(s0, fetch);
    assert ([Restarted(Confirmed, fetch)] + later)[1..] == later;
    RunKeepsPlaying(Act(s0, Restarted(Confirmed, fetch)), later);
  }

  /** No restart among the actions. */
  predicate NoRestart(acts: seq<Action>) {
    forall i :: 0 <= i < |acts| ==> !acts[i].Restarted?
  }

  /** Once the game is over only a restart changes the board or the row
      counter; typing and pressing submit change at most the text field. */
  lemma {:induction false} GameOverAbsorbs(s: Session, acts: seq<Action>)
    requires s.currentRow == -1 && NoRestart(acts)
    ensures var e := Run(s, acts);
            e.currentRow == -1 && e.words == s.words && e.message == s.message
            && e.targetWord == s.targetWord
    decreases |acts|
  {
    if acts != [] {
      var s1 := Act(s, acts[0]);
      match acts[0] {
        case Typed(text) => TypedKeeps(s, text);
        case Pressed(guess) => EnterIgnored(s, guess);
      }
      assert NoRestart(acts[1..]) by {
        forall i | 0 <= i < |acts[1..]| ensures !acts[1..][i].Restarted? {
          assert acts[1..][i] == acts[i + 1];
        }
      }
      GameOverAbsorbs(s1, acts[1..]);
    }
  }

  /** A correct guess fills its row with marked cells when there is a row to
      draw it in. */
  lemma WinMarksRow(s: Session, guess: TxOutcome)
    requires Playing(s) && Accepts(s) && s.input == s.targetWord && |s.words| < BoardRows
    ensures var a := Enter(s, guess).after;
            forall c :: 0 <= c < |a.targetWord| ==>
              CellAt(a.words, a.targetWord, |s.words|, c).grade == Match
  {
    AcceptedCommit(s, guess);
    var a := Enter(s, guess).after;
    RowAllMatchIff(a.words, a.targetWord, |s.words|);
  }

  /** A win on the last row leaves the row counter at 0, not -1. */
  lemma WinOnLastRow()
    ensures var s := Session(["xy", "xy", "xy", "xy"], 1, "ab", Blank, "ab");
            Playing(s)
            && Enter(s, Confirmed).after == Session(["xy", "xy", "xy", "xy", "ab"], 0, "", Correct, "ab")
  {
    var s := Session(["xy", "xy", "xy", "xy"], 1, "ab", Blank, "ab");
    AcceptedCommit(s, Confirmed);
  }

  /** A win on the last row leaves the counter at 0, not -1: another guess of
      the right length is still accepted and recorded, whatever the two
      transactions did, as a sixth guess that ends the game and that the board
      never draws. */
  lemma GuessAfterLastRowWin(s: Session, w: string, g1: TxOutcome, g2: TxOutcome)
    requires Playing(s) && Accepts(s) && s.input == s.targetWord && s.currentRow == 1
    requires w != "" && |w| == |s.targetWord|
    ensures var won := Enter(s, g1).after;
            var again := Enter(won.(input := w), g2).after;
            && won.currentRow == 0 && won.message == Correct && |won.words| == Attempts
            && again.words == won.words + [w] && |again.words| == Attempts + 1
            && again.currentRow == -1
            && again.message == (if w == s.targetWord then Correct else GameOver(s.targetWord))
            && BoardOf(again.words, s.targetWord) == BoardOf(won.words, s.targetWord)
  {
    AcceptedCommit(s, g1);
    var won := Enter(s, g1).after;
    AcceptedCommit(won.(input := w), g2);
    var again := Enter(won.(input := w), g2).after;
    OnlyFirstRowsDrawn(again.words, s.targetWord);
    assert again.words[..BoardRows] == won.words;
  }
}
