/** The component's state and the way its setters take effect.

    The component holds five pieces of state. A handler reads them from the
    snapshot it was called with and schedules setter calls; once it has run,
    the setters take effect in the order they were called, so for each piece
    of state the last call wins. `Commit` is that rule.
 */
module Session {
  import opened Messages

  datatype Session = Session(
    words: seq<string>,   // submitted guesses, oldest first
    currentRow: int,      // attempts left; -1 once the game is over
    input: string,        // the text field
    message: Msg,         // the status line
    targetWord: string)   // the answer fetched from the contract

  /** The state right after mounting: every `useState` initial value. */
  function Mounted(): Session {
    Session([], 0, "", Blank, "")
  }

  /** One setter call. */
  datatype Update =
    | SetWords(words: seq<string>)
    | SetCurrentRow(row: int)
    | SetInput(input: string)
    | SetMessage(message: Msg)
    | SetTargetWord(word: string)

  function Apply(s: Session, u: Update): Session {
    match u
    case SetWords(w) => s.(words := w)
    case SetCurrentRow(r) => s.(currentRow := r)
    case SetInput(i) => s.(input := i)
    case SetMessage(m) => s.(message := m)
    case SetTargetWord(t) => s.(targetWord := t)
  }

  /** The state after the setter calls `us`, made in that order, take effect. */
  function Commit(s: Session, us: seq<Update>): Session
    decreases |us|
  {
    if us == [] then s else Commit(Apply(s, us[0]), us[1..])
  }

  /** The status lines set by `us`, in the order they were set. */
  function Shown(us: seq<Update>): (ms: seq<Msg>)
    ensures |ms| <= |us|
    decreases |us|
  {
    if us == [] then []
    else if us[0].SetMessage? then [us[0].message] + Shown(us[1..])
    else Shown(us[1..])
  }

  /** Setter calls made in two batches take effect as one batch. */
  lemma {:induction false} CommitConcat(s: Session, a: seq<Update>, b: seq<Update>)
    ensures Commit(s, a + b) == Commit(Commit(s, a), b)
    decreases |a|
  {
    if a == [] {
      assert a + b == b;
    } else {
      assert (a + b)[0] == a[0];
      assert (a + b)[1..] == a[1..] + b;
      CommitConcat(Apply(s, a[0]), a[1..], b);
    }
  }

  /** The first setter call takes effect first. */
  lemma CommitCons(s: Session, u: Update, rest: seq<Update>)
    ensures Commit(s, [u] + rest) == Commit(Apply(s, u), rest)
  {
  }

  /** A batch that only sets the status line changes nothing else. */
  lemma {:induction false} MessagesOnly(s: Session, us: seq<Update>)
    requires forall i :: 0 <= i < |us| ==> us[i].SetMessage?
    ensures Commit(s, us) == s.(message := Commit(s, us).message)
    decreases |us|
  {
    if us != [] {
      MessagesOnly(Apply(s, us[0]), us[1..]);
    }
  }

  lemma ShownCons(u: Update, rest: seq<Update>)
    ensures Shown([u] + rest) == (if u.SetMessage? then [u.message] else []) + Shown(rest)
  {
  }

  lemma ShownConcat(a: seq<Update>, b: seq<Update>)
    ensures Shown(a + b) == Shown(a) + Shown(b)
    decreases |a|
  {
    if a == [] {
      assert a + b == b;
    } else {
      assert (a + b)[0] == a[0];
      assert (a + b)[1..] == a[1..] + b;
      ShownConcat(a[1..], b);
    }
  }

  /** Last call wins: the status line after a batch is the last one the batch
      set, and the old one when it set none. */
  lemma {:induction false} LastMessageWins(s: Session, us: seq<Update>)
    ensures var ms := Shown(us);
            Commit(s, us).message == (if ms == [] then s.message else ms[|ms| - 1])
    decreases |us|
  {
    if us != [] {
      LastMessageWins(Apply(s, us[0]), us[1..]);
    }
  }

}
