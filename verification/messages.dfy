/** The status line of the game screen.

    The component keeps its status line as a display string; here each string
    it can show is a constructor of `Msg`, and `Text` renders it exactly as the
    component writes it (including the decimal letter count and the revealed
    answer, which the component splices in with template literals).
 */
module Messages {

  datatype Msg =
    | Blank                        // the empty status line
    | AwaitingSignature            // the wallet has been asked to sign
    | GameStarted                  // the start transaction went through
    | SignatureDeclined            // the wallet reported error code 4001
    | StartError                   // any other failure while starting
    | GuessError                   // any other failure while sending a guess
    | LengthMismatch(count: nat)   // the guess does not have `count` letters
    | Checking                     // a guess is being checked
    | Correct                      // the guess equals the target word
    | GameOver(answer: string)     // the last attempt is used up; reveals the answer
    | Wrong                        // a wrong guess with attempts left

  /** The character of the decimal digit `k`. */
  function Digit(k: nat): (c: char)
    requires k < 10
    ensures '0' <= c <= '9' && c as int - '0' as int == k
  {
    ('0' as int + k) as char
  }

  predicate IsDigits(s: string) {
    forall i :: 0 <= i < |s| ==> '0' <= s[i] <= '9'
  }

  /** Decimal notation of `n` without leading zeros, as a JavaScript template
      literal prints a non-negative integer. */
  function Decimal(n: nat): (r: string)
    ensures |r| >= 1 && IsDigits(r)
    ensures r[0] == '0' ==> n == 0
  {
    if n < 10 then [Digit(n)] else Decimal(n / 10) + [Digit(n % 10)]
  }

  /** Reads a string of decimal digits back as a number. */
  function DecimalValue(s: string): nat
    requires IsDigits(s)
  {
    if s == [] then 0
    else DecimalValue(s[..|s| - 1]) * 10 + (s[|s| - 1] as int - '0' as int)
  }

  /** Reading the rendered count gives the count back: the length shown in the
      mismatch message is the target word's length and nothing else. */
  lemma {:induction false} DecimalRoundTrip(n: nat)
    ensures DecimalValue(Decimal(n)) == n
  {
    var r := Decimal(n);
    if n < 10 {
      assert r == [Digit(n)];
      assert r[..0] == [];
    } else {
      var q, d := n / 10, n % 10;
      DecimalRoundTrip(q);
      assert r == Decimal(q) + [Digit(d)];
      assert r[..|r| - 1] == Decimal(q);
      assert DecimalValue(r) == DecimalValue(Decimal(q)) * 10 + d;
      assert n == q * 10 + d;
    }
  }

  lemma DecimalInjective(n: nat, m: nat)
    ensures Decimal(n) == Decimal(m) ==> n == m
  {
    DecimalRoundTrip(n);
    DecimalRoundTrip(m);
  }

  const MismatchPrefix: string := "입력한 알파벳이 "
  const MismatchSuffix: string := "개 가 아니에요!!!"
  const GameOverPrefix: string := "게임이 종료되었습니다, 정답은 ("
  const GameOverSuffix: string := ")이 었습니다"

  /** The string the component shows for each status. */
  function Text(m: Msg): string {
    match m
    case Blank => ""
    case AwaitingSignature => "서명 요청 중... MetaMask를 확인하세요."
    case GameStarted => "게임이 성공적으로 시작되었습니다!"
    case SignatureDeclined => "트랜잭션 서명이 거부되었습니다. 다시 시도하세요."
    case StartError => "게임 시작 중 오류가 발생했습니다. 나중에 다시 시도하세요."
    case GuessError => "정답 확인 중 오류가 발생했습니다. 나중에 다시 시도하세요."
    case LengthMismatch(n) => MismatchPrefix + Decimal(n) + MismatchSuffix
    case Checking => "답을 확인중 입니다, 잠시만 기다려 주세요."
    case Correct => "정답입니다!"
    case GameOver(answer) => GameOverPrefix + answer + GameOverSuffix
    case Wrong => "답이 틀렸습니다!"
  }

  /** `w` occurs in `txt` as a contiguous run of characters. */
  predicate Infix(w: string, txt: string) {
    exists i :: 0 <= i <= |txt| && w <= txt[i..]
  }

  /** The game-over line contains the answer verbatim, right after its prefix. */
  lemma GameOverRevealsAnswer(answer: string)
    ensures var t := Text(GameOver(answer));
            |GameOverPrefix| + |answer| <= |t| &&
            t[|GameOverPrefix|..|GameOverPrefix| + |answer|] == answer
    ensures Infix(answer, Text(GameOver(answer)))
  {
  }

  /** The mismatch line can be read back: two mismatch lines look the same only
      when they report the same count. */
  lemma MismatchShowsCount(n: nat, m: nat)
    ensures Text(LengthMismatch(n)) == Text(LengthMismatch(m)) <==> n == m
  {
    if Text(LengthMismatch(n)) == Text(LengthMismatch(m)) {
      var a := Text(LengthMismatch(n));
      var b := Text(LengthMismatch(m));
      assert |Decimal(n)| == |Decimal(m)|;
      var p := |MismatchPrefix|;
      assert a[p..p + |Decimal(n)|] == Decimal(n);
      assert b[p..p + |Decimal(m)|] == Decimal(m);
      DecimalInjective(n, m);
    }
  }
}
