/** What the component sees of the blockchain contract it talks to.

    The contract itself, the wallet and the provider are outside the model;
    each remote call is replaced by the outcome it produced, which the
    transitions take as a parameter.
 */
module Remote {

  /** The outcome of a signed transaction (`startGame` or `guessWord`),
      including the account lookup that precedes it. */
  datatype TxOutcome =
    | Confirmed     // the transaction was signed and mined
    | Declined      // the wallet rejected it with error code 4001
    | Failed        // any other error from sending the transaction
    | NoAccount     // the wallet lists no account, so nothing was sent
    | LookupFailed  // building the client or listing the accounts threw, so nothing was sent
  {
    /** The account lookup found an account, so the transaction was sent. */
    predicate FoundAccount() {
      Confirmed? || Declined? || Failed?
    }
  }

  /** The outcome of the read-only `getCurrentWord` call. */
  datatype FetchOutcome =
    | Fetched(word: string)
    | FetchFailed

  /** A contract method that a transition invokes through the wallet. */
  datatype Call =
    | StartGameTx
    | GuessWordTx(word: string)
    | ContractBalanceRead
    | CurrentWordRead
}
