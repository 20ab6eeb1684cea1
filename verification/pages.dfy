/** What the page components share: the outcome of a computed property and the row highlight as written. */
module Pages {

  /** The outcome of evaluating a computed property: a value, or a thrown `TypeError`. */
  datatype Outcome<T> = Value(value: T) | TypeError

  /**
   * The highlighted row as the list and leaderboard tables write it:
   * `selected == i` compares the stored position with the row number.
   */
  predicate ActiveAsWritten(selected: nat, row: nat) {
    selected == row
  }
}
