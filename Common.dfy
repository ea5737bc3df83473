/** Shared vocabulary of the price list module: identifiers, the optional and
    failure-carrying wrappers, and the values the module only passes along. */
module Common {

  /** A value that may be absent, as a PHP getter that returns nothing. */
  datatype Option<+T> = None | Some(value: T)

  /** The outcome of an operation that can fail. */
  datatype Result<+T, +E> = Ok(value: T) | Err(error: E)

  /** Entity identifiers are system-assigned positive integers. */
  type ItemId = nat
  type ListId = nat
  type UserId = nat
  /** Identifier of the purchasable catalog entity an item prices. */
  type EntityId = nat

  /** A money amount of the commerce price library. The module stores and
      returns it without interpreting it. */
  datatype Price = Price(number: string, currencyCode: string)

  /** A user account; only its id is ever stored. */
  datatype UserAccount = UserAccount(uid: UserId)
}
