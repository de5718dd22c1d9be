/** Contracts, trades and the messages of the exchange feed. */
module Market {

  datatype Option<+T> = None | Some(value: T)

  /** The three legs of a conversion or reversal: instrument types 1, 2 and 3 of the contract file. */
  datatype Leg = Fut | Call | Put

  datatype Contract = Contract(leg: Leg, strike: int, expiry: int, lot: int, symbol: string)

  type Book = map<int, Contract>

  /** One trade message. Of the two order ids only whether each is zero matters. */
  datatype Trade = Trade(seqNo: int, timestamp: int, buyId: int, sellId: int, token: int, price: int, qty: int)

  const UNLISTED := Contract(Fut, 0, 0, 1, "")

  /** The contract a token names; total, so that specifications need no side condition. */
  function Info(book: Book, token: int): Contract {
    if token in book then book[token] else UNLISTED
  }

  function LegOf(book: Book, t: Trade): Leg {
    Info(book, t.token).leg
  }

  function StrikeOf(book: Book, t: Trade): int {
    Info(book, t.token).strike
  }

  function ExpiryOf(book: Book, t: Trade): int {
    Info(book, t.token).expiry
  }

  /** Exactly one of the two order ids is present. */
  predicate OneSided(t: Trade) {
    (t.buyId == 0) != (t.sellId == 0)
  }

  /** Every token is in the contract map: looking up any other dereferences a null pointer. */
  predicate Known(book: Book, w: seq<Trade>) {
    forall t :: t in w ==> t.token in book
  }

  predicate Positive(w: seq<Trade>) {
    forall t :: t in w ==> t.qty > 0
  }

  predicate AllOneSided(w: seq<Trade>) {
    forall t :: t in w ==> OneSided(t)
  }
}
