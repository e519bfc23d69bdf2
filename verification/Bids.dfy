/** Block ids and the values stored under them by Horus. */
module Bids {

  /** A block id. Bare(n) is the conversion of an integer, whose other bytes are
      zero; Full is the id that Horus builds from its counters and a keyword. */
  datatype Bid = Bare(value: int) | Full(slot: int, src: int, acc: int, keyword: string)

  /** Comparison with 0 looks at the first four bytes only. */
  predicate Null(id: Bid) {
    match id
    case Bare(v) => v == 0
    case Full(slot, _, _, _) => slot == 0
  }

  /** The strings that Horus stores: empty, the digits of an id, or '@' and the
      digits of an access counter. */
  datatype Value = Nothing | Ind(ind: int) | At(acc: int)
}
