/** A provider's offer for a model, and its place in a ranking. */
module Bids {
  import opened ByteStrings

  type Address = Bytes

  /** A price of None is a nil pointer. */
  datatype Bid = Bid(id: Bytes, provider: Address, modelId: Bytes, price: Option<int>)

  datatype Scored = Scored(bid: Bid, score: real)

  function BidsOf(rows: seq<Scored>): (bids: seq<Bid>)
    ensures |bids| == |rows|
    ensures forall i :: 0 <= i < |rows| ==> bids[i] == rows[i].bid
  {
    seq(|rows|, i requires 0 <= i < |rows| => rows[i].bid)
  }
}
