/** The value types shared by the whole exchange model (include/types.hpp). */
module Types {

  datatype Option<+T> = None | Some(value: T)

  datatype Side = Buy | Sell

  /** 64-bit order ids, never 0 for an order that reached the book through the sequencer. */
  type OrderId = nat

  /** Signed integer ticks; the 64-bit range is not modelled. */
  type Price = int

  const TWO_32: int := 0x1_0000_0000

  /** 32-bit unsigned quantities: every value stored in one is checked to be in range. */
  type Qty = q: int | 0 <= q < 0x1_0000_0000

  type Nanos = nat

  datatype Order = Order(id: OrderId, side: Side, price: Price, qty: Qty, ts: Nanos)

  datatype Trade = Trade(buyId: OrderId, sellId: OrderId, price: Price, qty: Qty, ts: Nanos)

  function Opposite(side: Side): Side {
    if side.Buy? then Sell else Buy
  }

  function Min(a: Qty, b: Qty): Qty {
    if b < a then b else a
  }

  /** Unsigned 32-bit subtraction and addition, with their wrap-around. */
  function Sub32(a: Qty, b: Qty): Qty {
    if b <= a then a - b else a - b + TWO_32
  }

  function Add32(a: Qty, b: Qty): Qty {
    if a + b < TWO_32 then a + b else a + b - TWO_32
  }

  /** A conversion of a signed price to an unsigned 32-bit field. */
  function ToUint32(p: int): Qty {
    p % TWO_32
  }

  lemma Associate<T>(a: seq<T>, b: seq<T>, c: seq<T>)
    ensures a + b + c == a + (b + c)
  {
  }
}
