/**
 * The observable state of one room and its packing into a row number of the
 * 24 x 6 action-value table.
 */
module RoomState {

  /** A two-valued flag: activity (0 idle, 1 active), hour (0 day, 1 night),
      price (0 cheap, 1 expensive), light (0 off, 1 on). */
  type Bit = b: int | 0 <= b <= 1

  /** Temperature level: 0 cold, 1 comfortable, 2 hot. */
  type Temp = t: int | 0 <= t <= 2

  datatype State = State(activity: Bit, temp: Temp, hour: Bit, price: Bit)

  /** 2 activities x 3 temperatures x 2 hours x 2 prices. */
  const StateCount: nat := 24

  /** Mixed-radix packing of the four fields, activity most significant. */
  function Index(s: State): (i: nat)
    ensures i < StateCount
  {
    s.activity * 12 + s.temp * 4 + s.hour * 2 + s.price
  }

  /** The inverse of `Index`: the digits of a row number. */
  function Unpack(i: nat): State
    requires i < StateCount
  {
    State(i / 12, (i % 12) / 4, (i % 4) / 2, i % 2)
  }

  /** Reading a row number back gives the state that was packed. */
  lemma UnpackIndex(s: State)
    ensures Unpack(Index(s)) == s
  {
  }

  /** Every row number 0..23 is the packing of its own digits. */
  lemma IndexUnpack(i: nat)
    requires i < StateCount
    ensures Index(Unpack(i)) == i
  {
  }

  /** Distinct states occupy distinct rows of the table. */
  lemma IndexInjective(s: State, t: State)
    ensures Index(s) == Index(t) <==> s == t
  {
  }

  /** The image of the packing is exactly the row numbers 0..23. */
  lemma IndexOnto(i: int)
    ensures (exists s: State :: Index(s) == i) <==> 0 <= i < StateCount
  {
    if 0 <= i < StateCount {
      IndexUnpack(i);
      assert Index(Unpack(i)) == i;
    }
  }
}
