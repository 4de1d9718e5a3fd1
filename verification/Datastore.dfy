// The token store of datastore.c: counts and dates packed into 32-bit words,
// in either byte order, and the date that stamps what is written.

module Datastore {
  import opened Words

  const WORD_SIZE := 0x1_0000_0000
  type U32 = x: int | 0 <= x < 0x1_0000_0000

  /** dsv_t */
  datatype Dsv = Dsv(spam: U32, good: U32, date: U32)

  const ZERO := Dsv(0, 0, 0)

  /** ".MSG_COUNT", ".WORDLIST_VERSION" and ".ENCODING", the words that hold a list's own data. */
  const MSG_COUNT: Word := [46, 77, 83, 71, 95, 67, 79, 85, 78, 84]
  const WORDLIST_VERSION: Word := [46, 87, 79, 82, 68, 76, 73, 83, 84, 95, 86, 69, 82, 83, 73, 79, 78]
  const WORDLIST_ENCODING: Word := [46, 69, 78, 67, 79, 68, 73, 78, 71]

  /** 32-bit addition, which wraps around. */
  function Add32(a: U32, b: U32): U32 {
    if a + b < WORD_SIZE then a + b else a + b - WORD_SIZE
  }

  /** swap_32bit: the masks and shifts written with remainders and products. */
  function Swap32(x: U32): U32 {
    x / 0x100_0000 + x / 0x1_0000 % 0x100 * 0x100 + x / 0x100 % 0x100 * 0x1_0000 + x % 0x100 * 0x100_0000
  }

  lemma SwapFromBytes(a: int, b: int, c: int, d: int)
    requires 0 <= a < 256 && 0 <= b < 256 && 0 <= c < 256 && 0 <= d < 256
    ensures Swap32(a + 0x100 * b + 0x1_0000 * c + 0x100_0000 * d) == d + 0x100 * c + 0x1_0000 * b + 0x100_0000 * a
  {
    var x := a + 0x100 * b + 0x1_0000 * c + 0x100_0000 * d;
    Split(x, b + 0x100 * c + 0x1_0000 * d, a);
    Split(x / 0x100, c + 0x100 * d, b);
    Split(x / 0x1_0000, d, c);
    assert x / 0x1_0000 == x / 0x100 / 0x100 && x / 0x100_0000 == x / 0x1_0000 / 0x100;
  }

  lemma Split(x: int, high: int, low: int)
    requires x == 0x100 * high + low && 0 <= low < 0x100
    ensures x / 0x100 == high && x % 0x100 == low
  {
  }

  lemma SwapTwice(x: U32)
    ensures Swap32(Swap32(x)) == x
  {
    var a, b, c, d := x % 0x100, x / 0x100 % 0x100, x / 0x1_0000 % 0x100, x / 0x100_0000;
    assert x / 0x100 == b + 0x100 * (x / 0x1_0000);
    assert x / 0x1_0000 == c + 0x100 * d;
    SwapFromBytes(a, b, c, d);
    SwapFromBytes(d, c, b, a);
  }

  function Order(swapped: bool, x: U32): U32 {
    if swapped then Swap32(x) else x
  }

  /** A stored value is one, two or three words; older lists lack the later ones. */
  type Packed = cv: seq<U32> | 1 <= |cv| <= 3 witness [0]

  /** convert_external_to_internal */
  function Unpack(swapped: bool, cv: Packed): Dsv {
    Dsv(Order(swapped, cv[0]),
        if |cv| > 1 then Order(swapped, cv[1]) else 0,
        if |cv| > 2 then Order(swapped, cv[2]) else 0)
  }

  /** convert_internal_to_external; a date of 0 is not stored, nor any with timestamps off. */
  function Pack(swapped: bool, timestamps: bool, v: Dsv): Packed {
    [Order(swapped, v.spam), Order(swapped, v.good)]
    + if timestamps && v.date != 0 then [Order(swapped, v.date)] else []
  }

  /** What of a value survives being stored. */
  function Kept(timestamps: bool, v: Dsv): Dsv {
    if timestamps then v else v.(date := 0)
  }

  lemma PackRoundTrip(swapped: bool, timestamps: bool, v: Dsv)
    ensures Unpack(swapped, Pack(swapped, timestamps, v)) == Kept(timestamps, v)
  {
    SwapTwice(v.spam);
    SwapTwice(v.good);
    SwapTwice(v.date);
  }

  type Db = map<Word, Packed>
  type Table = map<Word, Dsv>

  /** A value that an older list has kept in fewer words: the spam count
      comes first, then the good count, and what is missing is zero. */
  lemma OlderValues(swapped: bool, timestamps: bool, v: Dsv)
    ensures Unpack(swapped, Pack(swapped, timestamps, v)[..1]) == Dsv(v.spam, 0, 0)
    ensures Unpack(swapped, Pack(swapped, timestamps, v)[..2]) == Dsv(v.spam, v.good, 0)
  {
    PackRoundTrip(swapped, timestamps, v);
    SwapTwice(v.spam);
    SwapTwice(v.good);
  }

  /** The table a database stands for. */
  function TableOf(swapped: bool, db: Db): Table {
    map w | w in db :: Unpack(swapped, db[w])
  }

  /** The database handle of datastore.c, and the global today. */
  class Store {
    var db: Db
    var today: U32
    const swapped: bool
    const timestamps: bool

    constructor (db: Db, swapped: bool, timestamps: bool)
      ensures this.db == db && this.swapped == swapped && this.timestamps == timestamps && today == 0
    {
      this.db, this.swapped, this.timestamps, today := db, swapped, timestamps, 0;
    }

    ghost function Contents(): Table
      reads this
    {
      TableOf(swapped, db)
    }

    method SetDate(date: U32)
      modifies `today
      ensures today == date
    {
      today := date;
    }

    /** ds_read: 0 and the value, or 1 and zeros. */
    method Read(word: Word) returns (status: int, val: Dsv)
      ensures if word in Contents() then status == 0 && val == Contents()[word] else status == 1 && val == ZERO
    {
      if word in db { return 0, Unpack(swapped, db[word]); }
      return 1, ZERO;
    }

    /** ds_write, also giving back the value as it was stamped. */
    method Write(word: Word, val: Dsv) returns (status: int, stamped: Dsv)
      modifies `db
      ensures status == 0 && stamped == if timestamps && today != 0 then val.(date := today) else val
      ensures Contents() == old(Contents())[word := Kept(timestamps, stamped)]
    {
      stamped := if timestamps && today != 0 then val.(date := today) else val;
      PackRoundTrip(swapped, timestamps, stamped);
      db := db[word := Pack(swapped, timestamps, stamped)];
      status := 0;
    }

    /** ds_delete: 0, or -1 if the word is absent. */
    method Delete(word: Word) returns (status: int)
      modifies `db
      ensures Contents() == old(Contents()) - {word}
      ensures status == if word in old(Contents()) then 0 else -1
    {
      status := if word in db then 0 else -1;
      db := db - {word};
    }
  }
}
