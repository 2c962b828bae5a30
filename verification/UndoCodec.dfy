/** Byte encodings of coins and undo records. */
module UndoCodec {
  import opened Basics
  import opened Types
  import opened LittleEndian

  /** A `k`-byte integer and the bytes after it. */
  function ReadLe(k: nat, data: Bytes): Option<(nat, Bytes)> {
    if |data| < k then None else Some((LeValue(data[..k]), data[k..]))
  }

  lemma ReadWritten(k: nat, v: nat, rest: Bytes)
    requires v < Limit(k)
    ensures ReadLe(k, LeBytes(k, v) + rest) == Some((v, rest))
  {
    LeRoundTrip(k, v);
    assert (LeBytes(k, v) + rest)[..k] == LeBytes(k, v);
    assert (LeBytes(k, v) + rest)[k..] == rest;
  }

  lemma Limits()
    ensures Limit(4) == 0x1_0000_0000 && Limit(8) == 0x1_0000_0000_0000_0000
  {
    assert Limit(6) == 0x1_0000_0000_0000;
  }

  /** Two's complement of a 64-bit integer. */
  function Unsigned64(v: int): nat {
    v % 0x1_0000_0000_0000_0000
  }

  function Signed64(u: nat): int {
    if u >= 0x8000_0000_0000_0000 then u - 0x1_0000_0000_0000_0000 else u
  }

  // ---------- Coins ----------

  /** A coin whose fields fit the fixed-width encoding; longer fields are cut off. */
  predicate Encodable(c: Coin) {
    c.height <= MAX_U32 && FitsI64(c.out.value) && |c.out.script| <= MAX_U32
  }

  function CoinBytes(c: Coin): Bytes {
    LeBytes(4, c.height) + ([if c.isCoinbase then 1 else 0]
    + (LeBytes(8, Unsigned64(c.out.value)) + (LeBytes(4, |c.out.script|) + c.out.script)))
  }

  function CoinFrom(data: Bytes): Option<Coin> {
    match ReadLe(4, data)
    case None => None
    case Some((height, d1)) =>
      match ReadLe(1, d1)
      case None => None
      case Some((flag, d2)) =>
        match ReadLe(8, d2)
        case None => None
        case Some((value, d3)) =>
          match ReadLe(4, d3)
          case None => None
          case Some((len, d4)) =>
            if |d4| < len then None
            else Some(Coin(TxOut(Signed64(value), d4[..len]), height, flag != 0))
  }

  lemma {:induction false} CoinRoundTrip(c: Coin)
    requires Encodable(c)
    ensures CoinFrom(CoinBytes(c)) == Some(c)
  {
    hide LeBytes, LeValue, Limit;
    Limits();
    LimitOne();
    var d4 := c.out.script;
    var d3 := LeBytes(4, |c.out.script|) + d4;
    var d2 := LeBytes(8, Unsigned64(c.out.value)) + d3;
    var flag: byte := if c.isCoinbase then 1 else 0;
    var d1: Bytes := [flag] + d2;
    LeByte(flag);
    ReadWritten(4, c.height, d1);
    ReadWritten(1, flag, d2);
    ReadWritten(8, Unsigned64(c.out.value), d3);
    ReadWritten(4, |c.out.script|, d4);
    assert d4[..|d4|] == d4;
  }

  lemma LimitOne()
    ensures Limit(1) == 256
  {
  }

  lemma LeByte(b: byte)
    ensures LeBytes(1, b) == [b]
  {
  }

  // ---------- Length-prefixed lists ----------

  /** Each item behind its four-byte length. */
  function Prefixed(items: seq<Bytes>): Bytes {
    if items == [] then [] else LeBytes(4, |items[0]|) + (items[0] + Prefixed(items[1..]))
  }

  /** A four-byte count, then the items. */
  function ListBytes(items: seq<Bytes>): Bytes {
    LeBytes(4, |items|) + Prefixed(items)
  }

  method WriteList(items: seq<Bytes>) returns (bytes: Bytes)
    ensures bytes == ListBytes(items)
  {
    bytes := LeBytes(4, |items|);
    var i := 0;
    while i < |items|
      invariant 0 <= i <= |items|
      invariant bytes + Prefixed(items[i..]) == ListBytes(items)
    {
      ghost var rest := items[i..];
      assert rest[1..] == items[i + 1..];
      bytes := bytes + LeBytes(4, |items[i]|);
      bytes := bytes + items[i];
      i := i + 1;
    }
    assert items[i..] == [];
  }

  function ParseItems<T>(dec: Bytes -> Option<T>, data: Bytes, n: nat): Option<seq<T>>
    decreases n
  {
    if n == 0 then Some([])
    else
      match ReadLe(4, data)
      case None => None
      case Some((len, d)) =>
        if |d| < len then None
        else
          match dec(d[..len])
          case None => None
          case Some(x) =>
            match ParseItems(dec, d[len..], n - 1)
            case None => None
            case Some(xs) => Some([x] + xs)
  }

  function ListFrom<T>(dec: Bytes -> Option<T>, data: Bytes): Option<seq<T>> {
    match ReadLe(4, data)
    case None => None
    case Some((n, d)) => ParseItems(dec, d, n)
  }

  function Prepend<T>(items: seq<T>, r: Option<seq<T>>): Option<seq<T>> {
    match r
    case None => None
    case Some(xs) => Some(items + xs)
  }

  lemma PrependNothing<T>(r: Option<seq<T>>)
    ensures Prepend([], r) == r
  {
    if r.Some? {
      assert [] + r.value == r.value;
    }
  }

  lemma PrependOne<T>(items: seq<T>, x: T, r: Option<seq<T>>)
    ensures Prepend(items, Prepend([x], r)) == Prepend(items + [x], r)
  {
    if r.Some? {
      assert items + ([x] + r.value) == items + [x] + r.value;
    }
  }

  /** One item, read at a cursor position instead of at the front. */
  lemma ParseAt<T>(dec: Bytes -> Option<T>, data: Bytes, pos: nat, n: nat)
    requires n > 0 && pos <= |data|
    ensures ParseItems(dec, data[pos..], n) ==
            if pos + 4 > |data| then None
            else
              var start, len := pos + 4, LeValue(data[pos..pos + 4]);
              if start + len > |data| then None
              else
                match dec(data[start..start + len])
                case None => None
                case Some(x) => Prepend([x], ParseItems(dec, data[start + len..], n - 1))
  {
    hide LeValue;
    var rest := data[pos..];
    if pos + 4 <= |data| {
      assert rest[..4] == data[pos..pos + 4] && rest[4..] == data[pos + 4..];
      var start, len := pos + 4, LeValue(data[pos..pos + 4]);
      if start + len <= |data| {
        assert data[start..][..len] == data[start..start + len] && data[start..][len..] == data[start + len..];
      }
    }
  }

  /** The cursor loop of both decoders. */
  method ReadList<T>(dec: Bytes -> Option<T>, data: Bytes) returns (r: Option<seq<T>>)
    ensures r == ListFrom(dec, data)
  {
    hide LeValue, ParseItems;
    if |data| < 4 {
      return None;
    }
    var count := LeValue(data[..4]);
    var items: seq<T> := [];
    var pos := 4;
    PrependNothing(ParseItems(dec, data[pos..], count));
    while |items| < count
      invariant |items| <= count && 4 <= pos <= |data|
      invariant ListFrom(dec, data) == Prepend(items, ParseItems(dec, data[pos..], count - |items|))
      decreases count - |items|
    {
      ParseAt(dec, data, pos, count - |items|);
      if pos + 4 > |data| {
        return None;
      }
      var len := LeValue(data[pos..pos + 4]);
      pos := pos + 4;
      if pos + len > |data| {
        return None;
      }
      var item := dec(data[pos..pos + len]);
      if item.None? {
        return None;
      }
      PrependOne(items, item.value, ParseItems(dec, data[pos + len..], count - |items| - 1));
      items := items + [item.value];
      pos := pos + len;
    }
    ParseNothing(dec, data[pos..]);
    assert items + [] == items;
    return Some(items);
  }

  lemma ParseNothing<T>(dec: Bytes -> Option<T>, data: Bytes)
    ensures ParseItems(dec, data, 0) == Some([])
  {
  }

  /** A list written item by item reads back, whatever follows it. */
  lemma {:induction false} ItemsRoundTrip<T>(dec: Bytes -> Option<T>, xs: seq<T>, items: seq<Bytes>)
    requires |items| == |xs|
    requires forall i :: 0 <= i < |xs| ==> |items[i]| <= MAX_U32 && dec(items[i]) == Some(xs[i])
    ensures ParseItems(dec, Prefixed(items), |xs|) == Some(xs)
    decreases |xs|
  {
    hide LeBytes, LeValue;
    if xs != [] {
      Limits();
      var tail := Prefixed(items[1..]);
      ReadWritten(4, |items[0]|, items[0] + tail);
      assert (items[0] + tail)[..|items[0]|] == items[0] && (items[0] + tail)[|items[0]|..] == tail;
      ItemsRoundTrip(dec, xs[1..], items[1..]);
      assert [xs[0]] + xs[1..] == xs;
    }
  }

  lemma {:induction false} ListRoundTrip<T>(dec: Bytes -> Option<T>, xs: seq<T>, items: seq<Bytes>)
    requires |items| == |xs| <= MAX_U32
    requires forall i :: 0 <= i < |xs| ==> |items[i]| <= MAX_U32 && dec(items[i]) == Some(xs[i])
    ensures ListFrom(dec, ListBytes(items)) == Some(xs)
  {
    hide LeBytes, LeValue;
    Limits();
    ReadWritten(4, |items|, Prefixed(items));
    ItemsRoundTrip(dec, xs, items);
  }

  const MAX_COIN_BYTES := MAX_SCRIPT_LEN + 17

  lemma {:induction false} PrefixedLength(items: seq<Bytes>)
    requires forall i :: 0 <= i < |items| ==> |items[i]| <= MAX_COIN_BYTES
    ensures |Prefixed(items)| <= |items| * (MAX_COIN_BYTES + 4)
  {
    hide LeBytes;
    if items != [] {
      PrefixedLength(items[1..]);
    }
  }

  // ---------- Undo records ----------

  /** The coins spent by one transaction, in input order. */
  type TxUndo = seq<Coin>

  /** One entry per non-coinbase transaction, in block order. */
  type BlockUndo = seq<TxUndo>

  /** Records of blocks that passed the parser: everything fits its length field. */
  predicate ValidTxUndo(u: TxUndo) {
    |u| <= MAX_TX_IN_OUT && forall i :: 0 <= i < |u| ==> ValidCoin(u[i])
  }

  predicate ValidUndo(b: BlockUndo) {
    |b| <= MAX_BLOCK_TXS && forall i :: 0 <= i < |b| ==> ValidTxUndo(b[i])
  }

  function CoinItems(u: TxUndo): (r: seq<Bytes>)
    ensures |r| == |u| && forall i :: 0 <= i < |u| ==> r[i] == CoinBytes(u[i])
  {
    seq(|u|, i requires 0 <= i < |u| => CoinBytes(u[i]))
  }

  function TxUndoBytes(u: TxUndo): Bytes {
    ListBytes(CoinItems(u))
  }

  function TxUndoFrom(data: Bytes): Option<TxUndo> {
    ListFrom(CoinFrom, data)
  }

  function UndoItems(b: BlockUndo): (r: seq<Bytes>)
    ensures |r| == |b| && forall i :: 0 <= i < |b| ==> r[i] == TxUndoBytes(b[i])
  {
    seq(|b|, i requires 0 <= i < |b| => TxUndoBytes(b[i]))
  }

  function BlockUndoBytes(b: BlockUndo): Bytes {
    ListBytes(UndoItems(b))
  }

  function BlockUndoFrom(data: Bytes): Option<BlockUndo> {
    ListFrom(TxUndoFrom, data)
  }

  method EncodeTxUndo(u: TxUndo) returns (bytes: Bytes)
    ensures bytes == TxUndoBytes(u)
  {
    bytes := WriteList(CoinItems(u));
  }

  method EncodeBlockUndo(b: BlockUndo) returns (bytes: Bytes)
    ensures bytes == BlockUndoBytes(b)
  {
    bytes := WriteList(UndoItems(b));
  }

  method DecodeBlockUndo(data: Bytes) returns (r: Option<BlockUndo>)
    ensures r == BlockUndoFrom(data)
  {
    r := ReadList(TxUndoFrom, data);
  }

  lemma {:induction false} TxUndoRoundTrip(u: TxUndo)
    requires ValidTxUndo(u)
    ensures TxUndoFrom(TxUndoBytes(u)) == Some(u)
    ensures |TxUndoBytes(u)| <= MAX_U32
  {
    hide CoinFrom, CoinBytes, ListFrom;
    var items := CoinItems(u);
    forall i | 0 <= i < |u|
      ensures |items[i]| <= MAX_COIN_BYTES && CoinFrom(items[i]) == Some(u[i])
    {
      CoinRoundTrip(u[i]);
      CoinLength(u[i]);
    }
    ListRoundTrip(CoinFrom, u, items);
    PrefixedLength(items);
  }

  lemma CoinLength(c: Coin)
    ensures |CoinBytes(c)| == 17 + |c.out.script|
  {
  }

  /** Decoding the stored bytes of an undo record gives back exactly the record. */
  lemma {:induction false} UndoRoundTrip(b: BlockUndo)
    requires ValidUndo(b)
    ensures BlockUndoFrom(BlockUndoBytes(b)) == Some(b)
  {
    hide TxUndoFrom, TxUndoBytes, ListFrom;
    var items := UndoItems(b);
    forall i | 0 <= i < |b|
      ensures |items[i]| <= MAX_U32 && TxUndoFrom(items[i]) == Some(b[i])
    {
      TxUndoRoundTrip(b[i]);
    }
    ListRoundTrip(TxUndoFrom, b, items);
  }
}
