/** Bytes, the little-endian integers of struct.pack("<Q") and struct.pack("<I"), and readers
    for what they pack. */
module Bytes {

  newtype byte = x: int | 0 <= x < 256

  function Pow256(n: nat): (p: nat)
    ensures p > 0
  {
    if n == 0 then 1 else 256 * Pow256(n - 1)
  }

  /** The n-byte little-endian form of v. */
  function LittleEndian(v: nat, n: nat): (s: seq<byte>)
    ensures |s| == n
  {
    if n == 0 then [] else [(v % 256) as byte] + LittleEndian(v / 256, n - 1)
  }

  function Value(s: seq<byte>): (v: nat) {
    if s == [] then 0 else s[0] as nat + 256 * Value(s[1..])
  }

  lemma {:induction false} LittleEndianValue(v: nat, n: nat)
    requires v < Pow256(n)
    ensures Value(LittleEndian(v, n)) == v
    decreases n
  {
    if n > 0 {
      LittleEndianValue(v / 256, n - 1);
      assert LittleEndian(v, n)[1..] == LittleEndian(v / 256, n - 1);
    }
  }

  const U64: nat := 0x1_0000_0000_0000_0000
  const U32: nat := 0x1_0000_0000

  lemma PowersOf256()
    ensures Pow256(8) == U64 && Pow256(4) == U32
  {
    assert Pow256(4) == 256 * 256 * 256 * 256;
    assert Pow256(8) == 256 * 256 * 256 * 256 * Pow256(4);
  }

  /** Characters of ASCII as their codes. */
  function Ascii(s: string): seq<byte>
    requires forall i :: 0 <= i < |s| ==> s[i] as int < 128
  {
    seq(|s|, i requires 0 <= i < |s| => s[i] as int as byte)
  }

  // ---- length-prefixed wire format: packing and reading ----

  type Text = seq<byte>

  function PackU64(v: nat): seq<byte> { LittleEndian(v, 8) }

  function PackText(t: Text): seq<byte> { PackU64(|t|) + t }

  function PackMany<T>(items: seq<T>, pack: T -> seq<byte>): seq<byte> {
    if items == [] then [] else pack(items[0]) + PackMany(items[1..], pack)
  }

  predicate TextFits(t: Text) { |t| < U64 }

  predicate TextsFit(ts: seq<Text>) {
    forall i :: 0 <= i < |ts| ==> TextFits(ts[i])
  }

  lemma {:induction false} PackSnoc<T>(items: seq<T>, x: T, pack: T -> seq<byte>)
    ensures PackMany(items + [x], pack) == PackMany(items, pack) + pack(x)
  {
    if items == [] {
      assert items + [x] == [x] && [x][1..] == [];
    } else {
      assert (items + [x])[1..] == items[1..] + [x];
      PackSnoc(items[1..], x, pack);
    }
  }

  /** A decoded value and the bytes after it. */
  datatype Parsed<T> = Bad | Good(value: T, rest: seq<byte>)

  function ReadU64(s: seq<byte>): Parsed<nat> {
    if |s| < 8 then Bad else Good(Value(s[..8]), s[8..])
  }

  function ReadText(s: seq<byte>): Parsed<Text> {
    match ReadU64(s)
    case Bad => Bad
    case Good(n, rest) => if |rest| < n then Bad else Good(rest[..n], rest[n..])
  }

  function ReadMany<T>(s: seq<byte>, n: nat, read: seq<byte> -> Parsed<T>): Parsed<seq<T>>
    decreases n
  {
    if n == 0 then Good([], s)
    else
      match read(s)
      case Bad => Bad
      case Good(t, rest) =>
        match ReadMany(rest, n - 1, read)
        case Bad => Bad
        case Good(ts, rest') => Good([t] + ts, rest')
  }

  lemma ReadU64Packed(v: nat, rest: seq<byte>)
    requires v < U64
    ensures ReadU64(PackU64(v) + rest) == Good(v, rest)
  {
    PowersOf256();
    LittleEndianValue(v, 8);
    var s := PackU64(v) + rest;
    assert s[..8] == PackU64(v) && s[8..] == rest;
  }

  lemma ReadTextPacked(t: Text, rest: seq<byte>)
    requires TextFits(t)
    ensures ReadText(PackText(t) + rest) == Good(t, rest)
  {
    assert PackText(t) + rest == PackU64(|t|) + (t + rest);
    ReadU64Packed(|t|, t + rest);
    assert (t + rest)[..|t|] == t && (t + rest)[|t|..] == rest;
  }

  lemma {:induction false} ReadManyPacked<T(!new)>(
      items: seq<T>, rest: seq<byte>, pack: T -> seq<byte>, read: seq<byte> -> Parsed<T>)
    requires forall i, more :: 0 <= i < |items| ==> read(pack(items[i]) + more) == Good(items[i], more)
    ensures ReadMany(PackMany(items, pack) + rest, |items|, read) == Good(items, rest)
  {
    if items != [] {
      forall i, more | 0 <= i < |items[1..]| ensures read(pack(items[1..][i]) + more) == Good(items[1..][i], more) {
        assert items[1..][i] == items[i + 1];
      }
      ReadManyPacked(items[1..], rest, pack, read);
      assert PackMany(items, pack) + rest == pack(items[0]) + (PackMany(items[1..], pack) + rest);
      assert [items[0]] + items[1..] == items;
    }
  }

  lemma ReadTextsPacked(ts: seq<Text>, rest: seq<byte>)
    requires TextsFit(ts)
    ensures ReadMany(PackMany(ts, PackText) + rest, |ts|, ReadText) == Good(ts, rest)
  {
    forall i, more | 0 <= i < |ts| ensures ReadText(PackText(ts[i]) + more) == Good(ts[i], more) {
      ReadTextPacked(ts[i], more);
    }
    ReadManyPacked(ts, rest, PackText, ReadText);
  }
}
