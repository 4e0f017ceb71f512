/** The acquisition identity of tools/minimax_h3_intake.py: the byte string its digest is fed,
    a length-prefixed encoding of the repository, the revision and every file row.

    Text is its UTF-8 bytes. struct.pack("<Q") refuses numbers of 64 bits and more. */
module AcquisitionIdentity {
  import opened Bytes
  import opened Wrappers

  datatype Row = Row(
    path: Text, size: nat, expectedSha: Text, actualSha: Text, gitOid: Text,
    lfsOid: Text, xetHash: Text, classification: Text, component: Text)

  datatype Record = Record(schema: Text, repo: Text, revision: Text, subdir: Text, files: seq<Row>)

  // ---- what is fed to the digest ----

  /** The texts of a row after its path and its size, in the order they are fed. */
  function RowTexts(r: Row): seq<Text> {
    [r.expectedSha, r.actualSha, r.gitOid, r.lfsOid, r.xetHash, r.classification, r.component]
  }

  function PackRow(r: Row): seq<byte> {
    PackText(r.path) + (PackU64(r.size) + PackMany(RowTexts(r), PackText))
  }

  function HeadTexts(r: Record): seq<Text> {
    [r.schema, r.repo, r.revision, r.subdir]
  }

  function Pack(r: Record): seq<byte> {
    PackMany(HeadTexts(r), PackText) + (PackU64(|r.files|) + PackMany(r.files, PackRow))
  }

  predicate RowFits(r: Row) {
    TextFits(r.path) && r.size < U64 && TextsFit(RowTexts(r))
  }

  predicate Fits(r: Record) {
    && TextsFit(HeadTexts(r)) && |r.files| < U64
    && forall i :: 0 <= i < |r.files| ==> RowFits(r.files[i])
  }

  lemma Collect(o: seq<byte>, a: seq<byte>, b: seq<byte>, c: seq<byte>)
    ensures o + a + b + c == o + (a + (b + c)) && [] + (a + (b + c)) == a + (b + c)
  {
  }

  lemma RowsMore(o: seq<byte>, rows: seq<Row>, k: nat)
    requires k < |rows|
    ensures o + PackMany(rows[..k], PackRow) + PackRow(rows[k]) == o + PackMany(rows[..k + 1], PackRow)
  {
    PackSnoc(rows[..k], rows[k], PackRow);
    assert rows[..k + 1] == rows[..k] + [rows[k]];
    Collect(o, PackMany(rows[..k], PackRow), PackRow(rows[k]), []);
    assert PackRow(rows[k]) + [] == PackRow(rows[k]);
    assert o + PackMany(rows[..k], PackRow) + PackRow(rows[k]) + [] == o + PackMany(rows[..k], PackRow) + PackRow(rows[k]);
  }

  /** A digest that has been fed some bytes. */
  class Digest {
    var fed: seq<byte>

    constructor ()
      ensures fed == []
    {
      fed := [];
    }

    method Update(data: seq<byte>)
      modifies this
      ensures fed == old(fed) + data
    {
      fed := fed + data;
    }

    /** identity_text, or false where struct.pack raises. */
    method IdentityText(value: Text) returns (ok: bool)
      modifies this
      ensures ok == TextFits(value)
      ensures ok ==> fed == old(fed) + PackText(value)
    {
      if |value| >= U64 { return false; }
      Update(PackU64(|value|));
      Update(value);
      return true;
    }

    method IdentityTexts(values: seq<Text>) returns (ok: bool)
      modifies this
      ensures ok == TextsFit(values)
      ensures ok ==> fed == old(fed) + PackMany(values, PackText)
    {
      for k := 0 to |values|
        invariant fed == old(fed) + PackMany(values[..k], PackText)
        invariant TextsFit(values[..k])
      {
        var fits := IdentityText(values[k]);
        if !fits { return false; }
        PackSnoc(values[..k], values[k], PackText);
        assert values[..k + 1] == values[..k] + [values[k]];
      }
      assert values[..|values|] == values;
      return true;
    }

    method IdentityRow(row: Row) returns (ok: bool)
      modifies this
      ensures ok == RowFits(row)
      ensures ok ==> fed == old(fed) + PackRow(row)
    {
      ok := IdentityText(row.path);
      if !ok || row.size >= U64 { return false; }
      Update(PackU64(row.size));
      ok := IdentityTexts(RowTexts(row));
      Collect(old(fed), PackText(row.path), PackU64(row.size), PackMany(RowTexts(row), PackText));
    }

    method IdentityRows(rows: seq<Row>) returns (ok: bool)
      modifies this
      ensures ok == forall i :: 0 <= i < |rows| ==> RowFits(rows[i])
      ensures ok ==> fed == old(fed) + PackMany(rows, PackRow)
    {
      for k := 0 to |rows|
        invariant fed == old(fed) + PackMany(rows[..k], PackRow)
        invariant forall i :: 0 <= i < k ==> RowFits(rows[i])
      {
        var fits := IdentityRow(rows[k]);
        if !fits { return false; }
        RowsMore(old(fed), rows, k);
      }
      assert rows[..|rows|] == rows;
      return true;
    }

    /** acquisition_identity: feeds the whole record, or stops where struct.pack raises. */
    method Identity(r: Record) returns (ok: bool)
      requires fed == []
      modifies this
      ensures ok == Fits(r)
      ensures ok ==> fed == Pack(r)
    {
      ok := IdentityTexts(HeadTexts(r));
      if !ok || |r.files| >= U64 { return false; }
      Update(PackU64(|r.files|));
      ok := IdentityRows(r.files);
      Collect([], PackMany(HeadTexts(r), PackText), PackU64(|r.files|), PackMany(r.files, PackRow));
    }
  }

  // ---- a decoder ----

  function ReadRow(s: seq<byte>): Parsed<Row> {
    match ReadText(s)
    case Bad => Bad
    case Good(path, s1) =>
      match ReadU64(s1)
      case Bad => Bad
      case Good(size, s2) =>
        match ReadMany(s2, 7, ReadText)
        case Bad => Bad
        case Good(t, s3) =>
          if |t| != 7 then Bad else Good(Row(path, size, t[0], t[1], t[2], t[3], t[4], t[5], t[6]), s3)
  }

  function Unpack(s: seq<byte>): Option<Record> {
    match ReadMany(s, 4, ReadText)
    case Bad => None
    case Good(t, s1) =>
      match ReadU64(s1)
      case Bad => None
      case Good(n, s2) =>
        match ReadMany(s2, n, ReadRow)
        case Bad => None
        case Good(rows, rest) =>
          if rest == [] && |t| == 4 then Some(Record(t[0], t[1], t[2], t[3], rows)) else None
  }

  lemma ReadRowPacked(r: Row, rest: seq<byte>)
    requires RowFits(r)
    ensures ReadRow(PackRow(r) + rest) == Good(r, rest)
  {
    var tail := PackMany(RowTexts(r), PackText) + rest;
    assert PackRow(r) + rest == PackText(r.path) + (PackU64(r.size) + tail);
    ReadTextPacked(r.path, PackU64(r.size) + tail);
    ReadU64Packed(r.size, tail);
    ReadTextsPacked(RowTexts(r), rest);
  }

  /** The decoder recovers every record from the bytes its digest is fed. */
  lemma RoundTrip(r: Record)
    requires Fits(r)
    ensures Unpack(Pack(r)) == Some(r)
  {
    var rows := PackMany(r.files, PackRow);
    ReadTextsPacked(HeadTexts(r), PackU64(|r.files|) + rows);
    ReadU64Packed(|r.files|, rows);
    forall i, more | 0 <= i < |r.files| ensures ReadRow(PackRow(r.files[i]) + more) == Good(r.files[i], more) {
      ReadRowPacked(r.files[i], more);
    }
    ReadManyPacked(r.files, [], PackRow, ReadRow);
    assert rows + [] == rows;
  }

  /** The order of the texts: schema, repository, revision and subdirectory, then the number of files. */
  lemma HeadReads(r: Record)
    requires Fits(r)
    ensures var rows := PackMany(r.files, PackRow);
            && ReadMany(Pack(r), 4, ReadText) == Good([r.schema, r.repo, r.revision, r.subdir], PackU64(|r.files|) + rows)
            && ReadU64(PackU64(|r.files|) + rows) == Good(|r.files|, rows)
  {
    ReadTextsPacked(HeadTexts(r), PackU64(|r.files|) + PackMany(r.files, PackRow));
    ReadU64Packed(|r.files|, PackMany(r.files, PackRow));
  }

  /** The order inside a row: path, size, the two digests, the identities, classification, component. */
  lemma RowReads(r: Row, rest: seq<byte>)
    requires RowFits(r)
    ensures ReadText(PackRow(r) + rest).Good? && ReadText(PackRow(r) + rest).value == r.path
    ensures var s1 := ReadText(PackRow(r) + rest).rest;
            && ReadU64(s1).Good? && ReadU64(s1).value == r.size
            && ReadMany(ReadU64(s1).rest, 7, ReadText)
               == Good([r.expectedSha, r.actualSha, r.gitOid, r.lfsOid, r.xetHash, r.classification, r.component], rest)
  {
    var tail := PackMany(RowTexts(r), PackText) + rest;
    assert PackRow(r) + rest == PackText(r.path) + (PackU64(r.size) + tail);
    ReadTextPacked(r.path, PackU64(r.size) + tail);
    ReadU64Packed(r.size, tail);
    ReadTextsPacked(RowTexts(r), rest);
  }

  /** So distinct records never share an encoding, and with an injective digest never an
      identity. */
  lemma DistinctRecordsDistinctIdentities<D(!new)>(a: Record, b: Record, digest: seq<byte> -> D)
    requires Fits(a) && Fits(b)
    requires forall x, y :: digest(x) == digest(y) ==> x == y
    requires digest(Pack(a)) == digest(Pack(b))
    ensures a == b
  {
    RoundTrip(a);
    RoundTrip(b);
  }
}
