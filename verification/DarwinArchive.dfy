/** The BSD archive written by tools/archive_darwin.py, and a reader for the format. An object's
    size is taken to be the length of what is copied. */
module DarwinArchive {
  import opened Bytes
  import opened Sequences
  import opened Wrappers

  const NUL: byte := 0
  const NEWLINE: byte := 10
  const SPACE: byte := 32
  const MAX_SIZE: nat := 10_000_000_000

  datatype Member = Member(name: seq<byte>, payload: seq<byte>)

  // ---- the name width ----

  function Width(length: nat): nat { (length + 3) / 8 * 8 + 4 }

  /** The least number congruent to 4 modulo 8 that holds the name: with it a payload starts on an
      eight-byte boundary from the start of its member. */
  lemma WidthIsLeast(length: nat, w: nat)
    ensures Width(length) >= length && Width(length) % 8 == 4 && (60 + Width(length)) % 8 == 0
    ensures w >= length && w % 8 == 4 ==> Width(length) <= w
  {
  }

  // ---- decimal fields ----

  function Pow10(k: nat): nat { if k == 0 then 1 else 10 * Pow10(k - 1) }

  function Decimal(n: nat): (s: seq<byte>)
    ensures s != [] && forall k :: 0 <= k < |s| ==> 48 <= s[k] <= 57
  {
    if n < 10 then [48 + n as byte] else Decimal(n / 10) + [48 + (n % 10) as byte]
  }

  function Number(s: seq<byte>): Option<nat> {
    if s == [] then Some(0)
    else
      var before, d := Number(s[..|s| - 1]), s[|s| - 1];
      if before.None? || d < 48 || d > 57 then None else Some(before.value * 10 + (d as nat - 48))
  }

  lemma {:induction false} NumberOfDecimal(n: nat)
    ensures Number(Decimal(n)) == Some(n)
  {
    if n < 10 {
      assert Decimal(n)[..0] == [];
    } else {
      NumberOfDecimal(n / 10);
      assert Decimal(n)[..|Decimal(n)| - 1] == Decimal(n / 10);
    }
  }

  lemma {:induction false} DecimalFits(n: nat, k: nat)
    requires k > 0 && n < Pow10(k)
    ensures |Decimal(n)| <= k
    decreases k
  {
    if n >= 10 { DecimalFits(n / 10, k - 1); }
  }

  function Repeat(b: byte, n: nat): (s: seq<byte>)
    ensures |s| == n
  {
    if n == 0 then [] else Repeat(b, n - 1) + [b]
  }

  /** Python's ljust: fills up to the width, and never shortens. */
  function Ljust(s: seq<byte>, width: nat, fill: byte): seq<byte> {
    if |s| < width then s + Repeat(fill, width - |s|) else s
  }

  function Strip(s: seq<byte>, fill: byte): seq<byte> {
    if s != [] && s[|s| - 1] == fill then Strip(s[..|s| - 1], fill) else s
  }

  lemma {:induction false} StripFill(s: seq<byte>, fill: byte, n: nat)
    requires s == [] || s[|s| - 1] != fill
    ensures Strip(s + Repeat(fill, n), fill) == s
  {
    if n == 0 {
      assert s + [] == s;
    } else {
      var t := s + Repeat(fill, n);
      assert t[..|t| - 1] == s + Repeat(fill, n - 1);
      StripFill(s, fill, n - 1);
    }
  }

  lemma StripLjust(s: seq<byte>, width: nat, fill: byte)
    requires s == [] || s[|s| - 1] != fill
    ensures Strip(Ljust(s, width, fill), fill) == s
  {
    if |s| < width { StripFill(s, fill, width - |s|); }
  }

  /** In ASCII: the archive magic, "#1/", "100644", and a backquote with a newline. */
  const MAGIC: seq<byte> := [33, 60, 97, 114, 99, 104, 62, 10]
  const EXTENDED: seq<byte> := [35, 49, 47]
  const MODE: seq<byte> := [49, 48, 48, 54, 52, 52]
  const END: seq<byte> := [96, 10]

  lemma TextsAre()
    ensures MAGIC == Ascii("!<arch>\n") && EXTENDED == Ascii("#1/") && MODE == Ascii("100644") && END == Ascii("`\n")
    ensures Decimal(0) == Ascii("0") && Decimal(109) == Ascii("109")
  {
    assert Decimal(10) == Decimal(1) + [48] && Decimal(109) == Decimal(10) + [57];
  }

  // ---- what is written ----

  predicate NameOk(name: seq<byte>) { NUL !in name && NEWLINE !in name }

  function Size(m: Member): nat { |m.payload| + Width(|m.name|) }

  predicate Admitted(m: Member) { NameOk(m.name) && Size(m) < MAX_SIZE }

  /** Texts, each filled up with spaces to the width of its field. */
  function Row(fields: seq<(seq<byte>, nat)>): seq<byte> {
    if fields == [] then [] else Row(fields[..|fields| - 1]) + Ljust(fields[|fields| - 1].0, fields[|fields| - 1].1, SPACE)
  }

  /** Name width, time, owner, group, mode, size and the header's end. */
  function Fields(width: nat, size: nat): seq<(seq<byte>, nat)> {
    [(EXTENDED, 3), (Decimal(width), 13), (Decimal(0), 12), (Decimal(0), 6), (Decimal(0), 6),
     (MODE, 8), (Decimal(size), 10), (END, 2)]
  }

  /** The first member from k on that is not admitted, or the number of members. */
  function FirstRefused(members: seq<Member>, k: nat): nat
    requires k <= |members|
    decreases |members| - k
  {
    if k == |members| || !Admitted(members[k]) then k else FirstRefused(members, k + 1)
  }

  lemma {:induction false} FirstRefusedIs(members: seq<Member>, k: nat)
    requires k <= |members|
    ensures k <= FirstRefused(members, k) <= |members|
    ensures forall j :: k <= j < FirstRefused(members, k) ==> Admitted(members[j])
    ensures FirstRefused(members, k) < |members| ==> !Admitted(members[FirstRefused(members, k)])
    decreases |members| - k
  {
    if k < |members| && Admitted(members[k]) { FirstRefusedIs(members, k + 1); }
  }

  function Header(width: nat, size: nat): seq<byte> { Row(Fields(width, size)) }

  function Padding(m: Member): seq<byte> { if Size(m) % 2 == 1 then [NEWLINE] else [] }

  function MemberBytes(m: Member): seq<byte> {
    Header(Width(|m.name|), Size(m)) + Ljust(m.name, Width(|m.name|), NUL) + m.payload + Padding(m)
  }

  function Parts(members: seq<Member>): (parts: seq<seq<byte>>)
    ensures |parts| == |members|
  {
    seq(|members|, k requires 0 <= k < |members| => MemberBytes(members[k]))
  }

  /** The first k parts, and those from k on. */
  function UpTo(parts: seq<seq<byte>>, k: nat): seq<byte>
    requires k <= |parts|
  {
    if k == 0 then [] else UpTo(parts, k - 1) + parts[k - 1]
  }

  function From(parts: seq<seq<byte>>, k: nat): seq<byte>
    requires k <= |parts|
    decreases |parts| - k
  {
    if k == |parts| then [] else parts[k] + From(parts, k + 1)
  }

  function ArchiveBytes(members: seq<Member>): seq<byte> { MAGIC + UpTo(Parts(members), |members|) }

  lemma {:induction false} Join(parts: seq<seq<byte>>, k: nat)
    requires k <= |parts|
    ensures UpTo(parts, |parts|) == UpTo(parts, k) + From(parts, k)
    decreases |parts| - k
  {
    if k < |parts| {
      Join(parts, k + 1);
      Regroup(UpTo(parts, k), parts[k], From(parts, k + 1));
    } else {
      assert UpTo(parts, k) + [] == UpTo(parts, k);
    }
  }

  /** The column at which field k starts. */
  function Column(fields: seq<(seq<byte>, nat)>, k: nat): nat
    requires k <= |fields|
  {
    if k == 0 then 0 else Column(fields, k - 1) + fields[k - 1].1
  }

  predicate Fits(fields: seq<(seq<byte>, nat)>) { forall k :: 0 <= k < |fields| ==> |fields[k].0| <= fields[k].1 }

  lemma {:induction false} ColumnOfPrefix(fields: seq<(seq<byte>, nat)>, n: nat, k: nat)
    requires k <= n <= |fields|
    ensures Column(fields[..n], k) == Column(fields, k)
  {
    if k > 0 { ColumnOfPrefix(fields, n, k - 1); }
  }

  lemma {:induction false} RowLength(fields: seq<(seq<byte>, nat)>)
    requires Fits(fields)
    ensures |Row(fields)| == Column(fields, |fields|)
    decreases fields
  {
    if fields != [] {
      var n := |fields| - 1;
      RowLength(fields[..n]);
      ColumnOfPrefix(fields, n, n);
    }
  }

  /** When every text fits, every field stands in its columns. */
  lemma {:induction false} FieldInRow(fields: seq<(seq<byte>, nat)>, k: nat)
    requires Fits(fields) && k < |fields|
    ensures At(Row(fields), Column(fields, k), Ljust(fields[k].0, fields[k].1, SPACE))
    decreases fields
  {
    var n := |fields| - 1;
    RowLength(fields[..n]);
    if k < n {
      FieldInRow(fields[..n], k);
      ColumnOfPrefix(fields, n, k);
      AtInFront(Row(fields[..n]), Column(fields, k), Ljust(fields[k].0, fields[k].1, SPACE), Ljust(fields[n].0, fields[n].1, SPACE));
    } else {
      ColumnOfPrefix(fields, n, n);
    }
  }

  lemma Columns(width: nat, size: nat)
    ensures Column(Fields(width, size), 0) == 0 && Column(Fields(width, size), 1) == 3
    ensures Column(Fields(width, size), 6) == 48 && Column(Fields(width, size), 7) == 58
    ensures Column(Fields(width, size), 8) == 60
  {
    var f := Fields(width, size);
    assert Column(f, 1) == 3 && Column(f, 2) == 16;
    assert Column(f, 3) == 28 && Column(f, 4) == 34;
    assert Column(f, 5) == 40 && Column(f, 6) == 48;
  }

  lemma {:induction false} TenPowers()
    ensures Pow10(10) == MAX_SIZE
  {
    assert Pow10(4) == 10_000;
    assert Pow10(8) == 100_000_000;
  }

  /** No admitted member overflows a field, so the header is 60 bytes and its check never fires. */
  lemma HeaderIsSixty(width: nat, size: nat)
    requires width <= size < MAX_SIZE
    ensures Fits(Fields(width, size)) && |Header(width, size)| == 60
  {
    TenPowers();
    DecimalFits(width, 10);
    DecimalFits(size, 10);
    DecimalFits(0, 1);
    RowLength(Fields(width, size));
    Columns(width, size);
  }

  /** The stream is an archive of the first k parts. */
  predicate Holds(stream: seq<byte>, parts: seq<seq<byte>>, k: nat)
    requires k <= |parts|
  {
    stream == MAGIC + UpTo(parts, k)
  }

  lemma HoldsMore(stream: seq<byte>, parts: seq<seq<byte>>, k: nat)
    requires k < |parts| && Holds(stream, parts, k)
    ensures Holds(stream + parts[k], parts, k + 1)
  {
    Regroup(MAGIC, UpTo(parts, k), parts[k]);
  }

  datatype Outcome = Written | Invalid

  /** The bytes written before the first member that is refused, or all of them. */
  method Archive(members: seq<Member>) returns (r: Outcome, stream: seq<byte>, count: nat)
    ensures count <= |members| && Holds(stream, Parts(members), count)
    ensures count == FirstRefused(members, 0) && (r == Written <==> count == |members|)
  {
    stream := MAGIC;
    count := 0;
    ghost var parts := Parts(members);
    while count < |members|
      invariant count <= |members| && Holds(stream, parts, count)
      invariant FirstRefused(members, count) == FirstRefused(members, 0)
    {
      var ok;
      ok, stream := WriteNext(stream, members, count, parts);
      if !ok { return Invalid, stream, count; }
      count := count + 1;
    }
    r := Written;
  }

  method WriteNext(before: seq<byte>, members: seq<Member>, k: nat, ghost parts: seq<seq<byte>>)
    returns (ok: bool, stream: seq<byte>)
    requires k < |members| && parts == Parts(members) && Holds(before, parts, k)
    ensures ok <==> Admitted(members[k])
    ensures Holds(stream, parts, if ok then k + 1 else k)
  {
    HoldsMore(before, parts, k);
    ok, stream := WriteMember(before, members[k]);
  }

  method AppendParts(before: seq<byte>, header: seq<byte>, name: seq<byte>, payload: seq<byte>, size: nat)
    returns (stream: seq<byte>)
    ensures stream == before + (header + name + payload + if size % 2 == 1 then [NEWLINE] else [])
  {
    stream := before + header;
    stream := stream + name;
    stream := stream + payload;
    if size % 2 != 0 { stream := stream + [NEWLINE]; }
  }

  /** The body of the member loop. */
  method WriteMember(before: seq<byte>, m: Member) returns (ok: bool, stream: seq<byte>)
    ensures ok <==> Admitted(m)
    ensures stream == if ok then before + MemberBytes(m) else before
  {
    if NUL in m.name || NEWLINE in m.name { return false, before; }
    var width := (|m.name| + 3) / 8 * 8 + 4;
    var size := |m.payload| + width;
    if size >= 10_000_000_000 { return false, before; }
    var header := Row(Fields(width, size));
    HeaderIsSixty(width, size);
    if |header| != 60 { return false, before; }
    stream := AppendParts(before, header, Ljust(m.name, width, NUL), m.payload, size);
    ok := true;
  }

  // ---- reading it back ----

  function Field(s: seq<byte>): Option<nat> { Number(Strip(s, SPACE)) }

  datatype Entry = NoEntry | Entry(m: Member, used: nat)

  function ReadMember(s: seq<byte>): Entry {
    if |s| < 60 || s[..3] != EXTENDED || s[58..60] != END then NoEntry
    else
      var width, size := Field(s[3..16]), Field(s[48..58]);
      if width.None? || size.None? || width.value > size.value || 60 + size.value > |s| then NoEntry
      else
        Entry(Member(Strip(s[60..60 + width.value], NUL), s[60 + width.value..60 + size.value]),
             60 + size.value + size.value % 2)
  }

  function ReadMembers(s: seq<byte>): Option<seq<Member>>
    decreases |s|
  {
    if s == [] then Some([])
    else
      var first := ReadMember(s);
      if first.NoEntry? || first.used > |s| then None
      else
        var rest := ReadMembers(s[first.used..]);
        if rest.None? then None else Some([first.m] + rest.value)
  }

  function ReadArchive(s: seq<byte>): Option<seq<Member>> {
    if |s| < 8 || s[..8] != MAGIC then None else ReadMembers(s[8..])
  }

  lemma HeaderReads(width: nat, size: nat, rest: seq<byte>)
    requires width <= size < MAX_SIZE
    ensures var s := Header(width, size) + rest;
            && |s| >= 60 && s[..3] == EXTENDED && s[58..60] == END && s[60..] == rest
            && Field(s[3..16]) == Some(width) && Field(s[48..58]) == Some(size)
  {
    var h := Header(width, size);
    HeaderIsSixty(width, size);
    FieldReads(width, size);
    Cut(h, rest);
  }

  lemma Cut(h: seq<byte>, rest: seq<byte>)
    requires |h| == 60
    ensures var s := h + rest;
            && s[..3] == h[..3] && s[3..16] == h[3..16] && s[48..58] == h[48..58] && s[58..60] == h[58..60]
            && s[60..] == rest
  {
  }

  lemma FieldReads(width: nat, size: nat)
    requires width <= size < MAX_SIZE
    ensures var h := Header(width, size);
            && |h| == 60 && h[..3] == EXTENDED && h[58..60] == END
            && Field(h[3..16]) == Some(width) && Field(h[48..58]) == Some(size)
  {
    var f := Fields(width, size);
    HeaderIsSixty(width, size);
    Columns(width, size);
    FieldInRow(f, 0);
    FieldInRow(f, 1);
    FieldInRow(f, 6);
    FieldInRow(f, 7);
    NumberReads(width, 13);
    NumberReads(size, 10);
    assert f[0].0 == EXTENDED && f[1].0 == Decimal(width) && f[6].0 == Decimal(size) && f[7].0 == END;
  }

  predicate NumberAt(h: seq<byte>, from: nat, to: nat, n: nat) {
    from <= to <= |h| && Field(h[from..to]) == Some(n)
  }

  lemma NumberInRow(f: seq<(seq<byte>, nat)>, k: nat, n: nat)
    requires Fits(f) && k < |f| && f[k].0 == Decimal(n)
    ensures NumberAt(Row(f), Column(f, k), Column(f, k) + f[k].1, n)
  {
    FieldInRow(f, k);
    NumberReads(n, f[k].1);
  }

  lemma ModeInRow(f: seq<(seq<byte>, nat)>, k: nat)
    requires Fits(f) && k < |f| && f[k] == (MODE, 8)
    ensures var at := Column(f, k);
            at + 8 <= |Row(f)| && Strip(Row(f)[at..at + 8], SPACE) == MODE
  {
    FieldInRow(f, k);
    StripLjust(MODE, 8, SPACE);
  }

  /** The fields a reader may ignore: no time, no owner, no group, and an ordinary file's mode. */
  lemma OtherFieldsRead(width: nat, size: nat)
    requires width <= size < MAX_SIZE
    ensures var h := Header(width, size);
            && NumberAt(h, 16, 28, 0) && NumberAt(h, 28, 34, 0) && NumberAt(h, 34, 40, 0)
            && |h| == 60 && Strip(h[40..48], SPACE) == MODE
  {
    var f := Fields(width, size);
    HeaderIsSixty(width, size);
    MiddleColumns(width, size);
    assert f[2] == (Decimal(0), 12) && f[3] == (Decimal(0), 6) && f[4] == (Decimal(0), 6) && f[5] == (MODE, 8);
    NumberInRow(f, 2, 0);
    NumberInRow(f, 3, 0);
    NumberInRow(f, 4, 0);
    ModeInRow(f, 5);
  }

  lemma MiddleColumns(width: nat, size: nat)
    ensures Column(Fields(width, size), 2) == 16 && Column(Fields(width, size), 3) == 28
    ensures Column(Fields(width, size), 4) == 34 && Column(Fields(width, size), 5) == 40
  {
    var f := Fields(width, size);
    assert Column(f, 1) == 3;
    assert Column(f, 3) == 28;
  }

  lemma NumberReads(n: nat, width: nat)
    ensures Field(Ljust(Decimal(n), width, SPACE)) == Some(n)
  {
    StripLjust(Decimal(n), width, SPACE);
    NumberOfDecimal(n);
  }

  lemma NameReads(m: Member)
    requires NameOk(m.name)
    ensures |Ljust(m.name, Width(|m.name|), NUL)| == Width(|m.name|)
    ensures Strip(Ljust(m.name, Width(|m.name|), NUL), NUL) == m.name
  {
    WidthIsLeast(|m.name|, 0);
    StripLjust(m.name, Width(|m.name|), NUL);
  }

  lemma ThreeParts(s: seq<byte>, a: seq<byte>, b: seq<byte>, c: seq<byte>)
    requires |s| >= 60 && s[60..] == a + b + c
    ensures s[60..60 + |a|] == a && s[60 + |a|..60 + |a| + |b|] == b
  {
    assert s[60..60 + |a|] == s[60..][..|a|];
    assert s[60 + |a|..60 + |a| + |b|] == s[60..][|a|..|a| + |b|];
  }

  lemma Reassociate(h: seq<byte>, n: seq<byte>, p: seq<byte>, e: seq<byte>, rest: seq<byte>)
    ensures h + n + p + e + rest == h + (n + p + (e + rest))
  {
  }

  lemma EntryReads(s: seq<byte>, width: nat, size: nat, name: seq<byte>, payload: seq<byte>, tail: seq<byte>)
    requires |s| >= 60 && s[..3] == EXTENDED && s[58..60] == END
    requires Field(s[3..16]) == Some(width) && Field(s[48..58]) == Some(size)
    requires s[60..] == name + payload + tail && |name| == width && size == width + |payload|
    ensures ReadMember(s) == Entry(Member(Strip(name, NUL), payload), 60 + size + size % 2)
  {
    ThreeParts(s, name, payload, tail);
  }

  /** The bytes a member takes in the archive. */
  function Extent(m: Member): nat { 60 + Size(m) + Size(m) % 2 }

  lemma MemberLength(m: Member)
    requires Admitted(m)
    ensures |MemberBytes(m)| == Extent(m)
  {
    var h := Header(Width(|m.name|), Size(m));
    assert |h| == 60 by { HeaderIsSixty(Width(|m.name|), Size(m)); }
    assert |Ljust(m.name, Width(|m.name|), NUL)| == Width(|m.name|) by { NameReads(m); }
    FourLengths(h, Ljust(m.name, Width(|m.name|), NUL), m.payload, Padding(m));
  }

  lemma FourLengths(a: seq<byte>, b: seq<byte>, c: seq<byte>, d: seq<byte>)
    ensures |a + b + c + d| == |a| + |b| + |c| + |d|
  {
  }

  lemma MemberReads(m: Member, rest: seq<byte>)
    requires Admitted(m)
    ensures ReadMember(MemberBytes(m) + rest) == Entry(m, |MemberBytes(m)|)
  {
    var h, name := Header(Width(|m.name|), Size(m)), Ljust(m.name, Width(|m.name|), NUL);
    var tail := name + m.payload + (Padding(m) + rest);
    var s := h + tail;
    assert MemberBytes(m) + rest == s by { Reassociate(h, name, m.payload, Padding(m), rest); }
    HeaderReads(Width(|m.name|), Size(m), tail);
    NameReads(m);
    EntryReads(s, Width(|m.name|), Size(m), name, m.payload, Padding(m) + rest);
    MemberLength(m);
  }

  predicate ReadsAs(s: seq<byte>, members: seq<Member>) { ReadMembers(s) == Some(members) }

  /** Whatever follows the part, it reads as the member. */
  ghost predicate PartReads(part: seq<byte>, m: Member) {
    part != [] && forall rest :: ReadMember(part + rest) == Entry(m, |part|)
  }

  lemma ThisPart(parts: seq<seq<byte>>, members: seq<Member>, k: nat)
    requires k < |members| == |parts| && PartReads(parts[k], members[k])
    requires ReadsAs(From(parts, k + 1), members[k + 1..])
    ensures ReadsAs(From(parts, k), members[k..])
  {
    OneMore(parts[k], From(parts, k + 1), members[k], members[k + 1..]);
    assert members[k..] == [members[k]] + members[k + 1..];
  }

  lemma {:induction false} PartsRead(parts: seq<seq<byte>>, members: seq<Member>, k: nat)
    requires |parts| == |members| && k <= |members|
    requires forall j :: 0 <= j < |members| ==> PartReads(parts[j], members[j])
    ensures ReadsAs(From(parts, k), members[k..])
    decreases |members| - k
  {
    if k == |members| {
      assert members[k..] == [];
    } else {
      PartsRead(parts, members, k + 1);
      assert PartReads(parts[k], members[k]);
      ThisPart(parts, members, k);
    }
  }

  lemma AdmittedReads(m: Member)
    requires Admitted(m)
    ensures PartReads(MemberBytes(m), m)
  {
    MemberLength(m);
    forall rest ensures ReadMember(MemberBytes(m) + rest) == Entry(m, |MemberBytes(m)|) { MemberReads(m, rest); }
  }

  lemma OneMore(first: seq<byte>, rest: seq<byte>, m: Member, tail: seq<Member>)
    requires PartReads(first, m) && ReadsAs(rest, tail)
    ensures ReadsAs(first + rest, [m] + tail)
  {
    assert (first + rest)[|first|..] == rest;
  }

  /** A reader of the format recovers exactly the ordered names and payloads. */
  lemma RoundTrip(members: seq<Member>)
    requires forall k :: 0 <= k < |members| ==> Admitted(members[k])
    ensures ReadArchive(ArchiveBytes(members)) == Some(members)
  {
    var parts := Parts(members);
    forall k | 0 <= k < |members| ensures PartReads(parts[k], members[k]) { AdmittedReads(members[k]); }
    PartsRead(parts, members, 0);
    AfterMagic(parts, members);
  }

  lemma AfterMagic(parts: seq<seq<byte>>, members: seq<Member>)
    requires ReadsAs(From(parts, 0), members[0..])
    ensures ReadArchive(MAGIC + UpTo(parts, |parts|)) == Some(members)
  {
    var all := UpTo(parts, |parts|);
    assert all == From(parts, 0) by {
      Join(parts, 0);
      assert [] + From(parts, 0) == From(parts, 0);
    }
    assert members[0..] == members;
    Split(MAGIC, all);
  }

  lemma Split(a: seq<byte>, b: seq<byte>)
    ensures (a + b)[..|a|] == a && (a + b)[|a|..] == b
  {
  }

  // ---- alignment ----

  /** Where member k starts, and where its payload does. */
  function Start(members: seq<Member>, k: nat): nat
    requires k <= |members|
  {
    if k == 0 then 8 else Start(members, k - 1) + Extent(members[k - 1])
  }

  function PayloadAt(members: seq<Member>, k: nat): nat
    requires k < |members|
  {
    Start(members, k) + 60 + Width(|members[k].name|)
  }

  lemma LengthMore(parts: seq<seq<byte>>, k: nat)
    requires k < |parts|
    ensures |UpTo(parts, k + 1)| == |UpTo(parts, k)| + |parts[k]|
  {
  }

  lemma {:induction false} StartOf(members: seq<Member>, parts: seq<seq<byte>>, k: nat)
    requires k <= |members| == |parts| && forall j :: 0 <= j < k ==> |parts[j]| == Extent(members[j])
    ensures Start(members, k) == 8 + |UpTo(parts, k)|
  {
    if k > 0 {
      StartOf(members, parts, k - 1);
      LengthMore(parts, k - 1);
      assert |parts[k - 1]| == Extent(members[k - 1]);
    }
  }

  lemma StartIs(members: seq<Member>, k: nat)
    requires k <= |members| && forall j :: 0 <= j < k ==> Admitted(members[j])
    ensures Start(members, k) == 8 + |UpTo(Parts(members), k)|
  {
    forall j | 0 <= j < k ensures |Parts(members)[j]| == Extent(members[j]) { MemberLength(members[j]); }
    StartOf(members, Parts(members), k);
  }

  /** The payload is where it is said to be. */
  lemma PayloadIsThere(members: seq<Member>, k: nat)
    requires k < |members| && forall j :: 0 <= j <= k ==> Admitted(members[j])
    ensures At(ArchiveBytes(members), PayloadAt(members, k), members[k].payload)
  {
    StartIs(members, k);
    InMember(members[k]);
    InArchive(members, k, Start(members, k), MemberBytes(members[k]), 60 + Width(|members[k].name|), members[k].payload);
  }

  /** What stands in a member stands in the archive, from where the member starts. */
  lemma InArchive(members: seq<Member>, k: nat, start: nat, bytes: seq<byte>, at: nat, part: seq<byte>)
    requires k < |members| && start == 8 + |UpTo(Parts(members), k)|
    requires bytes == MemberBytes(members[k]) && At(bytes, at, part)
    ensures At(ArchiveBytes(members), start + at, part)
  {
    var parts := Parts(members);
    assert parts[k] == bytes;
    InPart(parts, k, at, part);
  }

  function PaddingText(size: nat): seq<byte> { if size % 2 == 1 then Ascii("\n") else [] }

  /** A member of odd size ends with a newline behind its payload, one of even size with the payload. */
  lemma PaddingInMember(m: Member)
    requires Admitted(m)
    ensures At(MemberBytes(m), 60 + Size(m), PaddingText(Size(m))) && |MemberBytes(m)| == 60 + Size(m) + |PaddingText(Size(m))|
  {
    assert Padding(m) == PaddingText(Size(m));
    var h, name := Header(Width(|m.name|), Size(m)), Ljust(m.name, Width(|m.name|), NUL);
    assert |h| == 60 by { HeaderIsSixty(Width(|m.name|), Size(m)); }
    assert |name| == Width(|m.name|) by { NameReads(m); }
    EndSlice(h, name, m.payload, Padding(m));
  }

  lemma EndSlice(h: seq<byte>, n: seq<byte>, p: seq<byte>, e: seq<byte>)
    ensures At(h + n + p + e, |h| + |n| + |p|, e)
  {
  }

  lemma InPart(parts: seq<seq<byte>>, k: nat, at: nat, part: seq<byte>)
    requires k < |parts| && At(parts[k], at, part)
    ensures At(MAGIC + UpTo(parts, |parts|), 8 + |UpTo(parts, k)| + at, part)
  {
    var before, after := UpTo(parts, k), From(parts, k);
    assert At(after, at, part) by { AtInFront(parts[k], at, part, From(parts, k + 1)); }
    assert At(before + after, |before| + at, part) by { AtBehind(after, at, part, before); }
    assert UpTo(parts, |parts|) == before + after by { Join(parts, k); }
    AtBehind(before + after, |before| + at, part, MAGIC);
  }

  lemma InMember(m: Member)
    requires Admitted(m)
    ensures At(MemberBytes(m), 60 + Width(|m.name|), m.payload)
  {
    var h, name := Header(Width(|m.name|), Size(m)), Ljust(m.name, Width(|m.name|), NUL);
    assert |h| == 60 by { HeaderIsSixty(Width(|m.name|), Size(m)); }
    assert |name| == Width(|m.name|) by { NameReads(m); }
    Slice(h, name, m.payload, Padding(m));
  }

  lemma Slice(h: seq<byte>, n: seq<byte>, p: seq<byte>, e: seq<byte>)
    ensures At(h + n + p + e, |h| + |n|, p)
  {
  }

  /** A payload length after which the next member starts aligned. */
  predicate KeepsAlignment(m: Member) { |m.payload| % 8 == 0 || |m.payload| % 8 == 7 }

  predicate AlignedAt(members: seq<Member>, k: nat)
    requires k < |members|
  {
    PayloadAt(members, k) % 8 == 0
  }

  lemma AlignedFirst(members: seq<Member>)
    requires members != []
    ensures AlignedAt(members, 0)
  {
    WidthIsLeast(|members[0].name|, 0);
  }

  lemma AlignedNext(members: seq<Member>, k: nat)
    requires k + 1 < |members| && AlignedAt(members, k)
    ensures AlignedAt(members, k + 1) <==> KeepsAlignment(members[k])
  {
    WidthIsLeast(|members[k].name|, 0);
    WidthIsLeast(|members[k + 1].name|, 0);
    Residues(Start(members, k), Width(|members[k].name|), |members[k].payload|, Width(|members[k + 1].name|));
  }

  lemma Residues(start: nat, width: nat, payload: nat, next: nat)
    requires width % 8 == 4 && next % 8 == 4 && (start + 60 + width) % 8 == 0
    ensures (start + 60 + (payload + width) + (payload + width) % 2 + 60 + next) % 8 == 0 <==>
            payload % 8 == 0 || payload % 8 == 7
  {
    var b, c, q, r := next / 8, (start + 60 + width) / 8, payload / 8, payload % 8;
    SameParity(payload, width);
    assert start + 60 + (payload + width) + payload % 2 + 60 + next == 8 * (c + 8 + b + q) + r + r % 2;
    Modulo8(c + 8 + b + q, r + r % 2);
  }

  lemma SameParity(payload: nat, width: nat)
    requires width % 8 == 4
    ensures (payload + width) % 2 == payload % 2 == payload % 8 % 2
  {
    assert payload == 2 * (4 * (payload / 8)) + payload % 8;
    Parity(4 * (payload / 8), payload % 8);
    assert payload + width == 2 * (4 * (width / 8) + 2) + payload;
    Parity(4 * (width / 8) + 2, payload);
  }

  lemma Parity(k: nat, r: nat)
    ensures (2 * k + r) % 2 == r % 2
  {
  }

  lemma Modulo8(k: nat, r: nat)
    requires r <= 8
    ensures (8 * k + r) % 8 == if r == 8 then 0 else r
  {
    if r == 8 { assert 8 * k + r == 8 * (k + 1); }
  }

  lemma {:induction false} AlignedUpTo(members: seq<Member>, n: nat)
    requires n < |members|
    ensures (forall k :: 0 <= k <= n ==> AlignedAt(members, k)) <==>
            (forall k :: 0 <= k < n ==> KeepsAlignment(members[k]))
  {
    if n == 0 {
      AlignedFirst(members);
    } else {
      AlignedUpTo(members, n - 1);
      if AlignedAt(members, n - 1) { AlignedNext(members, n - 1); }
    }
  }

  /** Padding to two bytes keeps every payload on an eight-byte boundary exactly when no payload but
      the last has a length other than 0 or 7 modulo 8. */
  lemma AbsoluteAlignment(members: seq<Member>)
    requires members != []
    ensures (forall k :: 0 <= k < |members| ==> AlignedAt(members, k)) <==>
            (forall k :: 0 <= k < |members| - 1 ==> KeepsAlignment(members[k]))
  {
    AlignedUpTo(members, |members| - 1);
  }

  /** A two-byte object puts the next payload off the boundary. */
  lemma MisalignedExample()
    ensures var members := [Member([97], [1, 2]), Member([98], [3])];
            Admitted(members[0]) && Admitted(members[1]) && !AlignedAt(members, 1)
  {
    var members := [Member([97], [1, 2]), Member([98], [3])];
    AlignedFirst(members);
    AlignedNext(members, 0);
  }
}
