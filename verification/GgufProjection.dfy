/** The reference projection of tools/qualification_gguf.py: a GGUF file is rewritten with some
    metadata keys renamed and BF16 tensors widened to F32, then read back and compared.

    A file is its bytes. What the independent reader reports about the source file, the
    extents of metadata fields and tensors, is a parameter. */
module GgufProjection {
  import opened Bytes
  import opened Sequences
  import opened Wrappers

  // ---- geometry ----

  predicate PowerOfTwo(n: int)
    decreases n
  {
    n == 1 || (n > 1 && n % 2 == 0 && PowerOfTwo(n / 2))
  }

  lemma AtLeast(a: nat, d: nat)
    requires d >= 1
    ensures a * d >= a
  {
    assert a * d == a * (d - 1) + a;
  }

  lemma QuotientBelow(a: nat, p: nat, q: nat, r: nat, s: nat)
    requires a * q + r == a * p + s && s < a
    ensures q <= p
  {
    if q > p { AtLeast(a, q - p); }
  }

  lemma DivisionUnique(x: nat, a: nat, q: nat, r: nat)
    requires a > 0 && x == a * q + r && r < a
    ensures x / a == q && x % a == r
  {
    var p, s := x / a, x % a;
    assert x == a * p + s;
    QuotientBelow(a, p, q, r, s);
    QuotientBelow(a, q, p, s, r);
  }

  predicate Multiple(n: nat, a: nat)
    requires a > 0
    decreases n
  {
    n == 0 || (n >= a && Multiple(n - a, a))
  }

  /** The least multiple of the alignment that holds the value. */
  function Aligned(value: nat, a: nat): (r: nat)
    requires a > 0
    ensures Multiple(r, a) && value <= r < value + a
    decreases value
  {
    if value == 0 then 0 else if value <= a then a else a + Aligned(value - a, a)
  }

  lemma {:induction false} MultipleIsProduct(n: nat, a: nat)
    requires a > 0 && Multiple(n, a)
    ensures n % a == 0 && n == n / a * a
    decreases n
  {
    if n > 0 {
      MultipleIsProduct(n - a, a);
      DivisionUnique(n, a, (n - a) / a + 1, 0);
    }
  }

  /** The formula of the source, with its floor division, computes it. */
  lemma AlignedFormula(value: nat, a: nat)
    requires a > 0
    ensures Aligned(value, a) == (value + a - 1) / a * a
  {
    var r := Aligned(value, a);
    MultipleIsProduct(r, a);
    DivisionUnique(value + a - 1, a, r / a, value + a - 1 - r);
  }

  /** The bits two numbers have in common. */
  function BitAnd(a: nat, b: nat): nat {
    if a == 0 || b == 0 then 0 else 2 * BitAnd(a / 2, b / 2) + if a % 2 == 1 && b % 2 == 1 then 1 else 0
  }

  lemma {:induction false} BitAndSelf(a: nat)
    ensures BitAnd(a, a) == a
  {
    if a > 0 { BitAndSelf(a / 2); }
  }

  /** A positive number shares no bit with its predecessor exactly when it is a power of two. */
  lemma {:induction false} BitTest(a: nat)
    requires a > 0
    ensures BitAnd(a, a - 1) == 0 <==> PowerOfTwo(a)
  {
    if a == 1 {
    } else if a % 2 == 0 {
      assert (a - 1) / 2 == a / 2 - 1;
      BitTest(a / 2);
    } else {
      assert (a - 1) / 2 == a / 2;
      BitAndSelf(a / 2);
    }
  }

  /** aligned with its refusals: negative values and alignments that are no power of two. */
  method AlignedChecked(value: int, a: int) returns (ok: bool, r: nat)
    ensures ok <==> value >= 0 && PowerOfTwo(a)
    ensures ok ==> r == Aligned(value, a)
  {
    if value < 0 || a <= 0 { return false, 0; }
    BitTest(a);
    if BitAnd(a, a - 1) != 0 { return false, 0; }
    ok := true;
    r := AlignedValue(value, a);
  }

  /** The arithmetic alone. */
  method AlignedValue(value: nat, a: nat) returns (r: nat)
    requires a > 0
    ensures r == Aligned(value, a)
  {
    AlignedFormula(value, a);
    r := (value + a - 1) / a * a;
  }

  function Zeros(n: nat): (z: seq<byte>)
    ensures |z| == n
  {
    seq(n, _ => 0)
  }

  lemma {:induction false} SumMultiple(x: nat, y: nat, a: nat)
    requires a > 0 && Multiple(x, a) && Multiple(y, a)
    ensures Multiple(x + y, a)
    decreases y
  {
    if y > 0 { SumMultiple(x, y - a, a); }
  }

  // ---- widening ----

  /** Byte i of the widened form: each BF16 element becomes the upper half of an F32 element. */
  function WidenedByte(raw: seq<byte>, i: nat): byte
    requires |raw| % 2 == 0 && i < 2 * |raw|
  {
    if i % 4 == 2 then raw[i / 4 * 2] else if i % 4 == 3 then raw[i / 4 * 2 + 1] else 0
  }

  function Widen(raw: seq<byte>): (w: seq<byte>)
    requires |raw| % 2 == 0
    ensures |w| == 2 * |raw|
    ensures forall i :: 0 <= i < |w| ==> w[i] == WidenedByte(raw, i)
  {
    seq(2 * |raw|, i requires 0 <= i < 2 * |raw| => WidenedByte(raw, i))
  }

  /** As numbers, element k is shifted left by sixteen bits. */
  lemma WidenShifts(raw: seq<byte>, k: nat)
    requires |raw| % 2 == 0 && 2 * k + 2 <= |raw|
    ensures Value(Widen(raw)[4 * k..4 * k + 4]) == Value(raw[2 * k..2 * k + 2]) * 0x1_0000
  {
    var a, b := raw[2 * k], raw[2 * k + 1];
    assert Widen(raw)[4 * k..4 * k + 4] == [0, 0, a, b];
    assert raw[2 * k..2 * k + 2] == [a, b];
    PairShifted(a, b);
  }

  lemma PairShifted(a: byte, b: byte)
    ensures Value([0, 0, a, b]) == Value([a, b]) * 0x1_0000
  {
    assert [0, 0, a, b] == [0] + [0, a, b] && [0, a, b] == [0] + [a, b];
    ValuePrepend(0, [0, a, b]);
    ValuePrepend(0, [a, b]);
  }

  lemma ValuePrepend(b: byte, s: seq<byte>)
    ensures Value([b] + s) == b as nat + 256 * Value(s)
  {
    assert ([b] + s)[1..] == s;
  }

  lemma WidenAppend(a: seq<byte>, b: seq<byte>)
    requires |a| % 2 == 0 && |b| % 2 == 0
    ensures Widen(a + b) == Widen(a) + Widen(b)
  {
    var m := |a| / 2;
    forall i | 0 <= i < 2 * |a + b| ensures WidenedByte(a + b, i) == (Widen(a) + Widen(b))[i] {
      if i >= 2 * |a| {
        var j := i - 4 * m;
        assert i % 4 == j % 4 && i / 4 == m + j / 4;
      }
    }
  }

  /** widen fills a zeroed buffer of twice the length by two strided slice assignments. */
  method WidenBuffer(raw: seq<byte>) returns (ok: bool, out: seq<byte>)
    ensures ok == (|raw| % 2 == 0)
    ensures ok ==> out == Widen(raw)
  {
    if |raw| % 2 != 0 { return false, []; }
    var result := new byte[2 * |raw|](_ => 0);
    forall i | 0 <= i < result.Length && i % 4 == 2 { result[i] := raw[i / 4 * 2]; }
    forall i | 0 <= i < result.Length && i % 4 == 3 { result[i] := raw[i / 4 * 2 + 1]; }
    return true, result[..];
  }

  /** The size of n source bytes once encoded. */
  function Scaled(n: nat, widening: bool): nat { if widening then 2 * n else n }

  /** Whole elements: what widening needs of a byte count. */
  predicate Whole(n: nat, widening: bool) { widening ==> n % 2 == 0 }

  function Encoded(raw: seq<byte>, widening: bool): (e: seq<byte>)
    requires Whole(|raw|, widening)
    ensures |e| == Scaled(|raw|, widening)
  {
    if widening then Widen(raw) else raw
  }

  /** Encoding goes chunk by chunk when chunks hold whole elements. */
  lemma EncodedAppend(a: seq<byte>, b: seq<byte>, widening: bool)
    requires Whole(|a|, widening) && Whole(|b|, widening)
    ensures Whole(|a + b|, widening) && Encoded(a + b, widening) == Encoded(a, widening) + Encoded(b, widening)
  {
    if widening { WidenAppend(a, b); }
  }

  // ---- reading ----

  /** seek and read: fewer bytes at the end of the file. */
  function ReadAt(file: seq<byte>, offset: nat, n: nat): (r: seq<byte>)
    ensures |r| <= n
    ensures r != [] ==> offset + |r| <= |file| && r == file[offset..offset + |r|]
    ensures |r| < n ==> offset + n > |file|
  {
    var from := if offset < |file| then offset else |file|;
    var to := if offset + n < |file| then offset + n else |file|;
    file[from..to]
  }

  const CHUNK := 4 * 1024 * 1024

  predicate Readable(src: seq<byte>, offset: nat, n: nat, widening: bool) {
    n == 0 || (offset + n <= |src| && Whole(n, widening))
  }

  /** The encoded bytes of a readable extent. */
  function Payload(src: seq<byte>, offset: nat, n: nat, widening: bool): (p: seq<byte>)
    requires Readable(src, offset, n, widening)
    ensures |p| == Scaled(n, widening)
  {
    if n == 0 then [] else Encoded(src[offset..offset + n], widening)
  }

  /** widen or copy one chunk. */
  method EncodeChunk(raw: seq<byte>, widening: bool) returns (ok: bool, encoded: seq<byte>)
    ensures ok == Whole(|raw|, widening)
    ensures ok ==> encoded == Encoded(raw, widening)
  {
    if widening {
      ok, encoded := WidenBuffer(raw);
    } else {
      ok, encoded := true, raw;
    }
  }

  /** The next chunk of an extent of n bytes of which `done` are read. */
  function NextChunk(src: seq<byte>, offset: nat, n: nat, done: nat): seq<byte>
    requires done <= n
  {
    ReadAt(src, offset + done, if n - done < CHUNK then n - done else CHUNK)
  }

  lemma Joined(src: seq<byte>, offset: nat, done: nat, raw: seq<byte>)
    requires offset + done + |raw| <= |src| && raw == src[offset + done..offset + done + |raw|]
    ensures src[offset..offset + done] + raw == src[offset..offset + done + |raw|]
  {
  }

  lemma ChunkAppends(src: seq<byte>, offset: nat, n: nat, done: nat, widening: bool)
    requires done < n && Readable(src, offset, done, widening)
    requires NextChunk(src, offset, n, done) != [] && Whole(|NextChunk(src, offset, n, done)|, widening)
    ensures var raw := NextChunk(src, offset, n, done);
            && done + |raw| <= n && Readable(src, offset, done + |raw|, widening)
            && Payload(src, offset, done + |raw|, widening) == Payload(src, offset, done, widening) + Encoded(raw, widening)
  {
    var raw := NextChunk(src, offset, n, done);
    Joined(src, offset, done, raw);
    EncodedAppend(src[offset..offset + done], raw, widening);
  }

  /** A chunk that is missing or breaks an element shows the extent was not readable. */
  lemma ChunkRefuses(src: seq<byte>, offset: nat, n: nat, done: nat, widening: bool)
    requires done < n && Readable(src, offset, done, widening) && Whole(done, widening)
    requires NextChunk(src, offset, n, done) == [] || !Whole(|NextChunk(src, offset, n, done)|, widening)
    ensures !Readable(src, offset, n, widening)
  {
  }

  lemma ChunkFits(src: seq<byte>, offset: nat, n: nat, done: nat, widening: bool)
    requires done < n && Whole(done, widening) && Whole(|NextChunk(src, offset, n, done)|, widening)
    ensures done + |NextChunk(src, offset, n, done)| <= n
    ensures Whole(done + |NextChunk(src, offset, n, done)|, widening)
  {
  }

  /** Reads and encodes the next chunk. */
  method CopyChunk(src: seq<byte>, offset: nat, n: nat, done: nat, widening: bool)
    returns (ok: bool, encoded: seq<byte>, count: nat)
    requires done < n && Whole(done, widening) && Readable(src, offset, done, widening)
    ensures !ok ==> !Readable(src, offset, n, widening)
    ensures ok ==>
              && 0 < count && done + count <= n && Whole(done + count, widening)
              && Readable(src, offset, done + count, widening)
              && Payload(src, offset, done + count, widening) == Payload(src, offset, done, widening) + encoded
  {
    var raw := NextChunk(src, offset, n, done);
    ok, encoded := EncodeChunk(raw, widening);
    if raw == [] || !ok {
      ChunkRefuses(src, offset, n, done, widening);
      return false, [], 0;
    }
    ChunkAppends(src, offset, n, done, widening);
    ChunkFits(src, offset, n, done, widening);
    return true, encoded, |raw|;
  }

  /** Copies one tensor in chunks. It succeeds exactly on readable extents, and then the chunks
      together are the encoding of the whole tensor. */
  method CopyTensor(src: seq<byte>, offset: nat, n: nat, widening: bool) returns (ok: bool, out: seq<byte>)
    ensures ok == Readable(src, offset, n, widening)
    ensures ok ==> out == Payload(src, offset, n, widening)
  {
    var done := 0;
    out := [];
    while done < n
      invariant 0 <= done <= n
      invariant Readable(src, offset, done, widening) && Whole(done, widening)
      invariant out == Payload(src, offset, done, widening)
    {
      var read, encoded, count := CopyChunk(src, offset, n, done, widening);
      if !read { return false, out; }
      out := out + encoded;
      done := done + count;
    }
    return true, out;
  }

  // ---- the parts of the file ----

  const F32 := 0
  const BF16 := 30

  datatype Tensor = Tensor(name: Text, shape: seq<nat>, qtype: nat, dataOffset: nat, nBytes: nat)

  /** A metadata field: where the reader found it, its key, and the key to write. */
  datatype Field = Field(offset: nat, count: nat, name: Text, alias: Text)

  /** The source file as the reader presents it, with the recipe's choice to widen. */
  datatype Job = Job(src: seq<byte>, metadata: seq<Field>, tensors: seq<Tensor>, widenBf16: bool, alignment: nat)

  /** A directory entry: what a GGUF reader finds about a tensor. */
  datatype Entry = Entry(name: Text, shape: seq<nat>, qtype: nat, offset: nat)

  predicate Widened(job: Job, t: Tensor) { job.widenBf16 && t.qtype == BF16 }

  function Size(job: Job, t: Tensor): nat { Scaled(t.nBytes, Widened(job, t)) }

  /** The offset of tensor k: the aligned sizes of the tensors before it. */
  function Offset(job: Job, k: nat): nat
    requires job.alignment > 0 && k <= |job.tensors|
  {
    if k == 0 then 0 else Offset(job, k - 1) + Room(job, k - 1)
  }

  /** The aligned size of tensor k. */
  function Room(job: Job, k: nat): (r: nat)
    requires job.alignment > 0 && k < |job.tensors|
    ensures Size(job, job.tensors[k]) <= r < Size(job, job.tensors[k]) + job.alignment
    ensures Multiple(r, job.alignment)
  {
    Aligned(Size(job, job.tensors[k]), job.alignment)
  }

  function EntryOf(job: Job, k: nat): Entry
    requires job.alignment > 0 && k < |job.tensors|
  {
    var t := job.tensors[k];
    Entry(t.name, t.shape, if Widened(job, t) then F32 else t.qtype, Offset(job, k))
  }

  /** The first n directory entries. */
  function Entries(job: Job, n: nat): (es: seq<Entry>)
    requires job.alignment > 0 && n <= |job.tensors|
    ensures |es| == n
  {
    if n == 0 then [] else Entries(job, n - 1) + [EntryOf(job, n - 1)]
  }

  function PackU32(v: nat): seq<byte> { LittleEndian(v, 4) }

  function PackEntry(e: Entry): seq<byte> {
    PackText(e.name) + (PackU32(|e.shape|) + (PackMany(e.shape, PackU64) + (PackU32(e.qtype) + PackU64(e.offset))))
  }

  predicate EntryFits(e: Entry) {
    && TextFits(e.name) && |e.shape| < U32 && e.qtype < U32 && e.offset < U64
    && forall i :: 0 <= i < |e.shape| ==> e.shape[i] < U64
  }

  predicate EntriesFit(job: Job, n: nat)
    requires job.alignment > 0 && n <= |job.tensors|
  {
    n == 0 || (EntriesFit(job, n - 1) && EntryFits(EntryOf(job, n - 1)))
  }

  function DirectoryBytes(job: Job, n: nat): seq<byte>
    requires job.alignment > 0 && n <= |job.tensors|
  {
    if n == 0 then [] else DirectoryBytes(job, n - 1) + PackEntry(EntryOf(job, n - 1))
  }

  /** The raw bytes of a field must start with the key the reader named. */
  predicate FieldFits(src: seq<byte>, f: Field) {
    TextFits(f.name) && TextFits(f.alias) && PackText(f.name) <= ReadAt(src, f.offset, f.count)
  }

  /** Type and value are kept; only the key changes. */
  function FieldBytes(src: seq<byte>, f: Field): seq<byte>
    requires FieldFits(src, f)
  {
    PackText(f.alias) + ReadAt(src, f.offset, f.count)[8 + |f.name|..]
  }

  predicate FieldsFit(job: Job, n: nat)
    requires n <= |job.metadata|
  {
    n == 0 || (FieldsFit(job, n - 1) && FieldFits(job.src, job.metadata[n - 1]))
  }

  function MetadataBytes(job: Job, n: nat): seq<byte>
    requires n <= |job.metadata| && FieldsFit(job, n)
  {
    if n == 0 then [] else MetadataBytes(job, n - 1) + FieldBytes(job.src, job.metadata[n - 1])
  }

  const MAGIC: seq<byte> := [0x47, 0x47, 0x55, 0x46]

  function Header(job: Job): seq<byte> {
    MAGIC + PackU32(3) + PackU64(|job.tensors|) + PackU64(|job.metadata|)
  }

  predicate TensorReadable(job: Job, t: Tensor) {
    Readable(job.src, t.dataOffset, t.nBytes, Widened(job, t))
  }

  function TensorBytes(job: Job, t: Tensor): (p: seq<byte>)
    requires TensorReadable(job, t)
    ensures |p| == Size(job, t)
  {
    Payload(job.src, t.dataOffset, t.nBytes, Widened(job, t))
  }

  predicate TensorsReadable(job: Job, n: nat)
    requires n <= |job.tensors|
  {
    n == 0 || (TensorsReadable(job, n - 1) && TensorReadable(job, job.tensors[n - 1]))
  }

  /** A tensor's bytes with the zero padding up to the alignment. */
  function Region(job: Job, k: nat): (r: seq<byte>)
    requires job.alignment > 0 && k < |job.tensors| && TensorReadable(job, job.tensors[k])
    ensures |r| == Room(job, k)
  {
    TensorBytes(job, job.tensors[k]) + Zeros(Room(job, k) - Size(job, job.tensors[k]))
  }

  /** The regions of the first n tensors. */
  function Data(job: Job, n: nat): (d: seq<byte>)
    requires job.alignment > 0 && n <= |job.tensors| && TensorsReadable(job, n)
    ensures |d| == Offset(job, n)
  {
    if n == 0 then [] else Data(job, n - 1) + Region(job, n - 1)
  }

  /** Everything the job needs for every pack, read and widening to succeed. */
  predicate Admitted(job: Job) {
    PowerOfTwo(job.alignment) && FrontAdmitted(job) && TensorsReadable(job, |job.tensors|)
  }

  predicate FrontAdmitted(job: Job)
    requires job.alignment > 0
  {
    && |job.tensors| < U64 && |job.metadata| < U64
    && FieldsFit(job, |job.metadata|)
    && EntriesFit(job, |job.tensors|)
  }

  function Padded(s: seq<byte>, a: nat): (p: seq<byte>)
    requires a > 0
    ensures |p| == Aligned(|s|, a)
  {
    s + Zeros(Aligned(|s|, a) - |s|)
  }

  /** The header, the metadata and the directory, padded to the alignment. */
  function FrontBytes(job: Job): seq<byte>
    requires job.alignment > 0 && FrontAdmitted(job)
  {
    Padded(Header(job) + MetadataBytes(job, |job.metadata|) + DirectoryBytes(job, |job.tensors|), job.alignment)
  }

  function Front(job: Job): seq<byte>
    requires Admitted(job)
  {
    FrontBytes(job)
  }

  function FileBytes(job: Job): (f: seq<byte>)
    requires Admitted(job)
  {
    WithData(job, Front(job))
  }

  /** Some front matter followed by the data. */
  function WithData(job: Job, front: seq<byte>): (f: seq<byte>)
    requires job.alignment > 0 && TensorsReadable(job, |job.tensors|)
    ensures |f| == |front| + Offset(job, |job.tensors|)
  {
    front + Data(job, |job.tensors|)
  }

  // ---- writing ----

  datatype Refusal = Geometry | PackRange | MetadataExtent | OffsetDiffers | TensorUnreadable

  datatype Written = Written(file: seq<byte>, dataStart: nat, entries: seq<Entry>) | Refused(why: Refusal)

  method WriteField(src: seq<byte>, f: Field) returns (ok: bool, bytes: seq<byte>)
    ensures ok == FieldFits(src, f)
    ensures ok ==> bytes == FieldBytes(src, f)
  {
    if |f.name| >= U64 || |f.alias| >= U64 { return false, []; }
    var raw := ReadAt(src, f.offset, f.count);
    if !(PackText(f.name) <= raw) { return false, []; }
    return true, PackText(f.alias) + raw[8 + |f.name|..];
  }

  lemma {:induction false} FieldsFitPrefix(job: Job, m: nat, n: nat)
    requires m <= n <= |job.metadata| && FieldsFit(job, n)
    ensures FieldsFit(job, m)
    decreases n
  {
    if m < n { FieldsFitPrefix(job, m, n - 1); }
  }

  lemma {:induction false} EntriesFitPrefix(job: Job, m: nat, n: nat)
    requires job.alignment > 0 && m <= n <= |job.tensors| && EntriesFit(job, n)
    ensures EntriesFit(job, m)
    decreases n
  {
    if m < n { EntriesFitPrefix(job, m, n - 1); }
  }

  lemma {:induction false} TensorsReadablePrefix(job: Job, m: nat, n: nat)
    requires m <= n <= |job.tensors| && TensorsReadable(job, n)
    ensures TensorsReadable(job, m)
    decreases n
  {
    if m < n { TensorsReadablePrefix(job, m, n - 1); }
  }

  method WriteMetadata(job: Job) returns (ok: bool, dst: seq<byte>)
    ensures ok == FieldsFit(job, |job.metadata|)
    ensures ok ==> dst == MetadataBytes(job, |job.metadata|)
  {
    dst := [];
    for i := 0 to |job.metadata|
      invariant FieldsFit(job, i)
      invariant dst == MetadataBytes(job, i)
    {
      var fits, bytes := WriteField(job.src, job.metadata[i]);
      if !fits {
        if FieldsFit(job, |job.metadata|) { FieldsFitPrefix(job, i + 1, |job.metadata|); }
        return false, dst;
      }
      dst := dst + bytes;
    }
    return true, dst;
  }

  /** One directory row: its entry, its bytes and the room its tensor takes. */
  method WriteEntry(job: Job, k: nat, offset: nat) returns (ok: bool, entry: Entry, bytes: seq<byte>, room: nat)
    requires job.alignment > 0 && k < |job.tensors| && offset == Offset(job, k)
    ensures entry == EntryOf(job, k) && ok == EntryFits(entry)
    ensures ok ==> bytes == PackEntry(entry) && room == Room(job, k)
  {
    var t := job.tensors[k];
    var widened := job.widenBf16 && t.qtype == BF16;
    entry := Entry(t.name, t.shape, if widened then F32 else t.qtype, offset);
    ok := EntryFits(entry);
    bytes := PackEntry(entry);
    room := AlignedValue(Scaled(t.nBytes, widened), job.alignment);
  }

  method WriteDirectory(job: Job) returns (ok: bool, dst: seq<byte>, entries: seq<Entry>)
    requires job.alignment > 0
    ensures ok == EntriesFit(job, |job.tensors|)
    ensures ok ==> entries == Entries(job, |job.tensors|) && dst == DirectoryBytes(job, |job.tensors|)
  {
    dst, entries := [], [];
    var offset := 0;
    for k := 0 to |job.tensors|
      invariant offset == Offset(job, k) && entries == Entries(job, k)
      invariant EntriesFit(job, k)
      invariant dst == DirectoryBytes(job, k)
    {
      var fits, entry, bytes, room := WriteEntry(job, k, offset);
      if !fits {
        if EntriesFit(job, |job.tensors|) { EntriesFitPrefix(job, k + 1, |job.tensors|); }
        return false, dst, entries;
      }
      dst := dst + bytes;
      entries := entries + [entry];
      offset := offset + room;
    }
    return true, dst, entries;
  }

  /** One tensor and its padding, as two writes. */
  method CopyRegion(job: Job, k: nat) returns (ok: bool, region: seq<byte>)
    requires job.alignment > 0 && k < |job.tensors|
    ensures ok == TensorReadable(job, job.tensors[k])
    ensures ok ==> region == Region(job, k)
  {
    var t := job.tensors[k];
    var bytes;
    ok, bytes := CopyTensor(job.src, t.dataOffset, t.nBytes, Widened(job, t));
    if !ok { return false, []; }
    var room := AlignedValue(|bytes|, job.alignment);
    region := bytes + Zeros(room - |bytes|);
  }

  lemma UnreadableStops(job: Job, k: nat)
    requires k < |job.tensors| && !TensorReadable(job, job.tensors[k])
    ensures !TensorsReadable(job, |job.tensors|)
  {
    if TensorsReadable(job, |job.tensors|) { TensorsReadablePrefix(job, k + 1, |job.tensors|); }
  }

  /** Copies every tensor to where the directory says it is; the guard on the position is there, and
      never fires. */
  method WriteData(job: Job, dataStart: nat, entries: seq<Entry>) returns (why: Option<Refusal>, dst: seq<byte>)
    requires job.alignment > 0 && entries == Entries(job, |job.tensors|)
    ensures why.None? <==> TensorsReadable(job, |job.tensors|)
    ensures why != Some(OffsetDiffers)
    ensures why.None? ==> dst == Data(job, |job.tensors|)
  {
    dst := [];
    for k := 0 to |job.tensors|
      invariant TensorsReadable(job, k)
      invariant dst == Data(job, k)
    {
      assert entries[k].offset == |dst| by { EntriesAt(job, |job.tensors|, k); }
      if dataStart + |dst| != dataStart + entries[k].offset { return Some(OffsetDiffers), dst; }
      var copied, region := CopyRegion(job, k);
      if !copied {
        UnreadableStops(job, k);
        return Some(TensorUnreadable), dst;
      }
      dst := dst + region;
    }
    return None, dst;
  }

  lemma {:induction false} EntriesAt(job: Job, n: nat, k: nat)
    requires job.alignment > 0 && k < n <= |job.tensors|
    ensures Entries(job, n)[k] == EntryOf(job, k)
    decreases n
  {
    if k < n - 1 { EntriesAt(job, n - 1, k); }
  }

  /** Header, metadata and directory, padded to where the data starts. */
  method WriteFront(job: Job) returns (why: Option<Refusal>, dst: seq<byte>, entries: seq<Entry>)
    requires PowerOfTwo(job.alignment)
    ensures why.None? <==> FrontAdmitted(job)
    ensures why != Some(OffsetDiffers)
    ensures why.None? ==> dst == FrontBytes(job) && entries == Entries(job, |job.tensors|)
  {
    entries := [];
    if |job.tensors| >= U64 || |job.metadata| >= U64 { return Some(PackRange), [], []; }
    var ok, metadata := WriteMetadata(job);
    if !ok { return Some(MetadataExtent), [], []; }
    var directory;
    ok, directory, entries := WriteDirectory(job);
    if !ok { return Some(PackRange), [], []; }
    dst := Header(job);
    dst := dst + metadata;
    dst := dst + directory;
    var dataStart := AlignedValue(|dst|, job.alignment);
    dst := dst + Zeros(dataStart - |dst|);
    why := None;
  }

  /** The whole projection, without the final comparison. */
  method Project(job: Job) returns (w: Written)
    ensures w.Written? <==> Admitted(job)
    ensures w.Written? ==> w == Written(FileBytes(job), |Front(job)|, Entries(job, |job.tensors|))
    ensures w != Refused(OffsetDiffers)
  {
    var valid, zero := AlignedChecked(0, job.alignment);
    if !valid { return Refused(Geometry); }
    var why, front, entries := WriteFront(job);
    if why.Some? { return Refused(why.value); }
    var data;
    why, data := WriteData(job, |front|, entries);
    if why.Some? { return Refused(why.value); }
    return Written(front + data, |front|, entries);
  }

  // ---- the layout ----

  /** The regions of different tensors do not overlap, padding included. */
  lemma {:induction false} RegionsDisjoint(job: Job, j: nat, k: nat)
    requires job.alignment > 0 && j < k <= |job.tensors|
    ensures Offset(job, j) + Room(job, j) <= Offset(job, k)
    decreases k
  {
    if j < k - 1 { RegionsDisjoint(job, j, k - 1); }
  }

  lemma {:induction false} OffsetAligned(job: Job, k: nat)
    requires job.alignment > 0 && k <= |job.tensors|
    ensures Multiple(Offset(job, k), job.alignment)
    decreases k
  {
    if k > 0 {
      OffsetAligned(job, k - 1);
      SumMultiple(Offset(job, k - 1), Room(job, k - 1), job.alignment);
    }
  }

  /** Data starts aligned, and so does every tensor. */
  lemma Alignment(job: Job, k: nat)
    requires Admitted(job) && k < |job.tensors|
    ensures Multiple(|Front(job)|, job.alignment) && Multiple(|Front(job)| + EntryOf(job, k).offset, job.alignment)
  {
    var start := |Front(job)|;
    assert Multiple(start, job.alignment) by {
      PaddedAligned(Header(job) + MetadataBytes(job, |job.metadata|) + DirectoryBytes(job, |job.tensors|), job.alignment);
    }
    TensorAligned(job, start, k);
  }

  lemma PaddedAligned(head: seq<byte>, a: nat)
    requires a > 0
    ensures Multiple(|Padded(head, a)|, a)
  {
  }

  lemma TensorAligned(job: Job, start: nat, k: nat)
    requires job.alignment > 0 && k < |job.tensors| && Multiple(start, job.alignment)
    ensures Multiple(start + Offset(job, k), job.alignment)
  {
    OffsetAligned(job, k);
    SumMultiple(start, Offset(job, k), job.alignment);
  }

  lemma AtParts(f: seq<byte>, at: nat, a: seq<byte>, b: seq<byte>)
    requires At(f, at, a + b)
    ensures At(f, at, a) && At(f, at + |a|, b)
  {
    var r := f[at..at + |a + b|];
    assert f[at..at + |a|] == r[..|a|] && f[at + |a|..at + |a| + |b|] == r[|a|..];
  }

  lemma {:induction false} DataAt(job: Job, n: nat, k: nat)
    requires job.alignment > 0 && k < n <= |job.tensors| && TensorsReadable(job, n)
    ensures TensorReadable(job, job.tensors[k])
    ensures At(Data(job, n), Offset(job, k), Region(job, k))
    decreases n
  {
    if k < n - 1 {
      DataAt(job, n - 1, k);
      AtInFront(Data(job, n - 1), Offset(job, k), Region(job, k), Region(job, n - 1));
    } else {
      AtBehind(Region(job, k), 0, Region(job, k), Data(job, k));
    }
  }

  /** At a position of a file lies exactly the encoding of tensor k, followed by fewer zero
      bytes than the alignment. */
  predicate Holds(job: Job, k: nat, f: seq<byte>, at: nat)
    requires job.alignment > 0 && k < |job.tensors|
  {
    var t, pad := job.tensors[k], Room(job, k) - Size(job, job.tensors[k]);
    && TensorReadable(job, t)
    && At(f, at, TensorBytes(job, t))
    && pad < job.alignment && At(f, at + Size(job, t), Zeros(pad))
  }

  /** Whatever precedes the data, every tensor lies at the offset its directory entry gives. */
  lemma Layout(job: Job, front: seq<byte>, k: nat)
    requires job.alignment > 0 && k < |job.tensors| && TensorsReadable(job, |job.tensors|)
    ensures Holds(job, k, WithData(job, front), |front| + EntryOf(job, k).offset)
  {
    DataAt(job, |job.tensors|, k);
    AtBehind(Data(job, |job.tensors|), Offset(job, k), Region(job, k), front);
    RegionHolds(job, k, WithData(job, front), |front| + Offset(job, k));
  }

  lemma RegionHolds(job: Job, k: nat, f: seq<byte>, at: nat)
    requires job.alignment > 0 && k < |job.tensors| && TensorReadable(job, job.tensors[k])
    requires At(f, at, Region(job, k))
    ensures Holds(job, k, f, at)
  {
    var t := job.tensors[k];
    AtParts(f, at, TensorBytes(job, t), Zeros(Room(job, k) - Size(job, t)));
  }

  // ---- an independent reader of the directory ----

  function ReadU32(s: seq<byte>): Parsed<nat> {
    if |s| < 4 then Bad else Good(Value(s[..4]), s[4..])
  }

  function ReadEntry(s: seq<byte>): Parsed<Entry> {
    match ReadText(s)
    case Bad => Bad
    case Good(name, s1) =>
      match ReadU32(s1)
      case Bad => Bad
      case Good(dims, s2) =>
        match ReadMany(s2, dims, ReadU64)
        case Bad => Bad
        case Good(shape, s3) =>
          match ReadU32(s3)
          case Bad => Bad
          case Good(qtype, s4) =>
            match ReadU64(s4)
            case Bad => Bad
            case Good(offset, rest) => Good(Entry(name, shape, qtype, offset), rest)
  }

  lemma ReadU32Packed(v: nat, rest: seq<byte>)
    requires v < U32
    ensures ReadU32(PackU32(v) + rest) == Good(v, rest)
  {
    PowersOf256();
    LittleEndianValue(v, 4);
    var s := PackU32(v) + rest;
    assert s[..4] == PackU32(v) && s[4..] == rest;
  }

  lemma ReadDims(shape: seq<nat>, rest: seq<byte>)
    requires forall i :: 0 <= i < |shape| ==> shape[i] < U64
    ensures ReadMany(PackMany(shape, PackU64) + rest, |shape|, ReadU64) == Good(shape, rest)
  {
    forall i, more | 0 <= i < |shape| ensures ReadU64(PackU64(shape[i]) + more) == Good(shape[i], more) {
      ReadU64Packed(shape[i], more);
    }
    ReadManyPacked(shape, rest, PackU64, ReadU64);
  }

  lemma ReadEntryPacked(e: Entry, rest: seq<byte>)
    requires EntryFits(e)
    ensures ReadEntry(PackEntry(e) + rest) == Good(e, rest)
  {
    var s4 := PackU64(e.offset) + rest;
    var s3 := PackU32(e.qtype) + s4;
    var s2 := PackMany(e.shape, PackU64) + s3;
    var s1 := PackU32(|e.shape|) + s2;
    assert PackEntry(e) + rest == PackText(e.name) + s1;
    ReadTextPacked(e.name, s1);
    ReadU32Packed(|e.shape|, s2);
    ReadDims(e.shape, s3);
    ReadU32Packed(e.qtype, s4);
    ReadU64Packed(e.offset, rest);
  }

  datatype Counts = Counts(version: nat, tensors: nat, fields: nat)

  /** Version, number of tensors and number of metadata fields, after the magic. */
  function ReadHeader(s: seq<byte>): Parsed<Counts> {
    if |s| < 4 || s[..4] != MAGIC then Bad
    else
      match ReadU32(s[4..])
      case Bad => Bad
      case Good(version, s1) =>
        match ReadU64(s1)
        case Bad => Bad
        case Good(tensors, s2) =>
          match ReadU64(s2)
          case Bad => Bad
          case Good(fields, s3) => Good(Counts(version, tensors, fields), s3)
  }

  lemma HeaderReadsBack(job: Job, rest: seq<byte>)
    requires |job.tensors| < U64 && |job.metadata| < U64
    ensures ReadHeader(Header(job) + rest) == Good(Counts(3, |job.tensors|, |job.metadata|), rest)
  {
    var s3 := PackU64(|job.metadata|) + rest;
    var s2 := PackU64(|job.tensors|) + s3;
    var s1 := PackU32(3) + s2;
    assert Header(job) + rest == MAGIC + s1;
    assert (MAGIC + s1)[..4] == MAGIC && (MAGIC + s1)[4..] == s1;
    ReadU32Packed(3, s2);
    ReadU64Packed(|job.tensors|, s3);
    ReadU64Packed(|job.metadata|, rest);
  }

  /** A metadata field keeps what follows its key, byte for byte, and its key becomes the alias. */
  lemma FieldReadsBack(src: seq<byte>, f: Field, rest: seq<byte>)
    requires FieldFits(src, f)
    ensures var raw := ReadAt(src, f.offset, f.count);
            && ReadText(raw) == Good(f.name, raw[8 + |f.name|..])
            && ReadText(FieldBytes(src, f) + rest) == Good(f.alias, raw[8 + |f.name|..] + rest)
  {
    var raw := ReadAt(src, f.offset, f.count);
    var value := raw[8 + |f.name|..];
    assert raw == PackText(f.name) + value;
    ReadTextPacked(f.name, value);
    assert FieldBytes(src, f) + rest == PackText(f.alias) + (value + rest);
    ReadTextPacked(f.alias, value + rest);
  }

  /** Reading n entries from the bytes of the directory, whatever follows, recovers them all. */
  lemma {:induction false} DirectoryReadsBack(job: Job, n: nat, rest: seq<byte>)
    requires job.alignment > 0 && n <= |job.tensors| && EntriesFit(job, n)
    ensures ReadMany(DirectoryBytes(job, n) + rest, n, ReadEntry) == Good(Entries(job, n), rest)
  {
    DirectoryIsPacked(job, n);
    var entries := Entries(job, n);
    forall i, more | 0 <= i < n ensures ReadEntry(PackEntry(entries[i]) + more) == Good(entries[i], more) {
      EntriesAt(job, n, i);
      EntriesFitPrefix(job, i + 1, n);
      ReadEntryPacked(entries[i], more);
    }
    ReadManyPacked(entries, rest, PackEntry, ReadEntry);
  }

  lemma {:induction false} DirectoryIsPacked(job: Job, n: nat)
    requires job.alignment > 0 && n <= |job.tensors|
    ensures DirectoryBytes(job, n) == PackMany(Entries(job, n), PackEntry)
    decreases n
  {
    if n > 0 {
      DirectoryIsPacked(job, n - 1);
      PackSnoc(Entries(job, n - 1), EntryOf(job, n - 1), PackEntry);
    }
  }

  /** Whatever `head` precedes it, as the header and the metadata do, the written file goes on
      with the directory, and where that ends, aligned, the data starts. */
  lemma DirectoryPlaced(job: Job, head: seq<byte>) returns (rest: seq<byte>)
    requires job.alignment > 0 && TensorsReadable(job, |job.tensors|)
    ensures var directory := DirectoryBytes(job, |job.tensors|);
            var f := WithData(job, Padded(head + directory, job.alignment));
            && |f| == |head + directory| + |rest| && f[|head|..] == directory + rest
            && |f| - Offset(job, |job.tensors|) == Aligned(|head + directory|, job.alignment)
  {
    var b := DirectoryBytes(job, |job.tensors|);
    var c, d := Zeros(Aligned(|head + b|, job.alignment) - |head + b|), Data(job, |job.tensors|);
    rest := c + d;
    FourParts(head, b, c, d);
  }

  lemma FourParts(a: seq<byte>, b: seq<byte>, c: seq<byte>, d: seq<byte>)
    ensures (a + b + c + d)[|a|..] == b + (c + d)
  {
  }

  // ---- the whole file ----

  /** Tensor k is where its entry says: on a multiple of the alignment, its encoding, then padding. */
  predicate Placed(job: Job, file: seq<byte>, entries: seq<Entry>, dataStart: nat, k: nat)
    requires job.alignment > 0 && k < |job.tensors| == |entries|
  {
    Multiple(dataStart + entries[k].offset, job.alignment) && Holds(job, k, file, dataStart + entries[k].offset)
  }

  /** The regions of two tensors do not meet. */
  predicate Apart(job: Job, entries: seq<Entry>, j: nat, k: nat)
    requires job.alignment > 0 && j < |job.tensors| == |entries| && k < |job.tensors|
  {
    entries[j].offset + Room(job, j) <= entries[k].offset
  }

  /** A data section: it starts aligned, ends where the file does, and its tensors are placed and apart. */
  predicate DataSection(job: Job, file: seq<byte>, entries: seq<Entry>, dataStart: nat)
    requires job.alignment > 0
  {
    && |entries| == |job.tensors|
    && Multiple(dataStart, job.alignment) && |file| == dataStart + Offset(job, |job.tensors|)
    && (forall k :: 0 <= k < |job.tensors| ==> Placed(job, file, entries, dataStart, k))
    && (forall j, k :: 0 <= j < k < |job.tensors| ==> Apart(job, entries, j, k))
  }

  lemma TensorPlaced(job: Job, front: seq<byte>, file: seq<byte>, entries: seq<Entry>, k: nat)
    requires job.alignment > 0 && TensorsReadable(job, |job.tensors|) && Multiple(|front|, job.alignment)
    requires k < |job.tensors| == |entries| && entries[k] == EntryOf(job, k) && file == WithData(job, front)
    ensures Placed(job, file, entries, |front|, k)
  {
    var at := |front| + EntryOf(job, k).offset;
    assert Multiple(at, job.alignment) by { TensorAligned(job, |front|, k); }
    assert Holds(job, k, file, at) by { Layout(job, front, k); }
    PlacedIs(job, file, entries, |front|, k, at);
  }

  lemma PlacedIs(job: Job, file: seq<byte>, entries: seq<Entry>, dataStart: nat, k: nat, at: nat)
    requires job.alignment > 0 && k < |job.tensors| == |entries| && at == dataStart + entries[k].offset
    requires Multiple(at, job.alignment) && Holds(job, k, file, at)
    ensures Placed(job, file, entries, dataStart, k)
  {
  }

  lemma TensorsApart(job: Job, entries: seq<Entry>, j: nat, k: nat)
    requires job.alignment > 0 && j < k < |job.tensors| == |entries|
    requires entries[j] == EntryOf(job, j) && entries[k] == EntryOf(job, k)
    ensures Apart(job, entries, j, k)
  {
    RegionsDisjoint(job, j, k);
  }

  lemma DataSectionOf(job: Job, front: seq<byte>, entries: seq<Entry>)
    requires job.alignment > 0 && TensorsReadable(job, |job.tensors|) && Multiple(|front|, job.alignment)
    requires |entries| == |job.tensors| && forall k :: 0 <= k < |entries| ==> entries[k] == EntryOf(job, k)
    ensures DataSection(job, WithData(job, front), entries, |front|)
  {
    var file := WithData(job, front);
    forall k | 0 <= k < |entries| ensures Placed(job, file, entries, |front|, k) {
      TensorPlaced(job, front, file, entries, k);
    }
    forall j, k | 0 <= j < k < |entries| ensures Apart(job, entries, j, k) { TensorsApart(job, entries, j, k); }
  }

  lemma FiveParts(h: seq<byte>, m: seq<byte>, d: seq<byte>, z: seq<byte>, x: seq<byte>)
    ensures h + m + d + z + x == h + (m + (d + (z + x)))
    ensures (m + (d + (z + x)))[|m|..] == d + (z + x)
  {
  }

  /** What a reader finds in a file: counts in the header, metadata as given, then the entries, and
      where they end, aligned, the data section they describe. */
  ghost predicate Found(job: Job, file: seq<byte>, metadata: seq<byte>, entries: seq<Entry>,
                        afterHeader: seq<byte>, afterDirectory: seq<byte>)
    requires job.alignment > 0
  {
    && ReadHeader(file) == Good(Counts(3, |job.tensors|, |job.metadata|), afterHeader)
    && metadata <= afterHeader
    && EntriesRead(afterHeader[|metadata|..], entries, afterDirectory)
    && |afterDirectory| <= |file|
    && DataSection(job, file, entries, Aligned(|file| - |afterDirectory|, job.alignment))
  }

  predicate EntriesRead(s: seq<byte>, entries: seq<Entry>, rest: seq<byte>) {
    ReadMany(s, |entries|, ReadEntry) == Good(entries, rest)
  }

  /** The parts of the written file, and where the data starts. */
  lemma FileSplits(job: Job, file: seq<byte>, h: seq<byte>, m: seq<byte>, d: seq<byte>) returns (rest: seq<byte>)
    requires Admitted(job) && file == FileBytes(job) && h == Header(job)
    requires m == MetadataBytes(job, |job.metadata|) && d == DirectoryBytes(job, |job.tensors|)
    ensures file == h + (m + (d + rest)) && |rest| <= |file|
    ensures |Front(job)| == Aligned(|file| - |rest|, job.alignment)
  {
    var front := Front(job);
    assert front == Padded(h + m + d, job.alignment);
    rest := PaddedSplits(file, front, h, m, d, Data(job, |job.tensors|), job.alignment);
  }

  lemma PaddedSplits(file: seq<byte>, front: seq<byte>, h: seq<byte>, m: seq<byte>, d: seq<byte>, x: seq<byte>, a: nat)
    returns (rest: seq<byte>)
    requires a > 0 && front == Padded(h + m + d, a) && file == front + x
    ensures file == h + (m + (d + rest)) && |rest| <= |file| && |front| == Aligned(|file| - |rest|, a)
  {
    var z := Zeros(Aligned(|h + m + d|, a) - |h + m + d|);
    rest := z + x;
    FiveParts(h, m, d, z, x);
  }

  lemma EntriesAre(job: Job)
    requires job.alignment > 0 && EntriesFit(job, |job.tensors|)
    ensures |Entries(job, |job.tensors|)| == |job.tensors|
    ensures forall k :: 0 <= k < |job.tensors| ==> Entries(job, |job.tensors|)[k] == EntryOf(job, k)
  {
    forall k | 0 <= k < |job.tensors| ensures Entries(job, |job.tensors|)[k] == EntryOf(job, k) {
      EntriesAt(job, |job.tensors|, k);
    }
  }

  lemma DirectoryRead(job: Job, d: seq<byte>, entries: seq<Entry>, rest: seq<byte>)
    requires job.alignment > 0 && EntriesFit(job, |job.tensors|)
    requires d == DirectoryBytes(job, |job.tensors|) && entries == Entries(job, |job.tensors|)
    ensures EntriesRead(d + rest, entries, rest)
  {
    DirectoryReadsBack(job, |job.tensors|, rest);
  }

  lemma FoundIs(job: Job, file: seq<byte>, m: seq<byte>, d: seq<byte>, entries: seq<Entry>, rest: seq<byte>, dataStart: nat)
    requires job.alignment > 0 && |rest| <= |file| && dataStart == Aligned(|file| - |rest|, job.alignment)
    requires ReadHeader(file) == Good(Counts(3, |job.tensors|, |job.metadata|), m + (d + rest))
    requires EntriesRead(d + rest, entries, rest) && DataSection(job, file, entries, dataStart)
    ensures Found(job, file, m, entries, m + (d + rest), rest)
  {
    assert (m + (d + rest))[|m|..] == d + rest;
  }

  lemma HeaderFound(job: Job, h: seq<byte>, after: seq<byte>)
    requires |job.tensors| < U64 && |job.metadata| < U64 && h == Header(job)
    ensures ReadHeader(h + after) == Good(Counts(3, |job.tensors|, |job.metadata|), after)
  {
    HeaderReadsBack(job, after);
  }

  lemma DataFound(job: Job, file: seq<byte>, dataStart: nat, entries: seq<Entry>)
    requires Admitted(job) && file == FileBytes(job) && dataStart == |Front(job)| && entries == Entries(job, |job.tensors|)
    ensures DataSection(job, file, entries, dataStart)
  {
    EntriesAre(job);
    DataSectionOf(job, Front(job), entries);
  }

  /** The front of the file, read. */
  lemma FrontFound(job: Job, file: seq<byte>, entries: seq<Entry>) returns (m: seq<byte>, d: seq<byte>, rest: seq<byte>)
    requires Admitted(job) && file == FileBytes(job) && entries == Entries(job, |job.tensors|)
    ensures m == MetadataBytes(job, |job.metadata|) && d == DirectoryBytes(job, |job.tensors|)
    ensures file == Header(job) + (m + (d + rest))
    ensures ReadHeader(file) == Good(Counts(3, |job.tensors|, |job.metadata|), m + (d + rest))
    ensures EntriesRead(d + rest, entries, rest)
    ensures |rest| <= |file| && |Front(job)| == Aligned(|file| - |rest|, job.alignment)
  {
    var h := Header(job);
    m, d := MetadataBytes(job, |job.metadata|), DirectoryBytes(job, |job.tensors|);
    rest := FileSplits(job, file, h, m, d);
    assert ReadHeader(file) == Good(Counts(3, |job.tensors|, |job.metadata|), m + (d + rest)) by {
      HeaderFound(job, h, m + (d + rest));
    }
    DirectoryRead(job, d, entries, rest);
  }

  /** Read from its first byte, the written file is a complete and consistent GGUF file. */
  lemma FileReads(job: Job, file: seq<byte>, metadata: seq<byte>, entries: seq<Entry>)
    returns (afterHeader: seq<byte>, afterDirectory: seq<byte>)
    requires Admitted(job) && file == FileBytes(job)
    requires metadata == MetadataBytes(job, |job.metadata|) && entries == Entries(job, |job.tensors|)
    ensures Found(job, file, metadata, entries, afterHeader, afterDirectory)
  {
    var m, d, rest := FrontFound(job, file, entries);
    var dataStart := |Front(job)|;
    DataFound(job, file, dataStart, entries);
    FoundIs(job, file, m, d, entries, rest, dataStart);
    afterHeader, afterDirectory := m + (d + rest), rest;
  }

  // ---- reading back ----

  /** The first m source bytes agree with the file at a position. */
  predicate Agrees(src: seq<byte>, offset: nat, m: nat, widening: bool, file: seq<byte>, at: nat) {
    && Readable(src, offset, m, widening)
    && ReadAt(file, at, Scaled(m, widening)) == Payload(src, offset, m, widening)
  }

  lemma CompareStep(src: seq<byte>, offset: nat, n: nat, done: nat, widening: bool, file: seq<byte>, at: nat)
    requires done < n && Agrees(src, offset, done, widening, file, at)
    requires NextChunk(src, offset, n, done) != [] && Whole(|NextChunk(src, offset, n, done)|, widening)
    ensures var raw := NextChunk(src, offset, n, done);
            var expected := Encoded(raw, widening);
            ReadAt(file, at + Scaled(done, widening), |expected|) == expected <==>
              Agrees(src, offset, done + |raw|, widening, file, at)
  {
    var raw := NextChunk(src, offset, n, done);
    ChunkAppends(src, offset, n, done, widening);
    AgreesMore(src, offset, done, done + |raw|, widening, file, at, Encoded(raw, widening));
  }

  lemma AgreesMore(src: seq<byte>, offset: nat, m: nat, whole: nat, widening: bool, file: seq<byte>, at: nat, more: seq<byte>)
    requires m <= whole && |more| == Scaled(whole - m, widening)
    requires Agrees(src, offset, m, widening, file, at) && Readable(src, offset, whole, widening)
    requires Payload(src, offset, whole, widening) == Payload(src, offset, m, widening) + more
    ensures ReadAt(file, at + Scaled(m, widening), |more|) == more <==> Agrees(src, offset, whole, widening, file, at)
  {
    ReadAtGrows(file, at, Scaled(m, widening), Payload(src, offset, m, widening), more);
  }

  /** After a part of a file agrees, the next bytes agree exactly when the longer part does. */
  lemma ReadAtGrows(file: seq<byte>, at: nat, n: nat, part: seq<byte>, more: seq<byte>)
    requires ReadAt(file, at, n) == part
    ensures ReadAt(file, at + n, |more|) == more <==> ReadAt(file, at, n + |more|) == part + more
  {
    ReadAtSplits(file, at, n, |more|);
    Cancel(part, ReadAt(file, at + n, |more|), more);
  }

  lemma MissingChunk(src: seq<byte>, offset: nat, n: nat, done: nat, widening: bool, file: seq<byte>, at: nat)
    requires done < n && Whole(done, widening) && Agrees(src, offset, done, widening, file, at)
    requires NextChunk(src, offset, n, done) == [] || !Whole(|NextChunk(src, offset, n, done)|, widening)
    ensures !Agrees(src, offset, n, widening, file, at)
  {
    ChunkRefuses(src, offset, n, done, widening);
  }

  lemma OtherChunk(src: seq<byte>, offset: nat, n: nat, done: nat, widening: bool, file: seq<byte>, at: nat)
    requires done < n && Whole(done, widening) && Agrees(src, offset, done, widening, file, at)
    requires NextChunk(src, offset, n, done) != [] && Whole(|NextChunk(src, offset, n, done)|, widening)
    requires var expected := Encoded(NextChunk(src, offset, n, done), widening);
             ReadAt(file, at + Scaled(done, widening), |expected|) != expected
    ensures !Agrees(src, offset, n, widening, file, at)
  {
    CompareStep(src, offset, n, done, widening, file, at);
    ChunkFits(src, offset, n, done, widening);
    DifferenceStays(src, offset, n, done + |NextChunk(src, offset, n, done)|, widening, file, at);
  }

  lemma Cancel(a: seq<byte>, b: seq<byte>, c: seq<byte>)
    ensures a + b == a + c <==> b == c
  {
    assert (a + b)[|a|..] == b && (a + c)[|a|..] == c;
  }

  /** Reads and compares the next chunk. */
  method CompareChunk(src: seq<byte>, offset: nat, n: nat, done: nat, widening: bool, file: seq<byte>, at: nat)
    returns (ok: bool, count: nat)
    requires done < n && Whole(done, widening) && Agrees(src, offset, done, widening, file, at)
    ensures !ok ==> !Agrees(src, offset, n, widening, file, at)
    ensures ok ==> 0 < count && done + count <= n && Whole(done + count, widening)
                   && Agrees(src, offset, done + count, widening, file, at)
  {
    var raw := NextChunk(src, offset, n, done);
    var fits, expected := EncodeChunk(raw, widening);
    if raw == [] || !fits {
      MissingChunk(src, offset, n, done, widening, file, at);
      return false, 0;
    }
    if ReadAt(file, at + Scaled(done, widening), |expected|) != expected {
      OtherChunk(src, offset, n, done, widening, file, at);
      return false, 0;
    }
    CompareStep(src, offset, n, done, widening, file, at);
    ChunkFits(src, offset, n, done, widening);
    return true, |raw|;
  }

  /** Compares one tensor chunk by chunk with the written file. */
  method CompareTensor(src: seq<byte>, offset: nat, n: nat, widening: bool, file: seq<byte>, at: nat) returns (ok: bool)
    ensures ok <==> Agrees(src, offset, n, widening, file, at)
  {
    var done := 0;
    while done < n
      invariant 0 <= done <= n && Whole(done, widening)
      invariant Agrees(src, offset, done, widening, file, at)
    {
      var same, count := CompareChunk(src, offset, n, done, widening, file, at);
      if !same { return false; }
      done := done + count;
    }
    return true;
  }

  lemma ReadAtSplits(file: seq<byte>, at: nat, a: nat, b: nat)
    ensures ReadAt(file, at, a + b) == ReadAt(file, at, a) + ReadAt(file, at + a, b)
  {
  }

  /** A prefix that differs is a difference of the whole. */
  lemma DifferenceStays(src: seq<byte>, offset: nat, n: nat, m: nat, widening: bool, file: seq<byte>, at: nat)
    requires m <= n && Whole(m, widening) && !Agrees(src, offset, m, widening, file, at)
    ensures !Agrees(src, offset, n, widening, file, at)
  {
    if Agrees(src, offset, n, widening, file, at) {
      PayloadPrefix(src, offset, n, m, widening);
      ReadAtPrefix(file, at, Scaled(n, widening), Scaled(m, widening));
    }
  }

  lemma ReadAtPrefix(file: seq<byte>, at: nat, n: nat, m: nat)
    requires m <= n && |ReadAt(file, at, n)| == n
    ensures ReadAt(file, at, n)[..m] == ReadAt(file, at, m)
  {
  }

  lemma PayloadPrefix(src: seq<byte>, offset: nat, n: nat, m: nat, widening: bool)
    requires Readable(src, offset, n, widening) && m <= n && Whole(m, widening)
    ensures Readable(src, offset, m, widening)
    ensures Payload(src, offset, n, widening)[..Scaled(m, widening)] == Payload(src, offset, m, widening)
  {
    if m > 0 {
      SplitAt(src, offset, m, n);
      EncodedAppend(src[offset..offset + m], src[offset + m..offset + n], widening);
    }
  }

  lemma SplitAt(src: seq<byte>, offset: nat, m: nat, n: nat)
    requires m <= n && offset + n <= |src|
    ensures src[offset..offset + n] == src[offset..offset + m] + src[offset + m..offset + n]
  {
  }

  /** Tensor k of the file, where an entry places it, is the encoding of its source. */
  predicate ReadsBack(job: Job, t: Tensor, file: seq<byte>, at: nat) {
    TensorReadable(job, t) && ReadAt(file, at, Size(job, t)) == TensorBytes(job, t)
  }

  predicate AllRead(job: Job, file: seq<byte>, dataStart: nat, entries: seq<Entry>)
    requires |entries| == |job.tensors|
  {
    forall k :: 0 <= k < |job.tensors| ==> ReadsBack(job, job.tensors[k], file, dataStart + entries[k].offset)
  }

  /** The comparison of the whole file succeeds exactly when every tensor reads back. */
  method ReadBack(job: Job, file: seq<byte>, dataStart: nat, entries: seq<Entry>) returns (ok: bool)
    requires |entries| == |job.tensors|
    ensures ok <==> AllRead(job, file, dataStart, entries)
  {
    for k := 0 to |job.tensors|
      invariant forall j :: 0 <= j < k ==> ReadsBack(job, job.tensors[j], file, dataStart + entries[j].offset)
    {
      var t := job.tensors[k];
      var same := CompareTensor(job.src, t.dataOffset, t.nBytes, Widened(job, t), file, dataStart + entries[k].offset);
      if !same { return false; }
    }
    return true;
  }

  lemma TensorReadsBack(job: Job, front: seq<byte>, k: nat)
    requires job.alignment > 0 && k < |job.tensors| && TensorsReadable(job, |job.tensors|)
    ensures ReadsBack(job, job.tensors[k], WithData(job, front), |front| + Entries(job, |job.tensors|)[k].offset)
  {
    Layout(job, front, k);
    EntriesAt(job, |job.tensors|, k);
    ReadAtInside(WithData(job, front), |front| + EntryOf(job, k).offset, Size(job, job.tensors[k]));
  }

  lemma ReadAtInside(file: seq<byte>, at: nat, n: nat)
    requires at + n <= |file|
    ensures ReadAt(file, at, n) == file[at..at + n]
  {
  }

  lemma AllReadBack(job: Job, front: seq<byte>, entries: seq<Entry>)
    requires job.alignment > 0 && TensorsReadable(job, |job.tensors|) && entries == Entries(job, |job.tensors|)
    ensures AllRead(job, WithData(job, front), |front|, entries)
  {
    forall k | 0 <= k < |job.tensors|
      ensures ReadsBack(job, job.tensors[k], WithData(job, front), |front| + entries[k].offset)
    {
      TensorReadsBack(job, front, k);
    }
  }

  lemma FileReadsBack(job: Job, w: Written)
    requires Admitted(job) && w == Written(FileBytes(job), |Front(job)|, Entries(job, |job.tensors|))
    ensures AllRead(job, w.file, w.dataStart, w.entries)
  {
    AllReadBack(job, Front(job), w.entries);
  }

  /** On an unchanged source the projection reads back: writing and comparing never disagree. */
  method ProjectAndReadBack(job: Job) returns (ok: bool)
    ensures ok <==> Admitted(job)
  {
    var w := Project(job);
    if w.Refused? { return false; }
    FileReadsBack(job, w);
    ok := ReadBack(job, w.file, w.dataStart, w.entries);
  }
}
