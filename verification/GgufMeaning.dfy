/** What the file written by GgufProjection says, byte by byte: for a reader who knows the format and
    the source file, and nothing of how the file was computed. */
module GgufMeaning {
  import opened Bytes
  import opened Sequences
  import opened GgufProjection

  // ---- one tensor ----

  /** The bytes of an extent of the source, copied from a position of the file on. */
  predicate Copied(src: seq<byte>, from: nat, n: nat, file: seq<byte>, at: nat) {
    at + n <= |file| && (n == 0 || (from + n <= |src| && file[at..at + n] == src[from..from + n]))
  }

  /** Element j of two bytes, as four: two zero bytes and then the element. */
  predicate WideElement(src: seq<byte>, from: nat, file: seq<byte>, at: nat, j: nat) {
    && from + 2 * j + 2 <= |src| && at + 4 * j + 4 <= |file|
    && file[at + 4 * j] == 0 && file[at + 4 * j + 1] == 0
    && file[at + 4 * j + 2] == src[from + 2 * j] && file[at + 4 * j + 3] == src[from + 2 * j + 1]
  }

  predicate WideElements(src: seq<byte>, from: nat, n: nat, file: seq<byte>, at: nat) {
    n % 2 == 0 && forall j :: 0 <= j < n / 2 ==> WideElement(src, from, file, at, j)
  }

  predicate ZeroBytes(file: seq<byte>, from: nat, to: nat) {
    from <= to <= |file| && forall j :: from <= j < to ==> file[j] == 0
  }

  predicate Wide(job: Job, t: Tensor) { job.widenBf16 && t.qtype == 30 }

  /** Where the region of tensor k ends: where the next one starts, or with the file. */
  function RegionEnd(file: seq<byte>, entries: seq<Entry>, dataStart: nat, k: nat): nat
    requires k < |entries|
  {
    if k + 1 < |entries| then dataStart + entries[k + 1].offset else |file|
  }

  /** The entry names the tensor, its shape and the type it is stored in; at its offset, a multiple of
      the alignment, stand its elements, and then zeros, fewer than the alignment, up to the next. */
  predicate Described(job: Job, file: seq<byte>, entries: seq<Entry>, dataStart: nat, k: nat)
    requires job.alignment > 0 && k < |job.tensors| == |entries|
  {
    var t, e, at := job.tensors[k], entries[k], dataStart + entries[k].offset;
    var size := if Wide(job, t) then 2 * t.nBytes else t.nBytes;
    && e.name == t.name && e.shape == t.shape && e.qtype == (if Wide(job, t) then 0 else t.qtype)
    && (k == 0 ==> e.offset == 0) && at % job.alignment == 0
    && (if Wide(job, t) then WideElements(job.src, t.dataOffset, t.nBytes, file, at)
        else Copied(job.src, t.dataOffset, t.nBytes, file, at))
    && RegionEnd(file, entries, dataStart, k) < at + size + job.alignment
    && ZeroBytes(file, at + size, RegionEnd(file, entries, dataStart, k))
  }

  lemma PayloadCopied(src: seq<byte>, from: nat, n: nat, file: seq<byte>, at: nat)
    requires Readable(src, from, n, false) && At(file, at, Payload(src, from, n, false))
    ensures Copied(src, from, n, file, at)
  {
  }

  lemma WidenedAt(raw: seq<byte>, j: nat)
    requires |raw| % 2 == 0 && 2 * j + 2 <= |raw|
    ensures Widen(raw)[4 * j] == 0 && Widen(raw)[4 * j + 1] == 0
    ensures Widen(raw)[4 * j + 2] == raw[2 * j] && Widen(raw)[4 * j + 3] == raw[2 * j + 1]
  {
  }

  lemma WideAt(src: seq<byte>, from: nat, n: nat, file: seq<byte>, at: nat, j: nat)
    requires n > 0 && Readable(src, from, n, true) && At(file, at, Payload(src, from, n, true)) && j < n / 2
    ensures WideElement(src, from, file, at, j)
  {
    var raw := src[from..from + n];
    var wide := Widen(raw);
    WidenedAt(raw, j);
    assert |wide| == 2 * n && file[at..at + 2 * n] == wide;
    assert file[at + 4 * j] == wide[4 * j] && file[at + 4 * j + 1] == wide[4 * j + 1];
    assert file[at + 4 * j + 2] == wide[4 * j + 2] && file[at + 4 * j + 3] == wide[4 * j + 3];
  }

  lemma PayloadWide(src: seq<byte>, from: nat, n: nat, file: seq<byte>, at: nat)
    requires Readable(src, from, n, true) && At(file, at, Payload(src, from, n, true))
    ensures WideElements(src, from, n, file, at)
  {
    forall j | 0 <= j < n / 2 ensures WideElement(src, from, file, at, j) { WideAt(src, from, n, file, at, j); }
  }

  lemma ZerosAt(file: seq<byte>, at: nat, n: nat)
    requires At(file, at, Zeros(n))
    ensures ZeroBytes(file, at, at + n)
  {
    forall j | at <= j < at + n ensures file[j] == 0 { assert file[at..at + n][j - at] == Zeros(n)[j - at]; }
  }

  lemma ElementsAt(job: Job, k: nat, file: seq<byte>, at: nat)
    requires job.alignment > 0 && k < |job.tensors| && Holds(job, k, file, at)
    ensures var t := job.tensors[k];
            if Wide(job, t) then WideElements(job.src, t.dataOffset, t.nBytes, file, at)
            else Copied(job.src, t.dataOffset, t.nBytes, file, at)
  {
    var t := job.tensors[k];
    if Wide(job, t) {
      PayloadWide(job.src, t.dataOffset, t.nBytes, file, at);
    } else {
      PayloadCopied(job.src, t.dataOffset, t.nBytes, file, at);
    }
  }

  lemma RegionEnds(job: Job, file: seq<byte>, entries: seq<Entry>, dataStart: nat, k: nat)
    requires job.alignment > 0 && k < |job.tensors| && DataSection(job, file, entries, dataStart)
    requires forall i :: 0 <= i < |entries| ==> entries[i] == EntryOf(job, i)
    ensures RegionEnd(file, entries, dataStart, k) == dataStart + entries[k].offset + Room(job, k)
  {
    assert Offset(job, k + 1) == Offset(job, k) + Room(job, k);
    if k + 1 < |entries| { assert entries[k + 1] == EntryOf(job, k + 1); }
  }

  lemma TensorDescribed(job: Job, file: seq<byte>, entries: seq<Entry>, dataStart: nat, k: nat)
    requires job.alignment > 0 && k < |job.tensors| && DataSection(job, file, entries, dataStart)
    requires forall i :: 0 <= i < |entries| ==> entries[i] == EntryOf(job, i)
    ensures Described(job, file, entries, dataStart, k)
  {
    var t, at := job.tensors[k], dataStart + entries[k].offset;
    assert Placed(job, file, entries, dataStart, k);
    MultipleIsProduct(at, job.alignment);
    RegionEnds(job, file, entries, dataStart, k);
    ElementsAt(job, k, file, at);
    ZerosAt(file, at + Size(job, t), Room(job, k) - Size(job, t));
  }

  // ---- one metadata field ----

  /** Where field i begins: each takes a length, its new key and what follows its old key. */
  function FieldStart(job: Job, i: nat): nat
    requires i <= |job.metadata|
  {
    if i == 0 then 0
    else
      var f := job.metadata[i - 1];
      FieldStart(job, i - 1) + 8 + |f.alias| + |Kept(job.src, f)|
  }

  /** The bytes of a field behind its key: its type and value. */
  function Kept(src: seq<byte>, f: Field): seq<byte> {
    var end := if f.offset + f.count <= |src| then f.offset + f.count else |src|;
    if f.offset + 8 + |f.name| <= end then src[f.offset + 8 + |f.name|..end] else []
  }

  /** A reader finds the new key, and behind it the type and value of the source. */
  predicate FieldFound(job: Job, s: seq<byte>, i: nat)
    requires i < |job.metadata|
  {
    && FieldStart(job, i) <= |s| && ReadText(s[FieldStart(job, i)..]).Good?
    && var r := ReadText(s[FieldStart(job, i)..]);
       r.value == job.metadata[i].alias && Kept(job.src, job.metadata[i]) <= r.rest
  }

  lemma KeptIs(src: seq<byte>, f: Field)
    requires FieldFits(src, f)
    ensures FieldBytes(src, f) == PackText(f.alias) + Kept(src, f)
  {
    var raw := ReadAt(src, f.offset, f.count);
    assert |PackText(f.name)| == 8 + |f.name| <= |raw|;
    assert raw[8 + |f.name|..] == Kept(src, f);
  }

  lemma {:induction false} MetadataLength(job: Job, i: nat)
    requires i <= |job.metadata| && FieldsFit(job, i)
    ensures |MetadataBytes(job, i)| == FieldStart(job, i)
  {
    if i > 0 {
      MetadataLength(job, i - 1);
      KeptIs(job.src, job.metadata[i - 1]);
    }
  }

  lemma {:induction false} MetadataSplits(job: Job, i: nat, n: nat) returns (rest: seq<byte>)
    requires i < n <= |job.metadata| && FieldsFit(job, n)
    ensures FieldsFit(job, i) && FieldFits(job.src, job.metadata[i])
    ensures MetadataBytes(job, n) == MetadataBytes(job, i) + (FieldBytes(job.src, job.metadata[i]) + rest)
    decreases n
  {
    var bytes := FieldBytes(job.src, job.metadata[n - 1]);
    if i == n - 1 {
      rest := [];
      assert bytes + [] == bytes;
    } else {
      var more := MetadataSplits(job, i, n - 1);
      rest := more + bytes;
      Regroup3(MetadataBytes(job, i), FieldBytes(job.src, job.metadata[i]), more, bytes);
    }
  }

  lemma Regroup3<T>(a: seq<T>, b: seq<T>, c: seq<T>, d: seq<T>)
    ensures a + (b + c) + d == a + (b + (c + d))
  {
  }

  lemma FieldIsFound(job: Job, s: seq<byte>, i: nat)
    requires i < |job.metadata| && FieldsFit(job, |job.metadata|)
    requires MetadataBytes(job, |job.metadata|) <= s
    ensures FieldFound(job, s, i)
  {
    var m, f := MetadataBytes(job, |job.metadata|), job.metadata[i];
    var rest := MetadataSplits(job, i, |job.metadata|);
    var before, tail := MetadataBytes(job, i), rest + s[|m|..];
    assert |before| == FieldStart(job, i) by { MetadataLength(job, i); }
    assert s == m + s[|m|..];
    assert s[|before|..] == PackText(f.alias) + (Kept(job.src, f) + tail) by {
      KeptIs(job.src, f);
      SkipFront(s, before, PackText(f.alias), Kept(job.src, f), rest, s[|m|..]);
    }
    ReadTextPacked(f.alias, Kept(job.src, f) + tail);
  }

  lemma SkipFront<T>(s: seq<T>, a: seq<T>, b: seq<T>, c: seq<T>, d: seq<T>, e: seq<T>)
    requires s == a + (b + c + d) + e
    ensures s[|a|..] == b + (c + (d + e))
  {
  }

  lemma MagicIs()
    ensures MAGIC == Ascii("GGUF")
  {
  }

  // ---- the file ----

  /** The whole file: version 3 and the two counts; every metadata field; one entry a tensor; zeros up
      to the data, fewer than the alignment; and every tensor as its entry describes it. */
  ghost predicate Means(job: Job, file: seq<byte>, entries: seq<Entry>, afterHeader: seq<byte>,
                        afterDirectory: seq<byte>, dataStart: nat)
    requires job.alignment > 0
  {
    && ReadHeader(file) == Good(Counts(3, |job.tensors|, |job.metadata|), afterHeader)
    && FieldStart(job, |job.metadata|) <= |afterHeader|
    && (forall i :: 0 <= i < |job.metadata| ==> FieldFound(job, afterHeader, i))
    && |entries| == |job.tensors|
    && ReadMany(afterHeader[FieldStart(job, |job.metadata|)..], |entries|, ReadEntry) == Good(entries, afterDirectory)
    && |afterDirectory| <= |file| && dataStart <= |file| && dataStart % job.alignment == 0
    && dataStart < |file| - |afterDirectory| + job.alignment
    && ZeroBytes(file, |file| - |afterDirectory|, dataStart)
    && (entries == [] ==> dataStart == |file|)
    && (forall k :: 0 <= k < |entries| ==> Described(job, file, entries, dataStart, k))
  }

  lemma FrontPadding(job: Job, file: seq<byte>, head: seq<byte>)
    requires Admitted(job) && file == FileBytes(job)
    requires head == Header(job) + MetadataBytes(job, |job.metadata|) + DirectoryBytes(job, |job.tensors|)
    ensures |head| <= |Front(job)| < |head| + job.alignment && ZeroBytes(file, |head|, |Front(job)|)
  {
    PaddingAt(file, head, Aligned(|head|, job.alignment) - |head|, Data(job, |job.tensors|));
  }

  lemma PaddingAt(file: seq<byte>, head: seq<byte>, n: nat, data: seq<byte>)
    requires file == head + Zeros(n) + data
    ensures ZeroBytes(file, |head|, |head| + n)
  {
    assert file[|head|..|head| + n] == Zeros(n);
    ZerosAt(file, |head|, n);
  }

  /** The front of a file, read field by field and entry by entry. */
  lemma FrontMeans(job: Job, m: seq<byte>, afterHeader: seq<byte>, directory: seq<byte>)
    requires FieldsFit(job, |job.metadata|) && m == MetadataBytes(job, |job.metadata|)
    requires afterHeader == m + directory
    ensures FieldStart(job, |job.metadata|) <= |afterHeader|
    ensures afterHeader[FieldStart(job, |job.metadata|)..] == directory
    ensures forall i :: 0 <= i < |job.metadata| ==> FieldFound(job, afterHeader, i)
  {
    MetadataLength(job, |job.metadata|);
    forall i | 0 <= i < |job.metadata| ensures FieldFound(job, afterHeader, i) { FieldIsFound(job, afterHeader, i); }
  }

  lemma DataMeans(job: Job, file: seq<byte>, entries: seq<Entry>, dataStart: nat)
    requires Admitted(job) && file == FileBytes(job) && dataStart == |Front(job)| && entries == Entries(job, |job.tensors|)
    ensures |entries| == |job.tensors| && dataStart <= |file| && dataStart % job.alignment == 0
    ensures entries == [] ==> dataStart == |file|
    ensures forall k :: 0 <= k < |entries| ==> Described(job, file, entries, dataStart, k)
  {
    EntriesAre(job);
    DataFound(job, file, dataStart, entries);
    MultipleIsProduct(dataStart, job.alignment);
    forall k | 0 <= k < |entries| ensures Described(job, file, entries, dataStart, k) {
      TensorDescribed(job, file, entries, dataStart, k);
    }
  }

  /** Every admitted job yields a file that means exactly its source. */
  lemma FileMeans(job: Job, file: seq<byte>, entries: seq<Entry>, dataStart: nat)
    returns (afterHeader: seq<byte>, afterDirectory: seq<byte>)
    requires Admitted(job) && file == FileBytes(job) && dataStart == |Front(job)| && entries == Entries(job, |job.tensors|)
    ensures Means(job, file, entries, afterHeader, afterDirectory, dataStart)
  {
    var m, d, rest := FrontFound(job, file, entries);
    afterHeader, afterDirectory := m + (d + rest), rest;
    var head := Header(job) + m + d;
    assert |head| == |file| - |rest|;
    FrontPadding(job, file, head);
    FrontMeans(job, m, afterHeader, d + rest);
    DataMeans(job, file, entries, dataStart);
  }

  /** What is written means the source. */
  method ProjectMeans(job: Job) returns (w: Written, ghost afterHeader: seq<byte>, ghost afterDirectory: seq<byte>)
    ensures w.Written? <==> Admitted(job)
    ensures w.Written? ==> Means(job, w.file, w.entries, afterHeader, afterDirectory, w.dataStart)
  {
    w := Project(job);
    if w.Written? {
      afterHeader, afterDirectory := FileMeans(job, w.file, w.entries, w.dataStart);
    } else {
      afterHeader, afterDirectory := [], [];
    }
  }

  // ---- what the comparison decides ----

  lemma WideSplit(i: nat) returns (j: nat)
    ensures j == i / 4 && i in {4 * j, 4 * j + 1, 4 * j + 2, 4 * j + 3}
  {
    j := i / 4;
  }

  lemma WideMatches(src: seq<byte>, from: nat, n: nat, file: seq<byte>, at: nat)
    requires n > 0 && WideElements(src, from, n, file, at)
    ensures Readable(src, from, n, true) && At(file, at, Payload(src, from, n, true))
  {
    assert WideElement(src, from, file, at, n / 2 - 1);
    var raw := src[from..from + n];
    forall i | 0 <= i < 2 * n ensures file[at..at + 2 * n][i] == Widen(raw)[i] { WideByte(src, from, n, file, at, i); }
  }

  lemma WideByte(src: seq<byte>, from: nat, n: nat, file: seq<byte>, at: nat, i: nat)
    requires WideElements(src, from, n, file, at) && i < 2 * n && from + n <= |src| && at + 2 * n <= |file|
    ensures file[at + i] == Widen(src[from..from + n])[i]
  {
    var j := WideSplit(i);
    assert WideElement(src, from, file, at, j);
    WidenedAt(src[from..from + n], j);
  }

  lemma ReadAtIs(file: seq<byte>, at: nat, part: seq<byte>)
    requires part != []
    ensures ReadAt(file, at, |part|) == part <==> At(file, at, part)
  {
    if At(file, at, part) { ReadAtInside(file, at, |part|); }
  }

  /** A tensor reads back exactly when its extent is in the source and its elements stand in the file. */
  lemma ReadsBackExactly(job: Job, t: Tensor, file: seq<byte>, at: nat)
    requires t.nBytes > 0
    ensures ReadsBack(job, t, file, at) <==>
            if Wide(job, t) then WideElements(job.src, t.dataOffset, t.nBytes, file, at)
            else Copied(job.src, t.dataOffset, t.nBytes, file, at)
  {
    if TensorReadable(job, t) {
      ReadAtIs(file, at, TensorBytes(job, t));
      if At(file, at, TensorBytes(job, t)) {
        if Wide(job, t) { PayloadWide(job.src, t.dataOffset, t.nBytes, file, at); }
        else { PayloadCopied(job.src, t.dataOffset, t.nBytes, file, at); }
      }
    }
    if Wide(job, t) && WideElements(job.src, t.dataOffset, t.nBytes, file, at) {
      WideMatches(job.src, t.dataOffset, t.nBytes, file, at);
    }
  }

  // ---- which jobs are written ----

  /** The source holds the key of a field, with its length before it, inside the field's extent. */
  predicate Keyed(src: seq<byte>, f: Field) {
    && |f.name| < U64 && |f.alias| < U64
    && f.offset + 8 + |f.name| <= |src| && 8 + |f.name| <= f.count
    && src[f.offset..f.offset + 8 + |f.name|] == PackU64(|f.name|) + f.name
  }

  /** A tensor's extent lies in the source and, where it is widened, holds whole elements. */
  predicate Extent(job: Job, t: Tensor) {
    t.nBytes > 0 ==> t.dataOffset + t.nBytes <= |job.src| && (Wide(job, t) ==> t.nBytes % 2 == 0)
  }

  /** The numbers of a tensor's entry fit their fields. */
  predicate Packable(job: Job, k: nat)
    requires job.alignment > 0 && k < |job.tensors|
  {
    var t := job.tensors[k];
    && |t.name| < U64 && |t.shape| < U32 && t.qtype < U32 && Offset(job, k) < U64
    && forall i :: 0 <= i < |t.shape| ==> t.shape[i] < U64
  }

  lemma KeyedExactly(src: seq<byte>, f: Field)
    ensures FieldFits(src, f) <==> Keyed(src, f)
  {
    var raw := ReadAt(src, f.offset, f.count);
    if Keyed(src, f) { assert raw[..8 + |f.name|] == src[f.offset..f.offset + 8 + |f.name|]; }
    if FieldFits(src, f) { assert raw[..8 + |f.name|] == PackText(f.name); }
  }

  lemma {:induction false} FieldsKeyed(job: Job, n: nat)
    requires n <= |job.metadata|
    ensures FieldsFit(job, n) <==> forall i :: 0 <= i < n ==> Keyed(job.src, job.metadata[i])
  {
    if n > 0 {
      FieldsKeyed(job, n - 1);
      KeyedExactly(job.src, job.metadata[n - 1]);
    }
  }

  lemma {:induction false} TensorsExtent(job: Job, n: nat)
    requires n <= |job.tensors|
    ensures TensorsReadable(job, n) <==> forall k :: 0 <= k < n ==> Extent(job, job.tensors[k])
  {
    if n > 0 { TensorsExtent(job, n - 1); }
  }

  lemma PackableExactly(job: Job, k: nat)
    requires job.alignment > 0 && k < |job.tensors|
    ensures EntryFits(EntryOf(job, k)) <==> Packable(job, k)
  {
  }

  lemma {:induction false} EntriesPackable(job: Job, n: nat)
    requires job.alignment > 0 && n <= |job.tensors|
    ensures EntriesFit(job, n) <==> forall k :: 0 <= k < n ==> Packable(job, k)
  {
    if n > 0 {
      EntriesPackable(job, n - 1);
      PackableExactly(job, n - 1);
    }
  }

  /** Written are exactly the jobs whose alignment is a power of two, whose fields have their keys where
      the reader found them, whose tensors lie in the source, and whose numbers fit. */
  lemma AdmittedExactly(job: Job)
    ensures Admitted(job) <==>
            && job.alignment > 0 && BitAnd(job.alignment, job.alignment - 1) == 0
            && |job.tensors| < U64 && |job.metadata| < U64
            && (forall i :: 0 <= i < |job.metadata| ==> Keyed(job.src, job.metadata[i]))
            && (forall k :: 0 <= k < |job.tensors| ==> Packable(job, k))
            && (forall k :: 0 <= k < |job.tensors| ==> Extent(job, job.tensors[k]))
  {
    if job.alignment > 0 {
      BitTest(job.alignment);
      FieldsKeyed(job, |job.metadata|);
      EntriesPackable(job, |job.tensors|);
      TensorsExtent(job, |job.tensors|);
    }
  }
}
