/** Resumable source acquisition, tools/minimax_h3_intake.py (hash_existing, stream_file,
    acquire_one): one remote file is streamed into `<name>.part`, appended to by later runs,
    and renamed to its final name.

    The digests are parameters: `sha` is SHA-256, `blob` the Git blob identity. A server
    response is its status, its headers and the chunks the connection delivers before it ends. */
module Acquisition {
  import opened Bytes
  import opened Wrappers

  type Digest = seq<byte> -> string

  /** The final file and the partial file of one row. */
  datatype Files = Files(target: Option<seq<byte>>, partial: Option<seq<byte>>)

  datatype Row = Row(size: nat, lfsOid: string, oid: string)

  datatype Expected = NoLfs | Lfs(sha: string) | BadLfs

  predicate LowerDigit(c: char) { '0' <= c <= '9' || 'a' <= c <= 'f' }

  predicate LowerHex(s: string, n: nat) { |s| == n && forall i :: 0 <= i < n ==> LowerDigit(s[i]) }

  function ExpectedSha(row: Row): Expected {
    if row.lfsOid == "" then NoLfs
    else
      var oid := if "sha256:" <= row.lfsOid then row.lfsOid[7..] else row.lfsOid;
      if LowerHex(oid, 64) then Lfs(oid) else BadLfs
  }

  datatype Failure =
    | UnsupportedLfs | PartialLeft | TargetMissing | BothExist | TooLarge
    | StreamFailed | SizeMismatch | ShaMismatch | BadGitOid | BlobMismatch

  datatype Result = Done(sha: string, size: nat, transferred: nat) | Failed(reason: Failure)

  // ---- the loops ----

  /** A read that returns bytes; a connection that has ended returns none. */
  type Chunk = c: seq<byte> | c != [] witness [0]

  function Concat(chunks: seq<Chunk>): seq<byte> {
    if chunks == [] then [] else chunks[0] + Concat(chunks[1..])
  }

  lemma OneChunk(c: Chunk)
    ensures Concat([c]) == c
  {
    var chunks: seq<Chunk> := [c];
    assert chunks[1..] == [] && Concat(chunks) == c + Concat(chunks[1..]);
  }

  const CHUNK := 1024 * 1024

  /** Reads a file in chunks; `fed` is everything the digest was given. */
  method HashExisting(file: seq<byte>, maximum: nat) returns (ok: bool, fed: seq<byte>, size: nat)
    ensures ok == (|file| <= maximum)
    ensures ok ==> fed == file && size == |file|
  {
    fed, size := [], 0;
    var position := 0;
    while position < |file|
      invariant position == size <= |file| && size <= maximum
      invariant fed == file[..position]
      decreases |file| - position
    {
      var n := if |file| - position < CHUNK then |file| - position else CHUNK;
      var chunk := file[position..position + n];
      position := position + n;
      size := size + |chunk|;
      if size > maximum { return false, fed, size; }
      fed := fed + chunk;
    }
    return true, fed, size;
  }

  // ---- responses ----

  /** Content-Range in the form the request expects; a missing or other header is None. */
  datatype Range = Range(first: nat, last: int, total: nat)

  datatype Length = NoLength | Length(n: int) | BadLength

  /** `known` tells whether the final host is recognized; `broken` whether the connection ends in
      an error instead of an end of file. */
  datatype Response =
    | NoResponse
    | Response(known: bool, status: nat, range: Option<Range>, length: Length, chunks: seq<Chunk>, broken: bool)

  /** The checks before the first byte is read: a resumed request insists on its exact range, a
      request from the start takes any 200 or 206. */
  predicate Takes(r: Response, offset: nat, size: nat) {
    && r.Response? && r.known
    && (if offset > 0 then r.status == 206 && r.range == Some(Range(offset, size - 1, size)) else r.status in {200, 206})
    && (r.length.NoLength? || r.length == Length(size - offset))
  }

  function Body(r: Response): seq<byte> { if r.Response? then Concat(r.chunks) else [] }

  /** What is appended to the partial file: nothing of a response that is refused, and never more
      than what is missing. */
  function Written(r: Response, offset: nat, size: nat): (w: seq<byte>)
    requires offset <= size
    ensures w <= Body(r) && |w| <= size - offset
  {
    if offset == size || !Takes(r, offset, size) then [] else Cut(Body(r), size - offset)
  }

  function Cut(body: seq<byte>, remaining: nat): (w: seq<byte>)
    ensures w <= body && |w| <= remaining
  {
    if |body| <= remaining then body else body[..remaining]
  }

  /** Streaming succeeds: nothing is missing, or exactly what is missing arrives and then the end. */
  predicate Completes(r: Response, offset: nat, size: nat) {
    offset == size || (Takes(r, offset, size) && |Body(r)| == size - offset && !r.broken)
  }

  /** The states a crash can leave a file in while `w` is being appended to `f`. */
  predicate Torn(f: seq<byte>, w: seq<byte>, left: seq<byte>) {
    f <= left <= f + w
  }

  /** What is left of the connection after n bytes of its first chunk were read. */
  function Advance(rest: seq<Chunk>, n: nat): seq<Chunk>
    requires rest != [] && 0 < n <= |rest[0]|
  {
    if n == |rest[0]| then rest[1..] else [rest[0][n..]] + rest[1..]
  }

  lemma ReadChunk(body: seq<byte>, w: seq<byte>, t: nat, rest: seq<Chunk>, n: nat)
    requires w <= body && t <= |w| && body[t..] == Concat(rest)
    requires rest != [] && 0 < n <= |rest[0]| && (w == body || t + n <= |w|)
    ensures t + n <= |w| && w[..t + n] == w[..t] + rest[0][..n]
    ensures body[t + n..] == Concat(Advance(rest, n))
  {
    TakeFront(body[t..], rest, n);
    assert body[t + n..] == body[t..][n..];
    assert w[..t + n] == w[..t] + body[t..][..n];
  }

  lemma TakeFront(tail: seq<byte>, rest: seq<Chunk>, n: nat)
    requires rest != [] && 0 < n <= |rest[0]| && tail == Concat(rest)
    ensures n <= |tail| && tail[..n] == rest[0][..n] && tail[n..] == Concat(Advance(rest, n))
  {
    assert tail == rest[0] + Concat(rest[1..]);
    if n < |rest[0]| {
      assert Advance(rest, n)[1..] == rest[1..];
      assert tail[n..] == rest[0][n..] + Concat(rest[1..]);
    }
  }

  /** After t of the bytes w: they are in the file and in the digest, the others still to come. */
  predicate Streamed(start: seq<byte>, digest: seq<byte>, w: seq<byte>, body: seq<byte>, t: nat,
                     part: seq<byte>, fed: seq<byte>, rest: seq<Chunk>) {
    && w <= body && t <= |w| && part == start + w[..t] && fed == digest + w[..t] && body[t..] == Concat(rest)
  }

  lemma Appended(a: seq<byte>, w: seq<byte>, t: nat, n: nat, chunk: seq<byte>)
    requires t + n <= |w| && w[..t + n] == w[..t] + chunk
    ensures a + w[..t] + chunk == a + w[..t + n] <= a + w
  {
  }

  lemma StreamChunk(start: seq<byte>, digest: seq<byte>, w: seq<byte>, body: seq<byte>, t: nat,
                    part: seq<byte>, fed: seq<byte>, rest: seq<Chunk>, n: nat)
    requires Streamed(start, digest, w, body, t, part, fed, rest)
    requires rest != [] && 0 < n <= |rest[0]| && (w == body || t + n <= |w|)
    ensures var chunk := rest[0][..n];
            && Streamed(start, digest, w, body, t + n, part + chunk, fed + chunk, Advance(rest, n))
            && Torn(start, w, part + chunk)
  {
    ReadChunk(body, w, t, rest, n);
    Appended(start, w, t, n, rest[0][..n]);
    Appended(digest, w, t, n, rest[0][..n]);
  }

  lemma StreamedAll(start: seq<byte>, digest: seq<byte>, w: seq<byte>, body: seq<byte>, t: nat,
                    part: seq<byte>, fed: seq<byte>, rest: seq<Chunk>)
    requires Streamed(start, digest, w, body, t, part, fed, rest) && (t == |w| || rest == [])
    ensures t == |w| && part == start + w && fed == digest + w && |body| == t + |Concat(rest)|
  {
    assert w[..|w|] == w;
  }

  // ---- one run ----

  /** The checks every run ends with, on the bytes under the final name. */
  function Verified(data: seq<byte>, row: Row, transferred: nat, sha: Digest, blob: Digest): (r: Result) {
    if |data| != row.size then Failed(SizeMismatch)
    else
      match ExpectedSha(row)
      case BadLfs => Failed(UnsupportedLfs)
      case Lfs(expected) => if sha(data) != expected then Failed(ShaMismatch) else Done(sha(data), |data|, transferred)
      case NoLfs =>
        if !LowerHex(row.oid, 40) then Failed(BadGitOid)
        else if blob(data) != row.oid then Failed(BlobMismatch)
        else Done(sha(data), |data|, transferred)
  }

  function PartialBytes(f: Files): seq<byte> {
    if f.partial.Some? then f.partial.value else []
  }

  /** Whether a run gets as far as streaming. */
  predicate Streams(f: Files, row: Row, check: bool) {
    !ExpectedSha(row).BadLfs? && !check && f.target.None? && |PartialBytes(f)| <= row.size
  }

  /** The partial file after streaming a response. */
  function Grown(f: Files, row: Row, r: Response): seq<byte>
    requires |PartialBytes(f)| <= row.size
  {
    PartialBytes(f) + Written(r, |PartialBytes(f)|, row.size)
  }

  /** The download of a run that streams: the files it leaves, and what stopped it if anything. */
  function Downloaded(f: Files, row: Row, r: Response, sha: Digest): (o: (Files, Option<Failure>))
    requires |PartialBytes(f)| <= row.size
  {
    var data := Grown(f, row, r);
    if !Completes(r, |PartialBytes(f)|, row.size) then (Files(None, Some(data)), Some(StreamFailed))
    else if ExpectedSha(row).Lfs? && sha(data) != ExpectedSha(row).sha then
      (Files(None, Some(data)), Some(ShaMismatch))
    else (Files(Some(data), None), None)
  }

  /** A run to completion: the files it leaves and its result. */
  function Acquire(f: Files, row: Row, check: bool, r: Response, sha: Digest, blob: Digest): (o: (Files, Result)) {
    if ExpectedSha(row).BadLfs? then (f, Failed(UnsupportedLfs))
    else if check && f.partial.Some? then (f, Failed(PartialLeft))
    else if check && f.target.None? then (f, Failed(TargetMissing))
    else if f.target.Some? then
      if f.partial.Some? then (f, Failed(BothExist))
      else if |f.target.value| > row.size then (f, Failed(TooLarge))
      else (f, Verified(f.target.value, row, 0, sha, blob))
    else if |PartialBytes(f)| > row.size then (f, Failed(TooLarge))
    else
      var (left, stopped) := Downloaded(f, row, r, sha);
      if stopped.Some? then (left, Failed(stopped.value))
      else (left, Verified(left.target.value, row, row.size - |PartialBytes(f)|, sha, blob))
  }

  /** The files a run can leave behind when it may crash anywhere: untouched, a partial file
      torn anywhere inside what was being appended, or the files of the completed run. */
  ghost predicate Leaves(f: Files, row: Row, check: bool, r: Response, sha: Digest, blob: Digest, left: Files) {
    || left == f
    || left == Acquire(f, row, check, r, sha, blob).0
    || (Streams(f, row, check) && TornFiles(f, row, r, left))
  }

  predicate TornFiles(f: Files, row: Row, r: Response, left: Files)
    requires |PartialBytes(f)| <= row.size
  {
    && left.target.None? && left.partial.Some?
    && Torn(PartialBytes(f), Written(r, |PartialBytes(f)|, row.size), left.partial.value)
  }

  class Destination {
    var target: Option<seq<byte>>
    var partial: Option<seq<byte>>
    /** Every state the files have been left in by a step so far. */
    ghost var trail: set<Files>

    constructor (files: Files)
      ensures View() == files && trail == {}
    {
      target, partial, trail := files.target, files.partial, {};
    }

    ghost function View(): Files
      reads this
    {
      Files(target, partial)
    }

    /** Appends a response to the open partial file and to the digest, chunk by chunk, unless its
        host, status, range or length is refused. */
    method StreamFile(size: nat, r: Response, digest: seq<byte>)
      returns (ok: bool, fed: seq<byte>, transferred: nat)
      requires partial.Some? && |partial.value| <= size
      modifies this
      ensures target == old(target) && old(trail) <= trail
      ensures var offset := |old(partial.value)|;
              var w := Written(r, offset, size);
              && ok == Completes(r, offset, size)
              && partial == Some(old(partial.value) + w)
              && (ok ==> transferred == |w| == size - offset && fed == digest + w)
              && (forall x :: x in trail && x !in old(trail) ==>
                    && x.target == old(target) && x.partial.Some? && Torn(old(partial.value), w, x.partial.value))
    {
      fed, transferred := digest, 0;
      var offset := |partial.value|;
      assert partial.value + [] == partial.value && digest + [] == digest;
      if offset == size { return true, fed, 0; }
      if r.NoResponse? { return false, fed, 0; }
      if !r.known { return false, fed, 0; }
      if offset > 0 {
        if r.status != 206 || r.range != Some(Range(offset, size - 1, size)) { return false, fed, 0; }
      } else if r.status !in {200, 206} {
        return false, fed, 0;
      }
      if r.length.BadLength? || (r.length.Length? && r.length.n != size - offset) { return false, fed, 0; }
      ok, fed, transferred := Receive(size, r.chunks, r.broken, digest);
    }

    /** The reading loop, and the look for a byte too many. */
    method Receive(size: nat, chunks: seq<Chunk>, broken: bool, digest: seq<byte>)
      returns (ok: bool, fed: seq<byte>, transferred: nat)
      requires partial.Some? && |partial.value| < size
      modifies this
      ensures target == old(target) && old(trail) <= trail
      ensures var remaining := size - |old(partial.value)|;
              var w := Cut(Concat(chunks), remaining);
              && ok == (|Concat(chunks)| == remaining && !broken)
              && partial == Some(old(partial.value) + w)
              && (ok ==> transferred == |w| == remaining && fed == digest + w)
              && (forall x :: x in trail && x !in old(trail) ==>
                    && x.target == old(target) && x.partial.Some? && Torn(old(partial.value), w, x.partial.value))
    {
      ghost var start := partial.value;
      fed, transferred := digest, 0;
      var remaining := size - |partial.value|;
      ghost var body := Concat(chunks);
      ghost var w := Cut(body, remaining);
      var rest := chunks;
      assert Streamed(start, digest, w, body, 0, start, digest, rest) by { assert w[..0] == []; }
      while transferred < remaining
        invariant target == old(target) && partial.Some? && transferred <= remaining
        invariant Streamed(start, digest, w, body, transferred, partial.value, fed, rest)
        invariant old(trail) <= trail
        invariant forall x :: x in trail && x !in old(trail) ==>
                    x.target == old(target) && x.partial.Some? && Torn(start, w, x.partial.value)
        decreases remaining - transferred
      {
        if rest == [] {
          StreamedAll(start, digest, w, body, transferred, partial.value, fed, rest);
          return false, fed, transferred;
        }
        var want := if remaining - transferred < CHUNK then remaining - transferred else CHUNK;
        var n := if |rest[0]| < want then |rest[0]| else want;
        StreamChunk(start, digest, w, body, transferred, partial.value, fed, rest, n);
        var chunk := rest[0][..n];
        partial := Some(partial.value + chunk);
        fed := fed + chunk;
        transferred := transferred + n;
        rest := Advance(rest, n);
        trail := trail + {View()};
      }
      StreamedAll(start, digest, w, body, transferred, partial.value, fed, rest);
      if rest != [] {
        assert Concat(rest) != [];
        return false, fed, transferred;
      }
      return !broken, fed, transferred;
    }

    /** Resumes or starts the partial file and renames it once it is complete. */
    method Download(row: Row, r: Response, sha: Digest)
      returns (stopped: Option<Failure>, fed: seq<byte>, transferred: nat)
      requires target.None? && !ExpectedSha(row).BadLfs?
      modifies this
      ensures |old(PartialBytes(View()))| > row.size ==> stopped == Some(TooLarge) && View() == old(View())
      ensures |old(PartialBytes(View()))| <= row.size ==>
                && (View(), stopped) == Downloaded(old(View()), row, r, sha)
                && (stopped.None? ==> fed == target.value && transferred == row.size - |old(PartialBytes(View()))|)
      ensures old(trail) <= trail
      ensures forall x :: x in trail && x !in old(trail) ==>
                && Streams(old(View()), row, false)
                && (x == Downloaded(old(View()), row, r, sha).0 || TornFiles(old(View()), row, r, x))
    {
      ghost var f := View();
      fed, transferred := [], 0;
      var ok, size := true, 0;
      if partial.Some? {
        ok, fed, size := HashExisting(partial.value, row.size);
        if !ok { return Some(TooLarge), fed, 0; }
      } else {
        partial := Some([]);
        trail := trail + {View()};
      }
      assert fed == PartialBytes(f) == partial.value && size == |fed|;
      ok, fed, transferred := StreamFile(row.size, r, fed);
      assert Streams(f, row, false);
      assert forall x :: x in trail && x !in old(trail) ==> TornFiles(f, row, r, x);
      if !ok { return Some(StreamFailed), fed, transferred; }
      assert fed == partial.value == Grown(f, row, r);
      if ExpectedSha(row).Lfs? && sha(fed) != ExpectedSha(row).sha { return Some(ShaMismatch), fed, transferred; }
      target, partial := partial, None;
      trail := trail + {View()};
      return None, fed, transferred;
    }

    /** Acquires or checks one row. Every state the files pass through is one a crash may leave. */
    method AcquireOne(row: Row, check: bool, r: Response, sha: Digest, blob: Digest) returns (result: Result)
      modifies this
      ensures (View(), result) == Acquire(old(View()), row, check, r, sha, blob)
      ensures old(trail) <= trail
      ensures forall x :: x in trail && x !in old(trail) ==> Leaves(old(View()), row, check, r, sha, blob, x)
    {
      var expected := ExpectedSha(row);
      if expected.BadLfs? { return Failed(UnsupportedLfs); }
      var fed, size, transferred := [], 0, 0;
      if check || target.Some? {
        if check && partial.Some? { return Failed(PartialLeft); }
        if check && target.None? { return Failed(TargetMissing); }
        if partial.Some? { return Failed(BothExist); }
        var ok;
        ok, fed, size := HashExisting(target.value, row.size);
        if !ok { return Failed(TooLarge); }
      } else {
        var stopped;
        stopped, fed, transferred := Download(row, r, sha);
        if stopped.Some? { return Failed(stopped.value); }
        size := |fed|;
      }
      if size != row.size { return Failed(SizeMismatch); }
      if expected.Lfs? && sha(fed) != expected.sha { return Failed(ShaMismatch); }
      if expected.NoLfs? {
        if !LowerHex(row.oid, 40) { return Failed(BadGitOid); }
        if blob(target.value) != row.oid { return Failed(BlobMismatch); }
      }
      return Done(sha(fed), size, transferred);
    }
  }

  // ---- success, whatever the network and the disk held ----

  /** The identity the repository tree promises for a row. */
  predicate Authentic(data: seq<byte>, row: Row, sha: Digest, blob: Digest) {
    && |data| == row.size
    && match ExpectedSha(row)
       case BadLfs => false
       case Lfs(expected) => sha(data) == expected
       case NoLfs => LowerHex(row.oid, 40) && blob(data) == row.oid
  }

  /** From any files and any response, a run succeeds only with exactly the promised bytes under
      the final name, no partial file, and the digest of the whole file as its receipt; and a
      resumed run transfers exactly what was missing. */
  lemma SuccessIsAuthentic(f: Files, row: Row, check: bool, r: Response, sha: Digest, blob: Digest)
    requires Acquire(f, row, check, r, sha, blob).1.Done?
    ensures var (left, result) := Acquire(f, row, check, r, sha, blob);
            && left.target.Some? && left.partial.None?
            && Authentic(left.target.value, row, sha, blob)
            && result.sha == sha(left.target.value) && result.size == row.size
            && result.transferred == (if f.target.Some? then 0 else row.size - |PartialBytes(f)|)
            && (f.target.None? ==> PartialBytes(f) <= left.target.value && !check)
  {
  }

  // ---- when a run succeeds, exactly ----

  lemma LowerHexExactly(s: string, n: nat)
    ensures LowerHex(s, n) <==> |s| == n && forall c :: c in s ==> c in "0123456789abcdef"
  {
    forall c ensures LowerDigit(c) <==> c in "0123456789abcdef" { LowerDigitIs(c); }
  }

  lemma LowerDigitIs(c: char)
    ensures LowerDigit(c) <==> c in "0123456789abcdef"
  {
    var digits := "0123456789abcdef";
    if '0' <= c <= '9' { assert digits[c as int - '0' as int] == c; }
    if 'a' <= c <= 'f' { assert digits[10 + c as int - 'a' as int] == c; }
  }

  /** An LFS row promises a digest exactly when its identity is 64 hexadecimal digits, with or without
      the name of the algorithm before them; it promises none exactly when the identity is empty. */
  lemma ExpectedExactly(row: Row, digits: string)
    ensures ExpectedSha(row) == Lfs(digits) <==>
            LowerHex(digits, 64) && (row.lfsOid == digits || row.lfsOid == "sha256:" + digits)
    ensures ExpectedSha(row) == NoLfs <==> row.lfsOid == ""
  {
    var prefix := "sha256:";
    if prefix <= row.lfsOid { assert row.lfsOid == prefix + row.lfsOid[7..]; }
    if row.lfsOid == prefix + digits { assert row.lfsOid[7..] == digits; }
    assert prefix <= row.lfsOid ==> row.lfsOid[0] == 's';
    assert LowerHex(digits, 64) ==> LowerDigit(digits[0]);
  }

  /** What a row promises of the bytes: their number, and their SHA-256 if it has an LFS identity, their
      Git blob identity of 40 hexadecimal digits otherwise. */
  lemma AuthenticExactly(data: seq<byte>, row: Row, sha: Digest, blob: Digest)
    ensures Authentic(data, row, sha, blob) <==>
            && |data| == row.size
            && (if row.lfsOid == "" then LowerHex(row.oid, 40) && blob(data) == row.oid
                else LowerHex(sha(data), 64) && (row.lfsOid == sha(data) || row.lfsOid == "sha256:" + sha(data)))
  {
    ExpectedExactly(row, sha(data));
  }

  /** The answer a download needs when it has `had` of `size` bytes: from a recognized host, with no
      length or the right one, all that is missing and no more; to a resumed request, as a 206 with
      exactly the requested range; to one from the start, as a 200 or a 206. */
  predicate Answers(r: Response, had: nat, size: nat) {
    && r.Response? && r.known && !r.broken && had + |Concat(r.chunks)| == size
    && (r.length == NoLength || r.length == Length(size - had))
    && (if had == 0 then r.status == 200 || r.status == 206
        else r.status == 206 && r.range.Some?
             && r.range.value.first == had && r.range.value.last == size - 1 && r.range.value.total == size)
  }

  /** What the final file will be: the one that is there, or the partial file with the answer. */
  function Final(f: Files, row: Row, r: Response): seq<byte> {
    if f.target.Some? then f.target.value
    else if |PartialBytes(f)| == row.size then PartialBytes(f)
    else PartialBytes(f) + Body(r)
  }

  /** A run succeeds exactly when there is no partial file beside a final one, a check finds the final
      file, a download gets its answer, and the file is authentic. */
  lemma SuccessExactly(f: Files, row: Row, check: bool, r: Response, sha: Digest, blob: Digest)
    ensures Acquire(f, row, check, r, sha, blob).1.Done? <==>
            && (check || f.target.Some? ==> f.partial.None? && f.target.Some?)
            && (f.target.None? ==> |PartialBytes(f)| == row.size || Answers(r, |PartialBytes(f)|, row.size))
            && Authentic(Final(f, row, r), row, sha, blob)
  {
    if f.target.None? && |PartialBytes(f)| == row.size { assert PartialBytes(f) + [] == PartialBytes(f); }
  }

  /** What a run leaves: nothing changes unless it streams; a response that is refused adds nothing, any
      other the missing bytes it sends; and the rename comes exactly when all bytes arrived and no
      promised digest speaks against it. */
  lemma LeftExactly(f: Files, row: Row, check: bool, r: Response, sha: Digest, blob: Digest)
    ensures var left := Acquire(f, row, check, r, sha, blob).0;
            if !Streams(f, row, check) then left == f
            else
              var had := PartialBytes(f);
              if |had| == row.size || Answers(r, |had|, row.size) then
                var data := Final(f, row, r);
                if ExpectedSha(row).Lfs? && sha(data) != ExpectedSha(row).sha then left == Files(None, Some(data))
                else left == Files(Some(data), None)
              else
                && left.target.None? && left.partial.Some? && had <= left.partial.value <= had + Body(r)
                && |left.partial.value| <= row.size
                && (!Takes(r, |had|, row.size) ==> left.partial.value == had)
                && (Takes(r, |had|, row.size) ==>
                      left.partial.value == had + Body(r) || |left.partial.value| == row.size)
  {
    var had := PartialBytes(f);
    assert had + [] == had;
  }

  /** Each header that speaks against the answer has it refused before a byte is written. */
  lemma RefusedExactly(f: Files, row: Row, r: Response, sha: Digest, blob: Digest)
    requires Streams(f, row, false) && |PartialBytes(f)| < row.size
    requires r.Response? ==>
               || !r.known || r.length == BadLength || (r.length.Length? && r.length.n != row.size - |PartialBytes(f)|)
               || (PartialBytes(f) == [] && r.status != 200 && r.status != 206)
    ensures Acquire(f, row, false, r, sha, blob) == (Files(None, Some(PartialBytes(f))), Failed(StreamFailed))
  {
    assert PartialBytes(f) + [] == PartialBytes(f);
  }

  // ---- truthful servers ----

  /** A truthful server sends bytes of the immutable content from where its headers say: a 200 from
      the start, a 206 from the range it declares. A 206 that declares no range says nothing. */
  predicate Truthful(content: seq<byte>, r: Response) {
    && (r.Response? && r.status == 200 ==> Body(r) <= content)
    && (r.Response? && r.status == 206 && r.range.Some? ==>
          r.range.value.first <= |content| && Body(r) <= content[r.range.value.first..])
  }

  /** The partial file is a prefix of the content, the final file is the content, and the two
      never exist together. */
  predicate Consistent(content: seq<byte>, f: Files) {
    && (f.partial.Some? ==> f.partial.value <= content && f.target.None?)
    && (f.target.Some? ==> f.target.value == content)
  }

  /** The headers leave it open where the bytes belong: a request from the start is answered by a
      206 that declares another start, or none, and the code does not look. */
  predicate Misplaced(f: Files, row: Row, r: Response) {
    && PartialBytes(f) == [] && row.size > 0 && Takes(r, 0, row.size) && Body(r) != [] && r.status == 206
    && (r.range.None? || 0 < r.range.value.first)
  }

  /** Some content of the row's size has the bytes where the headers say. */
  predicate Possible(row: Row, r: Response) {
    r.Response? && r.status == 206 && r.range.Some? ==> r.range.value.first + |Body(r)| <= row.size
  }

  lemma PlacedGrows(content: seq<byte>, f: Files, row: Row, r: Response)
    requires |content| == row.size && PartialBytes(f) <= content && Truthful(content, r) && !Misplaced(f, row, r)
    ensures Grown(f, row, r) <= content
  {
    var had := PartialBytes(f);
    var w := Written(r, |had|, row.size);
    assert w <= content[|had|..] by {
      if w != [] { assert content[0..] == content; }
    }
    assert had + w <= content;
  }

  function Filled(b: byte, n: nat): seq<byte> { seq(n, _ => b) }

  /** A content with the response's bytes where its headers say, and another first byte. */
  function Counterexample(row: Row, r: Response): seq<byte>
    requires r.Response? && Body(r) != [] && row.size > 0
  {
    var other: byte := if Body(r)[0] == 0 then 1 else 0;
    if r.range.None? || r.range.value.first + |Body(r)| > row.size then Filled(other, row.size)
    else
      var first := r.range.value.first;
      Filled(other, first) + Body(r) + Filled(other, row.size - first - |Body(r)|)
  }

  lemma MisplacedBreaks(f: Files, row: Row, r: Response)
    requires Misplaced(f, row, r) && Possible(row, r)
    ensures var content := Counterexample(row, r);
            && |content| == row.size && PartialBytes(f) <= content && Truthful(content, r)
            && !(Grown(f, row, r) <= content)
  {
    var content := Counterexample(row, r);
    if r.range.Some? {
      var first := r.range.value.first;
      assert content[first..] == Body(r) + Filled(content[0], row.size - first - |Body(r)|);
    }
    assert Grown(f, row, r)[0] == Body(r)[0] != content[0];
  }

  /** The prefix property, exactly: a response leaves a prefix of every content it is truthful about
      if and only if its headers place its bytes. */
  lemma PrefixExactly(f: Files, row: Row, r: Response)
    requires |PartialBytes(f)| <= row.size && Possible(row, r)
    ensures (forall content :: |content| == row.size && PartialBytes(f) <= content && Truthful(content, r)
               ==> Grown(f, row, r) <= content)
            <==> !Misplaced(f, row, r)
  {
    if Misplaced(f, row, r) {
      MisplacedBreaks(f, row, r);
    } else {
      forall content | |content| == row.size && PartialBytes(f) <= content && Truthful(content, r)
        ensures Grown(f, row, r) <= content
      {
        PlacedGrows(content, f, row, r);
      }
    }
  }

  const HALF: seq<byte> := [5, 6, 7, 8, 9]
  const SECOND_HALF := Response(true, 206, Some(Range(5, 9, 10)), NoLength, [HALF], false)

  /** The input: asked for ten bytes from the start, a server sends the second half as a 206 that
      says so. It is written to the start of the partial file. */
  lemma MisplacedExample(sha: Digest, blob: Digest)
    ensures var content: seq<byte> := [0, 1, 2, 3, 4] + HALF;
            var row := Row(10, "", "");
            var left := Acquire(Files(None, None), row, false, SECOND_HALF, sha, blob).0;
            && Truthful(content, SECOND_HALF) && Misplaced(Files(None, None), row, SECOND_HALF)
            && left == Files(None, Some(HALF)) && !Consistent(content, left)
  {
    var content: seq<byte> := [0, 1, 2, 3, 4] + HALF;
    assert Body(SECOND_HALF) == HALF by { OneChunk(HALF); }
    assert content[5..] == HALF;
    assert Takes(SECOND_HALF, 0, 10) && Written(SECOND_HALF, 0, 10) == HALF;
    assert Grown(Files(None, None), Row(10, "", ""), SECOND_HALF) == HALF;
    assert HALF[0] != content[0];
  }

  /** A server that ignores the range of a resumed request and sends everything is refused before a
      byte is written. */
  lemma IgnoredRangeIsRefused(f: Files, row: Row, r: Response, sha: Digest, blob: Digest)
    requires Streams(f, row, false) && 0 < |PartialBytes(f)| < row.size
    requires r.Response? && (r.status != 206 || r.range != Some(Range(|PartialBytes(f)|, row.size - 1, row.size)))
    ensures Acquire(f, row, false, r, sha, blob) == (Files(None, f.partial), Failed(StreamFailed))
  {
    assert f.partial.value + [] == f.partial.value;
  }

  // ---- histories of interrupted and resumed runs ----

  datatype Attempt = Attempt(check: bool, response: Response)

  /** `states[i + 1]` is left by attempt i, run to completion or crashed, from `states[i]`. */
  ghost predicate History(row: Row, attempts: seq<Attempt>, states: seq<Files>, sha: Digest, blob: Digest) {
    && |states| == |attempts| + 1
    && forall i :: 0 <= i < |attempts| ==>
         Leaves(states[i], row, attempts[i].check, attempts[i].response, sha, blob, states[i + 1])
  }

  lemma HistoryPrefix(row: Row, attempts: seq<Attempt>, states: seq<Files>, sha: Digest, blob: Digest)
    requires attempts != [] && History(row, attempts, states, sha, blob)
    ensures var n := |attempts| - 1;
            && History(row, attempts[..n], states[..n + 1], sha, blob)
            && Leaves(states[n], row, attempts[n].check, attempts[n].response, sha, blob, states[n + 1])
  {
  }

  lemma LeavesConsistent(content: seq<byte>, f: Files, row: Row, a: Attempt, left: Files, sha: Digest, blob: Digest)
    requires |content| == row.size && Consistent(content, f)
    requires Truthful(content, a.response) && !Misplaced(f, row, a.response)
    requires Leaves(f, row, a.check, a.response, sha, blob, left)
    ensures Consistent(content, left)
  {
    if Streams(f, row, a.check) {
      PlacedGrows(content, f, row, a.response);
      var all := Grown(f, row, a.response);
      if |all| == |content| { assert all == content; }
      if left.partial.Some? && left.partial.value <= all { assert left.partial.value <= content; }
    }
  }

  /** Over every history of interrupted, crashed and resumed runs against truthful servers, whose
      answers from the start say where their bytes belong, the partial file stays a prefix of the
      immutable content. */
  lemma {:induction false} StaysConsistent(content: seq<byte>, row: Row, attempts: seq<Attempt>, states: seq<Files>, sha: Digest, blob: Digest)
    requires |content| == row.size && History(row, attempts, states, sha, blob)
    requires Consistent(content, states[0])
    requires forall i :: 0 <= i < |attempts| ==>
               Truthful(content, attempts[i].response) && !Misplaced(states[i], row, attempts[i].response)
    ensures Consistent(content, states[|attempts|])
    decreases attempts
  {
    if attempts != [] {
      var n := |attempts| - 1;
      HistoryPrefix(row, attempts, states, sha, blob);
      StaysConsistent(content, row, attempts[..n], states[..n + 1], sha, blob);
      LeavesConsistent(content, states[n], row, attempts[n], states[n + 1], sha, blob);
    }
  }

  /** Whatever such a history, one more run succeeds with the content when a truthful server sends
      everything that is missing. */
  lemma RerunCompletes(content: seq<byte>, row: Row, attempts: seq<Attempt>, states: seq<Files>, r: Response,
                       sha: Digest, blob: Digest)
    requires Authentic(content, row, sha, blob) && History(row, attempts, states, sha, blob)
    requires Consistent(content, states[0])
    requires forall i :: 0 <= i < |attempts| ==>
               Truthful(content, attempts[i].response) && !Misplaced(states[i], row, attempts[i].response)
    requires Truthful(content, r) && !Misplaced(states[|attempts|], row, r)
    requires Completes(r, |PartialBytes(states[|attempts|])|, row.size)
    ensures Acquire(states[|attempts|], row, false, r, sha, blob).1.Done?
    ensures Acquire(states[|attempts|], row, false, r, sha, blob).0 == Files(Some(content), None)
  {
    StaysConsistent(content, row, attempts, states, sha, blob);
    var f := states[|attempts|];
    if f.target.None? {
      PlacedGrows(content, f, row, r);
      assert Grown(f, row, r) == content;
    }
  }

  // ---- what the final name vouches for ----

  /** For LFS rows the final name is authentic in every history, whatever servers send. */
  lemma {:induction false} LfsTargetAlwaysAuthentic(row: Row, attempts: seq<Attempt>, states: seq<Files>, sha: Digest, blob: Digest)
    requires ExpectedSha(row).Lfs? && History(row, attempts, states, sha, blob)
    requires states[0].target.Some? ==> sha(states[0].target.value) == ExpectedSha(row).sha
    ensures var f := states[|attempts|];
            f.target.Some? ==> sha(f.target.value) == ExpectedSha(row).sha
    decreases attempts
  {
    if attempts != [] {
      HistoryPrefix(row, attempts, states, sha, blob);
      LfsTargetAlwaysAuthentic(row, attempts[..|attempts| - 1], states[..|attempts|], sha, blob);
    }
  }

  /** For the other rows the rename comes first: a complete response, to a new or a resumed request,
      makes the final name appear whether or not it is authentic, and the run succeeds exactly when
      it is. */
  lemma GitRowsRenameFirst(f: Files, row: Row, r: Response, sha: Digest, blob: Digest)
    requires ExpectedSha(row).NoLfs? && Streams(f, row, false) && Completes(r, |PartialBytes(f)|, row.size)
    ensures var (left, result) := Acquire(f, row, false, r, sha, blob);
            && left == Files(Some(Grown(f, row, r)), None)
            && (result.Done? <==> Authentic(Grown(f, row, r), row, sha, blob))
  {
  }

  // ---- from where a run can still succeed ----

  /** The files hold the authentic content, or a partial file that some authentic content extends. */
  ghost predicate Recoverable(f: Files, row: Row, sha: Digest, blob: Digest) {
    if f.target.Some? then f.partial.None? && Authentic(f.target.value, row, sha, blob)
    else Extends(PartialBytes(f), row, sha, blob)
  }

  ghost predicate Extends(p: seq<byte>, row: Row, sha: Digest, blob: Digest) {
    exists data :: p <= data && Authentic(data, row, sha, blob)
  }

  lemma ShorterExtends(p: seq<byte>, q: seq<byte>, row: Row, sha: Digest, blob: Digest)
    requires p <= q && Extends(q, row, sha, blob)
    ensures Extends(p, row, sha, blob)
  {
    var data :| q <= data && Authentic(data, row, sha, blob);
    assert p <= data;
  }

  /** A response to the request for what is missing, carrying exactly the rest of the data. */
  function Answer(data: seq<byte>, offset: nat): Response
    requires offset <= |data|
  {
    var chunks: seq<Chunk> := if offset == |data| then [] else [data[offset..]];
    Response(true, if offset > 0 then 206 else 200, Some(Range(offset, |data| - 1, |data|)), NoLength, chunks, false)
  }

  lemma AnswerCompletes(f: Files, row: Row, data: seq<byte>)
    requires |data| == row.size && PartialBytes(f) <= data
    ensures var r := Answer(data, |PartialBytes(f)|);
            Completes(r, |PartialBytes(f)|, row.size) && Grown(f, row, r) == data
  {
    var had := PartialBytes(f);
    var r := Answer(data, |had|);
    if |had| < |data| {
      assert Body(r) == data[|had|..] by { OneChunk(data[|had|..]); }
    }
    assert had + data[|had|..] == data;
  }

  /** Some run, with some response, succeeds from the files exactly when they are recoverable. */
  lemma RecoverableExactly(f: Files, row: Row, sha: Digest, blob: Digest)
    ensures Recoverable(f, row, sha, blob) <==> exists check, r :: Acquire(f, row, check, r, sha, blob).1.Done?
  {
    if Recoverable(f, row, sha, blob) {
      if f.target.Some? {
        assert Acquire(f, row, false, NoResponse, sha, blob).1.Done?;
      } else {
        var data :| PartialBytes(f) <= data && Authentic(data, row, sha, blob);
        AnswerCompletes(f, row, data);
        assert Acquire(f, row, false, Answer(data, |PartialBytes(f)|), sha, blob).1.Done?;
      }
    }
    if exists check, r :: Acquire(f, row, check, r, sha, blob).1.Done? {
      var check, r :| Acquire(f, row, check, r, sha, blob).1.Done?;
      SuccessIsAuthentic(f, row, check, r, sha, blob);
    }
  }

  lemma StaysLost(f: Files, row: Row, a: Attempt, left: Files, sha: Digest, blob: Digest)
    requires !Recoverable(f, row, sha, blob) && Leaves(f, row, a.check, a.response, sha, blob, left)
    ensures !Recoverable(left, row, sha, blob)
  {
    if left != f && Extends(PartialBytes(left), row, sha, blob) && PartialBytes(f) <= PartialBytes(left) {
      ShorterExtends(PartialBytes(f), PartialBytes(left), row, sha, blob);
    }
  }

  /** What is not recoverable stays so: every later run of every history fails. */
  lemma {:induction false} LostForever(row: Row, attempts: seq<Attempt>, states: seq<Files>, sha: Digest, blob: Digest)
    requires History(row, attempts, states, sha, blob) && !Recoverable(states[0], row, sha, blob)
    ensures !Recoverable(states[|attempts|], row, sha, blob)
    ensures forall check, r :: Acquire(states[|attempts|], row, check, r, sha, blob).1.Failed?
    decreases attempts
  {
    if attempts != [] {
      var n := |attempts| - 1;
      HistoryPrefix(row, attempts, states, sha, blob);
      LostForever(row, attempts[..n], states[..n + 1], sha, blob);
      StaysLost(states[n], row, attempts[n], states[n + 1], sha, blob);
    }
    RecoverableExactly(states[|attempts|], row, sha, blob);
  }

  /** A final file that is not authentic is never repaired: every later attempt, in any
      history, fails and leaves it in place. */
  lemma {:induction false} BadTargetIsPermanent(row: Row, attempts: seq<Attempt>, states: seq<Files>, sha: Digest, blob: Digest)
    requires History(row, attempts, states, sha, blob)
    requires states[0].target.Some? && !Authentic(states[0].target.value, row, sha, blob)
    ensures states[|attempts|] == states[0]
    ensures forall check, r :: Acquire(states[|attempts|], row, check, r, sha, blob).1.Failed?
    decreases attempts
  {
    if attempts != [] {
      HistoryPrefix(row, attempts, states, sha, blob);
      BadTargetIsPermanent(row, attempts[..|attempts| - 1], states[..|attempts|], sha, blob);
    }
  }

  /** A complete partial file of an LFS row with a wrong digest is never repaired either: nothing is
      requested any more, every run fails with the mismatch, and the file stays. */
  lemma {:induction false} BadPartialIsPermanent(row: Row, attempts: seq<Attempt>, states: seq<Files>, sha: Digest, blob: Digest)
    requires History(row, attempts, states, sha, blob) && ExpectedSha(row).Lfs?
    requires states[0].target.None? && states[0].partial.Some? && |states[0].partial.value| == row.size
    requires sha(states[0].partial.value) != ExpectedSha(row).sha
    ensures states[|attempts|] == states[0]
    ensures forall r :: Acquire(states[|attempts|], row, false, r, sha, blob) == (states[0], Failed(ShaMismatch))
    decreases attempts
  {
    if attempts != [] {
      HistoryPrefix(row, attempts, states, sha, blob);
      BadPartialIsPermanent(row, attempts[..|attempts| - 1], states[..|attempts|], sha, blob);
    }
    assert states[0].partial.value + [] == states[0].partial.value;
    assert forall x: seq<byte> :: Torn(states[0].partial.value, [], x) ==> x == states[0].partial.value;
  }
}
