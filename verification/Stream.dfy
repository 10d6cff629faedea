// The chunked encrypted stream of internal/cryptox/stream.go and the two places
// that depend on its binding: the evidence vault and the carry-over copy.
//
// Layout of a stored file: "SCE1", the chunk size as a big-endian 32-bit number,
// then frames of nonce(12) followed by the sealed chunk. Position and finality
// of a frame exist only in the additional data it is sealed under.
module CryptoStream {
  import opened Common

  type Bytes = seq<byte>
  type Nonce = b: Bytes | |b| == NONCE_SIZE witness seq(NONCE_SIZE, _ => 0)

  const NONCE_SIZE := 12
  const OVERHEAD := 16
  const KEY_SIZE := 32
  const HEADER_SIZE := 8
  const STREAM_MAGIC: Bytes := [83, 67, 69, 49]
  const MAX_CHUNK_SIZE := 0x80_0000
  const TWO_32 := 0x1_0000_0000
  const TWO_64 := 0x1_0000_0000_0000_0000

  /** AES-256-GCM as an authenticated cipher with additional data (section 2 of RFC 5116):
      seal(key, nonce, plain, aad) and open(key, nonce, ciphertext, aad). */
  datatype Suite = Suite(seal: (Bytes, Bytes, Bytes, Bytes) -> Bytes,
                         open: (Bytes, Bytes, Bytes, Bytes) -> Option<Bytes>)

  /** One file as it was sealed: its additional data, chunk size, nonces and plaintext. */
  datatype File = File(additional: Bytes, chunk: nat, nonces: nat -> Nonce, plain: Bytes)

  datatype StreamError = BadKey | BadHeader | NotAStream | BadChunkSize | EndedEarly
                       | TruncatedChunk | NotAuthentic | ReadFailed | WriteFailed

  datatype Result = Done(total: int, digest: Bytes) | Failed(error: StreamError)

  /** What opening a stream releases to the destination, and how it ends. */
  datatype Opened = Opened(released: Bytes, error: Option<StreamError>)

  // ---------------------------------------------------------------- encoding

  function BigEndian(n: nat, width: nat): (b: Bytes)
    ensures |b| == width
  {
    if width == 0 then [] else BigEndian(n / 256, width - 1) + [n % 256]
  }

  function FromBigEndian(b: Bytes): nat {
    if b == [] then 0 else 256 * FromBigEndian(b[..|b| - 1]) + b[|b| - 1]
  }

  function Pow256(width: nat): (p: nat)
    ensures p > 0
  {
    if width == 0 then 1 else 256 * Pow256(width - 1)
  }

  lemma {:induction false} BigEndianDecodes(n: nat, width: nat)
    requires n < Pow256(width)
    ensures FromBigEndian(BigEndian(n, width)) == n
  {
    if width > 0 {
      BigEndianDecodes(n / 256, width - 1);
      assert BigEndian(n, width)[..width - 1] == BigEndian(n / 256, width - 1);
    }
  }

  lemma {:induction false} BigEndianEncodes(b: Bytes)
    ensures BigEndian(FromBigEndian(b), |b|) == b
    ensures FromBigEndian(b) < Pow256(|b|)
  {
    if b != [] {
      BigEndianEncodes(b[..|b| - 1]);
      assert b == b[..|b| - 1] + [b[|b| - 1]];
    }
  }

  lemma WordSizes()
    ensures Pow256(4) == TWO_32 && Pow256(8) == TWO_64
  {
    assert Pow256(2) == 0x1_0000;
    assert Pow256(4) == 256 * (256 * Pow256(2));
    assert Pow256(6) == 256 * (256 * Pow256(4));
  }

  /** chunkAAD: the caller's context, the 64-bit index of the chunk, the final marker. */
  function ChunkAAD(additional: Bytes, index: nat, final: bool): Bytes {
    additional + BigEndian(index % TWO_64, 8) + [if final then 1 else 0]
  }

  /** Two chunks share their additional data only if they are the same chunk of the same file. */
  lemma ChunkAADInjective(a: Bytes, i: nat, f: bool, b: Bytes, j: nat, g: bool)
    requires ChunkAAD(a, i, f) == ChunkAAD(b, j, g)
    ensures a == b && i % TWO_64 == j % TWO_64 && f == g
  {
    var x, y := ChunkAAD(a, i, f), ChunkAAD(b, j, g);
    assert a == x[..|x| - 9] && b == y[..|y| - 9];
    assert BigEndian(i % TWO_64, 8) == x[|x| - 9..|x| - 1];
    assert BigEndian(j % TWO_64, 8) == y[|y| - 9..|y| - 1];
    assert x[|x| - 1] == if f then 1 else 0;
    WordSizes();
    BigEndianDecodes(i % TWO_64, 8);
    BigEndianDecodes(j % TWO_64, 8);
  }

  /** Positions below 2^64 are told apart. */
  lemma PositionInjective(a: Bytes, i: nat, f: bool, b: Bytes, j: nat, g: bool)
    requires ChunkAAD(a, i, f) == ChunkAAD(b, j, g) && i < TWO_64 && j < TWO_64
    ensures a == b && i == j && f == g
  {
    ChunkAADInjective(a, i, f, b, j, g);
    SmallIndex(i);
    SmallIndex(j);
  }

  lemma SmallIndex(i: nat)
    requires i < TWO_64
    ensures i % TWO_64 == i
  {
  }

  function Header(chunk: nat): (h: Bytes)
    ensures |h| == HEADER_SIZE
  {
    STREAM_MAGIC + BigEndian(chunk, 4)
  }

  predicate IsStream(prefix: Bytes) {
    STREAM_MAGIC <= prefix
  }

  // ----------------------------------------------------------- specification

  function Sealed(suite: Suite, key: Bytes, f: File, plain: Bytes, index: nat, final: bool): Bytes {
    suite.seal(key, f.nonces(index), plain, ChunkAAD(f.additional, index, final))
  }

  /** The frames of `plain`, numbered from `index`; the last one is always shorter than a chunk. */
  function SealFrom(suite: Suite, key: Bytes, f: File, plain: Bytes, index: nat): Bytes
    requires f.chunk > 0
    decreases |plain|
  {
    if |plain| < f.chunk then
      f.nonces(index) + Sealed(suite, key, f, plain, index, true)
    else
      f.nonces(index) + Sealed(suite, key, f, plain[..f.chunk], index, false)
      + SealFrom(suite, key, f, plain[f.chunk..], index + 1)
  }

  function SealedFile(suite: Suite, key: Bytes, f: File): Bytes
    requires f.chunk > 0
  {
    Header(f.chunk) + SealFrom(suite, key, f, f.plain, 0)
  }

  /** Opening the frames in `body` with the chunk size the header announced; `broken` is a source
      that fails where its data ends instead of reporting the end of the file. */
  function OpenFrom(suite: Suite, key: Bytes, additional: Bytes, chunk: nat, body: Bytes, index: nat, broken: bool): Opened
    decreases |body|
  {
    var whole := NONCE_SIZE + chunk + OVERHEAD;
    if |body| < whole && broken then Opened([], Some(ReadFailed))
    else if |body| == 0 then Opened([], Some(EndedEarly))
    else if |body| < NONCE_SIZE then Opened([], Some(TruncatedChunk))
    else
      var final := |body| < whole;
      var n := if final then |body| else whole;
      match suite.open(key, body[..NONCE_SIZE], body[NONCE_SIZE..n], ChunkAAD(additional, index, final))
      case None => Opened([], Some(NotAuthentic))
      case Some(plain) =>
        if final then Opened(plain, None)
        else
          var rest := OpenFrom(suite, key, additional, chunk, body[n..], index + 1, broken);
          Opened(plain + rest.released, rest.error)
  }

  function OpenFile(suite: Suite, key: Bytes, additional: Bytes, stored: Bytes, broken: bool): Opened {
    if |key| != KEY_SIZE then Opened([], Some(BadKey))
    else if |stored| < HEADER_SIZE then Opened([], Some(BadHeader))
    else if !IsStream(stored[..HEADER_SIZE]) then Opened([], Some(NotAStream))
    else
      var chunk := FromBigEndian(stored[|STREAM_MAGIC|..HEADER_SIZE]);
      if chunk == 0 || chunk > MAX_CHUNK_SIZE then Opened([], Some(BadChunkSize))
      else OpenFrom(suite, key, additional, chunk, stored[HEADER_SIZE..], 0, broken)
  }

  // -------------------------------------------------------------- assumptions

  /** Sealing adds the 16-byte tag (section 5.2 of RFC 5116). */
  ghost predicate Tagged(suite: Suite, key: Bytes) {
    forall n, p, a :: |suite.seal(key, n, p, a)| == |p| + OVERHEAD
  }

  /** What was sealed opens to itself. */
  ghost predicate Correct(suite: Suite, key: Bytes) {
    && Tagged(suite, key)
    && (forall n, p, a :: suite.open(key, n, suite.seal(key, n, p, a), a) == Some(p))
  }

  /** (nonce, chunk, aad) is one of the calls to seal made for `plain` from frame `index` on. */
  ghost predicate Logged(f: File, plain: Bytes, index: nat, n: Bytes, chunk: Bytes, a: Bytes)
    requires f.chunk > 0
    decreases |plain|
  {
    if |plain| < f.chunk then
      n == f.nonces(index) && chunk == plain && a == ChunkAAD(f.additional, index, true)
    else
      || (n == f.nonces(index) && chunk == plain[..f.chunk] && a == ChunkAAD(f.additional, index, false))
      || Logged(f, plain[f.chunk..], index + 1, n, chunk, a)
  }

  ghost predicate LoggedIn(files: seq<File>, n: Bytes, chunk: Bytes, a: Bytes)
    requires Wellformed(files)
  {
    exists j :: 0 <= j < |files| && Logged(files[j], files[j].plain, 0, n, chunk, a)
  }

  /** The supported chunk sizes, and file lengths a signed 64-bit integer can hold. */
  ghost predicate Wellformed(files: seq<File>) {
    forall j :: 0 <= j < |files| ==> 0 < files[j].chunk <= MAX_CHUNK_SIZE && |files[j].plain| < TWO_64 / 2
  }

  ghost predicate DistinctContexts(files: seq<File>) {
    forall i, j :: 0 <= i < j < |files| ==> files[i].additional != files[j].additional
  }

  /** The ideal behaviour of an authenticated cipher whose key sealed exactly `files`: a ciphertext
      opens when, and only when, it is a logged frame under its own nonce and additional data. */
  ghost predicate Ideal(suite: Suite, key: Bytes, files: seq<File>) {
    && Tagged(suite, key)
    && Wellformed(files) && DistinctContexts(files)
    && (forall n, c, a, p :: suite.open(key, n, c, a) == Some(p) <==>
          LoggedIn(files, n, p, a) && c == suite.seal(key, n, p, a))
  }

  // --------------------------------------------------------------- round trip

  lemma {:induction false} OpenFromSealFrom(suite: Suite, key: Bytes, f: File, plain: Bytes, index: nat)
    requires Correct(suite, key) && f.chunk > 0
    ensures OpenFrom(suite, key, f.additional, f.chunk, SealFrom(suite, key, f, plain, index), index, false)
         == Opened(plain, None)
    decreases |plain|
  {
    var body := SealFrom(suite, key, f, plain, index);
    var whole := NONCE_SIZE + f.chunk + OVERHEAD;
    assert body[..NONCE_SIZE] == f.nonces(index);
    if |plain| < f.chunk {
      assert body[NONCE_SIZE..] == Sealed(suite, key, f, plain, index, true);
      assert body[NONCE_SIZE..|body|] == body[NONCE_SIZE..];
    } else {
      assert body[NONCE_SIZE..whole] == Sealed(suite, key, f, plain[..f.chunk], index, false);
      assert body[whole..] == SealFrom(suite, key, f, plain[f.chunk..], index + 1);
      OpenFromSealFrom(suite, key, f, plain[f.chunk..], index + 1);
      assert plain[..f.chunk] + plain[f.chunk..] == plain;
    }
  }

  lemma HeaderDecodes(chunk: nat, body: Bytes)
    requires chunk < TWO_32
    ensures var stored := Header(chunk) + body;
            IsStream(stored[..HEADER_SIZE]) && FromBigEndian(stored[|STREAM_MAGIC|..HEADER_SIZE]) == chunk
            && stored[HEADER_SIZE..] == body
  {
    var stored := Header(chunk) + body;
    assert stored[..HEADER_SIZE] == Header(chunk);
    assert stored[|STREAM_MAGIC|..HEADER_SIZE] == BigEndian(chunk, 4);
    WordSizes();
    BigEndianDecodes(chunk, 4);
  }

  /** Every plaintext comes back, whatever its length: empty, an exact multiple of the chunk size
      or anything between. */
  lemma RoundTrip(suite: Suite, key: Bytes, f: File)
    requires Correct(suite, key) && |key| == KEY_SIZE && 0 < f.chunk <= MAX_CHUNK_SIZE
    ensures OpenFile(suite, key, f.additional, SealedFile(suite, key, f), false) == Opened(f.plain, None)
  {
    HeaderDecodes(f.chunk, SealFrom(suite, key, f, f.plain, 0));
    OpenFromSealFrom(suite, key, f, f.plain, 0);
  }

  // --------------------------------------------------------- tamper rejection

  lemma {:induction false} LoggedIndex(f: File, plain: Bytes, index: nat, n: Bytes, chunk: Bytes, a: Bytes)
    requires f.chunk > 0 && Logged(f, plain, index, n, chunk, a)
    ensures exists i: nat, final :: index <= i <= index + |plain| && a == ChunkAAD(f.additional, i, final)
    decreases |plain|
  {
    if |plain| < f.chunk {
      assert a == ChunkAAD(f.additional, index, true);
    } else if a == ChunkAAD(f.additional, index, false) {
    } else {
      LoggedIndex(f, plain[f.chunk..], index + 1, n, chunk, a);
    }
  }

  /** No later chunk of the file is sealed at an earlier position. */
  lemma NotLater(f: File, rest: Bytes, index: nat, n: Bytes, chunk: Bytes, final: bool)
    requires f.chunk > 0 && index + 1 + |rest| < TWO_64
    ensures !Logged(f, rest, index + 1, n, chunk, ChunkAAD(f.additional, index, final))
  {
    var a := ChunkAAD(f.additional, index, final);
    if Logged(f, rest, index + 1, n, chunk, a) {
      LoggedIndex(f, rest, index + 1, n, chunk, a);
      var i: nat, g :| index + 1 <= i <= index + 1 + |rest| && a == ChunkAAD(f.additional, i, g);
      PositionInjective(f.additional, index, final, f.additional, i, g);
    }
  }

  /** Only one chunk is ever sealed at a position of a file. */
  lemma {:induction false} LoggedHead(f: File, plain: Bytes, index: nat, n: Bytes, chunk: Bytes, final: bool)
    requires f.chunk > 0 && index + |plain| < TWO_64
    requires Logged(f, plain, index, n, chunk, ChunkAAD(f.additional, index, final))
    ensures final == (|plain| < f.chunk) && n == f.nonces(index)
    ensures chunk == if final then plain else plain[..f.chunk]
  {
    if |plain| < f.chunk {
      ChunkAADInjective(f.additional, index, final, f.additional, index, true);
    } else {
      NotLater(f, plain[f.chunk..], index, n, chunk, final);
      ChunkAADInjective(f.additional, index, final, f.additional, index, false);
    }
  }

  /** At position i of the file opens what was sealed there, if frame `index` and those behind it hold `plain`. */
  ghost predicate OnlyFrame(suite: Suite, key: Bytes, f: File, plain: Bytes, index: nat, n: Bytes, c: Bytes, i: nat, final: bool, p: Bytes)
    requires f.chunk > 0
  {
    var a := ChunkAAD(f.additional, i, final);
    suite.open(key, n, c, a) == Some(p) <==> Logged(f, plain, index, n, p, a) && c == suite.seal(key, n, p, a)
  }

  /** From frame `index` of the file on, exactly the frames of `plain` open. */
  ghost predicate OnlyFrames(suite: Suite, key: Bytes, f: File, plain: Bytes, index: nat)
    requires f.chunk > 0
  {
    forall n, c, i: nat, final, p :: index <= i < TWO_64 ==> OnlyFrame(suite, key, f, plain, index, n, c, i, final, p)
  }

  lemma OnlyOwnFrames(suite: Suite, key: Bytes, files: seq<File>, j: nat)
    requires j < |files| && Ideal(suite, key, files)
    ensures OnlyFrames(suite, key, files[j], files[j].plain, 0)
  {
    var f := files[j];
    forall n, c, i: nat, final, p | 0 <= i < TWO_64 ensures OnlyFrame(suite, key, f, f.plain, 0, n, c, i, final, p) {
      if LoggedIn(files, n, p, ChunkAAD(f.additional, i, final)) { OwnFrame(files, j, n, i, final, p); }
    }
  }

  /** What any of the files seals at a position of file j is a frame of file j. */
  lemma OwnFrame(files: seq<File>, j: nat, n: Bytes, i: nat, final: bool, p: Bytes)
    requires j < |files| && i < TWO_64 && Wellformed(files) && DistinctContexts(files) && LoggedIn(files, n, p, ChunkAAD(files[j].additional, i, final))
    ensures Logged(files[j], files[j].plain, 0, n, p, ChunkAAD(files[j].additional, i, final))
  {
    var f := files[j];
    var a := ChunkAAD(f.additional, i, final);
    var k :| 0 <= k < |files| && Logged(files[k], files[k].plain, 0, n, p, a);
    LoggedIndex(files[k], files[k].plain, 0, n, p, a);
    var i', final' :| 0 <= i' <= |files[k].plain| && a == ChunkAAD(files[k].additional, i', final');
    ChunkAADInjective(f.additional, i, final, files[k].additional, i', final');
  }

  lemma OnlyFramesOfTail(suite: Suite, key: Bytes, f: File, plain: Bytes, index: nat)
    requires 0 < f.chunk <= |plain| && index + |plain| < TWO_64 && OnlyFrames(suite, key, f, plain, index)
    ensures OnlyFrames(suite, key, f, plain[f.chunk..], index + 1)
  {
    var rest, next := plain[f.chunk..], index + 1;
    forall n, c, i: nat, final, p | next <= i < TWO_64 ensures OnlyFrame(suite, key, f, rest, next, n, c, i, final, p) {
      assert OnlyFrame(suite, key, f, plain, index, n, c, i, final, p);
      if ChunkAAD(f.additional, i, final) == ChunkAAD(f.additional, index, false) {
        PositionInjective(f.additional, i, final, f.additional, index, false);
      }
    }
  }

  /** The header may misstate the chunk size only while the file is one short frame. */
  predicate AcceptedChunk(f: File, plain: Bytes, c: nat) {
    c == f.chunk || (|plain| < f.chunk && |plain| < c)
  }

  lemma SealFromHead(suite: Suite, key: Bytes, f: File, plain: Bytes, index: nat)
    requires Tagged(suite, key) && f.chunk > 0
    ensures var sealed, final := SealFrom(suite, key, f, plain, index), |plain| < f.chunk;
            var head := if final then plain else plain[..f.chunk];
            var n := NONCE_SIZE + |head| + OVERHEAD;
            && n <= |sealed| && (final ==> n == |sealed|)
            && sealed[..NONCE_SIZE] == f.nonces(index)
            && sealed[NONCE_SIZE..n] == Sealed(suite, key, f, head, index, final)
            && (!final ==> sealed[n..] == SealFrom(suite, key, f, plain[f.chunk..], index + 1))
            && Logged(f, plain, index, sealed[..NONCE_SIZE], head, ChunkAAD(f.additional, index, final))
  {
    var sealed, final := SealFrom(suite, key, f, plain, index), |plain| < f.chunk;
    var head := if final then plain else plain[..f.chunk];
    var n := NONCE_SIZE + |head| + OVERHEAD;
    assert sealed[..NONCE_SIZE] == f.nonces(index);
    assert sealed[NONCE_SIZE..n] == Sealed(suite, key, f, head, index, final);
    assert !final ==> sealed[n..] == SealFrom(suite, key, f, plain[f.chunk..], index + 1);
  }

  /** What opens at a position is the frame sealed there. */
  lemma OpensHead(suite: Suite, key: Bytes, f: File, plain: Bytes, index: nat, n: Bytes, c: Bytes, final: bool)
    requires f.chunk > 0 && index + |plain| < TWO_64 && OnlyFrames(suite, key, f, plain, index)
    requires suite.open(key, n, c, ChunkAAD(f.additional, index, final)).Some?
    ensures final == (|plain| < f.chunk) && n == f.nonces(index)
    ensures var head := if final then plain else plain[..f.chunk];
            suite.open(key, n, c, ChunkAAD(f.additional, index, final)) == Some(head)
            && c == Sealed(suite, key, f, head, index, final)
  {
    var p := suite.open(key, n, c, ChunkAAD(f.additional, index, final)).value;
    assert OnlyFrame(suite, key, f, plain, index, n, c, index, final, p);
    LoggedHead(f, plain, index, n, p, final);
  }

  /** Only the sealed frames are accepted, and nothing but the plaintext is ever released. */
  ghost predicate Sound(suite: Suite, key: Bytes, f: File, plain: Bytes, index: nat, body: Bytes, c: nat, broken: bool)
    requires f.chunk > 0
  {
    var r := OpenFrom(suite, key, f.additional, c, body, index, broken);
    && r.released <= plain
    && (r.error.None? ==> r.released == plain && !broken
                          && body == SealFrom(suite, key, f, plain, index) && AcceptedChunk(f, plain, c))
  }

  lemma {:induction false} OpenSound(suite: Suite, key: Bytes, f: File, plain: Bytes, index: nat, body: Bytes, c: nat, broken: bool)
    requires Tagged(suite, key) && f.chunk > 0 && index + |plain| < TWO_64
    requires OnlyFrames(suite, key, f, plain, index)
    ensures Sound(suite, key, f, plain, index, body, c, broken)
    decreases |body|
  {
    var whole := NONCE_SIZE + c + OVERHEAD;
    if NONCE_SIZE <= |body| && !(|body| < whole && broken) {
      var final := |body| < whole;
      var nonce, ct := body[..NONCE_SIZE], body[NONCE_SIZE..if final then |body| else whole];
      if suite.open(key, nonce, ct, ChunkAAD(f.additional, index, final)).Some? {
        OpensHead(suite, key, f, plain, index, nonce, ct, final);
        if final {
          SoundLast(suite, key, f, plain, index, body, c, broken);
        } else {
          assert c == f.chunk;
          OnlyFramesOfTail(suite, key, f, plain, index);
          OpenSound(suite, key, f, plain[c..], index + 1, body[whole..], c, broken);
          SoundStep(suite, key, f, plain, index, body, broken);
        }
      }
    }
  }

  lemma SoundLast(suite: Suite, key: Bytes, f: File, plain: Bytes, index: nat, body: Bytes, c: nat, broken: bool)
    requires Tagged(suite, key) && f.chunk > 0 && NONCE_SIZE <= |body| < NONCE_SIZE + c + OVERHEAD && !broken
    requires |plain| < f.chunk
    requires body[..NONCE_SIZE] == f.nonces(index) && body[NONCE_SIZE..|body|] == Sealed(suite, key, f, plain, index, true)
    requires suite.open(key, body[..NONCE_SIZE], body[NONCE_SIZE..|body|], ChunkAAD(f.additional, index, true)) == Some(plain)
    ensures Sound(suite, key, f, plain, index, body, c, broken)
  {
    assert body == body[..NONCE_SIZE] + body[NONCE_SIZE..|body|];
  }

  lemma SoundStep(suite: Suite, key: Bytes, f: File, plain: Bytes, index: nat, body: Bytes, broken: bool)
    requires Tagged(suite, key) && f.chunk > 0 && |plain| >= f.chunk
    requires var whole := NONCE_SIZE + f.chunk + OVERHEAD;
             && whole <= |body| && body[..NONCE_SIZE] == f.nonces(index)
             && body[NONCE_SIZE..whole] == Sealed(suite, key, f, plain[..f.chunk], index, false)
             && suite.open(key, body[..NONCE_SIZE], body[NONCE_SIZE..whole], ChunkAAD(f.additional, index, false)) == Some(plain[..f.chunk])
             && Sound(suite, key, f, plain[f.chunk..], index + 1, body[whole..], f.chunk, broken)
    ensures Sound(suite, key, f, plain, index, body, f.chunk, broken)
  {
    var whole := NONCE_SIZE + f.chunk + OVERHEAD;
    var head, rest := plain[..f.chunk], plain[f.chunk..];
    var r := OpenFrom(suite, key, f.additional, f.chunk, body[whole..], index + 1, broken);
    assert plain == head + rest;
    Longer(head, r.released, rest);
    if r.error.None? {
      assert body == body[..NONCE_SIZE] + body[NONCE_SIZE..whole] + body[whole..];
    }
  }

  lemma Longer(head: Bytes, part: Bytes, rest: Bytes)
    ensures part <= rest ==> head + part <= head + rest
  {
  }

  /** A frame that opens puts its plaintext before what the rest of the body releases. */
  lemma OpenFrame(suite: Suite, key: Bytes, additional: Bytes, c: nat, body: Bytes, index: nat, head: Bytes, after: Bytes)
    requires |body| >= NONCE_SIZE + c + OVERHEAD
    requires suite.open(key, body[..NONCE_SIZE], body[NONCE_SIZE..NONCE_SIZE + c + OVERHEAD], ChunkAAD(additional, index, false)) == Some(head)
    requires OpenFrom(suite, key, additional, c, body[NONCE_SIZE + c + OVERHEAD..], index + 1, false) == Opened(after, None)
    ensures OpenFrom(suite, key, additional, c, body, index, false) == Opened(head + after, None)
  {
  }

  lemma OpenLastFrame(suite: Suite, key: Bytes, additional: Bytes, c: nat, body: Bytes, index: nat, plain: Bytes)
    requires NONCE_SIZE <= |body| < NONCE_SIZE + c + OVERHEAD
    requires suite.open(key, body[..NONCE_SIZE], body[NONCE_SIZE..|body|], ChunkAAD(additional, index, true)) == Some(plain)
    ensures OpenFrom(suite, key, additional, c, body, index, false) == Opened(plain, None)
  {
  }

  lemma {:induction false} OpenComplete(suite: Suite, key: Bytes, f: File, plain: Bytes, index: nat, c: nat)
    requires Tagged(suite, key) && f.chunk > 0 && index + |plain| < TWO_64
    requires OnlyFrames(suite, key, f, plain, index) && AcceptedChunk(f, plain, c)
    ensures OpenFrom(suite, key, f.additional, c, SealFrom(suite, key, f, plain, index), index, false) == Opened(plain, None)
    decreases |plain|
  {
    var body, final := SealFrom(suite, key, f, plain, index), |plain| < f.chunk;
    var head := if final then plain else plain[..f.chunk];
    SealFromHead(suite, key, f, plain, index);
    assert OnlyFrame(suite, key, f, plain, index, f.nonces(index), Sealed(suite, key, f, head, index, final), index, final, head);
    assert suite.open(key, f.nonces(index), Sealed(suite, key, f, head, index, final), ChunkAAD(f.additional, index, final)) == Some(head);
    if final {
      OpenLastFrame(suite, key, f.additional, c, body, index, plain);
    } else {
      OnlyFramesOfTail(suite, key, f, plain, index);
      OpenComplete(suite, key, f, plain[c..], index + 1, c);
      OpenFrame(suite, key, f.additional, c, body, index, head, plain[c..]);
      assert plain == head + plain[c..];
    }
  }

  /** Files sealed under one key with distinct contexts: whatever bytes are offered under the context
      of file j, they are accepted exactly when they are its own frames behind a header whose chunk
      size is the original one -- or, for a file of a single frame, any supported size above its
      length. Accepted bytes release the plaintext; all others release a prefix of it. */
  lemma TamperRejected(suite: Suite, key: Bytes, files: seq<File>, j: nat, stored: Bytes, broken: bool)
    requires |key| == KEY_SIZE && j < |files| && Ideal(suite, key, files)
    ensures var f, r := files[j], OpenFile(suite, key, files[j].additional, stored, broken);
            && r.released <= f.plain
            && (r.error.None? ==> r.released == f.plain)
            && (r.error.None? <==> !broken && AcceptedFile(suite, key, f, stored))
  {
    var f := files[j];
    OnlyOwnFrames(suite, key, files, j);
    if AcceptedFile(suite, key, f, stored) {
      var c: nat :| 0 < c <= MAX_CHUNK_SIZE && AcceptedChunk(f, f.plain, c)
                    && stored == Header(c) + SealFrom(suite, key, f, f.plain, 0);
      HeaderDecodes(c, SealFrom(suite, key, f, f.plain, 0));
      OpenComplete(suite, key, f, f.plain, 0, c);
    }
    if |stored| >= HEADER_SIZE && IsStream(stored[..HEADER_SIZE]) {
      var size := stored[|STREAM_MAGIC|..HEADER_SIZE];
      var c := FromBigEndian(size);
      BigEndianEncodes(size);
      assert stored[..|STREAM_MAGIC|] == STREAM_MAGIC;
      assert stored == Header(c) + stored[HEADER_SIZE..];
      OpenSound(suite, key, f, f.plain, 0, stored[HEADER_SIZE..], c, broken);
    }
  }

  ghost predicate AcceptedFile(suite: Suite, key: Bytes, f: File, stored: Bytes)
    requires f.chunk > 0
  {
    exists c: nat :: 0 < c <= MAX_CHUNK_SIZE && AcceptedChunk(f, f.plain, c)
                     && stored == Header(c) + SealFrom(suite, key, f, f.plain, 0)
  }

  /** The ideal cipher is not an empty assumption: for any files it can be built over any sealing
      function that adds a tag, by opening exactly what was logged. */
  lemma IdealExists(seal: (Bytes, Bytes, Bytes, Bytes) -> Bytes, key: Bytes, files: seq<File>)
    requires forall n, p, a :: |seal(key, n, p, a)| == |p| + OVERHEAD
    requires Wellformed(files) && DistinctContexts(files)
    ensures exists suite: Suite :: suite.seal == seal && Ideal(suite, key, files)
  {
    var suite := Suite(seal, (k: Bytes, n: Bytes, c: Bytes, a: Bytes) =>
                         if exists p :: LoggedIn(files, n, p, a) && c == seal(key, n, p, a) then
                           var p :| LoggedIn(files, n, p, a) && c == seal(key, n, p, a); Some(p)
                         else None);
    forall n, a, p, q | LoggedIn(files, n, p, a) && LoggedIn(files, n, q, a) && seal(key, n, p, a) == seal(key, n, q, a)
      ensures p == q
    {
      LoggedOnce(files, n, p, q, a);
    }
    assert Ideal(suite, key, files);
  }

  /** Under one context and position there is one chunk. */
  lemma LoggedOnce(files: seq<File>, n: Bytes, p: Bytes, q: Bytes, a: Bytes)
    requires Wellformed(files) && DistinctContexts(files) && LoggedIn(files, n, p, a) && LoggedIn(files, n, q, a)
    ensures p == q
  {
    var i :| 0 <= i < |files| && Logged(files[i], files[i].plain, 0, n, p, a);
    var j :| 0 <= j < |files| && Logged(files[j], files[j].plain, 0, n, q, a);
    LoggedIndex(files[i], files[i].plain, 0, n, p, a);
    LoggedIndex(files[j], files[j].plain, 0, n, q, a);
    var x: nat, f :| x <= |files[i].plain| && a == ChunkAAD(files[i].additional, x, f);
    var y: nat, g :| y <= |files[j].plain| && a == ChunkAAD(files[j].additional, y, g);
    ChunkAADInjective(files[i].additional, x, f, files[j].additional, y, g);
    LoggedUnique(files[i], files[i].plain, 0, n, p, q, a);
  }

  lemma {:induction false} LoggedUnique(f: File, plain: Bytes, index: nat, n: Bytes, p: Bytes, q: Bytes, a: Bytes)
    requires f.chunk > 0 && index + |plain| < TWO_64
    requires Logged(f, plain, index, n, p, a) && Logged(f, plain, index, n, q, a)
    ensures p == q
    decreases |plain|
  {
    if |plain| >= f.chunk {
      if a == ChunkAAD(f.additional, index, false) {
        LoggedHead(f, plain, index, n, p, false);
        LoggedHead(f, plain, index, n, q, false);
      } else {
        LoggedUnique(f, plain[f.chunk..], index + 1, n, p, q, a);
      }
    }
  }

  // ------------------------------------------------------------------- layout

  lemma {:induction false} BigEndianByte(n: nat, width: nat, k: nat)
    requires k < width
    ensures BigEndian(n, width)[k] == n / Pow256(width - 1 - k) % 256
  {
    if k < width - 1 {
      BigEndianByte(n / 256, width - 1, k);
      DivTwice(n, Pow256(width - 2 - k));
    } else {
      assert Pow256(0) == 1;
    }
  }

  lemma DivTwice(n: nat, p: nat)
    requires p > 0
    ensures n / 256 / p == n / (256 * p)
  {
    var q, r := n / 256 / p, n / 256 % p;
    assert n / 256 == q * p + r;
    assert n == 256 * (q * p + r) + n % 256 == (256 * p) * q + (256 * r + n % 256);
    assert 0 <= 256 * r + n % 256 < 256 * p;
    Quotient(n, 256 * p, q, 256 * r + n % 256);
  }

  lemma Quotient(n: nat, d: nat, q: nat, r: nat)
    requires n == d * q + r && r < d
    ensures n / d == q
  {
    if n / d < q { Multiples(d, n / d, q); }
    if n / d > q { Multiples(d, q, n / d); }
  }

  lemma Multiples(d: nat, x: nat, y: nat)
    requires x < y
    ensures d * x + d <= d * y
  {
    var k: nat := y - x - 1;
    assert d * y == d * (x + 1 + k) == d * x + d + d * k;
    assert d * k >= 0;
  }

  /** Most significant byte first. */
  ghost predicate IsBigEndian(b: Bytes, n: nat) {
    forall k :: 0 <= k < |b| ==> b[k] == n / Pow256(|b| - 1 - k) % 256
  }

  lemma InOrder(n: nat, width: nat)
    ensures IsBigEndian(BigEndian(n, width), n)
  {
    var b := BigEndian(n, width);
    forall k | 0 <= k < |b| ensures b[k] == n / Pow256(|b| - 1 - k) % 256 { BigEndianByte(n, width, k); }
  }

  /** Byte for byte: a file begins with "SCE1" and the chunk size in four bytes; a frame is bound to its file's
      context, its number in eight bytes, and a last byte that is 1 in the last frame and 0 in all others. */
  lemma Layout(additional: Bytes, chunk: nat, index: nat, final: bool)
    requires index < TWO_64
    ensures Header(chunk)[..4] == [83, 67, 69, 49] && IsBigEndian(Header(chunk)[4..], chunk)
    ensures var a, n := ChunkAAD(additional, index, final), |additional|;
            |a| == n + 9 && a[..n] == additional && IsBigEndian(a[n..n + 8], index) && a[n + 8] == if final then 1 else 0
  {
    var h, a, n := Header(chunk), ChunkAAD(additional, index, final), |additional|;
    SmallIndex(index);
    assert h[4..] == BigEndian(chunk, 4) && a[n..n + 8] == BigEndian(index, 8);
    InOrder(chunk, 4);
    InOrder(index, 8);
  }

  // ---------------------------------------------------------------- truncation

  /** How frames cut after `cut` bytes end: between two of them, inside a nonce, or inside a chunk. */
  function CutError(chunk: nat, cut: nat): StreamError
    decreases cut
  {
    if cut >= NONCE_SIZE + chunk + OVERHEAD then CutError(chunk, cut - (NONCE_SIZE + chunk + OVERHEAD))
    else if cut == 0 then EndedEarly
    else if cut < NONCE_SIZE then TruncatedChunk
    else NotAuthentic
  }

  /** The plaintext of the frames that are whole. */
  function WholeChunks(chunk: nat, cut: nat): nat
    decreases cut
  {
    if cut >= NONCE_SIZE + chunk + OVERHEAD then chunk + WholeChunks(chunk, cut - (NONCE_SIZE + chunk + OVERHEAD)) else 0
  }

  lemma SealFromSize(suite: Suite, key: Bytes, f: File, plain: Bytes, index: nat)
    requires Tagged(suite, key) && f.chunk > 0
    ensures var whole := NONCE_SIZE + f.chunk + OVERHEAD;
            |SealFrom(suite, key, f, plain, index)| ==
              if |plain| < f.chunk then NONCE_SIZE + |plain| + OVERHEAD else whole + |SealFrom(suite, key, f, plain[f.chunk..], index + 1)|
  {
  }

  ghost predicate EndsAt(suite: Suite, key: Bytes, f: File, plain: Bytes, index: nat, cut: nat)
    requires f.chunk > 0
  {
    var n := WholeChunks(f.chunk, cut);
    && n <= |plain| && cut <= |SealFrom(suite, key, f, plain, index)|
    && OpenFrom(suite, key, f.additional, f.chunk, SealFrom(suite, key, f, plain, index)[..cut], index, false)
       == Opened(plain[..n], Some(CutError(f.chunk, cut)))
  }

  lemma CutMore(suite: Suite, key: Bytes, f: File, plain: Bytes, index: nat, cut: nat)
    requires 0 < f.chunk <= |plain| && NONCE_SIZE + f.chunk + OVERHEAD <= cut <= |SealFrom(suite, key, f, plain, index)|
    requires EndsAt(suite, key, f, plain[f.chunk..], index + 1, cut - (NONCE_SIZE + f.chunk + OVERHEAD))
    requires var whole := NONCE_SIZE + f.chunk + OVERHEAD;
             var r := OpenFrom(suite, key, f.additional, f.chunk, SealFrom(suite, key, f, plain[f.chunk..], index + 1)[..cut - whole], index + 1, false);
             OpenFrom(suite, key, f.additional, f.chunk, SealFrom(suite, key, f, plain, index)[..cut], index, false)
             == Opened(plain[..f.chunk] + r.released, r.error)
    ensures EndsAt(suite, key, f, plain, index, cut)
  {
    var n := WholeChunks(f.chunk, cut - (NONCE_SIZE + f.chunk + OVERHEAD));
    assert plain[..f.chunk + n] == plain[..f.chunk] + plain[f.chunk..][..n];
  }

  /** Cut short anywhere, the frames of a file release the chunks that are whole, and name what is missing. */
  lemma {:induction false} CutFrames(suite: Suite, key: Bytes, f: File, plain: Bytes, index: nat, cut: nat)
    requires Tagged(suite, key) && f.chunk > 0 && index + |plain| < TWO_64 && OnlyFrames(suite, key, f, plain, index)
    requires cut < |SealFrom(suite, key, f, plain, index)|
    ensures EndsAt(suite, key, f, plain, index, cut)
    decreases |plain|
  {
    var whole := NONCE_SIZE + f.chunk + OVERHEAD;
    SealFromSize(suite, key, f, plain, index);
    if cut < whole {
      CutHead(suite, key, f, plain, index, cut);
    } else {
      OnlyFramesOfTail(suite, key, f, plain, index);
      CutFrames(suite, key, f, plain[f.chunk..], index + 1, cut - whole);
      OpensWhole(suite, key, f, plain, index, cut);
      CutMore(suite, key, f, plain, index, cut);
    }
  }

  /** A frame that is cut short does not open. */
  lemma CutHead(suite: Suite, key: Bytes, f: File, plain: Bytes, index: nat, cut: nat)
    requires Tagged(suite, key) && f.chunk > 0 && index + |plain| < TWO_64 && OnlyFrames(suite, key, f, plain, index)
    requires cut < |SealFrom(suite, key, f, plain, index)| && cut < NONCE_SIZE + f.chunk + OVERHEAD
    ensures OpenFrom(suite, key, f.additional, f.chunk, SealFrom(suite, key, f, plain, index)[..cut], index, false)
         == Opened([], Some(if cut == 0 then EndedEarly else if cut < NONCE_SIZE then TruncatedChunk else NotAuthentic))
  {
    SealFromSize(suite, key, f, plain, index);
    var body := SealFrom(suite, key, f, plain, index)[..cut];
    if cut >= NONCE_SIZE {
      var n, c := body[..NONCE_SIZE], body[NONCE_SIZE..|body|];
      if suite.open(key, n, c, ChunkAAD(f.additional, index, true)).Some? { OpensHead(suite, key, f, plain, index, n, c, true); }
    }
  }

  /** The first frame of a longer piece opens to the first chunk. */
  lemma OpensWhole(suite: Suite, key: Bytes, f: File, plain: Bytes, index: nat, cut: nat)
    requires Tagged(suite, key) && 0 < f.chunk <= |plain| && index + |plain| < TWO_64 && OnlyFrames(suite, key, f, plain, index)
    requires NONCE_SIZE + f.chunk + OVERHEAD <= cut <= |SealFrom(suite, key, f, plain, index)|
    ensures var whole := NONCE_SIZE + f.chunk + OVERHEAD;
            var tail := SealFrom(suite, key, f, plain[f.chunk..], index + 1);
            cut - whole <= |tail| &&
            var r := OpenFrom(suite, key, f.additional, f.chunk, tail[..cut - whole], index + 1, false);
            OpenFrom(suite, key, f.additional, f.chunk, SealFrom(suite, key, f, plain, index)[..cut], index, false)
            == Opened(plain[..f.chunk] + r.released, r.error)
  {
    var sealed, whole := SealFrom(suite, key, f, plain, index), NONCE_SIZE + f.chunk + OVERHEAD;
    SealFromSize(suite, key, f, plain, index);
    SealFromHead(suite, key, f, plain, index);
    var head := plain[..f.chunk];
    assert OnlyFrame(suite, key, f, plain, index, f.nonces(index), Sealed(suite, key, f, head, index, false), index, false, head);
    var body := sealed[..cut];
    assert body[..NONCE_SIZE] == sealed[..NONCE_SIZE] && body[NONCE_SIZE..whole] == sealed[NONCE_SIZE..whole];
    assert body[whole..] == sealed[whole..][..cut - whole];
  }

  /** For every file sealed under one key: cut short at any byte, it is refused, the error says where the cut
      fell, and nothing but the whole chunks before it is released. */
  lemma TruncationIsNamed(suite: Suite, key: Bytes, files: seq<File>, j: nat, cut: nat)
    requires |key| == KEY_SIZE && j < |files| && Ideal(suite, key, files)
    requires cut < |SealedFile(suite, key, files[j])|
    ensures var f := files[j];
            var r := OpenFile(suite, key, f.additional, SealedFile(suite, key, f)[..cut], false);
            if cut < HEADER_SIZE then r == Opened([], Some(BadHeader))
            else
              var n := WholeChunks(f.chunk, cut - HEADER_SIZE);
              n <= |f.plain| && r == Opened(f.plain[..n], Some(CutError(f.chunk, cut - HEADER_SIZE)))
  {
    var f := files[j];
    if cut >= HEADER_SIZE {
      OnlyOwnFrames(suite, key, files, j);
      CutFrames(suite, key, f, f.plain, 0, cut - HEADER_SIZE);
      var stored := SealedFile(suite, key, f)[..cut];
      assert stored[..HEADER_SIZE] == Header(f.chunk) && stored[HEADER_SIZE..] == SealFrom(suite, key, f, f.plain, 0)[..cut - HEADER_SIZE];
      assert stored[|STREAM_MAGIC|..HEADER_SIZE] == BigEndian(f.chunk, 4);
      WordSizes();
      BigEndianDecodes(f.chunk, 4);
    }
  }
}
