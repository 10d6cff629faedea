// The loops of internal/cryptox/stream.go over a reader and a writer that can fail,
// the context an evidence file is bound to, and the copy between two keys.
module StreamIO {
  import opened Common
  import opened CryptoStream

  datatype ReadOutcome = Full | UnexpectedEOF | EOF | Broken

  /** A byte source; a broken one ends in an error instead of the end of the file. */
  class Reader {
    const data: Bytes
    const broken: bool
    var pos: nat

    ghost predicate Valid() reads this { pos <= |data| }

    ghost function Rest(): Bytes
      reads this
      requires Valid()
    {
      data[pos..]
    }

    constructor (data: Bytes, broken: bool)
      ensures Valid() && Rest() == data && this.data == data && this.broken == broken
    {
      this.data, this.broken, this.pos := data, broken, 0;
    }

    /** io.ReadFull: n bytes, or everything that is left and why there is no more. */
    method ReadFull(n: nat) returns (got: Bytes, outcome: ReadOutcome)
      requires Valid()
      modifies this
      ensures Valid() && old(Rest()) == got + Rest()
      ensures |old(Rest())| >= n ==> |got| == n && outcome == Full
      ensures |old(Rest())| < n ==> Rest() == [] && outcome == if broken then Broken else if got == [] then EOF else UnexpectedEOF
    {
      var end := Min(pos + n, |data|);
      got := data[pos..end];
      outcome := if |got| == n then Full else if broken then Broken else if got == [] then EOF else UnexpectedEOF;
      pos := end;
    }
  }

  /** A byte sink with room for a number of bytes, or for any number. */
  class Writer {
    var out: Bytes
    var room: Option<nat>

    constructor (room: Option<nat>)
      ensures out == [] && this.room == room
    {
      this.out, this.room := [], room;
    }

    ghost predicate Fits(n: nat) reads this { room.Some? ==> n <= room.value }

    method Write(b: Bytes) returns (ok: bool)
      modifies this
      ensures ok == old(Fits(|b|))
      ensures ok ==> out == old(out) + b && room == (if old(room).None? then None else Some(old(room).value - |b|))
      ensures !ok ==> old(room).Some? && out == old(out) + b[..old(room).value]
    {
      if room.Some? && |b| > room.value {
        out, room := out + b[..room.value], Some(0);
        return false;
      }
      out := out + b;
      room := if room.None? then None else Some(room.value - |b|);
      return true;
    }
  }

  /** One step of the frames of `left`. */
  lemma SealStep(suite: Suite, key: Bytes, f: File, left: Bytes, index: nat)
    requires f.chunk > 0
    ensures var final := |left| < f.chunk;
            SealFrom(suite, key, f, left, index)
            == (f.nonces(index) + Sealed(suite, key, f, if final then left else left[..f.chunk], index, final))
               + if final then [] else SealFrom(suite, key, f, left[f.chunk..], index + 1)
  {
    if |left| < f.chunk {
      var frame := f.nonces(index) + Sealed(suite, key, f, left, index, true);
      assert frame + [] == frame;
    }
  }

  /** SealStream. It succeeds exactly when the key has the right length, the source does not fail and
      everything fits; then the destination holds the sealed file of all that was left to read. */
  method SealStream(dst: Writer, src: Reader, suite: Suite, hash: Bytes -> Bytes, key: Bytes, additional: Bytes,
                    chunk: nat, nonces: nat -> Nonce)
    returns (r: Result)
    requires src.Valid() && 0 < chunk <= MAX_CHUNK_SIZE
    modifies dst, src
    ensures src.Valid()
    ensures var f := File(additional, chunk, nonces, old(src.Rest()));
            && (r.Done? <==> |key| == KEY_SIZE && !src.broken && old(dst.Fits(|SealedFile(suite, key, f)|)))
            && (r.Done? ==> r == Done(|f.plain|, hash(f.plain)) && dst.out == old(dst.out) + SealedFile(suite, key, f))
  {
    if |key| != KEY_SIZE { return Failed(BadKey); }
    var ok := dst.Write(Header(chunk));
    if !ok { return Failed(WriteFailed); }
    ghost var f := File(additional, chunk, nonces, src.Rest());
    ghost var frames := SealFrom(suite, key, f, f.plain, 0);
    assert old(dst.out) + Header(chunk) + frames == old(dst.out) + (Header(chunk) + frames);
    assert |SealedFile(suite, key, f)| == HEADER_SIZE + |frames|;
    r := SealFrames(dst, src, suite, hash, key, additional, chunk, nonces);
  }

  /** One pass of the loop of SealStream: read a chunk and write its frame. */
  method SealNext(dst: Writer, src: Reader, suite: Suite, key: Bytes, ghost f: File, additional: Bytes, chunk: nat, index: nat, nonce: Nonce)
    returns (plain: Bytes, final: bool, error: Option<StreamError>)
    requires src.Valid() && 0 < chunk == f.chunk && additional == f.additional && nonce == f.nonces(index)
    modifies dst, src
    ensures src.Valid() && old(src.Rest()) == plain + src.Rest() && (final ==> src.Rest() == []) && (!final && error.None? ==> plain != [])
    ensures var todo := if final then [] else SealFrom(suite, key, f, src.Rest(), index + 1);
            var whole := SealFrom(suite, key, f, old(src.Rest()), index);
            && (error.None? ==> !(final && src.broken) && dst.out + todo == old(dst.out) + whole)
            && (error.None? ==> old(dst.Fits(|whole|)) == dst.Fits(|todo|))
            && (error.Some? ==> src.broken || !old(dst.Fits(|whole|)))
  {
    ghost var left := src.Rest();
    var outcome;
    plain, outcome := src.ReadFull(chunk);
    final := outcome == EOF || outcome == UnexpectedEOF;
    if outcome == Broken { return plain, final, Some(ReadFailed); }
    assert plain == if final then left else left[..chunk];
    assert src.Rest() == left[|plain|..];
    SealStep(suite, key, f, left, index);
    // A length that is an exact multiple of the chunk size still needs a final marker.
    var ok := WriteChunk(dst, suite, key, if |plain| == 0 && index > 0 && final then [] else plain, additional, index, final, nonce);
    error := if ok then None else Some(WriteFailed);
  }

  /** The loop of SealStream. */
  method SealFrames(dst: Writer, src: Reader, suite: Suite, hash: Bytes -> Bytes, key: Bytes, additional: Bytes,
                    chunk: nat, nonces: nat -> Nonce)
    returns (r: Result)
    requires src.Valid() && chunk > 0
    modifies dst, src
    ensures src.Valid()
    ensures var f := File(additional, chunk, nonces, old(src.Rest()));
            && (r.Done? <==> !src.broken && old(dst.Fits(|SealFrom(suite, key, f, f.plain, 0)|)))
            && (r.Done? ==> r == Done(|f.plain|, hash(f.plain)) && dst.out == old(dst.out) + SealFrom(suite, key, f, f.plain, 0))
  {
    ghost var f := File(additional, chunk, nonces, src.Rest());
    ghost var todo := SealFrom(suite, key, f, f.plain, 0);
    ghost var whole, fits := dst.out + todo, dst.Fits(|todo|);
    var digested: Bytes, total: nat, index: nat, final := [], 0, 0, false;
    while !final
      invariant src.Valid() && f.plain == digested + src.Rest() && total == |digested|
      invariant if final then src.Rest() == [] && todo == [] && !src.broken else todo == SealFrom(suite, key, f, src.Rest(), index)
      invariant whole == dst.out + todo && fits == dst.Fits(|todo|)
      decreases |src.Rest()|, !final
    {
      var plain, error;
      plain, final, error := SealNext(dst, src, suite, key, f, additional, chunk, index, nonces(index));
      if error.Some? { return Failed(error.value); }
      Assoc(digested, plain, src.Rest());
      digested := digested + plain;
      total := total + |plain|;
      index := index + 1;
      todo := if final then [] else SealFrom(suite, key, f, src.Rest(), index);
    }
    assert digested + [] == digested && dst.out + [] == dst.out;
    return Done(total, hash(digested));
  }

  method WriteChunk(dst: Writer, suite: Suite, key: Bytes, plain: Bytes, additional: Bytes, index: nat, final: bool, nonce: Nonce)
    returns (ok: bool)
    modifies dst
    ensures var frame := nonce + suite.seal(key, nonce, plain, ChunkAAD(additional, index, final));
            && ok == old(dst.Fits(|frame|))
            && (ok ==> dst.out == old(dst.out) + frame
                       && dst.room == if old(dst.room).None? then None else Some(old(dst.room).value - |frame|))
  {
    ok := dst.Write(nonce + suite.seal(key, nonce, plain, ChunkAAD(additional, index, final)));
  }

  /** What a method opening a stream may leave behind, given what the specification releases: a prefix
      of it, and with unlimited room exactly what the specification says. */
  ghost predicate Follows(spec: Opened, hash: Bytes -> Bytes, sent: Bytes, unlimited: bool, r: Result) {
    && sent <= spec.released
    && (r.Done? ==> spec.error.None? && sent == spec.released && r == Done(|spec.released|, hash(spec.released)))
    && (unlimited ==> sent == spec.released && spec.error == if r.Done? then None else Some(r.error))
  }

  /** OpenStream. */
  method OpenStream(dst: Writer, src: Reader, suite: Suite, hash: Bytes -> Bytes, key: Bytes, additional: Bytes)
    returns (r: Result, ghost sent: Bytes)
    requires src.Valid()
    modifies dst, src
    ensures src.Valid() && dst.out == old(dst.out) + sent
    ensures Follows(OpenFile(suite, key, additional, old(src.Rest()), src.broken), hash, sent, old(dst.room).None?, r)
  {
    ghost var stored := src.Rest();
    sent := [];
    if |key| != KEY_SIZE { return Failed(BadKey), sent; }
    var header, outcome := src.ReadFull(HEADER_SIZE);
    if outcome != Full { return Failed(BadHeader), sent; }
    assert header == stored[..HEADER_SIZE] && src.Rest() == stored[HEADER_SIZE..];
    if !IsStream(header) { return Failed(NotAStream), sent; }
    assert header[|STREAM_MAGIC|..] == stored[|STREAM_MAGIC|..HEADER_SIZE];
    var chunk := FromBigEndian(header[|STREAM_MAGIC|..]);
    if chunk == 0 || chunk > MAX_CHUNK_SIZE { return Failed(BadChunkSize), sent; }
    r, sent := OpenFrames(dst, src, suite, hash, key, additional, chunk);
  }

  /** One frame of the specification, as the loop reads it. */
  lemma OpenStep(suite: Suite, key: Bytes, additional: Bytes, chunk: nat, body: Bytes, index: nat, broken: bool)
    requires |body| >= NONCE_SIZE + chunk + OVERHEAD || (!broken && |body| >= NONCE_SIZE)
    ensures var final := |body| < NONCE_SIZE + chunk + OVERHEAD;
            var buf := if final then body else body[..NONCE_SIZE + chunk + OVERHEAD];
            var plain := suite.open(key, buf[..NONCE_SIZE], buf[NONCE_SIZE..], ChunkAAD(additional, index, final));
            var rest := if final then Opened([], None)
                        else OpenFrom(suite, key, additional, chunk, body[NONCE_SIZE + chunk + OVERHEAD..], index + 1, broken);
            OpenFrom(suite, key, additional, chunk, body, index, broken)
            == if plain.None? then Opened([], Some(NotAuthentic)) else Opened(plain.value + rest.released, rest.error)
  {
    var final := |body| < NONCE_SIZE + chunk + OVERHEAD;
    var buf := if final then body else body[..NONCE_SIZE + chunk + OVERHEAD];
    assert buf[..NONCE_SIZE] == body[..NONCE_SIZE] && buf[NONCE_SIZE..] == body[NONCE_SIZE..|buf|];
    var plain := suite.open(key, buf[..NONCE_SIZE], buf[NONCE_SIZE..], ChunkAAD(additional, index, final));
    assert plain.Some? && final ==> plain.value + [] == plain.value;
  }

  /** The outcome of opening the rest, after `plain` was already released. */
  function After(plain: Bytes, rest: Opened): Opened {
    Opened(plain + rest.released, rest.error)
  }

  lemma AfterPart(before: Bytes, p: Bytes, more: Bytes, rest: Opened)
    requires more <= rest.released
    ensures p + more <= After(p, rest).released
    ensures before + p + more == before + (p + more)
    ensures more == [] ==> p + more == p && After(p, Opened([], rest.error)) == Opened(p, rest.error)
  {
  }

  lemma AfterAfter(p: Bytes, q: Bytes, rest: Opened)
    ensures After(p, After(q, rest)) == After(p + q, rest)
    ensures forall before: Bytes :: before + p + q == before + (p + q)
  {
    assert p + (q + rest.released) == p + q + rest.released;
  }

  /** One pass of the loop of OpenStream: read a frame, open it, release its plaintext. */
  method OpenNext(dst: Writer, src: Reader, suite: Suite, key: Bytes, additional: Bytes, chunk: nat, index: nat)
    returns (plain: Bytes, final: bool, error: Option<StreamError>, ghost sent: Bytes)
    requires src.Valid()
    modifies dst, src
    ensures src.Valid() && |src.Rest()| <= |old(src.Rest())|
    ensures dst.out == old(dst.out) + sent && (old(dst.room).None? ==> dst.room.None?)
    ensures var spec := OpenFrom(suite, key, additional, chunk, old(src.Rest()), index, src.broken);
            && (error.None? && final ==> sent == plain && spec == Opened(plain, None))
            && (error.None? && !final ==>
                  && sent == plain && |src.Rest()| < |old(src.Rest())|
                  && spec == After(plain, OpenFrom(suite, key, additional, chunk, src.Rest(), index + 1, src.broken)))
            && (error.Some? && old(dst.room).None? ==> sent == [] && spec == Opened([], error))
            && (error.Some? ==> sent <= spec.released)
  {
    ghost var body := src.Rest();
    plain, final, sent := [], false, [];
    var buf, outcome := src.ReadFull(NONCE_SIZE + chunk + OVERHEAD);
    if outcome == EOF { return plain, final, Some(EndedEarly), sent; }
    if outcome == Broken { return plain, final, Some(ReadFailed), sent; }
    if |buf| < NONCE_SIZE { return plain, final, Some(TruncatedChunk), sent; }
    final := outcome == UnexpectedEOF;
    OpenStep(suite, key, additional, chunk, body, index, src.broken);
    assert buf == if final then body else body[..NONCE_SIZE + chunk + OVERHEAD];
    var got := suite.open(key, buf[..NONCE_SIZE], buf[NONCE_SIZE..], ChunkAAD(additional, index, final));
    if got.None? { return plain, final, Some(NotAuthentic), sent; }
    plain := got.value;
    assert src.Rest() == body[|buf|..];
    if |plain| > 0 {
      var ok := dst.Write(plain);
      if !ok {
        sent := plain[..old(dst.room).value];
        return plain, final, Some(WriteFailed), sent;
      }
    }
    return plain, final, None, plain;
  }

  /** The loop of OpenStream. */
  method OpenFrames(dst: Writer, src: Reader, suite: Suite, hash: Bytes -> Bytes, key: Bytes, additional: Bytes, chunk: nat)
    returns (r: Result, ghost sent: Bytes)
    requires src.Valid()
    modifies dst, src
    ensures src.Valid() && dst.out == old(dst.out) + sent
    ensures Follows(OpenFrom(suite, key, additional, chunk, old(src.Rest()), 0, src.broken), hash, sent, old(dst.room).None?, r)
  {
    ghost var spec := OpenFrom(suite, key, additional, chunk, src.Rest(), 0, src.broken);
    ghost var rest := spec;
    var digested: Bytes, total: nat, index: nat, final := [], 0, 0, false;
    assert spec == After([], rest);
    while !final
      invariant src.Valid() && rest == if final then Opened([], None) else OpenFrom(suite, key, additional, chunk, src.Rest(), index, src.broken)
      invariant spec == After(digested, rest)
      invariant total == |digested| && dst.out == old(dst.out) + digested
      invariant old(dst.room).None? ==> dst.room.None?
      decreases |src.Rest()|, !final
    {
      var plain, error;
      ghost var more;
      plain, final, error, more := OpenNext(dst, src, suite, key, additional, chunk, index);
      if error.Some? {
        AfterPart(old(dst.out), digested, more, rest);
        sent := digested + more;
        return Failed(error.value), sent;
      }
      ghost var next := if final then Opened([], None) else OpenFrom(suite, key, additional, chunk, src.Rest(), index + 1, src.broken);
      assert rest == After(plain, next);
      AfterAfter(digested, plain, next);
      digested := digested + plain;
      total := total + |plain|;
      index := index + 1;
      rest := next;
    }
    assert digested + [] == digested;
    sent := digested;
    return Done(total, hash(digested)), sent;
  }

  /** copyEvidenceBytes: one goroutine opens the source into a pipe, and closes the pipe with its error;
      the other seals what comes out of the pipe under the destination's key and context. A source that
      does not open to its end can therefore never become a complete new file. */
  method CopyEvidence(dst: Writer, stored: Bytes, suite: Suite, hash: Bytes -> Bytes, fromKey: Bytes, fromContext: Bytes,
                      toKey: Bytes, toContext: Bytes, chunk: nat, nonces: nat -> Nonce)
    returns (r: Result)
    requires 0 < chunk <= MAX_CHUNK_SIZE
    modifies dst
    ensures var source := OpenFile(suite, fromKey, fromContext, stored, false);
            var copy := File(toContext, chunk, nonces, source.released);
            && (r.Done? ==> source.error.None? && r == Done(|source.released|, hash(source.released))
                            && dst.out == old(dst.out) + SealedFile(suite, toKey, copy))
            && (old(dst.room).None? ==> (r.Done? <==> source.error.None? && |toKey| == KEY_SIZE))
  {
    var pipe := new Writer(None);
    var from := new Reader(stored, false);
    var read, sent := OpenStream(pipe, from, suite, hash, fromKey, fromContext);
    assert pipe.out == sent;
    var src := new Reader(pipe.out, read.Failed?);
    r := SealStream(dst, src, suite, hash, toKey, toContext, chunk, nonces);
  }

  /** A copy that succeeds opens, under its own key and context, to the bytes of the original. */
  lemma CopyPreserves(suite: Suite, fromKey: Bytes, f: File, toKey: Bytes, copy: File)
    requires Correct(suite, fromKey) && Correct(suite, toKey) && |fromKey| == |toKey| == KEY_SIZE
    requires 0 < f.chunk <= MAX_CHUNK_SIZE && 0 < copy.chunk <= MAX_CHUNK_SIZE
    requires copy.plain == OpenFile(suite, fromKey, f.additional, SealedFile(suite, fromKey, f), false).released
    ensures OpenFile(suite, toKey, copy.additional, SealedFile(suite, toKey, copy), false) == Opened(f.plain, None)
  {
    RoundTrip(suite, fromKey, f);
    RoundTrip(suite, toKey, copy);
  }

  // ---------------------------------------------------------- evidence context

  const COLON: byte := 58
  const EVIDENCE_PREFIX: Bytes := [101, 118, 105, 100, 101, 110, 99, 101, COLON]

  /** vault.AAD: "evidence:<id>:<version>". */
  function EvidenceContext(id: Bytes, version: nat): Bytes {
    EVIDENCE_PREFIX + id + [COLON] + Decimal(version)
  }

  /** No two evidence versions share a context, whatever characters their identifiers contain. */
  lemma EvidenceContextInjective(id: Bytes, version: nat, id': Bytes, version': nat)
    requires EvidenceContext(id, version) == EvidenceContext(id', version')
    ensures id == id' && version == version'
  {
    var d, d' := Decimal(version), Decimal(version');
    LastColon(EVIDENCE_PREFIX + id, d, EVIDENCE_PREFIX + id', d');
    DecimalInjective(version, version');
    assert id == (EVIDENCE_PREFIX + id)[|EVIDENCE_PREFIX|..];
    assert id' == (EVIDENCE_PREFIX + id')[|EVIDENCE_PREFIX|..];
  }

  function FromDecimal(d: Bytes): int {
    if d == [] then 0 else 10 * FromDecimal(d[..|d| - 1]) + d[|d| - 1] - 48
  }

  /** "evidence:", the identifier, a colon, and the version in decimal digits. */
  lemma ContextReads(id: Bytes, version: nat) returns (digits: Bytes)
    ensures EvidenceContext(id, version) == [101, 118, 105, 100, 101, 110, 99, 101, 58] + id + [58] + digits
    ensures digits != [] && (forall d :: d in digits ==> 48 <= d < 58) && FromDecimal(digits) == version
  {
    digits := Decimal(version);
    DecimalReads(version);
  }

  lemma {:induction false} DecimalReads(n: nat)
    ensures FromDecimal(Decimal(n)) == n
  {
    var d := Decimal(n);
    if n < 10 {
      assert d[..0] == [];
    } else {
      DecimalReads(n / 10);
      assert d[..|d| - 1] == Decimal(n / 10);
    }
  }

  lemma LastColon(a: Bytes, d: Bytes, b: Bytes, e: Bytes)
    requires a + [COLON] + d == b + [COLON] + e && COLON !in d && COLON !in e
    ensures a == b && d == e
  {
    var x := a + [COLON] + d;
    assert x[|a|] == COLON && x[|b|] == COLON;
    assert forall k :: |a| < k < |x| ==> x[k] == d[k - |a| - 1];
    assert forall k :: |b| < k < |x| ==> x[k] == e[k - |b| - 1];
    assert |a| == |b|;
    assert a == x[..|a|] && b == x[..|b|] && d == x[|a| + 1..] && e == x[|b| + 1..];
  }

  /** The evidence versions stored under one user key meet the condition on contexts that tamper
      rejection needs, as long as (identifier, version) pairs are distinct. */
  lemma VaultContextsDistinct(files: seq<File>, ids: seq<(Bytes, nat)>)
    requires |files| == |ids|
    requires forall i :: 0 <= i < |files| ==> files[i].additional == EvidenceContext(ids[i].0, ids[i].1)
    requires forall i, j :: 0 <= i < j < |ids| ==> ids[i] != ids[j]
    ensures DistinctContexts(files)
  {
    forall i, j | 0 <= i < j < |files| ensures files[i].additional != files[j].additional {
      if files[i].additional == files[j].additional {
        EvidenceContextInjective(ids[i].0, ids[i].1, ids[j].0, ids[j].1);
      }
    }
  }
}
