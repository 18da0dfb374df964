/** Content hash of a WAV file: a cursor walks the RIFF chunks and feeds the hash the body of
    the first `data` chunk. SHA-256 is a function parameter, applied to the fed bytes. */
module RiffWalk {
  type Byte = x: int | 0 <= x < 256

  const RIFF: seq<Byte> := [0x52, 0x49, 0x46, 0x46]
  const WAVE: seq<Byte> := [0x57, 0x41, 0x56, 0x45]
  const DATA: seq<Byte> := [0x64, 0x61, 0x74, 0x61]

  // ---------------------------------------------------------------- the file and the hash

  /** A binary file opened for reading. The cursor may pass the end. */
  class Reader {
    const file: seq<Byte>
    var pos: nat

    constructor (file: seq<Byte>)
      ensures this.file == file && pos == 0
    {
      this.file := file;
      pos := 0;
    }

    method Read(n: nat) returns (chunk: seq<Byte>)
      modifies this
      ensures chunk == Slice(file, old(pos), n)
      ensures pos == old(pos) + |chunk|
    {
      chunk := Slice(file, pos, n);
      pos := pos + |chunk|;
    }

    method SeekStart()
      modifies this
      ensures pos == 0
    {
      pos := 0;
    }

    method SeekForward(n: nat)
      modifies this
      ensures pos == old(pos) + n
    {
      pos := pos + n;
    }
  }

  /** A running hash, seen as the bytes fed to it so far. */
  class Hasher {
    var fed: seq<Byte>

    constructor ()
      ensures fed == []
    {
      fed := [];
    }

    method Update(block: seq<Byte>)
      modifies this
      ensures fed == old(fed) + block
    {
      fed := fed + block;
    }
  }

  /** At most `n` bytes from `pos`, fewer at the end of the file. */
  function Slice(s: seq<Byte>, pos: nat, n: nat): (r: seq<Byte>)
    ensures |r| == if pos >= |s| then 0 else if n <= |s| - pos then n else |s| - pos
    ensures pos <= |s| ==> r <= s[pos..]
  {
    if pos >= |s| then [] else if n <= |s| - pos then s[pos..pos + n] else s[pos..]
  }

  /** Two reads in a row are one longer read. */
  lemma SliceJoins(s: seq<Byte>, pos: nat, n: nat, m: nat)
    requires pos + n <= |s| || n == 0
    ensures Slice(s, pos, n) + Slice(s, pos + n, m) == Slice(s, pos, n + m)
  {
  }

  function LittleEndian(b: seq<Byte>): nat {
    if b == [] then 0 else (b[0] as int) + 0x100 * LittleEndian(b[1..])
  }

  // ---------------------------------------------------------------- what is fed

  predicate IsWave(file: seq<Byte>) {
    |file| >= 12 && file[..4] == RIFF && file[8..12] == WAVE
  }

  function SizeAt(file: seq<Byte>, pos: nat): nat
    requires pos + 8 <= |file|
  {
    LittleEndian(file[pos + 4..pos + 8])
  }

  predicate DataAt(file: seq<Byte>, pos: nat)
    requires pos + 8 <= |file|
  {
    file[pos..pos + 4] == DATA
  }

  /** Where the chunk after the one at `pos` starts: the body is padded to an even length. */
  function NextChunk(file: seq<Byte>, pos: nat): (next: nat)
    requires pos + 8 <= |file|
    ensures next >= pos + 8
  {
    pos + 8 + SizeAt(file, pos) + SizeAt(file, pos) % 2
  }

  function WalkFed(file: seq<Byte>, pos: nat): (fed: seq<Byte>)
    decreases |file| - pos
  {
    if pos + 8 > |file| then []
    else if DataAt(file, pos) then Slice(file, pos + 8, SizeAt(file, pos))
    else WalkFed(file, NextChunk(file, pos))
  }

  function Fed(file: seq<Byte>): seq<Byte> {
    if IsWave(file) then WalkFed(file, 12) else file
  }

  // ---------------------------------------------------------------- the code

  /** `while chunk := fp.read(block)`: feed everything from the cursor to the end. */
  method FeedAll(fp: Reader, h: Hasher, block: nat)
    requires block >= 1
    modifies fp, h
    ensures h.fed == old(h.fed) + Slice(fp.file, old(fp.pos), |fp.file|)
  {
    ghost var start := fp.pos;
    var chunk := fp.Read(block);
    while chunk != []
      invariant fp.pos <= |fp.file| || (fp.pos == start && chunk == [])
      invariant |chunk| <= fp.pos - start
      invariant chunk == [] ==> fp.pos >= |fp.file|
      invariant h.fed + chunk == old(h.fed) + Slice(fp.file, start, fp.pos - start)
      decreases |fp.file| - fp.pos, |chunk|
    {
      ghost var before, was := fp.pos, h.fed + chunk;
      h.Update(chunk);
      chunk := fp.Read(block);
      assert Slice(fp.file, start, fp.pos - start) == Slice(fp.file, start, before - start) + chunk;
      assert h.fed + chunk == was + chunk;
    }
    assert h.fed + [] == h.fed;
    assert Slice(fp.file, start, fp.pos - start) == Slice(fp.file, start, |fp.file|);
  }

  /** Feed exactly `size` bytes from the cursor, or what the file still has. */
  method FeedBody(fp: Reader, h: Hasher, size: nat, block: nat)
    requires block >= 1
    modifies fp, h
    ensures h.fed == old(h.fed) + Slice(fp.file, old(fp.pos), size)
  {
    ghost var start, fed := fp.pos, h.fed;
    var remaining: nat := size;
    assert fed + Slice(fp.file, start, 0) == fed;
    while remaining > 0
      invariant remaining <= size && fp.pos == start + (size - remaining)
      invariant size == remaining || fp.pos <= |fp.file|
      invariant h.fed == fed + Slice(fp.file, start, size - remaining)
    {
      var chunk := fp.Read(if block < remaining then block else remaining);
      if chunk == [] {
        NothingLeft(fp.file, start, size - remaining, size);
        return;
      }
      FedMore(fed, fp.file, start, size - remaining, chunk);
      h.Update(chunk);
      remaining := remaining - |chunk|;
    }
  }

  lemma FedMore(fed: seq<Byte>, file: seq<Byte>, start: nat, n: nat, chunk: seq<Byte>)
    requires (start + n <= |file| || n == 0) && chunk == Slice(file, start + n, |chunk|)
    ensures fed + Slice(file, start, n) + chunk == fed + Slice(file, start, n + |chunk|)
  {
    SliceJoins(file, start, n, |chunk|);
    InTurn(fed, Slice(file, start, n), chunk);
  }

  lemma InTurn(a: seq<Byte>, b: seq<Byte>, c: seq<Byte>)
    ensures a + b + c == a + (b + c)
  {
  }

  lemma NothingLeft(file: seq<Byte>, start: nat, n: nat, size: nat)
    requires n <= size && start + n >= |file|
    ensures Slice(file, start, n) == Slice(file, start, size)
  {
  }

  /** Walk the chunks from the cursor and feed the first `data` body, if there is one. */
  method FeedFirstData(fp: Reader, h: Hasher, block: nat)
    requires block >= 1
    modifies fp, h
    ensures h.fed == old(h.fed) + WalkFed(fp.file, old(fp.pos))
  {
    ghost var start, fed := fp.pos, h.fed;
    while true
      invariant h.fed == fed
      invariant WalkFed(fp.file, fp.pos) == WalkFed(fp.file, start)
      decreases |fp.file| - fp.pos
    {
      ghost var pos := fp.pos;
      var header := fp.Read(8);
      if |header| < 8 {
        break;
      }
      HeaderFields(fp.file, pos, header);
      var size := LittleEndian(header[4..8]);
      if header[..4] == DATA {
        FeedBody(fp, h, size, block);
        return;
      }
      fp.SeekForward(size + size % 2);
      assert fp.pos == NextChunk(fp.file, pos);
    }
    assert WalkFed(fp.file, start) == [];
  }

  lemma HeaderFields(file: seq<Byte>, pos: nat, header: seq<Byte>)
    requires header == Slice(file, pos, 8) && |header| == 8
    ensures pos + 8 <= |file| && header[..4] == file[pos..pos + 4] && header[4..8] == file[pos + 4..pos + 8]
  {
  }

  /** The digest is SHA-256 of `Fed(file)` for every file and every block size. */
  method Sha256WavPcm(file: seq<Byte>, block: nat, sha256: seq<Byte> -> string) returns (digest: string)
    requires block >= 1
    ensures digest == sha256(Fed(file))
  {
    var h := new Hasher();
    var fp := new Reader(file);
    var riff := fp.Read(12);
    if |riff| < 12 || riff[..4] != RIFF || riff[8..12] != WAVE {
      fp.SeekStart();
      FeedAll(fp, h, block);
      assert h.fed == file;
    } else {
      FeedFirstData(fp, h, block);
      assert h.fed == WalkFed(file, 12);
    }
    digest := sha256(h.fed);
  }

  method Sha256File(file: seq<Byte>, block: nat, sha256: seq<Byte> -> string) returns (digest: string)
    requires block >= 1
    ensures digest == sha256(file)
  {
    var h := new Hasher();
    var fp := new Reader(file);
    FeedAll(fp, h, block);
    assert h.fed == file;
    digest := sha256(h.fed);
  }

  // ---------------------------------------------------------------- the format, independently

  /** A chunk that is not `data`: identifier, encoded size, body of that size, and a pad byte
      of any value when the size is odd. */
  datatype Chunk = Chunk(id: seq<Byte>, size: seq<Byte>, body: seq<Byte>, pad: seq<Byte>) {
    predicate Valid() {
      && |id| == |size| == 4 && id != DATA
      && LittleEndian(size) == |body|
      && |pad| == |body| % 2
    }
  }

  /** `n` as four bytes, the inverse of `LittleEndian`. */
  function Le4(n: nat): (b: seq<Byte>)
    requires n < 0x1_0000_0000
    ensures |b| == 4 && LittleEndian(b) == n
  {
    var n1 := n / 0x100;
    var n2 := n1 / 0x100;
    var b: seq<Byte> := [n % 0x100, n1 % 0x100, n2 % 0x100, n2 / 0x100];
    assert b[1..][1..][1..] == [n2 / 0x100] && b[1..][1..][1..][1..] == [];
    assert LittleEndian(b[1..][1..][1..]) == n2 / 0x100;
    assert LittleEndian(b[1..][1..]) == n2;
    assert LittleEndian(b[1..]) == n1;
    b
  }

  /** Least significant byte first. */
  lemma Le4IsLittleEndian(n: nat)
    requires n < 0x1_0000_0000
    ensures Le4(n)[0] as int == n % 0x100 && Le4(n)[1] as int == n / 0x100 % 0x100
    ensures Le4(n)[2] as int == n / 0x1_0000 % 0x100 && Le4(n)[3] as int == n / 0x100_0000
    ensures n == Le4(n)[0] as int + 0x100 * Le4(n)[1] as int + 0x1_0000 * Le4(n)[2] as int + 0x100_0000 * Le4(n)[3] as int
  {
  }

  /** The size read at a position, from its four bytes. */
  lemma SizeAtIsLittleEndian(file: seq<Byte>, pos: nat)
    requires pos + 8 <= |file|
    ensures SizeAt(file, pos) == file[pos + 4] as int + 0x100 * file[pos + 5] as int
                                 + 0x1_0000 * file[pos + 6] as int + 0x100_0000 * file[pos + 7] as int
  {
    var b := file[pos + 4..pos + 8];
    assert b[1..][1..][1..][1..] == [];
    assert LittleEndian(b[1..][1..][1..]) == b[3] as int;
    assert LittleEndian(b[1..][1..]) == b[2] as int + 0x100 * LittleEndian(b[1..][1..][1..]);
    assert LittleEndian(b[1..]) == b[1] as int + 0x100 * LittleEndian(b[1..][1..]);
  }

  predicate AllValid(cs: seq<Chunk>) {
    forall c :: c in cs ==> c.Valid()
  }

  function Print(c: Chunk): seq<Byte>
    requires c.Valid()
  {
    c.id + c.size + c.body + c.pad
  }

  function PrintAll(cs: seq<Chunk>): seq<Byte>
    requires AllValid(cs)
  {
    if cs == [] then [] else Print(cs[0]) + PrintAll(cs[1..])
  }

  /** A WAV file: header, chunks, then `rest` (a data chunk, or whatever ends the walk). */
  function PrintWave(riffSize: seq<Byte>, cs: seq<Chunk>, rest: seq<Byte>): seq<Byte>
    requires |riffSize| == 4 && AllValid(cs)
  {
    RIFF + riffSize + WAVE + PrintAll(cs) + rest
  }

  /** No whole non-data chunk starts here: too short, a data chunk, or a chunk whose padded
      body runs past the end. */
  predicate Stops(rest: seq<Byte>) {
    |rest| >= 8 && !DataAt(rest, 0) ==> NextChunk(rest, 0) > |rest|
  }

  function Payload(rest: seq<Byte>): seq<Byte> {
    if |rest| >= 8 && DataAt(rest, 0) then Slice(rest, 8, SizeAt(rest, 0)) else []
  }

  predicate WholeChunk(s: seq<Byte>) {
    |s| >= 8 && !DataAt(s, 0) && NextChunk(s, 0) <= |s|
  }

  /** The chunk at the front; printing it gives back the bytes it was cut from. */
  function Cut(s: seq<Byte>): (c: Chunk)
    requires WholeChunk(s)
    ensures c.Valid() && Print(c) == s[..NextChunk(s, 0)]
  {
    var size, next := SizeAt(s, 0), NextChunk(s, 0);
    assert s[..next] == s[..4] + s[4..8] + s[8..8 + size] + s[8 + size..next];
    Chunk(s[..4], s[4..8], s[8..8 + size], s[8 + size..next])
  }

  /** The chunks a walk skips, and what it stops at. */
  function Split(s: seq<Byte>): (r: (seq<Chunk>, seq<Byte>))
    ensures AllValid(r.0) && Stops(r.1)
  {
    if !WholeChunk(s) then ([], s)
    else
      var r := Split(s[NextChunk(s, 0)..]);
      ([Cut(s)] + r.0, r.1)
  }

  // ---------------------------------------------------------------- main results

  /** Any metadata chunks before, any bytes after: exactly the data chunk's payload is fed. */
  lemma FedIsFirstDataPayload(riffSize: seq<Byte>, cs: seq<Chunk>, pcm: seq<Byte>, after: seq<Byte>)
    requires |riffSize| == 4 && AllValid(cs) && |pcm| < 0x1_0000_0000
    ensures Fed(PrintWave(riffSize, cs, DATA + Le4(|pcm|) + pcm + after)) == pcm
  {
    var rest := DATA + Le4(|pcm|) + pcm + after;
    FedOfPrinted(riffSize, cs, rest);
    assert rest[0..4] == DATA && rest[4..8] == Le4(|pcm|) && rest[8..8 + |pcm|] == pcm;
  }

  /** Two files with the same samples and different metadata have the same digest. */
  lemma DigestIgnoresMetadata(rs1: seq<Byte>, rs2: seq<Byte>, cs1: seq<Chunk>, cs2: seq<Chunk>, pcm: seq<Byte>,
                              after1: seq<Byte>, after2: seq<Byte>, sha256: seq<Byte> -> string)
    requires |rs1| == |rs2| == 4 && AllValid(cs1) && AllValid(cs2)
    requires |pcm| < 0x1_0000_0000
    ensures var data := DATA + Le4(|pcm|) + pcm;
      sha256(Fed(PrintWave(rs1, cs1, data + after1))) == sha256(Fed(PrintWave(rs2, cs2, data + after2)))
  {
    FedIsFirstDataPayload(rs1, cs1, pcm, after1);
    FedIsFirstDataPayload(rs2, cs2, pcm, after2);
  }

  /** Every WAVE file, truncated or lying, is a printed one: splitting and printing are
      inverse, and the walk feeds the payload of what the split stops at. */
  lemma EveryWaveIsPrinted(file: seq<Byte>)
    requires |file| >= 12 && file[..4] == RIFF && file[8..12] == WAVE
    ensures var r := Split(file[12..]);
      && file == PrintWave(file[4..8], r.0, r.1)
      && Fed(file) == Payload(r.1)
  {
    var r := Split(file[12..]);
    PrintOfSplit(file[12..]);
    assert file == file[..4] + file[4..8] + file[8..12] + file[12..];
    assert file == PrintWave(file[4..8], r.0, r.1);
    FedOfPrinted(file[4..8], r.0, r.1);
  }

  /** The split is the only one: printed chunks come back, whatever stops the walk. */
  lemma {:induction false} SplitOfPrint(cs: seq<Chunk>, rest: seq<Byte>)
    requires AllValid(cs) && Stops(rest)
    ensures Split(PrintAll(cs) + rest) == (cs, rest)
  {
    if cs == [] {
      assert PrintAll(cs) + rest == rest;
    } else {
      SplitOfPrint(cs[1..], rest);
      assert cs == [cs[0]] + cs[1..];
      PrintCons(cs[0], cs[1..], rest);
      CutOfPrint(PrintAll(cs) + rest, cs[0], PrintAll(cs[1..]) + rest);
    }
  }

  /** On arbitrary bytes: the whole file, or one contiguous slice behind the header. */
  lemma {:induction false} FedIsContiguous(file: seq<Byte>)
    ensures if |file| >= 12 && file[..4] == RIFF && file[8..12] == WAVE
            then exists a, b :: 12 <= a <= b <= |file| && Fed(file) == file[a..b]
            else Fed(file) == file
  {
    if IsWave(file) {
      WalkIsContiguous(file, 12);
    }
  }

  // ---------------------------------------------------------------- supporting lemmas

  lemma {:induction false} WalkIsContiguous(file: seq<Byte>, pos: nat)
    requires 12 <= pos && |file| >= 12
    ensures exists a, b :: 12 <= a <= b <= |file| && WalkFed(file, pos) == file[a..b]
    decreases |file| - pos
  {
    if pos + 8 > |file| {
      assert WalkFed(file, pos) == file[12..12];
    } else if DataAt(file, pos) {
      var fed := WalkFed(file, pos);
      assert fed == file[pos + 8..pos + 8 + |fed|];
    } else {
      WalkIsContiguous(file, NextChunk(file, pos));
    }
  }

  lemma {:induction false} PrintOfSplit(s: seq<Byte>)
    ensures PrintAll(Split(s).0) + Split(s).1 == s
    decreases |s|
  {
    if WholeChunk(s) {
      var tail := s[NextChunk(s, 0)..];
      PrintOfSplit(tail);
      PrintCons(Cut(s), Split(tail).0, Split(tail).1);
      PrintOfCut(s);
    } else {
      assert PrintAll([]) + s == s;
    }
  }

  lemma PrintOfCut(s: seq<Byte>)
    requires WholeChunk(s)
    ensures Cut(s).Valid() && Print(Cut(s)) + s[NextChunk(s, 0)..] == s
  {
    assert s == s[..NextChunk(s, 0)] + s[NextChunk(s, 0)..];
  }

  /** A printed chunk at the front is cut off again exactly. */
  lemma CutOfPrint(s: seq<Byte>, c: Chunk, tail: seq<Byte>)
    requires c.Valid() && s == Print(c) + tail
    ensures WholeChunk(s) && Cut(s) == c && s[NextChunk(s, 0)..] == tail
  {
    assert s[..4] == s[0..4] == c.id && s[4..8] == c.size;
    assert s[8..8 + |c.body|] == c.body;
    assert s[8 + |c.body|..|Print(c)|] == c.pad;
    assert s[|Print(c)|..] == tail;
  }

  lemma PrintCons(c: Chunk, cs: seq<Chunk>, rest: seq<Byte>)
    requires c.Valid() && AllValid(cs)
    ensures AllValid([c] + cs) && PrintAll([c] + cs) + rest == Print(c) + (PrintAll(cs) + rest)
  {
  }

  /** The same header, read at `pos` of the file or at the start of its tail. */
  lemma TailHeader(s: seq<Byte>, pos: nat, t: seq<Byte>)
    requires pos + 8 <= |s| && t == s[pos..]
    ensures DataAt(s, pos) == DataAt(t, 0) && SizeAt(s, pos) == SizeAt(t, 0)
    ensures NextChunk(s, pos) == pos + NextChunk(t, 0)
    ensures Slice(s, pos + 8, SizeAt(s, pos)) == Slice(t, 8, SizeAt(t, 0))
    ensures NextChunk(t, 0) <= |t| ==> t[NextChunk(t, 0)..] == s[NextChunk(s, pos)..]
  {
    assert s[pos..pos + 4] == t[0..4] && s[pos + 4..pos + 8] == t[4..8];
  }

  lemma {:induction false} WalkFeedsSplit(s: seq<Byte>, pos: nat)
    requires pos <= |s|
    ensures WalkFed(s, pos) == Payload(Split(s[pos..]).1)
    decreases |s| - pos
  {
    var t := s[pos..];
    if |t| >= 8 {
      TailHeader(s, pos, t);
      if !DataAt(t, 0) && NextChunk(t, 0) <= |t| {
        WalkFeedsSplit(s, NextChunk(s, pos));
      }
    }
  }

  lemma FedOfPrinted(riffSize: seq<Byte>, cs: seq<Chunk>, rest: seq<Byte>)
    requires |riffSize| == 4 && AllValid(cs) && Stops(rest)
    ensures Fed(PrintWave(riffSize, cs, rest)) == Payload(rest)
  {
    var s := PrintWave(riffSize, cs, rest);
    assert s[..4] == RIFF && s[8..12] == WAVE && s[12..] == PrintAll(cs) + rest;
    WalkFeedsSplit(s, 12);
    SplitOfPrint(cs, rest);
  }
}
