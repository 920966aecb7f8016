/**
 * Staged blobs (src/import-blob-codec.ts): a header of four magic bytes and the raw length, then a deflate
 * stream. The compressor is a parameter, and all that is assumed of it is `Sound`.
 */
module BlobCodec {
  import opened Wrappers
  import opened Bytes
  import opened Sequences

  const BLOB_CODEC_MAGIC: seq<byte> := [0x53, 0x4c, 0x5a, 0x31]
  const HEADER_BYTES: nat := 8
  const PACK_STREAM_PUSH_BYTES: nat := 64 * 1024
  const TWO_32: nat := 0x1_0000_0000

  // ---- little-endian words ------------------------------------------------------------------------------

  /** `setUint32(at, n, true)`: n modulo 2^32. */
  function U32(n: nat): (s: seq<byte>)
    ensures |s| == 4
  {
    var m := n % TWO_32;
    [(m % 256) as byte, (m / 256 % 256) as byte, (m / 256 / 256 % 256) as byte, (m / 256 / 256 / 256) as byte]
  }

  /** `getUint32(0, true)`. */
  function ReadU32(s: seq<byte>): (n: nat)
    requires |s| >= 4
    ensures n < TWO_32
  {
    s[0] as nat + 256 * (s[1] as nat + 256 * (s[2] as nat + 256 * (s[3] as nat)))
  }

  lemma U32Reads(n: nat, rest: seq<byte>)
    ensures ReadU32(U32(n) + rest) == n % TWO_32
  {
    var m := n % TWO_32;
    var s := U32(n) + rest;
    assert s[0] == U32(n)[0] && s[1] == U32(n)[1] && s[2] == U32(n)[2] && s[3] == U32(n)[3];
    assert m == m % 256 + 256 * (m / 256);
    assert m / 256 == m / 256 % 256 + 256 * (m / 256 / 256);
    assert m / 256 / 256 == m / 256 / 256 % 256 + 256 * (m / 256 / 256 / 256);
  }

  // ---- framing ------------------------------------------------------------------------------------------

  function Frame(entry: seq<byte>): seq<byte> {
    U32(|entry|) + entry
  }

  /** Entries, each after its length. */
  function Frames(entries: seq<seq<byte>>): seq<byte> {
    if entries == [] then [] else Frame(entries[0]) + Frames(entries[1..])
  }

  function TotalLength(entries: seq<seq<byte>>): nat {
    if entries == [] then 0 else 4 + |entries[0]| + TotalLength(entries[1..])
  }

  lemma {:induction false} FramesNext(entries: seq<seq<byte>>, entry: seq<byte>)
    ensures Frames(entries + [entry]) == Frames(entries) + Frame(entry)
    ensures TotalLength(entries + [entry]) == TotalLength(entries) + 4 + |entry|
  {
    if entries == [] {
      assert [] + [entry] == [entry] && [entry][1..] == [];
      assert Frame(entry) + [] == Frame(entry) == [] + Frame(entry);
    } else {
      FramesNext(entries[1..], entry);
      assert (entries + [entry])[1..] == entries[1..] + [entry];
      Regroup(Frame(entries[0]), Frames(entries[1..]), Frame(entry));
    }
  }

  lemma {:induction false} FramesLength(entries: seq<seq<byte>>)
    ensures |Frames(entries)| == TotalLength(entries)
  {
    if entries != [] {
      FramesLength(entries[1..]);
    }
  }

  /** `entries` before what the rest of a batch gave, if it could be read. */
  function Before(entries: seq<seq<byte>>, rest: Option<seq<seq<byte>>>): Option<seq<seq<byte>>> {
    match rest case None => None case Some(more) => Some(entries + more)
  }

  /** Where the entry at the head of a batch ends: a last one may be cut where the batch ends. */
  function EntryEnd(batch: seq<byte>): (n: nat)
    requires |batch| >= 4
    ensures 4 <= n <= |batch|
  {
    if 4 + ReadU32(batch) < |batch| then 4 + ReadU32(batch) else |batch|
  }

  /** What splitBatch (src/import-spill.ts) reads: None for a header cut short. */
  function Split(batch: seq<byte>): Option<seq<seq<byte>>>
    decreases |batch|
  {
    if batch == [] then Some([])
    else if |batch| < 4 then None
    else Before([batch[4..EntryEnd(batch)]], Split(batch[EntryEnd(batch)..]))
  }

  lemma BeforeBefore(a: seq<seq<byte>>, b: seq<seq<byte>>, rest: Option<seq<seq<byte>>>)
    ensures Before(a, Before(b, rest)) == Before(a + b, rest)
  {
    if rest.Some? {
      Regroup(a, b, rest.value);
    }
  }

  method SplitBatch(batch: seq<byte>) returns (out: Option<seq<seq<byte>>>)
    ensures out == Split(batch)
  {
    var entries: seq<seq<byte>> := [];
    var at := 0;
    assert batch[0..] == batch;
    assert Split(batch).Some? ==> [] + Split(batch).value == Split(batch).value;
    while at < |batch|
      invariant 0 <= at <= |batch|
      invariant Split(batch) == Before(entries, Split(batch[at..]))
    {
      if at + 4 > |batch| {
        return None;
      }
      var len := ReadU32(batch[at..]);
      var end := if at + 4 + len < |batch| then at + 4 + len else |batch|;
      SplitNext(batch, at, end, entries);
      entries := entries + [batch[at + 4..end]];
      at := end;
    }
    assert entries + [] == entries;
    return Some(entries);
  }

  /** One entry of a batch, told by places in the whole. */
  lemma SplitOn(batch: seq<byte>, at: nat)
    requires at + 4 <= |batch|
    ensures var end := at + EntryEnd(batch[at..]);
            Split(batch[at..]) == Before([batch[at + 4..end]], Split(batch[end..]))
  {
    var n := EntryEnd(batch[at..]);
    DropTwice(batch, at, n);
    CutOfRest(batch, at, 4, n);
  }

  lemma SplitNext(batch: seq<byte>, at: nat, end: nat, entries: seq<seq<byte>>)
    requires at + 4 <= |batch| && end == at + EntryEnd(batch[at..])
    ensures Before(entries, Split(batch[at..])) == Before(entries + [batch[at + 4..end]], Split(batch[end..]))
  {
    SplitOn(batch, at);
    BeforeBefore(entries, [batch[at + 4..end]], Split(batch[end..]));
  }

  /** Framed entries are read back as they were, if each length fits its word. */
  lemma {:induction false} SplitUndoesFrames(entries: seq<seq<byte>>)
    requires forall e | e in entries :: |e| < TWO_32
    ensures Split(Frames(entries)) == Some(entries)
  {
    if entries != [] {
      SplitUndoesFrames(entries[1..]);
      SplitFirst(entries[0], Frames(entries[1..]));
      assert entries == [entries[0]] + entries[1..];
    }
  }

  lemma SplitHead(batch: seq<byte>, entry: seq<byte>, rest: seq<byte>)
    requires |batch| >= 4 && ReadU32(batch) == |entry| && 4 + |entry| <= |batch|
    requires batch[4..4 + |entry|] == entry && batch[4 + |entry|..] == rest && Split(rest).Some?
    ensures Split(batch) == Some([entry] + Split(rest).value)
  {
  }

  lemma Pieces(a: seq<byte>, b: seq<byte>, c: seq<byte>)
    ensures (a + b + c)[|a|..|a| + |b|] == b && (a + b + c)[|a| + |b|..] == c
  {
  }

  lemma FrameReads(entry: seq<byte>, rest: seq<byte>)
    requires |entry| < TWO_32
    ensures ReadU32(Frame(entry) + rest) == |entry|
  {
    U32Reads(|entry|, entry + rest);
    Regroup(U32(|entry|), entry, rest);
  }

  lemma SplitFirst(entry: seq<byte>, rest: seq<byte>)
    requires |entry| < TWO_32 && Split(rest).Some?
    ensures Split(Frame(entry) + rest) == Some([entry] + Split(rest).value)
  {
    FrameReads(entry, rest);
    Pieces(U32(|entry|), entry, rest);
    SplitHead(Frame(entry) + rest, entry, rest);
  }

  /** A word is the four bytes it is read from. */
  lemma WordReads(s: seq<byte>)
    requires |s| == 4
    ensures U32(ReadU32(s)) == s
  {
    var a, b, c, d := s[0] as nat, s[1] as nat, s[2] as nat, s[3] as nat;
    var n := ReadU32(s);
    assert n == a + 256 * (b + 256 * (c + 256 * d)) && n % TWO_32 == n;
    assert n % 256 == a && n / 256 == b + 256 * (c + 256 * d);
    assert n / 256 % 256 == b && n / 256 / 256 == c + 256 * d;
    assert n / 256 / 256 % 256 == c && n / 256 / 256 / 256 == d;
  }

  predicate AllFit(entries: seq<seq<byte>>) {
    forall e | e in entries :: |e| < TWO_32
  }

  /** The batch ends inside its last entry, of `len` bytes by its header. */
  predicate CutShort(batch: seq<byte>, entries: seq<seq<byte>>, len: nat) {
    && entries != [] && len < TWO_32 && |entries[|entries| - 1]| < len && AllFit(entries)
    && batch == Frames(entries[..|entries| - 1]) + (U32(len) + entries[|entries| - 1])
  }

  /** What a batch reads as: the entries framed in it, the last of them cut where the batch ends. */
  ghost predicate Holds(batch: seq<byte>, entries: seq<seq<byte>>) {
    (AllFit(entries) && batch == Frames(entries)) || exists len: nat :: CutShort(batch, entries, len)
  }

  lemma HoldsMore(entry: seq<byte>, rest: seq<byte>, more: seq<seq<byte>>)
    requires |entry| < TWO_32 && Holds(rest, more)
    ensures Holds(Frame(entry) + rest, [entry] + more)
  {
    var all := [entry] + more;
    assert all[1..] == more;
    if len: nat :| CutShort(rest, more, len) {
      var front, last := more[..|more| - 1], more[|more| - 1];
      assert all[..|all| - 1] == [entry] + front && ([entry] + front)[1..] == front && all[|all| - 1] == last;
      Regroup(Frame(entry), Frames(front), U32(len) + last);
      assert CutShort(Frame(entry) + rest, all, len);
    } else {
      assert Frames(all) == Frame(entry) + Frames(more);
    }
  }

  /** The entry at the head of a batch is framed there, or cut. */
  lemma HeadOf(batch: seq<byte>)
    requires |batch| >= 4
    ensures var entry := batch[4..EntryEnd(batch)];
            var len := ReadU32(batch);
            && |entry| <= len < TWO_32
            && batch == U32(len) + entry + batch[EntryEnd(batch)..]
            && (|entry| < len ==> batch[EntryEnd(batch)..] == [])
  {
    WordReads(batch[..4]);
    assert ReadU32(batch[..4]) == ReadU32(batch);
  }

  lemma HoldsCut(len: nat, entry: seq<byte>)
    requires |entry| < len < TWO_32
    ensures Holds(U32(len) + entry + [], [entry])
  {
    var batch := U32(len) + entry + [];
    assert [entry][..0] == [] && batch == [] + (U32(len) + entry);
    assert CutShort(batch, [entry], len);
  }

  /** Whatever is read is held. */
  lemma {:induction false} SplitIsHeld(batch: seq<byte>)
    requires Split(batch).Some?
    ensures Holds(batch, Split(batch).value)
    decreases |batch|
  {
    if batch != [] {
      var n, len := EntryEnd(batch), ReadU32(batch);
      var entry, rest := batch[4..n], batch[n..];
      HeadOf(batch);
      SplitIsHeld(rest);
      if |entry| < len {
        HoldsCut(len, entry);
        assert [entry] + [] == [entry];
      } else {
        HoldsMore(entry, rest, Split(rest).value);
      }
    }
  }

  lemma WordOf(n: nat, rest: seq<byte>)
    requires n < TWO_32
    ensures ReadU32(U32(n) + rest) == n
  {
    U32Reads(n, rest);
  }

  lemma CutHead(head: seq<byte>, entry: seq<byte>)
    requires |head| == 4 && |entry| < ReadU32(head + entry)
    ensures Split(head + entry) == Some([entry])
  {
    var batch := head + entry;
    assert EntryEnd(batch) == |batch| && batch[4..|batch|] == entry && batch[|batch|..] == [];
    assert Split(batch[|batch|..]) == Some([]) && [entry] + [] == [entry];
  }

  lemma {:induction false} SplitThenCut(entries: seq<seq<byte>>, head: seq<byte>, last: seq<byte>)
    requires AllFit(entries) && |head| == 4 && |last| < ReadU32(head + last)
    ensures Split(Frames(entries) + (head + last)) == Some(entries + [last])
  {
    if entries == [] {
      assert [] + (head + last) == head + last && [] + [last] == [last];
      CutHead(head, last);
    } else {
      SplitThenCut(entries[1..], head, last);
      OneBefore(entries[0], entries[1..], head + last, last);
      assert entries == [entries[0]] + entries[1..];
    }
  }

  lemma OneBefore(entry: seq<byte>, more: seq<seq<byte>>, tail: seq<byte>, last: seq<byte>)
    requires |entry| < TWO_32 && Split(Frames(more) + tail) == Some(more + [last])
    ensures Split(Frames([entry] + more) + tail) == Some([entry] + more + [last])
  {
    assert ([entry] + more)[1..] == more;
    Regroup(Frame(entry), Frames(more), tail);
    SplitFirst(entry, Frames(more) + tail);
    Regroup([entry], more, [last]);
  }

  /**
   * A batch reads as the entries it holds, the last of them cut where the batch ends, and no other batch reads:
   * not one that ends inside a header.
   */
  lemma SplitExactly(batch: seq<byte>, entries: seq<seq<byte>>)
    ensures Split(batch) == Some(entries) <==> Holds(batch, entries)
  {
    if Split(batch).Some? {
      SplitIsHeld(batch);
    }
    if len: nat :| CutShort(batch, entries, len) {
      var n := |entries| - 1;
      WordOf(len, entries[n]);
      SplitThenCut(entries[..n], U32(len), entries[n]);
      assert entries[..n] + [entries[n]] == entries;
    } else if AllFit(entries) && batch == Frames(entries) {
      SplitUndoesFrames(entries);
    }
  }

  lemma {:induction false} EntryFits(entries: seq<seq<byte>>, i: nat)
    requires i < |entries|
    ensures |entries[i]| < TotalLength(entries)
  {
    if i > 0 {
      EntryFits(entries[1..], i - 1);
    }
  }

  // ---- the compressor -----------------------------------------------------------------------------------

  /**
   * A stream hands out chunks on each push, as it likes, from what it was handed before and this push.
   * Inflating is given the length of the buffer it fills.
   */
  datatype Codec = Codec(
    stream: (seq<seq<byte>>, seq<byte>, bool) -> seq<seq<byte>>,
    deflateSync: seq<byte> -> seq<byte>,
    inflateSync: (seq<byte>, nat) -> Option<seq<byte>>)

  /** The chunks handed out by pushes before the final one. */
  function Emitted(codec: Codec, pushes: seq<seq<byte>>): seq<seq<byte>> {
    if pushes == [] then []
    else
      var before := pushes[..|pushes| - 1];
      Emitted(codec, before) + codec.stream(before, pushes[|pushes| - 1], false)
  }

  function WholeStream(codec: Codec, pushes: seq<seq<byte>>, last: seq<byte>): seq<byte> {
    Flat(Emitted(codec, pushes) + codec.stream(pushes, last, true))
  }

  /** A buffer of the right length is filled with what was compressed, at once or push by push. */
  ghost predicate Sound(codec: Codec) {
    && (forall x :: codec.inflateSync(codec.deflateSync(x), |x|) == Some(x))
    && (forall pushes, last ::
          var x := Flat(pushes + [last]);
          codec.inflateSync(WholeStream(codec, pushes, last), |x|) == Some(x))
  }

  function Stored(): Codec {
    Codec((_, chunk, _) => [chunk], x => x, (x, _) => Some(x))
  }

  /** Compressors like that exist: one that compresses nothing. */
  lemma StoredIsSound()
    ensures Sound(Stored())
  {
    forall pushes: seq<seq<byte>>, last
      ensures WholeStream(Stored(), pushes, last) == Flat(pushes + [last])
    {
      StoredEmits(pushes);
      assert Stored().stream(pushes, last, true) == [last];
    }
  }

  lemma {:induction false} StoredEmits(pushes: seq<seq<byte>>)
    ensures Emitted(Stored(), pushes) == pushes
  {
    if pushes != [] {
      StoredEmits(pushes[..|pushes| - 1]);
    }
  }

  // ---- blobs --------------------------------------------------------------------------------------------

  predicate IsPackedBlob(bytes: seq<byte>) {
    |bytes| >= HEADER_BYTES && bytes[..4] == BLOB_CODEC_MAGIC
  }

  function Header(raw: nat): (h: seq<byte>)
    ensures |h| == HEADER_BYTES
  {
    BLOB_CODEC_MAGIC + U32(raw)
  }

  function PackBlob(codec: Codec, raw: seq<byte>): seq<byte> {
    Header(|raw|) + codec.deflateSync(raw)
  }

  /** None for the source's exceptions: inflating fails, or the length is not the header's. */
  function UnpackBlob(codec: Codec, stored: seq<byte>): Option<seq<byte>> {
    if !IsPackedBlob(stored) then Some(stored)
    else
      var rawLength := ReadU32(stored[4..]);
      match codec.inflateSync(stored[HEADER_BYTES..], rawLength)
      case None => None
      case Some(out) => if |out| != rawLength then None else Some(out)
  }

  function UnpackedLength(stored: seq<byte>): nat {
    if !IsPackedBlob(stored) then |stored| else ReadU32(stored[4..])
  }

  /** The length read off the header is the length unpacking yields, whenever it yields anything. */
  lemma UnpackedLengthExact(codec: Codec, stored: seq<byte>)
    requires UnpackBlob(codec, stored).Some?
    ensures |UnpackBlob(codec, stored).value| == UnpackedLength(stored)
  {
  }

  lemma HeaderReads(raw: nat, body: seq<byte>)
    ensures var blob := Header(raw) + body;
            && IsPackedBlob(blob) && blob[HEADER_BYTES..] == body
            && ReadU32(blob[4..]) == raw % TWO_32 == UnpackedLength(blob)
  {
    var blob := Header(raw) + body;
    assert blob[4..] == U32(raw) + body;
    U32Reads(raw, body);
  }

  /** The form of every blob whose body inflates to `raw`. */
  lemma UnpacksExactly(codec: Codec, raw: seq<byte>, body: seq<byte>)
    requires codec.inflateSync(body, |raw|) == Some(raw)
    ensures UnpackBlob(codec, Header(|raw|) + body) == Some(raw) <==> |raw| < TWO_32
  {
    HeaderReads(|raw|, body);
    if |raw| >= TWO_32 && UnpackBlob(codec, Header(|raw|) + body) == Some(raw) {
      UnpackedLengthExact(codec, Header(|raw|) + body);
      assert false;
    }
  }

  lemma PackBlobUnpacks(codec: Codec, raw: seq<byte>)
    requires Sound(codec)
    ensures UnpackBlob(codec, PackBlob(codec, raw)) == Some(raw) <==> |raw| < TWO_32
    ensures UnpackedLength(PackBlob(codec, raw)) == |raw| % TWO_32
  {
    UnpacksExactly(codec, raw, codec.deflateSync(raw));
    HeaderReads(|raw|, codec.deflateSync(raw));
  }

  lemma MagicReads(bytes: seq<byte>)
    ensures IsPackedBlob(bytes) <==> |bytes| >= HEADER_BYTES && ReadU32(bytes) == 0x315A4C53
  {
    if |bytes| >= HEADER_BYTES {
      assert bytes[0] == bytes[..4][0] && bytes[1] == bytes[..4][1];
      assert bytes[2] == bytes[..4][2] && bytes[3] == bytes[..4][3];
      if ReadU32(bytes) == 0x315A4C53 {
        WordIsBytes(bytes[0] as nat, bytes[1] as nat, bytes[2] as nat, bytes[3] as nat);
        assert bytes[..4] == BLOB_CODEC_MAGIC;
      }
    }
  }

  /** The magic, read as a word, has one spelling in bytes. */
  lemma WordIsBytes(a: nat, b: nat, c: nat, d: nat)
    requires a < 256 && b < 256 && c < 256 && d < 256
    requires a + 256 * (b + 256 * (c + 256 * d)) == 0x315A4C53
    ensures a == 0x53 && b == 0x4c && c == 0x5a && d == 0x31
  {
  }

  /** A batch of framed entries looks packed exactly when its first entry has 0x315A4C53 bytes, modulo 2^32; else it is read as it is. */
  lemma PlainBatchPassesThrough(codec: Codec, entries: seq<seq<byte>>)
    ensures IsPackedBlob(Frames(entries)) <==> entries != [] && |entries[0]| % TWO_32 == 0x315A4C53
    ensures !IsPackedBlob(Frames(entries)) ==> UnpackBlob(codec, Frames(entries)) == Some(Frames(entries))
  {
    if entries != [] {
      var rest := entries[0] + Frames(entries[1..]);
      Regroup(U32(|entries[0]|), entries[0], Frames(entries[1..]));
      U32Reads(|entries[0]|, rest);
      MagicReads(Frames(entries));
    }
  }

  // ---- built entry by entry -----------------------------------------------------------------------------

  /** A blob of `raw` that a stream could have made, wherever its pushes were cut. */
  ghost predicate Streamed(codec: Codec, raw: seq<byte>, blob: seq<byte>) {
    exists pushes, last :: Flat(pushes + [last]) == raw && blob == Header(|raw|) + WholeStream(codec, pushes, last)
  }

  /**
   * A finished stream's blob carries the entries' total length, is read exactly as packBlob's of the framed
   * bytes, and splits into the entries.
   */
  lemma StreamedUnpacks(codec: Codec, entries: seq<seq<byte>>, blob: seq<byte>)
    requires Sound(codec) && Streamed(codec, Frames(entries), blob)
    ensures UnpackedLength(blob) == TotalLength(entries) % TWO_32
    ensures UnpackBlob(codec, blob) == Some(Frames(entries)) <==> TotalLength(entries) < TWO_32
    ensures TotalLength(entries) < TWO_32 ==>
              && UnpackBlob(codec, blob) == UnpackBlob(codec, PackBlob(codec, Frames(entries)))
              && Split(UnpackBlob(codec, blob).value) == Some(entries)
  {
    var raw := Frames(entries);
    var pushes, last :| Flat(pushes + [last]) == raw && blob == Header(|raw|) + WholeStream(codec, pushes, last);
    FramesLength(entries);
    HeaderReads(|raw|, WholeStream(codec, pushes, last));
    UnpacksExactly(codec, raw, WholeStream(codec, pushes, last));
    PackBlobUnpacks(codec, raw);
    if TotalLength(entries) < TWO_32 {
      forall e | e in entries ensures |e| < TWO_32 {
        var i :| 0 <= i < |entries| && entries[i] == e;
        EntryFits(entries, i);
      }
      SplitUndoesFrames(entries);
    }
  }

  /** Pieces copied one after the other into a buffer, from `start` on. */
  method CopyAll(buffer: array<byte>, start: nat, pieces: seq<seq<byte>>)
    requires start + |Flat(pieces)| <= buffer.Length
    modifies buffer
    ensures buffer[..start] == old(buffer[..start])
    ensures buffer[start..start + |Flat(pieces)|] == Flat(pieces)
  {
    var at := start;
    for n := 0 to |pieces|
      invariant at == start + |Flat(pieces[..n])| <= start + |Flat(pieces)|
      invariant buffer[..start] == old(buffer[..start])
      invariant buffer[start..at] == Flat(pieces[..n])
    {
      NextPiece(pieces, n);
      CopyOne(buffer, start, at, pieces[n]);
      at := at + |pieces[n]|;
    }
    assert pieces[..|pieces|] == pieces;
  }

  lemma NextPiece(pieces: seq<seq<byte>>, n: nat)
    requires n < |pieces|
    ensures Flat(pieces[..n + 1]) == Flat(pieces[..n]) + pieces[n]
    ensures |Flat(pieces[..n])| + |pieces[n]| <= |Flat(pieces)|
  {
    assert pieces[..n + 1] == pieces[..n] + [pieces[n]];
    FlatSnoc(pieces[..n], pieces[n]);
    assert pieces == pieces[..n + 1] + pieces[n + 1..];
    FlatAppend(pieces[..n + 1], pieces[n + 1..]);
  }

  /** `buffer.set(piece, at)`. */
  method CopyOne(buffer: array<byte>, start: nat, at: nat, piece: seq<byte>)
    requires start <= at && at + |piece| <= buffer.Length
    modifies buffer
    ensures buffer[..start] == old(buffer[..start])
    ensures buffer[start..at + |piece|] == old(buffer[start..at]) + piece
  {
    forall k | 0 <= k < |piece| {
      buffer[at + k] := piece[k];
    }
  }

  class PackStream {
    const codec: Codec
    var parts: seq<seq<byte>>
    var packed: nat
    var pending: seq<seq<byte>>
    var pendingBytes: nat
    var pushes: seq<seq<byte>>    // the compressor's state: what it was handed
    var raw: nat
    var count: nat
    ghost var entries: seq<seq<byte>>

    ghost predicate Consistent()
      reads this
    {
      && parts == Emitted(codec, pushes) && packed == |Flat(parts)|
      && pendingBytes == |Flat(pending)|
      && Flat(pushes) + Flat(pending) == Frames(entries)
      && raw == TotalLength(entries) && count == |entries|
    }

    /** Between calls: less than a push's worth is waiting. */
    ghost predicate Valid()
      reads this
    {
      Consistent() && pendingBytes < PACK_STREAM_PUSH_BYTES
    }

    constructor (codec: Codec)
      ensures Valid() && this.codec == codec && entries == []
    {
      this.codec := codec;
      parts, packed, pending, pendingBytes := [], 0, [], 0;
      pushes, raw, count, entries := [], 0, 0, [];
    }

    method Push(entry: seq<byte>)
      requires Valid()
      modifies this
      ensures Valid() && entries == old(entries) + [entry]
      ensures old(pendingBytes) + 4 + |entry| < PACK_STREAM_PUSH_BYTES ==>
                pushes == old(pushes) && pending == old(pending) + [U32(|entry|), entry]
      ensures old(pendingBytes) + 4 + |entry| >= PACK_STREAM_PUSH_BYTES ==>
                pushes == old(pushes) + [Flat(old(pending)) + Frame(entry)] && pending == []
    {
      PendingGrows(pending, entry);
      FramesNext(entries, entry);
      Regroup(Flat(pushes), Flat(pending), Frame(entry));
      pending := pending + [U32(|entry|), entry];
      pendingBytes := pendingBytes + 4 + |entry|;
      raw := raw + 4 + |entry|;
      count := count + 1;
      entries := entries + [entry];
      if pendingBytes >= PACK_STREAM_PUSH_BYTES {
        Drain(false);
      }
    }

    /** Hands what is waiting to the compressor. */
    method Drain(final: bool)
      requires Consistent()
      modifies this`parts, this`packed, this`pending, this`pendingBytes, this`pushes
      ensures pending == [] && pendingBytes == 0 && pushes == old(pushes) + [Flat(old(pending))]
      ensures parts == old(parts) + codec.stream(old(pushes), Flat(old(pending)), final)
      ensures packed == |Flat(parts)|
      ensures !final ==> Consistent()
    {
      var chunk := new byte[pendingBytes];
      CopyAll(chunk, 0, pending);
      assert chunk[..] == chunk[0..0 + |Flat(pending)|];
      FlatSnoc(pushes, Flat(pending));
      assert (pushes + [Flat(pending)])[..|pushes|] == pushes;
      var chunks := codec.stream(pushes, chunk[..], final);
      pushes := pushes + [chunk[..]];
      pending, pendingBytes := [], 0;
      TakeChunks(chunks);
      assert Flat(pushes) + [] == Flat(pushes);
    }

    /** The compressor's callback. */
    method TakeChunks(chunks: seq<seq<byte>>)
      requires packed == |Flat(parts)|
      modifies this`parts, this`packed
      ensures parts == old(parts) + chunks && packed == |Flat(parts)|
    {
      for n := 0 to |chunks|
        invariant parts == old(parts) + chunks[..n] && packed == |Flat(parts)|
      {
        FlatSnoc(parts, chunks[n]);
        parts := parts + [chunks[n]];
        packed := packed + |chunks[n]|;
      }
    }

    /** The finished blob. */
    method Finish() returns (blob: seq<byte>)
      requires Valid()
      modifies this
      ensures Streamed(codec, Frames(old(entries)), blob)
    {
      ghost var last := Flat(pending);
      FlatSnoc(pushes, last);
      FramesLength(entries);
      Drain(true);
      var out := new byte[HEADER_BYTES + packed];
      var header := Header(raw);
      forall k | 0 <= k < HEADER_BYTES {
        out[k] := header[k];
      }
      assert out[..HEADER_BYTES] == header;
      CopyAll(out, HEADER_BYTES, parts);
      assert out[..] == out[..HEADER_BYTES] + out[HEADER_BYTES..HEADER_BYTES + |Flat(parts)|];
      blob := out[..];
      assert blob == Header(|Frames(entries)|) + WholeStream(codec, old(pushes), last);
      parts := [];
    }
  }

  lemma PendingGrows(pending: seq<seq<byte>>, entry: seq<byte>)
    ensures Flat(pending + [U32(|entry|), entry]) == Flat(pending) + Frame(entry)
  {
    var head := U32(|entry|);
    FlatSnoc(pending, head);
    FlatSnoc(pending + [head], entry);
    assert pending + [head] + [entry] == pending + [head, entry];
    Regroup(Flat(pending), head, entry);
  }
}
