/**
 * Writing a staged image to a partition in bounded chunks, down to the single
 * WRITE_LBA commands, and telling "no effect" from "unknown".
 */
module WritePartition {
  import opened Bits
  import opened Results
  import opened Widths

  const SECTOR: nat := 512
  const CHUNK_SECTORS: nat := 16384
  const CHUNK_BYTES: nat := CHUNK_SECTORS * SECTOR
  const LBA_LIMIT: nat := 0x1_0000_0000

  // ----- Sectors

  /** The sectors that `n` bytes occupy. */
  function Sectors(n: nat): (s: nat)
    ensures n <= SECTOR * s < n + SECTOR
  {
    if n == 0 then 0 else if n <= SECTOR then 1 else 1 + Sectors(n - SECTOR)
  }

  lemma {:induction false} SectorsIsDivision(n: nat)
    ensures Sectors(n) == n / SECTOR + (if n % SECTOR == 0 then 0 else 1)
  {
    if n <= SECTOR {
    } else {
      SectorsIsDivision(n - SECTOR);
      assert n / SECTOR == (n - SECTOR) / SECTOR + 1;
    }
  }

  lemma SectorsAdd(whole: nat, n: nat)
    ensures Sectors(SECTOR * whole + n) == whole + Sectors(n)
  {
  }

  function Zeros(n: nat): (z: seq<byte>)
    ensures |z| == n
  {
    seq(n, _ => 0)
  }

  /** The bytes with the last sector zero-filled. */
  function Padded(b: seq<byte>): (r: seq<byte>)
    ensures |r| == SECTOR * Sectors(|b|) && b <= r
  {
    b + Zeros(SECTOR * Sectors(|b|) - |b|)
  }

  lemma PaddedJoins(a: seq<byte>, b: seq<byte>, whole: nat)
    requires |a| == SECTOR * whole
    ensures a + Padded(b) == Padded(a + b)
  {
    SectorsAdd(whole, |b|);
  }

  lemma PaddedWhole(a: seq<byte>, whole: nat)
    requires |a| == SECTOR * whole
    ensures Padded(a) == a && Sectors(|a|) == whole
  {
    SectorsAdd(whole, 0);
  }

  // ----- Commands

  datatype Command = Command(lba: nat, sectors: nat, data: seq<byte>)

  /** The commands follow one another from `begin` to `end` without a gap, each carrying its sectors' bytes. */
  predicate Contiguous(cmds: seq<Command>, begin: nat, end: nat) {
    if cmds == [] then begin == end
    else
      var last := cmds[|cmds| - 1];
      && 0 < last.sectors <= CHUNK_SECTORS && |last.data| == SECTOR * last.sectors
      && end == last.lba + last.sectors && Contiguous(cmds[..|cmds| - 1], begin, last.lba)
  }

  /** What the commands put on the medium, in order. */
  function Wire(cmds: seq<Command>): (r: seq<byte>) {
    if cmds == [] then [] else Wire(cmds[..|cmds| - 1]) + cmds[|cmds| - 1].data
  }

  lemma {:induction false} ContiguousLength(cmds: seq<Command>, begin: nat, end: nat)
    requires Contiguous(cmds, begin, end)
    ensures begin <= end && |Wire(cmds)| == SECTOR * (end - begin)
  {
    if cmds == [] {
    } else {
      ContiguousLength(cmds[..|cmds| - 1], begin, cmds[|cmds| - 1].lba);
    }
  }

  lemma {:induction false} ContiguousConcat(a: seq<Command>, b: seq<Command>, begin: nat, mid: nat, end: nat)
    requires Contiguous(a, begin, mid) && Contiguous(b, mid, end)
    ensures Contiguous(a + b, begin, end) && Wire(a + b) == Wire(a) + Wire(b)
  {
    if b == [] {
      assert a + b == a;
    } else {
      var front, last := b[..|b| - 1], b[|b| - 1];
      ContiguousConcat(a, front, begin, mid, last.lba);
      assert (a + b)[..|a + b| - 1] == a + front;
      assert (Wire(a) + Wire(front)) + last.data == Wire(a) + (Wire(front) + last.data);
    }
  }

  predicate Covers(c: Command, sector: nat) {
    c.lba <= sector < c.lba + c.sectors
  }

  /** Every sector of the range is written once, and with the bytes that belong there. */
  lemma {:induction false} WrittenOnce(cmds: seq<Command>, begin: nat, end: nat, sector: nat) returns (i: nat)
    requires Contiguous(cmds, begin, end) && begin <= sector < end
    ensures i < |cmds| && Covers(cmds[i], sector)
    ensures forall j :: 0 <= j < |cmds| && Covers(cmds[j], sector) ==> j == i
    ensures |Wire(cmds)| == SECTOR * (end - begin) && |cmds[i].data| == SECTOR * cmds[i].sectors
    ensures cmds[i].data[SECTOR * (sector - cmds[i].lba)..SECTOR * (sector - cmds[i].lba + 1)]
            == Wire(cmds)[SECTOR * (sector - begin)..SECTOR * (sector - begin + 1)]
  {
    ContiguousLength(cmds, begin, end);
    var front, last := cmds[..|cmds| - 1], cmds[|cmds| - 1];
    ContiguousLength(front, begin, last.lba);
    assert Wire(cmds) == Wire(front) + last.data;
    if sector >= last.lba {
      i := |cmds| - 1;
      NothingBeyond(front, begin, last.lba, sector);
      assert last.data == Wire(cmds)[SECTOR * (last.lba - begin)..];
    } else {
      i := WrittenOnce(front, begin, last.lba, sector);
      assert Wire(front) == Wire(cmds)[..SECTOR * (last.lba - begin)];
    }
  }

  /** No command reaches outside the range. */
  lemma {:induction false} NothingBeyond(cmds: seq<Command>, begin: nat, end: nat, sector: nat)
    requires Contiguous(cmds, begin, end) && !(begin <= sector < end)
    ensures forall j :: 0 <= j < |cmds| ==> !Covers(cmds[j], sector)
  {
    if cmds == [] {
    } else {
      var front, last := cmds[..|cmds| - 1], cmds[|cmds| - 1];
      ContiguousLength(front, begin, last.lba);
      NothingBeyond(front, begin, last.lba, sector);
    }
  }

  // ----- The protocol

  datatype ProtocolError = EmptyWrite | AddressOutOfRange | Transport

  datatype Progress = Progress(payloadBytes: nat, wireSectors: nat, chunks: nat)

  /** The loader behind the bulk endpoints: any command may fail at any stage. */
  class Loader {
    const answers: seq<Command> -> bool
    /** WRITE_LBA commands whose transfer was begun. */
    var commands: seq<Command>

    constructor (a: seq<Command> -> bool)
      ensures answers == a && commands == []
    {
      answers, commands := a, [];
    }

    /** The last command that was begun failed. */
    ghost predicate LastFailed()
      reads this
    {
      commands != [] && !answers(commands[..|commands| - 1])
    }

    method ExecuteOut(lba: nat, sectors: nat, data: seq<byte>) returns (ok: bool)
      requires lba + sectors <= LBA_LIMIT && 0 < sectors < 0x1_0000
      modifies this
      ensures commands == old(commands) + [Command(lba, sectors, data)]
      ensures !ok ==> LastFailed()
    {
      ok := answers(commands);
      commands := commands + [Command(lba, sectors, data)];
      assert commands[..|commands| - 1] == old(commands);
    }

    /** `write_lba`. */
    method WriteLba(begin: nat, bytes: seq<byte>) returns (r: Result<Progress, ProtocolError>, ghost sent: seq<Command>)
      modifies this
      ensures commands == old(commands) + sent
      ensures exists at :: begin <= at <= begin + Sectors(|bytes|) && Contiguous(sent, begin, at)
      ensures sent == [] <==> r.Err? && !r.error.Transport?
      ensures r == Err(Transport) ==> LastFailed()
      ensures r.Err? && !r.error.Transport? <==> bytes == [] || begin + Sectors(|bytes|) > LBA_LIMIT || begin >= LBA_LIMIT
      ensures r.Ok? ==>
                && r.value.wireSectors == Sectors(|bytes|) && r.value.chunks >= 1 && r.value.payloadBytes == |bytes|
                && Contiguous(sent, begin, begin + Sectors(|bytes|)) && Wire(sent) == Padded(bytes)
    {
      sent := [];
      assert Contiguous(sent, begin, begin);
      assert commands == old(commands) + sent;
      if bytes == [] {
        return Err(EmptyWrite), sent;
      }
      var sectors := Sectors(|bytes|);
      if begin >= LBA_LIMIT || begin + sectors > LBA_LIMIT {
        return Err(AddressOutOfRange), sent;
      }
      var position: nat, offset: nat, chunks: nat := begin, 0, 0;
      assert bytes[..0] == [];
      while offset < |bytes|
        invariant 0 <= offset <= |bytes| && commands == old(commands) + sent
        invariant Contiguous(sent, begin, position) && position == begin + Sectors(offset)
        invariant offset < |bytes| ==> offset == SECTOR * Sectors(offset)
        invariant Wire(sent) == Padded(bytes[..offset])
        invariant offset > 0 ==> chunks >= 1 && sent != []
      {
        var end := if offset + CHUNK_BYTES < |bytes| then offset + CHUNK_BYTES else |bytes|;
        var payload := bytes[offset..end];
        var data := Padded(payload);
        NextChunk(sent, begin, position, bytes, offset, end);
        var ok := ExecuteOut(position, Sectors(|payload|), data);
        Extends(old(commands), sent, [Command(position, Sectors(|payload|), data)]);
        sent := sent + [Command(position, Sectors(|payload|), data)];
        position := position + Sectors(|payload|);
        if !ok {
          return Err(Transport), sent;
        }
        offset := end;
        chunks := chunks + 1;
      }
      assert bytes[..offset] == bytes;
      return Ok(Progress(|bytes|, sectors, chunks)), sent;
    }
  }

  /** One more command extends the run up to the end of its payload. */
  lemma NextChunk(sent: seq<Command>, begin: nat, position: nat, bytes: seq<byte>, offset: nat, end: nat)
    requires Contiguous(sent, begin, position) && position == begin + Sectors(offset) && offset == SECTOR * Sectors(offset)
    requires offset < end <= |bytes| && end - offset <= CHUNK_BYTES && (end < |bytes| ==> end - offset == CHUNK_BYTES)
    requires Wire(sent) == Padded(bytes[..offset])
    ensures var payload := bytes[offset..end];
            var next := position + Sectors(|payload|);
            var more := sent + [Command(position, Sectors(|payload|), Padded(payload))];
            && 0 < Sectors(|payload|) <= CHUNK_SECTORS && next == begin + Sectors(end) <= begin + Sectors(|bytes|)
            && Contiguous(more, begin, next) && Wire(more) == Padded(bytes[..end])
            && (end < |bytes| ==> end == SECTOR * Sectors(end))
  {
    var payload := bytes[offset..end];
    var command := Command(position, Sectors(|payload|), Padded(payload));
    var whole := Sectors(offset);
    SectorsAdd(whole, |payload|);
    ChunkFits(|payload|);
    MoreFits(end, |bytes|);
    assert (sent + [command])[..|sent|] == sent;
    PaddedWhole(bytes[..offset], whole);
    PaddedJoins(bytes[..offset], payload, whole);
    assert bytes[..offset] + payload == bytes[..end];
    if end < |bytes| {
      SectorsAdd(CHUNK_SECTORS, 0);
    }
  }

  lemma ChunkFits(n: nat)
    requires 0 < n <= CHUNK_BYTES
    ensures 0 < Sectors(n) <= CHUNK_SECTORS
  {
  }

  lemma MoreFits(a: nat, b: nat)
    requires a <= b
    ensures Sectors(a) <= Sectors(b)
  {
  }

  // ----- The partition write

  /** The staged image as it was validated. */
  datatype Staged = Staged(sizeBytes: nat, sha256: nat)

  /** The open file: each read gives any bytes, none, or an error. */
  class ImageFile {
    const answers: seq<byte> -> Result<seq<byte>, ()>
    /** Everything read so far. */
    var taken: seq<byte>

    constructor (a: seq<byte> -> Result<seq<byte>, ()>)
      ensures answers == a && taken == []
    {
      answers, taken := a, [];
    }

    /** Another read would fail or give nothing. */
    ghost predicate Ended()
      reads this
    {
      answers(taken).Err? || answers(taken).value == []
    }

    method Read(max: nat) returns (r: Result<seq<byte>, ()>)
      requires max > 0
      modifies this
      ensures r.Ok? ==> |r.value| <= max && taken == old(taken) + r.value
      ensures r.Err? ==> taken == old(taken) && answers(taken).Err?
      ensures r.Err? || r.value == [] ==> taken == old(taken) && Ended()
    {
      r := answers(taken);
      if r.Ok? {
        r := if |r.value| <= max then r else Ok(r.value[..max]);
        taken := taken + r.value;
      }
    }

    /** Fills a buffer of `wanted` bytes; a file that ends early is a failure. */
    method Fill(wanted: nat) returns (r: Option<seq<byte>>)
      modifies this
      ensures r.Some? ==> |r.value| == wanted && taken == old(taken) + r.value
      ensures r.None? ==> Ended() && |taken| < |old(taken)| + wanted
    {
      var filled: seq<byte> := [];
      assert taken == old(taken) + filled;
      while |filled| < wanted
        invariant |filled| <= wanted && taken == old(taken) + filled
      {
        var read := Read(wanted - |filled|);
        if read.Err? || read.value == [] {
          assert |taken| == |old(taken)| + |filled|;
          return None;
        }
        assert (old(taken) + filled) + read.value == old(taken) + (filled + read.value);
        filled := filled + read.value;
      }
      return Some(filled);
    }
  }

  datatype PortFailure = BeforeIo | AfterIo

  datatype Receipt = Receipt(payloadBytes: nat, wireSectors: nat, chunks: nat, payloadDigest: nat)

  /** What the steps before the first command report. */
  datatype Surroundings = Surroundings(nameEmpty: bool, sameFile: bool, claimed: bool, ready: bool)

  function LocalFailure(chunks: nat): (f: PortFailure) {
    if chunks == 0 then BeforeIo else AfterIo
  }

  /** All chunks of the image. */
  method SendAll(loader: Loader, file: ImageFile, begin: nat, total: nat)
    returns (r: Result<nat, PortFailure>, ghost sent: seq<Command>)
    requires total > 0 && begin + Sectors(total) <= LBA_LIMIT && file.taken == []
    modifies loader, file
    ensures loader.commands == old(loader.commands) + sent
    ensures sent == [] <==> r == Err(BeforeIo)
    ensures r == Err(BeforeIo) ==> file.Ended() && |file.taken| < total
    ensures r == Err(AfterIo) ==> loader.LastFailed() || (file.Ended() && |file.taken| < total)
    ensures exists at :: begin <= at <= begin + Sectors(total) && Contiguous(sent, begin, at)
    ensures r.Ok? ==>
              && |file.taken| == total && Contiguous(sent, begin, begin + Sectors(total)) && Wire(sent) == Padded(file.taken)
              && r.value >= 1
  {
    sent := [];
    assert Contiguous(sent, begin, begin);
    assert loader.commands == old(loader.commands) + sent;
    var remaining: nat, position: nat, chunks: nat := total, begin, 0;
    while remaining > 0
      invariant remaining <= total && |file.taken| + remaining == total
      invariant loader.commands == old(loader.commands) + sent
      invariant Contiguous(sent, begin, position) && position == begin + Sectors(total - remaining)
      invariant remaining > 0 ==> total - remaining == SECTOR * Sectors(total - remaining)
      invariant Wire(sent) == Padded(file.taken)
      invariant chunks == 0 <==> sent == []
      invariant chunks > 0 <==> remaining < total
    {
      MoreFits(total - remaining, total);
      var wanted := if remaining < CHUNK_BYTES then remaining else CHUNK_BYTES;
      ghost var before := file.taken;
      ghost var whole := position - begin;
      var buffer := file.Fill(wanted);
      if buffer.None? {
        return Err(LocalFailure(chunks)), sent;
      }
      SectorsAdd(whole, wanted);
      MoreFits(total - remaining + wanted, total);
      ghost var more;
      var progress;
      progress, more := loader.WriteLba(position, buffer.value);
      Extends(old(loader.commands), sent, more);
      ghost var at :| position <= at <= position + Sectors(wanted) && Contiguous(more, position, at);
      ContiguousConcat(sent, more, begin, position, at);
      if progress.Err? {
        return Err(AfterIo), sent + more;
      }
      Joins(sent, more, begin, position, before, buffer.value);
      if wanted < remaining {
        SectorsAdd(CHUNK_SECTORS, 0);
      }
      sent := sent + more;
      position := position + progress.value.wireSectors;
      remaining := remaining - wanted;
      chunks := chunks + progress.value.chunks;
    }
    return Ok(chunks), sent;
  }

  /** Commands that carry whole sectors, followed by those of the next buffer. */
  lemma Joins(sent: seq<Command>, more: seq<Command>, begin: nat, position: nat, before: seq<byte>, buffer: seq<byte>)
    requires begin <= position && |before| == SECTOR * (position - begin)
    requires Contiguous(sent, begin, position) && Wire(sent) == Padded(before)
    requires Contiguous(more, position, position + Sectors(|buffer|)) && Wire(more) == Padded(buffer)
    ensures Contiguous(sent + more, begin, position + Sectors(|buffer|)) && Wire(sent + more) == Padded(before + buffer)
  {
    ContiguousConcat(sent, more, begin, position, position + Sectors(|buffer|));
    PaddedWhole(before, position - begin);
    PaddedJoins(before, buffer, position - begin);
  }

  lemma Extends(a: seq<Command>, b: seq<Command>, c: seq<Command>)
    ensures (a + b) + c == a + (b + c)
  {
  }

  /** Refused before the first command, whatever the file holds. */
  predicate Refused(around: Surroundings, begin: nat, staged: Staged) {
    || around.nameEmpty || !around.sameFile || staged.sizeBytes == 0
    || begin >= LBA_LIMIT || begin + Sectors(staged.sizeBytes) > LBA_LIMIT || !around.claimed || !around.ready
  }

  /** The file is not the staged one: it ended early, failed, went on, or hashes to something else. */
  ghost predicate NotTheImage(file: ImageFile, staged: Staged, hash: seq<byte> -> nat)
    reads file
  {
    || (|file.taken| < staged.sizeBytes && file.Ended())
    || (|file.taken| == staged.sizeBytes && (file.answers(file.taken).Err? || hash(file.taken) != staged.sha256))
    || |file.taken| > staged.sizeBytes
  }

  /**
   * `write_partition`.  A failure is called before I/O exactly when no command
   * was begun, and every failure has its reason in what was asked, in the file
   * or in the last command; a success put the staged bytes on exactly the
   * sectors that belong to them.
   */
  method Write(loader: Loader, file: ImageFile, around: Surroundings, begin: nat, staged: Staged, hash: seq<byte> -> nat)
    returns (r: Result<Receipt, PortFailure>, ghost sent: seq<Command>)
    requires begin < U64_LIMIT && staged.sizeBytes < U64_LIMIT && file.taken == []
    modifies loader, file
    ensures loader.commands == old(loader.commands) + sent
    ensures r == Err(BeforeIo) <==> sent == []
    ensures Refused(around, begin, staged) ==> r == Err(BeforeIo)
    ensures r == Err(BeforeIo) ==> Refused(around, begin, staged) || (|file.taken| < staged.sizeBytes && file.Ended())
    ensures r == Err(AfterIo) ==> loader.LastFailed() || NotTheImage(file, staged, hash)
    ensures exists at :: begin <= at <= begin + Sectors(staged.sizeBytes) && Contiguous(sent, begin, at)
    ensures r.Ok? ==>
              && |file.taken| == staged.sizeBytes > 0 && hash(file.taken) == staged.sha256
              && Contiguous(sent, begin, begin + Sectors(staged.sizeBytes)) && Wire(sent) == Padded(file.taken)
              && r.value.wireSectors == Sectors(staged.sizeBytes)
  {
    sent := [];
    assert Contiguous(sent, begin, begin);
    assert loader.commands == old(loader.commands) + sent;
    if around.nameEmpty || !around.sameFile || staged.sizeBytes == 0 {
      return Err(BeforeIo), sent;
    }
    var total := staged.sizeBytes / SECTOR + if staged.sizeBytes % SECTOR == 0 then 0 else 1;
    SectorsIsDivision(staged.sizeBytes);
    if begin + total >= U64_LIMIT || begin >= LBA_LIMIT || begin + total > LBA_LIMIT {
      return Err(BeforeIo), sent;
    }
    if !around.claimed || !around.ready {
      return Err(BeforeIo), sent;
    }
    var chunks;
    chunks, sent := SendAll(loader, file, begin, staged.sizeBytes);
    if chunks.Err? {
      return Err(chunks.error), sent;
    }
    ghost var payload := file.taken;
    var digest := hash(file.taken);
    var extra := file.Read(1);
    if extra.Err? || extra.value != [] {
      return Err(AfterIo), sent;
    }
    assert file.taken == payload;
    if digest != staged.sha256 {
      return Err(AfterIo), sent;
    }
    return Ok(Receipt(staged.sizeBytes, total, chunks.value, digest)), sent;
  }

  // ----- What the dispatcher reports

  datatype ExecutionError =
    | RequiresAuthority | ActionUndecodable | PortRefused | LayoutMismatch | PartitionTableUnreadable
    | DeviceDeclaresUnknownPartitions | TableNotObservedYet | ReadDomainNotCharacterized | NoTableAtLba1
    | TargetNotAllowed | PartitionNotOnDevice | TargetOffsetDisagrees | ImageNotStaged | ImageOverrunsPartition
    | StagingChanged | VerificationRangeMissing | ScratchUnusable | ExternalIo | ReadFailed

  datatype DispatchFailure = BeforeAnyEffect | AfterExternalIo

  datatype Disposition = SemanticSuccess | ConfirmedNoEffect | OutcomeUnknown

  function Classify(e: ExecutionError): (f: DispatchFailure) {
    if e == ExternalIo || e == ReadFailed then AfterExternalIo else BeforeAnyEffect
  }

  function FailureDisposition(f: DispatchFailure): (d: Disposition) {
    if f == BeforeAnyEffect then ConfirmedNoEffect else OutcomeUnknown
  }

  function FromPort(f: PortFailure): (e: ExecutionError) {
    if f == BeforeIo then PortRefused else ExternalIo
  }

  /** No other bytes of this length have this digest. */
  ghost predicate NoSecondImage(hash: seq<byte> -> nat, image: seq<byte>) {
    forall other :: |other| == |image| && hash(other) == hash(image) ==> other == image
  }

  /**
   * No effect is confirmed exactly when no WRITE_LBA was begun, and success is
   * reported only when the whole image is on the medium: the bytes that were
   * read, and with a digest that no other image has, the staged image itself.
   */
  method Dispatch(loader: Loader, file: ImageFile, around: Surroundings, begin: nat, staged: Staged, hash: seq<byte> -> nat)
    returns (d: Disposition, ghost sent: seq<Command>)
    requires begin < U64_LIMIT && staged.sizeBytes < U64_LIMIT && file.taken == []
    modifies loader, file
    ensures loader.commands == old(loader.commands) + sent
    ensures d == ConfirmedNoEffect <==> sent == []
    ensures Refused(around, begin, staged) ==> d == ConfirmedNoEffect
    ensures d == ConfirmedNoEffect ==> Refused(around, begin, staged) || (|file.taken| < staged.sizeBytes && file.Ended())
    ensures d == OutcomeUnknown ==> loader.LastFailed() || NotTheImage(file, staged, hash)
    ensures d == SemanticSuccess ==>
              && |file.taken| == staged.sizeBytes && hash(file.taken) == staged.sha256 && Wire(sent) == Padded(file.taken)
              && Contiguous(sent, begin, begin + Sectors(staged.sizeBytes))
    ensures d == SemanticSuccess ==>
              forall image :: staged == Staged(|image|, hash(image)) && NoSecondImage(hash, image) ==> Wire(sent) == Padded(image)
  {
    var r;
    r, sent := Write(loader, file, around, begin, staged, hash);
    d := if r.Ok? then SemanticSuccess else FailureDisposition(Classify(FromPort(r.error)));
  }
}
