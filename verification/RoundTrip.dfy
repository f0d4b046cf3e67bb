/** Write with the fixture writers, read with the streaming readers. */
module RoundTrip {
  import opened Bits
  import opened Results
  import opened BitReader
  import opened TarSpec
  import opened TarBuilder
  import Bundle
  import Gzip
  import GzipStored
  import TarReader

  /** Adds the files to a fresh builder. */
  method WriteTar(files: seq<Source>) returns (tar: seq<byte>)
    requires NamesFit(files) && forall i :: 0 <= i < |files| ==> |files[i].body| < Pow8(12)
    ensures tar == ArchiveOf(files)
  {
    var builder := new Builder();
    assert files[..0] == [];
    for i := 0 to |files|
      invariant builder.Valid() && builder.files == files[..i]
    {
      builder.AddFile(files[i].name, files[i].body);
      assert files[..i + 1] == files[..i] + [Source(files[i].name, files[i].body)];
    }
    assert files[..|files|] == files;
    tar := builder.Finish();
  }

  /** The archive of the files, wrapped in stored blocks. */
  method Write(files: seq<Source>) returns (out: seq<byte>)
    requires Writable(files)
    ensures NamesFit(files) && out == GzipStored.StoredGzip(ArchiveOf(files))
  {
    Pow8Values();
    var tar := WriteTar(files);
    out := GzipStored.WriteStored(tar);
  }

  /** Any outcome the readers may give on a written bundle is a success with those members. */
  lemma OnlyTheMembers(files: seq<Source>, bytes: seq<byte>)
    requires Writable(files) && bytes == GzipStored.StoredGzip(ArchiveOf(files))
    ensures Gzip.Gunzip(bytes) == Ok(ArchiveOf(files)) && Archive(ArchiveOf(files)) == Ok(MembersOf(files))
  {
    GzipStored.RoundTrip(ArchiveOf(files));
    TarBuilder.RoundTrip(files);
  }

  /**
   * For every list of files with distinct normal paths, the readers return
   * exactly those paths, sizes and bodies in order, and the hasher has seen the
   * whole container.
   */
  method WriteAndRead(files: seq<Source>)
    returns (r: Result<seq<Member>, TarReader.Failure>, bytes: seq<byte>, hashed: seq<byte>, count: nat)
    requires Writable(files)
    ensures NamesFit(files) && bytes == GzipStored.StoredGzip(ArchiveOf(files))
    ensures r == Ok(MembersOf(files)) && hashed == bytes && count == |bytes|
  {
    bytes := Write(files);
    OnlyTheMembers(files, bytes);
    Gzip.DecodedIsPayload(bytes);
    var source := new CountingSource(bytes);
    r := Bundle.ReadArchive(source);
    hashed, count := source.hashed, source.count;
  }
}
