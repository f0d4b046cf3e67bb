/** An import fed by an upload: when the stream of one becomes an object of the other. */
module Upload {
  import opened Bits
  import opened Results
  import opened Chunks
  import opened Session
  import Cas

  /**
   * The import handler of the daemon.  What was uploaded is published exactly
   * when the store takes it, whether the upload ended with its mark or the
   * connection was closed behind some frame.
   */
  method ImportUpload(store: Cas.Store, frames: seq<Frame>, torn: bool, ghost sent: seq<byte>, ghost ended: bool,
                      declared: nat, expected: Option<Cas.Digest>, available: nat, renames: bool)
    returns (r: Result<Cas.Imported, Cas.Error>)
    requires store.Valid() && Carries(frames, sent, ended)
    modifies store
    ensures store.Valid()
    ensures r.Ok? <==>
              && (ended || !torn)
              && old(store.HasRoom(declared, available)) && |sent| <= store.quota.maxArtifact
              && (expected.Some? ==> expected.value == store.hash(sent))
              && (store.hash(sent) in old(store.objects) || renames)
    ensures r.Err? ==> store.objects == old(store.objects)
    ensures r.Ok? ==> r.value.digest == store.hash(sent) && r.value.size == |sent| && store.hash(sent) in store.objects
  {
    forall i | 0 <= i < |frames| ensures frames[i].ContentFrame? {
      CarriesContent(frames, sent, ended, i);
    }
    var stream := new ContentStream(frames, torn);
    var data := stream.ReadAll(_ => 1024 * 1024, sent, ended);
    if data.Err? {
      r := store.Import([], Some(0), declared, expected, available, renames);
      return;
    }
    assert [data.value][..0] == [];
    assert Flatten([data.value]) == data.value;
    r := store.Import([data.value], None, declared, expected, available, renames);
  }

  /**
   * A truncated upload: some frames of a file arrived and no end mark.  Unless
   * the part has the file's own digest, it becomes an object exactly when the
   * connection was closed between two frames and the request named no digest; a
   * digest of the whole file always refuses it.
   */
  method ImportTruncated(store: Cas.Store, frames: seq<Frame>, torn: bool, ghost file: seq<byte>, ghost n: nat,
                         declared: nat, expected: Option<Cas.Digest>, available: nat)
    returns (r: Result<Cas.Imported, Cas.Error>)
    requires store.Valid() && n < |file| && Carries(frames, file[..n], false)
    requires store.hash(file[..n]) != store.hash(file)
    requires expected.Some? ==> expected.value == store.hash(file)
    modifies store
    ensures store.Valid()
    ensures r.Ok? <==>
              expected.None? && !torn && old(store.HasRoom(declared, available)) && n <= store.quota.maxArtifact
    ensures r.Ok? ==> r.value.digest == store.hash(file[..n]) != store.hash(file)
    ensures r.Err? ==> store.objects == old(store.objects)
  {
    assert |file[..n]| == n;
    r := ImportUpload(store, frames, torn, file[..n], false, declared, expected, available, true);
  }

  /**
   * A file sent and imported.  A file that has the declared size arrives whole,
   * however the connection ends; one that changed in between is never imported
   * whole, and a part of it only without a digest.
   */
  method SendAndImport(store: Cas.Store, content: seq<byte>, size: nat, torn: bool, expected: Option<Cas.Digest>, available: nat, renames: bool)
    returns (r: Result<Cas.Imported, Cas.Error>)
    requires store.Valid()
    modifies store
    ensures store.Valid()
    ensures var sent := content[..SentLength(|content|, size)];
            && (r.Ok? <==>
                  && (|content| == size || !torn)
                  && old(store.HasRoom(size, available)) && |sent| <= store.quota.maxArtifact
                  && (expected.Some? ==> expected.value == store.hash(sent))
                  && (store.hash(sent) in old(store.objects) || renames))
            && (r.Ok? ==> r.value.digest == store.hash(sent) && r.value.size == |sent|)
    ensures |content| == size ==> content[..SentLength(|content|, size)] == content
  {
    var ok, frames := StreamArtifact(content, size);
    SentCarries(content, size);
    r := ImportUpload(store, frames, torn, content[..SentLength(|content|, size)], ok, size, expected, available, renames);
  }
}
