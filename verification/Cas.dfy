/** The content-addressed store: quota, import, leases and garbage collection. */
module Cas {
  import opened Bits
  import opened Results
  import opened Widths
  import opened Chunks

  type Digest = nat


  datatype Quota = Quota(maxTotal: nat, minFree: nat, maxArtifact: nat)

  datatype Error =
    | Io | QuotaExceeded(report: Preflight) | DigestMismatch(expected: Digest, observed: Digest)
    | TooLarge(size: nat, limit: nat) | NotFound(digest: Digest) | InvalidHolder(holder: string)
    /** The 64-bit sum of the object sizes overflows, which stops the process. */
    | Overflow

  datatype Preflight = Preflight(requested: nat, inUse: nat, available: nat, accepted: bool)

  datatype Imported = Imported(digest: Digest, size: nat, deduplicated: bool)

  datatype GcReport = GcReport(removed: seq<Digest>, reclaimed: nat, staging: nat)

  /** A staging file and whether it is past the grace window. */
  datatype Staging = Staging(content: seq<byte>, old6h: bool)

  function SaturatingAdd(a: nat, b: nat): (r: nat) {
    if a + b > U64_MAX then U64_MAX else a + b
  }

  predicate IsHolder(s: string) {
    1 <= |s| <= 128 && forall i :: 0 <= i < |s| ==> IsHolderChar(s[i])
  }

  predicate IsHolderChar(c: char) {
    '0' <= c <= '9' || 'a' <= c <= 'z' || 'A' <= c <= 'Z' || c == '.' || c == '_' || c == ':' || c == '-'
  }

  // ----- Bytes held

  type Objects = map<Digest, seq<byte>>

  /** The bytes of all objects. */
  ghost function Total(objects: Objects): (n: nat)
    decreases |objects|
  {
    if objects == map[] then 0
    else
      var d :| d in objects;
      |objects[d]| + Total(objects - {d})
  }

  lemma {:induction false} TotalWithout(objects: Objects, d: Digest)
    requires d in objects
    ensures Total(objects) == |objects[d]| + Total(objects - {d})
    decreases |objects|
  {
    assert objects != map[];
    var first: Digest :| first in objects && Total(objects) == |objects[first]| + Total(objects - {first});
    if first == d {
    } else {
      TotalWithout(objects - {first}, d);
      TotalWithout(objects - {d}, first);
      assert (objects - {first}) - {d} == (objects - {d}) - {first};
    }
  }

  lemma TotalWith(objects: Objects, d: Digest, data: seq<byte>)
    requires d !in objects
    ensures Total(objects[d := data]) == |data| + Total(objects)
  {
    TotalWithout(objects[d := data], d);
    assert objects[d := data] - {d} == objects;
  }

  /** The three limits of `preflight`, with its saturating sums, behind a sum of sizes that must not overflow. */
  ghost predicate RoomIn(objects: Objects, quota: Quota, requested: nat, available: nat) {
    && Total(objects) <= U64_MAX
    && requested <= quota.maxArtifact && SaturatingAdd(Total(objects), requested) <= quota.maxTotal
    && SaturatingAdd(requested, quota.minFree) <= available
  }

  /** What garbage collection leaves: the objects that someone holds. */
  ghost function Held(objects: Objects, leases: map<Digest, set<string>>): (r: Objects) {
    map d | d in objects && d in leases && leases[d] != {} :: objects[d]
  }

  class Store {
    const quota: Quota
    const hash: seq<byte> -> Digest
    var objects: Objects
    var leases: map<Digest, set<string>>
    var staging: seq<Staging>
    /** No object so far was added by an import longer than its declaration. */
    ghost var honest: bool

    /** Objects hash to their address, leases point at objects, and honest imports respect the ceiling. */
    ghost predicate Valid()
      reads this
    {
      && (forall d :: d in objects ==> hash(objects[d]) == d)
      && (forall d :: d in leases && leases[d] != {} ==> d in objects)
      && (honest && quota.maxTotal < U64_MAX ==> Total(objects) <= quota.maxTotal)
    }

    constructor (q: Quota, h: seq<byte> -> Digest)
      ensures Valid() && objects == map[] && leases == map[] && honest && quota == q && hash == h
    {
      quota, hash := q, h;
      objects, leases, staging, honest := map[], map[], [], true;
    }

    /** `list_objects`. */
    method ListObjects() returns (list: seq<Digest>)
      ensures forall d :: d in list <==> d in objects
      ensures forall i, j :: 0 <= i < j < |list| ==> list[i] != list[j]
    {
      list := [];
      var rest := objects.Keys;
      while rest != {}
        invariant forall d :: d in objects <==> d in rest || d in list
        invariant forall d :: d in list ==> d !in rest
        invariant forall i, j :: 0 <= i < j < |list| ==> list[i] != list[j]
        decreases |rest|
      {
        var d: Digest :| d in rest;
        rest := rest - {d};
        list := list + [d];
      }
    }

    /** `total_bytes`. */
    method TotalBytes() returns (r: Result<nat, Error>)
      ensures r == if Total(objects) <= U64_MAX then Ok(Total(objects)) else Err(Overflow)
    {
      var list := ListObjects();
      var total := 0;
      ghost var left := objects;
      for i := 0 to |list|
        invariant Uncounted(objects, list, i, left)
        invariant total + Total(left) == Total(objects) && total <= U64_MAX
      {
        UncountedNext(objects, list, i, left);
        total := total + |objects[list[i]]|;
        if total > U64_MAX {
          return Err(Overflow);
        }
        left := left - {list[i]};
      }
      assert list[..|list|] == list;
      assert left == map[];
      return Ok(total);
    }

    ghost predicate HasRoom(requested: nat, available: nat)
      reads this
    {
      RoomIn(objects, quota, requested, available)
    }

    /** `preflight`, given what the volume reports. */
    method CheckSpace(requested: nat, available: nat) returns (r: Result<Preflight, Error>)
      ensures if Total(objects) > U64_MAX then r == Err(Overflow) else r.Ok?
      ensures r.Ok? ==> r.value == Preflight(requested, Total(objects), available, HasRoom(requested, available))
    {
      var total := TotalBytes();
      if total.Err? {
        return Err(total.error);
      }
      var inUse := total.value;
      var accepted := requested <= quota.maxArtifact && SaturatingAdd(inUse, requested) <= quota.maxTotal
                      && SaturatingAdd(requested, quota.minFree) <= available;
      return Ok(Preflight(requested, inUse, available, accepted));
    }

    /** The copy loop: any chunking, a read that may fail, and the size limit on the running count. */
    method Copy(chunks: seq<seq<byte>>, failAt: Option<nat>) returns (r: Result<seq<byte>, Error>)
      ensures r.Ok? ==> r.value == Flatten(chunks) && |r.value| <= quota.maxArtifact
      ensures r.Ok? <==> |Flatten(chunks)| <= quota.maxArtifact && (failAt.None? || failAt.value > |chunks|)
      ensures r.Err? ==>
                || (r.error == Io && failAt.Some? && failAt.value <= |chunks|)
                || (r.error.TooLarge? && quota.maxArtifact == r.error.limit < r.error.size)
    {
      var data: seq<byte> := [];
      assert chunks[..0] == [];
      for i := 0 to |chunks|
        invariant data == Flatten(chunks[..i]) && |data| <= quota.maxArtifact && (failAt.None? || failAt.value >= i)
      {
        if failAt == Some(i) {
          return Err(Io);
        }
        assert chunks[..i + 1][..i] == chunks[..i];
        if |data| + |chunks[i]| > quota.maxArtifact {
          FlattenGrows(chunks, i + 1);
          return Err(TooLarge(|data| + |chunks[i]|, quota.maxArtifact));
        }
        data := data + chunks[i];
      }
      assert chunks[..|chunks|] == chunks;
      if failAt == Some(|chunks|) {
        return Err(Io);
      }
      return Ok(data);
    }

    /**
     * `import`.  A success publishes exactly the streamed bytes under their own
     * digest; any failure publishes nothing.
     */
    method Import(chunks: seq<seq<byte>>, failAt: Option<nat>, declared: nat, expected: Option<Digest>, available: nat, renames: bool)
      returns (r: Result<Imported, Error>)
      requires Valid()
      modifies this
      ensures Valid() && leases == old(leases)
      ensures r.Ok? <==>
                && old(HasRoom(declared, available)) && |Flatten(chunks)| <= quota.maxArtifact
                && (failAt.None? || failAt.value > |chunks|)
                && (expected.Some? ==> expected.value == hash(Flatten(chunks)))
                && (hash(Flatten(chunks)) in old(objects) || renames)
      ensures r.Err? ==> objects == old(objects)
      ensures r.Err? ==>
                match r.error
                case QuotaExceeded(report) => report == Preflight(declared, old(Total(objects)), available, false)
                case DigestMismatch(wanted, observed) => expected == Some(wanted) && observed == hash(Flatten(chunks)) != wanted
                case TooLarge(size, limit) => quota.maxArtifact == limit < size
                case Overflow => old(Total(objects)) > U64_MAX
                case Io => (failAt.Some? && failAt.value <= |chunks|) || !renames
                case _ => false
      ensures r.Ok? ==>
                && var data := Flatten(chunks);
                && r.value.digest == hash(data) && r.value.size == |data| <= quota.maxArtifact
                && (expected.Some? ==> expected.value == hash(data))
                && r.value.deduplicated == (hash(data) in old(objects))
                && objects == (if hash(data) in old(objects) then old(objects) else old(objects)[hash(data) := data])
                && Total(objects) == old(Total(objects)) + (if r.value.deduplicated then 0 else |data|)
      ensures honest <==> old(honest) && (r.Ok? && !r.value.deduplicated ==> |Flatten(chunks)| <= declared)
    {
      var report := CheckSpace(declared, available);
      if report.Err? {
        return Err(report.error);
      }
      if !report.value.accepted {
        return Err(QuotaExceeded(report.value));
      }
      var copied := Copy(chunks, failAt);
      if copied.Err? {
        return Err(copied.error);
      }
      var data := copied.value;
      var digest := hash(data);
      if expected.Some? && expected.value != digest {
        return Err(DigestMismatch(expected.value, digest));
      }
      if digest in objects {
        return Ok(Imported(digest, |data|, true));
      }
      if !renames {
        staging := staging + [Staging(data, false)];
        return Err(Io);
      }
      TotalWith(objects, digest, data);
      honest := honest && |data| <= declared;
      objects := objects[digest := data];
      return Ok(Imported(digest, |data|, false));
    }

    /** `acquire_lease`; the file may exist even when writing it fails. */
    method AcquireLease(d: Digest, holder: string, writes: bool) returns (r: Result<(), Error>)
      requires Valid()
      modifies this
      ensures Valid() && objects == old(objects) && honest == old(honest)
      ensures r == if d !in objects then Err(NotFound(d)) else if !IsHolder(holder) then Err(InvalidHolder(holder))
                   else if writes then Ok(()) else Err(Io)
      ensures r.Ok? ==> d in objects && d in leases && leases[d] == HoldersOf(old(leases), d) + {holder}
      ensures d !in objects || !IsHolder(holder) ==> leases == old(leases)
      ensures forall other :: other != d ==> HoldersOf(leases, other) == HoldersOf(old(leases), other)
    {
      if d !in objects {
        return Err(NotFound(d));
      }
      if !IsHolder(holder) {
        return Err(InvalidHolder(holder));
      }
      leases := leases[d := HoldersOf(leases, d) + {holder}];
      return if writes then Ok(()) else Err(Io);
    }

    /** `release_lease`: releasing what is not held succeeds. */
    method ReleaseLease(d: Digest, holder: string, fails: bool) returns (r: Result<(), Error>)
      requires Valid()
      modifies this
      ensures Valid() && objects == old(objects) && honest == old(honest)
      ensures r == if !IsHolder(holder) then Err(InvalidHolder(holder)) else if fails then Err(Io) else Ok(())
      ensures r.Ok? ==> HoldersOf(leases, d) == HoldersOf(old(leases), d) - {holder}
      ensures r.Err? ==> leases == old(leases)
      ensures forall other :: other != d ==> HoldersOf(leases, other) == HoldersOf(old(leases), other)
    {
      if !IsHolder(holder) {
        return Err(InvalidHolder(holder));
      }
      if fails {
        return Err(Io);
      }
      if d in leases {
        leases := leases[d := leases[d] - {holder}];
      }
      return Ok(());
    }

    /** Removes one object that nobody holds. */
    method Reclaim(d: Digest) returns (size: nat)
      requires Valid() && d in objects && HoldersOf(leases, d) == {}
      modifies this
      ensures Valid() && honest == old(honest) && staging == old(staging)
      ensures objects == old(objects) - {d} && old(Total(objects)) == Total(objects) + size
      ensures forall e :: HoldersOf(leases, e) == HoldersOf(old(leases), e)
    {
      TotalWithout(objects, d);
      size := |objects[d]|;
      objects := objects - {d};
      leases := leases - {d};
    }

    /**
     * The object half of `collect_garbage`.  A complete collection leaves
     * exactly the held objects, and the bytes add up; an interrupted one has
     * removed unheld objects only.
     */
    method CollectObjects(fails: nat -> bool) returns (r: Result<(seq<Digest>, nat), Error>)
      requires Valid()
      modifies this
      ensures Valid() && honest == old(honest) && staging == old(staging)
      ensures forall d :: d in old(objects) && d !in objects ==> HoldersOf(old(leases), d) == {}
      ensures forall d :: HoldersOf(leases, d) == HoldersOf(old(leases), d)
      ensures objects.Keys <= old(objects).Keys
      ensures r.Err? ==> exists i :: fails(i)
      ensures r.Ok? ==>
                && objects == Held(old(objects), old(leases))
                && old(Total(objects)) == Total(objects) + r.value.1
                && (forall d :: d in r.value.0 <==> d in old(objects) && d !in objects)
    {
      var list := ListObjects();
      ghost var before, held := objects, leases;
      var removed: seq<Digest>, reclaimed: nat := [], 0;
      for i := 0 to |list|
        invariant Valid() && honest == old(honest) && staging == old(staging)
        invariant Collected(before, held, objects, list, i)
        invariant forall d :: HoldersOf(leases, d) == HoldersOf(held, d)
        invariant Total(before) == Total(objects) + reclaimed
        invariant forall d :: d in removed <==> d in before && d !in objects
      {
        var d := list[i];
        CollectedNext(before, held, objects, list, i);
        if HoldersOf(leases, d) == {} {
          if fails(i) {
            CollectedUnheld(before, held, objects, list, i);
            return Err(Io);
          }
          var size := Reclaim(d);
          reclaimed := reclaimed + size;
          removed := removed + [d];
        }
      }
      CollectedUnheld(before, held, objects, list, |list|);
      CollectedAll(before, held, objects, list);
      return Ok((removed, reclaimed));
    }

    /** `collect_garbage`: also drops staging files past the grace window. */
    method CollectGarbage(fails: nat -> bool) returns (r: Result<GcReport, Error>)
      requires Valid()
      modifies this
      ensures Valid() && honest == old(honest)
      ensures forall d :: HoldersOf(leases, d) == HoldersOf(old(leases), d)
      ensures forall d :: d in old(objects) && HoldersOf(old(leases), d) != {} ==> d in objects
      ensures r.Err? ==> exists i :: fails(i)
      ensures r.Ok? ==>
                && objects == Held(old(objects), old(leases))
                && old(Total(objects)) == Total(objects) + r.value.reclaimed
                && (forall d :: d in r.value.removed <==> d in old(objects) && d !in objects)
                && (forall i :: 0 <= i < |staging| ==> !staging[i].old6h && staging[i] in old(staging))
                && r.value.staging + |staging| == |old(staging)|
    {
      var collected := CollectObjects(fails);
      if collected.Err? {
        return Err(collected.error);
      }
      var kept: seq<Staging>, dropped := [], 0;
      for i := 0 to |staging|
        invariant dropped + |kept| == i
        invariant forall j :: 0 <= j < |kept| ==> !kept[j].old6h && kept[j] in staging
      {
        if staging[i].old6h {
          dropped := dropped + 1;
        } else {
          kept := kept + [staging[i]];
        }
      }
      staging := kept;
      return Ok(GcReport(collected.value.0, collected.value.1, dropped));
    }

    /** `verify_object`: hashes the file again, in whatever pieces it is read, and compares.  It asks nothing of the store. */
    method VerifyObject(d: Digest) returns (r: Result<bool, Error>)
      ensures r == if d in objects then Ok(hash(objects[d]) == d) else Err(NotFound(d))
      ensures Valid() && d in objects ==> r == Ok(true)
    {
      if d !in objects {
        return Err(NotFound(d));
      }
      var file := objects[d];
      var hashed: seq<byte> := [];
      while hashed != file
        invariant hashed <= file
        decreases |file| - |hashed|
      {
        var count: nat :| 1 <= count <= |file| - |hashed|;
        hashed := hashed + file[|hashed|..|hashed| + count];
      }
      return Ok(hash(hashed) == d);
    }
  }

  /** The objects that are not among the first `i` of the list. */
  ghost predicate Uncounted(objects: Objects, list: seq<Digest>, i: nat, left: Objects)
    requires i <= |list|
  {
    && (forall d :: d in left <==> d in objects && d !in list[..i])
    && (forall d :: d in left ==> left[d] == objects[d])
  }

  lemma UncountedNext(objects: Objects, list: seq<Digest>, i: nat, left: Objects)
    requires i < |list| && Uncounted(objects, list, i, left) && list[i] in objects
    requires forall a, b :: 0 <= a < b < |list| ==> list[a] != list[b]
    ensures list[i] in left && left[list[i]] == objects[list[i]]
    ensures Total(left) == |objects[list[i]]| + Total(left - {list[i]})
    ensures Uncounted(objects, list, i + 1, left - {list[i]})
  {
    assert list[i] !in list[..i];
    TotalWithout(left, list[i]);
    assert list[..i + 1] == list[..i] + [list[i]];
  }

  /** After `i` objects of the list: of those, exactly the held ones are left, and the others are all there. */
  ghost predicate Collected(before: Objects, leases: map<Digest, set<string>>, now: Objects, list: seq<Digest>, i: nat)
    requires i <= |list|
  {
    && (forall d :: d in now ==> d in before && now[d] == before[d])
    && (forall j :: 0 <= j < i ==> (list[j] in now <==> HoldersOf(leases, list[j]) != {}))
    && (forall j :: i <= j < |list| ==> list[j] in now)
  }

  lemma CollectedNext(before: Objects, leases: map<Digest, set<string>>, now: Objects, list: seq<Digest>, i: nat)
    requires i < |list| && Collected(before, leases, now, list, i)
    requires forall a, b :: 0 <= a < b < |list| ==> list[a] != list[b]
    ensures Collected(before, leases, if HoldersOf(leases, list[i]) == {} then now - {list[i]} else now, list, i + 1)
  {
  }

  lemma CollectedUnheld(before: Objects, leases: map<Digest, set<string>>, now: Objects, list: seq<Digest>, i: nat)
    requires i <= |list| && Collected(before, leases, now, list, i) && forall d :: d in list <==> d in before
    ensures now.Keys <= before.Keys
    ensures forall d :: d in before && d !in now ==> HoldersOf(leases, d) == {}
  {
    forall d | d in before && d !in now
      ensures HoldersOf(leases, d) == {}
    {
      var j :| 0 <= j < |list| && list[j] == d;
    }
  }

  lemma CollectedAll(before: Objects, leases: map<Digest, set<string>>, now: Objects, list: seq<Digest>)
    requires Collected(before, leases, now, list, |list|) && forall d :: d in list <==> d in before
    ensures now == Held(before, leases)
  {
    forall d | d in before
      ensures d in now <==> HoldersOf(leases, d) != {}
    {
      var j :| 0 <= j < |list| && list[j] == d;
    }
  }

  function HoldersOf(leases: map<Digest, set<string>>, d: Digest): (r: set<string>) {
    if d in leases then leases[d] else {}
  }

  // ----- The ceiling

  /** The one object an import adds does not take the store above its ceiling. */
  ghost predicate KeepsCeiling(objects: Objects, quota: Quota, digest: Digest, data: seq<byte>) {
    digest !in objects && Total(objects) <= quota.maxTotal ==> Total(objects[digest := data]) <= quota.maxTotal
  }

  /** Whatever the store holds and wherever its ceiling is, an accepted declaration keeps it there. */
  ghost predicate AlwaysKeepsCeiling(data: seq<byte>, declared: nat) {
    forall objects: Objects, quota: Quota, available: nat, digest: Digest {:trigger RoomIn(objects, quota, declared, available), KeepsCeiling(objects, quota, digest, data)} ::
      quota.maxTotal < U64_MAX && RoomIn(objects, quota, declared, available) ==> KeepsCeiling(objects, quota, digest, data)
  }

  /** The ceiling is checked against the declared size only: below the largest ceiling it is safe exactly for streams that
      are no longer than declared, or declared so large that no ceiling admits them. */
  lemma CeilingSafeIff(data: seq<byte>, declared: nat)
    ensures AlwaysKeepsCeiling(data, declared) <==> |data| <= declared || declared >= U64_MAX
  {
    if |data| <= declared || declared >= U64_MAX {
      forall objects: Objects, quota: Quota, available: nat, digest: Digest | quota.maxTotal < U64_MAX && RoomIn(objects, quota, declared, available)
        ensures KeepsCeiling(objects, quota, digest, data)
      {
        if digest !in objects {
          TotalWith(objects, digest, data);
        }
      }
    } else {
      var quota := Quota(declared, 0, |data|);
      assert RoomIn(map[], quota, declared, declared);
      TotalWith(map[], 0, data);
      assert !KeepsCeiling(map[], quota, 0, data);
    }
  }

  /** With the largest ceiling the saturating sum refuses nothing: there the ceiling holds exactly when the sum itself does
      not overflow, which no check looks at, and beyond it the next sum stops the process. */
  lemma LargestCeiling(objects: Objects, quota: Quota, digest: Digest, data: seq<byte>, available: nat)
    requires quota.maxTotal == U64_MAX && digest !in objects
    ensures RoomIn(objects, quota, |data|, available) <==>
              Total(objects) <= U64_MAX && |data| <= quota.maxArtifact && SaturatingAdd(|data|, quota.minFree) <= available
    ensures RoomIn(objects, quota, |data|, available) ==>
              (KeepsCeiling(objects, quota, digest, data) <==> Total(objects) + |data| <= U64_MAX)
    ensures Total(objects) + |data| > U64_MAX ==> Total(objects[digest := data]) > U64_MAX
  {
    TotalWith(objects, digest, data);
  }

  /** Every stream longer than its declaration is published above the ceiling of some store, for every hash. */
  method CeilingBroken(hash: seq<byte> -> Digest, data: seq<byte>, declared: nat) returns (store: Store, r: Result<Imported, Error>)
    requires declared < |data| && declared < U64_MAX
    ensures store.Valid() && !store.honest && r == Ok(Imported(hash(data), |data|, false))
    ensures store.quota.maxTotal < Total(store.objects) == |data|
  {
    store := new Store(Quota(declared, 0, |data|), hash);
    assert Flatten([data]) == data by {
      assert [data][..0] == [];
    }
    r := store.Import([data], None, declared, None, declared, true);
  }
}
