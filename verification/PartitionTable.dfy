/** Validation of a declared partition table. */
module PartitionTable {
  import opened Results
  import opened Widths
  import opened Mtdparts

  datatype ManifestError =
    | DuplicateName(name: string) | RemainderNotLast(name: string) | ZeroLength(name: string)
    | Overlapping(first: string, second: string)


  /** `end_sector_exclusive`: none for a remainder, and none when the sum does not fit. */
  function EndSector(e: Entry): (r: Option<nat>)
    ensures r.Some? ==> r.value < U64_LIMIT
  {
    if e.size.Some? && e.offset + e.size.value < U64_LIMIT then Some(e.offset + e.size.value) else None
  }

  function EndOrMax(e: Entry): (n: nat) {
    if EndSector(e).Some? then EndSector(e).value else U64_MAX
  }

  predicate DistinctNames(entries: seq<Entry>) {
    forall i, j :: 0 <= i < j < |entries| ==> entries[i].name != entries[j].name
  }

  predicate SizesHold(entries: seq<Entry>) {
    && (forall i :: 0 <= i < |entries| - 1 ==> entries[i].size.Some?)
    && (forall i :: 0 <= i < |entries| ==> entries[i].size != Some(0))
  }

  /** The comparison the code makes: only a left entry with a representable end is compared. */
  predicate Clash(left: Entry, right: Entry) {
    EndSector(left).Some? && left.offset < EndOrMax(right) && right.offset < EndSector(left).value
  }

  predicate NoClash(entries: seq<Entry>) {
    forall i, j :: 0 <= i < j < |entries| ==> !Clash(entries[i], entries[j])
  }

  method CheckNames(entries: seq<Entry>) returns (r: Result<(), ManifestError>)
    ensures r.Ok? <==> DistinctNames(entries)
    ensures r.Err? ==> r.error.DuplicateName?
  {
    var seen: set<string> := {};
    for i := 0 to |entries|
      invariant DistinctNames(entries[..i])
      invariant forall name :: name in seen <==> exists j :: 0 <= j < i && entries[j].name == name
    {
      if entries[i].name in seen {
        return Err(DuplicateName(entries[i].name));
      }
      seen := seen + {entries[i].name};
    }
    assert entries[..|entries|] == entries;
    return Ok(());
  }

  method CheckSizes(entries: seq<Entry>) returns (r: Result<(), ManifestError>)
    ensures r.Ok? <==> SizesHold(entries)
  {
    for i := 0 to |entries|
      invariant forall j :: 0 <= j < i ==> (j + 1 != |entries| ==> entries[j].size.Some?) && entries[j].size != Some(0)
    {
      if entries[i].size.None? && i + 1 != |entries| {
        return Err(RemainderNotLast(entries[i].name));
      }
      if entries[i].size == Some(0) {
        return Err(ZeroLength(entries[i].name));
      }
    }
    return Ok(());
  }

  method CheckOverlaps(entries: seq<Entry>) returns (r: Result<(), ManifestError>)
    ensures r.Ok? <==> NoClash(entries)
  {
    for i := 0 to |entries|
      invariant forall a, b :: 0 <= a < i && a < b < |entries| ==> !Clash(entries[a], entries[b])
    {
      if EndSector(entries[i]).Some? {
        for j := i + 1 to |entries|
          invariant forall b :: i < b < j ==> !Clash(entries[i], entries[b])
        {
          if Clash(entries[i], entries[j]) {
            return Err(Overlapping(entries[i].name, entries[j].name));
          }
        }
      }
    }
    return Ok(());
  }

  /** `validate`, exactly: the three conditions, in the code's own terms. */
  method Validate(table: Table) returns (r: Result<(), ManifestError>)
    ensures r.Ok? <==> DistinctNames(table.entries) && SizesHold(table.entries) && NoClash(table.entries)
  {
    r := CheckNames(table.entries);
    if r.Err? {
      return;
    }
    r := CheckSizes(table.entries);
    if r.Err? {
      return;
    }
    r := CheckOverlaps(table.entries);
  }

  // ----- What that means for sectors

  /** The sectors of an entry; a remainder is open-ended. */
  predicate Holds(e: Entry, sector: nat) {
    e.offset <= sector < if e.size.Some? then e.offset + e.size.value else U64_MAX
  }

  ghost predicate Disjoint(a: Entry, b: Entry) {
    forall sector: nat :: !(Holds(a, sector) && Holds(b, sector))
  }

  ghost predicate PairwiseDisjoint(entries: seq<Entry>) {
    forall i, j :: 0 <= i < j < |entries| ==> Disjoint(entries[i], entries[j])
  }

  /** Offsets are 64-bit words. */
  predicate OffsetsFit(entries: seq<Entry>) {
    forall i :: 0 <= i < |entries| ==> entries[i].offset < U64_LIMIT
  }

  /** Every entry that is compared with later ones has an end that fits; the last one may have any. */
  predicate LeftEndsFit(entries: seq<Entry>) {
    forall i :: 0 <= i < |entries| - 1 ==> EndSector(entries[i]).Some?
  }

  /** The pairs the code looks at do not share a sector. */
  ghost predicate ComparedDisjoint(entries: seq<Entry>) {
    forall i, j :: 0 <= i < j < |entries| && EndSector(entries[i]).Some? ==> Disjoint(entries[i], entries[j])
  }

  /** Whether an entry goes beyond the start of one whose end does not fit. */
  predicate Reaches(e: Entry, start: nat) {
    if e.size.Some? then start < e.offset + e.size.value else e.offset < U64_MAX && start < U64_MAX
  }

  /** No entry without a representable end is followed by one that reaches into it. */
  predicate NothingMissed(entries: seq<Entry>) {
    forall i, j :: 0 <= i < j < |entries| && EndSector(entries[i]).None? ==> !Reaches(entries[j], entries[i].offset)
  }

  lemma ClashIsOverlap(left: Entry, right: Entry)
    requires EndSector(left).Some? && left.size.value > 0 && right.size != Some(0)
    ensures Clash(left, right) <==> !Disjoint(left, right)
  {
    if Clash(left, right) {
      var sector := if left.offset < right.offset then right.offset else left.offset;
      assert Holds(left, sector) && Holds(right, sector);
    }
  }

  lemma ReachIsOverlap(left: Entry, right: Entry)
    requires left.size.Some? && EndSector(left).None? && left.offset < U64_LIMIT
    requires right.size != Some(0) && right.offset < U64_LIMIT
    ensures Reaches(right, left.offset) <==> !Disjoint(left, right)
  {
    if Reaches(right, left.offset) {
      var sector := if left.offset < right.offset then right.offset else left.offset;
      assert Holds(left, sector) && Holds(right, sector);
    }
  }

  /** The comparison is disjointness of the sector sets, on exactly the pairs whose left end fits. */
  lemma AcceptedIffDisjoint(entries: seq<Entry>)
    requires SizesHold(entries)
    ensures NoClash(entries) <==> ComparedDisjoint(entries)
  {
    forall i, j | 0 <= i < j < |entries| && EndSector(entries[i]).Some?
      ensures Clash(entries[i], entries[j]) <==> !Disjoint(entries[i], entries[j])
    {
      ClashIsOverlap(entries[i], entries[j]);
    }
  }

  /** What the comparison leaves open is decided by where the later entries end. */
  lemma DisjointIffNothingMissed(entries: seq<Entry>)
    requires OffsetsFit(entries) && SizesHold(entries)
    ensures PairwiseDisjoint(entries) <==> ComparedDisjoint(entries) && NothingMissed(entries)
  {
    forall i, j | 0 <= i < j < |entries| && EndSector(entries[i]).None?
      ensures Reaches(entries[j], entries[i].offset) <==> !Disjoint(entries[i], entries[j])
    {
      ReachIsOverlap(entries[i], entries[j]);
    }
  }

  /**
   * `validate` on sectors, for every table.  It is exact on the pairs it
   * compares; an accepted table is a layout exactly when nothing was missed; and
   * nothing is missed when every end but the last one fits.
   */
  method ValidateLayout(table: Table) returns (r: Result<(), ManifestError>)
    requires OffsetsFit(table.entries)
    ensures r.Ok? <==> DistinctNames(table.entries) && SizesHold(table.entries) && ComparedDisjoint(table.entries)
    ensures r.Ok? ==> (PairwiseDisjoint(table.entries) <==> NothingMissed(table.entries))
    ensures LeftEndsFit(table.entries) ==>
              (r.Ok? <==> DistinctNames(table.entries) && SizesHold(table.entries) && PairwiseDisjoint(table.entries))
  {
    r := Validate(table);
    if SizesHold(table.entries) {
      AcceptedIffDisjoint(table.entries);
      DisjointIffNothingMissed(table.entries);
    }
  }

  /**
   * When an end does not fit, overlaps go unseen: for every such left entry and
   * every entry behind it, the pair passes the comparison.
   */
  lemma OverflowIsNotCompared(left: Entry, right: Entry)
    requires left.size.Some? && left.offset + left.size.value >= U64_LIMIT
    ensures !Clash(left, right)
    ensures left.offset <= right.offset < U64_LIMIT && right.size != Some(0) && right.size.Some? ==> !Disjoint(left, right)
  {
    if left.offset <= right.offset < U64_LIMIT && right.size != Some(0) && right.size.Some? {
      assert Holds(left, right.offset) && Holds(right, right.offset);
    }
  }

  /** A table of two overlapping partitions that the checks let through. */
  lemma OverlapAccepted() returns (entries: seq<Entry>)
    ensures DistinctNames(entries) && SizesHold(entries) && NoClash(entries) && !PairwiseDisjoint(entries)
  {
    var a := Entry(0, "a", 16, Some(U64_MAX), None, Fixed);
    var b := Entry(1, "b", 32, Some(8), None, Fixed);
    entries := [a, b];
    OverflowIsNotCompared(a, b);
    assert !Disjoint(entries[0], entries[1]);
  }
}
