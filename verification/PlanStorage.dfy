/**
 * Immutable plan files, published by write, sync, hard link and directory sync,
 * as a step system: any number of `persist` calls interleave, every file
 * operation may fail, and the machine may crash between any two steps.
 */
module PlanStorage {
  import opened Bits
  import opened Results

  /** The hash of a plan identifier: what the published file name is made of. */
  type Key = nat

  datatype Name = Target(key: Key) | Pending(nonce: nat)

  /** A file: what readers see, and whether that is known to be on the medium. */
  datatype Inode = Inode(content: seq<byte>, synced: bool)

  const MAX_STORAGE_BYTES: nat := 8 * 1024 * 1024

  datatype Pc = Begin | ComparingEarly | Staging | Writing | Syncing | Linking | ComparingLate | SyncingDir | Cleaning | Done

  /** One `persist` call. */
  datatype Call = Call(key: Key, bytes: seq<byte>, pc: Pc, nonce: nat, ino: nat, written: nat, ok: bool)

  datatype Request = Request(key: Key, bytes: seq<byte>)

  datatype State = State(
    inodes: map<nat, Inode>,
    dir: map<Name, nat>,
    /** The names the last directory sync, or the last boot, found on the medium. */
    synced: map<Name, nat>,
    /** Every name that was ever given to a file. */
    linked: set<(Name, nat)>,
    calls: map<nat, Call>,
    /** History: what was ever asked for, what was answered Ok since the last boot, and what was answered Ok
        after the call's own directory sync. */
    requests: set<Request>,
    acks: set<Request>,
    durable: set<Request>)

  predicate Init(s: State) {
    s == State(map[], map[], map[], {}, map[], {}, {}, {})
  }

  datatype Action =
    | Invoke(c: nat, request: Request)
    | Refuse(c: nat)
    | FindExisting(c: nat)
    | FindNothing(c: nat)
    | CompareEarly(c: nat, ioError: bool)
    | Stage(c: nat, nonce: nat, ino: nat)
    | Write(c: nat, upTo: nat)
    | Sync(c: nat)
    | Link(c: nat)
    | LinkExists(c: nat)
    | CompareLate(c: nat, ioError: bool)
    | SyncDir(c: nat)
    | Fail(c: nat)
    | Clean(c: nat, removed: bool)
    | Crash(found: map<Name, nat>, files: map<nat, Inode>)

  predicate At(s: State, c: nat, pc: Pc) {
    c in s.calls && s.calls[c].pc == pc
  }

  function Move(s: State, c: nat, call: Call): (r: State) {
    s.(calls := s.calls[c := call])
  }

  /** `verify_existing`: within the size bound and equal to the caller's bytes. */
  predicate Matches(s: State, name: Name, bytes: seq<byte>) {
    name in s.dir && s.dir[name] in s.inodes
    && |s.inodes[s.dir[name]].content| <= MAX_STORAGE_BYTES && s.inodes[s.dir[name]].content == bytes
  }

  /** What a crash may leave: any names that were ever given, all those known to be on the medium, and arbitrary bytes in
      files that were not synced. */
  ghost predicate Survives(s: State, found: map<Name, nat>, files: map<nat, Inode>) {
    && (forall n :: n in found ==> (n, found[n]) in s.linked)
    && (forall n :: n in s.synced && n.Target? ==> n in found && found[n] == s.synced[n])
    && files.Keys == s.inodes.Keys
    && (forall i :: i in s.inodes && s.inodes[i].synced ==> files[i] == s.inodes[i])
  }

  ghost predicate Next(s: State, t: State, a: Action) {
    match a
    case Invoke(c, r) =>
      && c !in s.calls
      && t == s.(calls := s.calls[c := Call(r.key, r.bytes, Begin, 0, 0, 0, false)], requests := s.requests + {r})
    case Refuse(c) =>
      && (At(s, c, Begin) || At(s, c, Staging))
      && t == Move(s, c, s.calls[c].(pc := Done))
    case FindExisting(c) =>
      && At(s, c, Begin) && Target(s.calls[c].key) in s.dir
      && t == Move(s, c, s.calls[c].(pc := ComparingEarly))
    case FindNothing(c) =>
      && At(s, c, Begin) && Target(s.calls[c].key) !in s.dir
      && t == Move(s, c, s.calls[c].(pc := Staging))
    case CompareEarly(c, ioError) =>
      && At(s, c, ComparingEarly)
      && var call := s.calls[c];
      var ok := !ioError && Matches(s, Target(call.key), call.bytes);
      t == Move(s, c, call.(pc := Done, ok := ok)).(acks := s.acks + if ok then {Request(call.key, call.bytes)} else {})
    case Stage(c, nonce, ino) =>
      && At(s, c, Staging) && Pending(nonce) !in s.dir && ino !in s.inodes
      && t == Move(s, c, s.calls[c].(pc := Writing, nonce := nonce, ino := ino, written := 0))
              .(inodes := s.inodes[ino := Inode([], false)],
                dir := s.dir[Pending(nonce) := ino], linked := s.linked + {(Pending(nonce), ino)})
    case Write(c, upTo) =>
      && At(s, c, Writing) && s.calls[c].written <= upTo <= |s.calls[c].bytes|
      && var call := s.calls[c];
      t == Move(s, c, call.(pc := if upTo == |call.bytes| then Syncing else Writing, written := upTo))
           .(inodes := s.inodes[call.ino := Inode(call.bytes[..upTo], false)])
    case Sync(c) =>
      && At(s, c, Syncing) && s.calls[c].ino in s.inodes
      && var call := s.calls[c];
      t == Move(s, c, call.(pc := Linking)).(inodes := s.inodes[call.ino := s.inodes[call.ino].(synced := true)])
    case Link(c) =>
      && At(s, c, Linking) && Target(s.calls[c].key) !in s.dir
      && var call := s.calls[c];
      t == Move(s, c, call.(pc := SyncingDir))
           .(dir := s.dir[Target(call.key) := call.ino], linked := s.linked + {(Target(call.key), call.ino)})
    case LinkExists(c) =>
      && At(s, c, Linking) && Target(s.calls[c].key) in s.dir
      && t == Move(s, c, s.calls[c].(pc := ComparingLate))
    case CompareLate(c, ioError) =>
      && At(s, c, ComparingLate)
      && var call := s.calls[c];
      t == Move(s, c, call.(pc := if !ioError && Matches(s, Target(call.key), call.bytes) then SyncingDir else Cleaning))
    case SyncDir(c) =>
      && At(s, c, SyncingDir)
      && t == Move(s, c, s.calls[c].(pc := Cleaning, ok := true)).(synced := s.dir)
    case Fail(c) =>
      && (At(s, c, Writing) || At(s, c, Syncing) || At(s, c, Linking) || At(s, c, SyncingDir))
      && t == Move(s, c, s.calls[c].(pc := Cleaning))
    case Clean(c, removed) =>
      && At(s, c, Cleaning)
      && var call := s.calls[c];
      var acked := if call.ok then {Request(call.key, call.bytes)} else {};
      t == Move(s, c, call.(pc := Done))
           .(dir := if removed then s.dir - {Pending(call.nonce)} else s.dir,
             acks := s.acks + acked, durable := s.durable + acked)
    case Crash(found, files) =>
      && Survives(s, found, files)
      && t == s.(inodes := files, dir := found, synced := found, calls := map[], acks := {})
  }

  // ----- The invariant

  /** The file holds the complete bytes of some caller, and they are on the medium. */
  ghost predicate Sealed(s: State, key: Key, ino: nat) {
    ino in s.inodes && s.inodes[ino].synced && Request(key, s.inodes[ino].content) in s.requests
  }

  ghost predicate Published(s: State, r: Request) {
    Target(r.key) in s.dir && s.dir[Target(r.key)] in s.inodes && s.inodes[s.dir[Target(r.key)]].content == r.bytes
  }

  ghost predicate LinksSealed(s: State) {
    forall n, i :: (n, i) in s.linked ==> i in s.inodes && (n.Target? ==> Sealed(s, n.key, i))
  }

  ghost predicate DirLinked(s: State) {
    forall n :: n in s.dir ==> (n, s.dir[n]) in s.linked
  }

  ghost predicate SyncedKept(s: State) {
    forall n :: n in s.synced && n.Target? ==> n in s.dir && s.dir[n] == s.synced[n]
  }

  predicate HasFile(pc: Pc) {
    pc == Writing || pc == Syncing || pc == Linking
  }

  /** A file still being written has no published name and one owner. */
  ghost predicate Private(s: State, c: nat)
    requires c in s.calls
  {
    forall n, i :: (n, i) in s.linked && n.Target? && i == s.calls[c].ino ==> s.calls[c].pc == Linking
  }

  ghost predicate CallOk(s: State, c: nat)
    requires c in s.calls
  {
    var call := s.calls[c];
    && Request(call.key, call.bytes) in s.requests
    && (HasFile(call.pc) ==> call.ino in s.inodes && Private(s, c))
    && (call.pc == Writing ==> call.written <= |call.bytes|)
    && (call.pc == Syncing ==> s.inodes[call.ino].content == call.bytes)
    && (call.pc == Linking ==> s.inodes[call.ino] == Inode(call.bytes, true))
    && (call.pc == SyncingDir ==> Published(s, Request(call.key, call.bytes)))
    && (call.pc == Cleaning && call.ok ==> Published(s, Request(call.key, call.bytes)) && Target(call.key) in s.synced)
    && (call.ok ==> call.pc == Cleaning || call.pc == Done)
  }

  ghost predicate CallsOk(s: State) {
    forall c :: c in s.calls ==> CallOk(s, c)
  }

  ghost predicate OneOwner(s: State) {
    forall c, d :: c in s.calls && d in s.calls && c != d && HasFile(s.calls[c].pc) && HasFile(s.calls[d].pc)
                   ==> s.calls[c].ino != s.calls[d].ino
  }

  ghost predicate AcksHold(s: State) {
    && (forall r :: r in s.acks ==> Published(s, r))
    && (forall r :: r in s.durable ==> Published(s, r) && Target(r.key) in s.synced)
  }

  ghost predicate Inv(s: State) {
    LinksSealed(s) && DirLinked(s) && SyncedKept(s) && CallsOk(s) && OneOwner(s) && AcksHold(s)
  }

  lemma InitInv(s: State)
    requires Init(s)
    ensures Inv(s)
  {
  }

  /** No step but a crash touches a file that has a published name. */
  lemma SealedStays(s: State, t: State, a: Action, key: Key, i: nat)
    requires Inv(s) && Next(s, t, a) && !a.Crash? && (Target(key), i) in s.linked
    ensures i in t.inodes && t.inodes[i] == s.inodes[i]
  {
    if a.Write? || a.Sync? {
      assert CallOk(s, a.c);
    }
  }

  /** Between crashes a published name keeps its file, and the file its bytes. */
  lemma Immutable(s: State, t: State, a: Action, key: Key)
    requires Inv(s) && Next(s, t, a) && !a.Crash? && Target(key) in s.dir
    ensures Target(key) in t.dir && t.dir[Target(key)] == s.dir[Target(key)]
    ensures s.dir[Target(key)] in t.inodes && t.inodes[s.dir[Target(key)]] == s.inodes[s.dir[Target(key)]]
  {
    SealedStays(s, t, a, key, s.dir[Target(key)]);
  }

  lemma StaysPublished(s: State, t: State, a: Action, r: Request)
    requires Inv(s) && Next(s, t, a) && !a.Crash? && Published(s, r)
    ensures Published(t, r)
  {
    Immutable(s, t, a, r.key);
  }

  lemma LinksStaySealed(s: State, t: State, a: Action)
    requires Inv(s) && Next(s, t, a)
    ensures LinksSealed(t)
  {
    forall n, i | (n, i) in t.linked
      ensures i in t.inodes && (n.Target? ==> Sealed(t, n.key, i))
    {
      if (n, i) in s.linked {
        if n.Target? && !a.Crash? {
          SealedStays(s, t, a, n.key, i);
        }
      } else {
        assert a.Link? || a.Stage?;
        assert CallOk(s, a.c);
      }
    }
  }

  lemma DirStaysLinked(s: State, t: State, a: Action)
    requires Inv(s) && Next(s, t, a)
    ensures DirLinked(t) && SyncedKept(t)
  {
    if !a.Crash? {
      forall n | n in s.synced && n.Target?
        ensures n in t.dir && t.dir[n] == s.synced[n]
      {
        Immutable(s, t, a, n.key);
      }
    }
  }

  /** A call that does not move keeps its part of the invariant. */
  lemma OthersOk(s: State, t: State, a: Action, d: nat)
    requires Inv(s) && Next(s, t, a) && !a.Crash? && d in s.calls && a.c != d
    ensures d in t.calls && CallOk(t, d)
  {
    assert CallOk(s, d);
    var call := s.calls[d];
    assert t.calls[d] == call;
    var r := Request(call.key, call.bytes);
    if Published(s, r) {
      StaysPublished(s, t, a, r);
    }
    if a.Write? || a.Sync? || a.Link? {
      FilesApart(s, t, a, d);
    }
  }

  lemma FilesApart(s: State, t: State, a: Action, d: nat)
    requires Inv(s) && Next(s, t, a) && (a.Write? || a.Sync? || a.Link?) && d in s.calls && a.c != d
    ensures CallOk(t, d)
  {
    assert CallOk(s, a.c) && CallOk(s, d);
    var r := Request(s.calls[d].key, s.calls[d].bytes);
    if Published(s, r) {
      StaysPublished(s, t, a, r);
    }
  }

  lemma MoverOk(s: State, t: State, a: Action)
    requires Inv(s) && Next(s, t, a) && !a.Crash?
    ensures CallOk(t, a.c)
  {
    if a.Write? || a.Sync? || a.Link? {
      FileMoverOk(s, t, a);
    } else if !a.Invoke? {
      assert CallOk(s, a.c);
    }
  }

  lemma FileMoverOk(s: State, t: State, a: Action)
    requires Inv(s) && Next(s, t, a) && (a.Write? || a.Sync? || a.Link?)
    ensures CallOk(t, a.c)
  {
    assert CallOk(s, a.c);
  }

  lemma StepInv(s: State, t: State, a: Action)
    requires Inv(s) && Next(s, t, a)
    ensures Inv(t)
  {
    LinksStaySealed(s, t, a);
    DirStaysLinked(s, t, a);
    if !a.Crash? {
      forall d | d in t.calls ensures CallOk(t, d) {
        if d == a.c {
          MoverOk(s, t, a);
        } else {
          OthersOk(s, t, a, d);
        }
      }
      OwnersStay(s, t, a);
      AcksStay(s, t, a);
    }
  }

  lemma OwnersStay(s: State, t: State, a: Action)
    requires Inv(s) && Next(s, t, a)
    ensures OneOwner(t)
  {
    if a.Stage? {
      forall d | d in s.calls && d != a.c && HasFile(s.calls[d].pc)
        ensures s.calls[d].ino != a.ino
      {
        assert CallOk(s, d);
      }
    }
  }

  lemma AcksStay(s: State, t: State, a: Action)
    requires Inv(s) && Next(s, t, a)
    ensures AcksHold(t)
  {
    if !a.Crash? {
      forall r | Published(s, r) ensures Published(t, r) {
        StaysPublished(s, t, a, r);
      }
      if !a.Invoke? {
        assert CallOk(s, a.c);
      }
    } else {
      forall r | r in s.durable ensures Published(t, r) {
        assert Target(r.key) in s.synced;
        assert (Target(r.key), s.dir[Target(r.key)]) in s.linked;
      }
    }
  }

  // ----- Runs

  function Front(acts: seq<Action>): (r: seq<Action>)
    requires acts != []
    ensures |r| < |acts|
  {
    acts[..|acts| - 1]
  }

  function Last(acts: seq<Action>): (a: Action)
    requires acts != []
  {
    acts[|acts| - 1]
  }

  ghost predicate Leads(s: State, acts: seq<Action>, t: State)
    decreases |acts|
  {
    if acts == [] then s == t
    else exists m :: Leads(s, Front(acts), m) && Next(m, t, Last(acts))
  }

  ghost predicate Reachable(t: State) {
    exists s, acts :: Init(s) && Leads(s, acts, t)
  }

  lemma {:induction false} LeadsInv(s: State, acts: seq<Action>, t: State)
    requires Inv(s) && Leads(s, acts, t)
    ensures Inv(t)
    decreases |acts|
  {
    if acts == [] {
    } else {
      var m :| Leads(s, Front(acts), m) && Next(m, t, Last(acts));
      LeadsInv(s, Front(acts), m);
      StepInv(m, t, Last(acts));
    }
  }

  lemma ReachableInv(t: State)
    requires Reachable(t)
    ensures Inv(t)
  {
    var s, acts :| Init(s) && Leads(s, acts, t);
    LeadsInv(s, acts, t);
  }

  /** In every reachable state, also after crashes, a published name holds some caller's complete bytes, and they are on
      the medium. */
  lemma PublishedIsComplete(s: State, key: Key)
    requires Reachable(s) && Target(key) in s.dir
    ensures Sealed(s, key, s.dir[Target(key)])
  {
    ReachableInv(s);
  }

  /** While the machine stays up, a published name never changes its bytes, whoever writes. */
  lemma {:induction false} NeverChanges(s: State, acts: seq<Action>, t: State, key: Key)
    requires Inv(s) && Leads(s, acts, t) && Target(key) in s.dir
    requires forall i :: 0 <= i < |acts| ==> !acts[i].Crash?
    ensures Target(key) in t.dir && t.dir[Target(key)] == s.dir[Target(key)]
    ensures s.dir[Target(key)] in t.inodes && s.dir[Target(key)] in s.inodes
    ensures t.inodes[s.dir[Target(key)]] == s.inodes[s.dir[Target(key)]]
    decreases |acts|
  {
    assert (Target(key), s.dir[Target(key)]) in s.linked;
    if acts == [] {
    } else {
      var m :| Leads(s, Front(acts), m) && Next(m, t, Last(acts));
      NeverChanges(s, Front(acts), m, key);
      LeadsInv(s, Front(acts), m);
      Immutable(m, t, Last(acts), key);
    }
  }

  lemma DurableStep(s: State, t: State, a: Action)
    requires Next(s, t, a)
    ensures s.durable <= t.durable
  {
  }

  lemma {:induction false} DurableGrows(s: State, acts: seq<Action>, t: State)
    requires Leads(s, acts, t)
    ensures s.durable <= t.durable
    decreases |acts|
  {
    if acts == [] {
    } else {
      var m :| Leads(s, Front(acts), m) && Next(m, t, Last(acts));
      DurableGrows(s, Front(acts), m);
      DurableStep(m, t, Last(acts));
    }
  }

  /** A plan whose call synced the directory itself is published with the caller's bytes forever after, through any number
      of crashes. */
  lemma DurableForever(s: State, acts: seq<Action>, t: State, r: Request)
    requires Reachable(s) && Leads(s, acts, t) && r in s.durable
    ensures Published(t, r)
  {
    ReachableInv(s);
    LeadsInv(s, acts, t);
    DurableGrows(s, acts, t);
  }

  /** Callers of one identifier that succeed agree: with every caller that synced the directory, across crashes, and with
      each other since the last boot. */
  lemma SuccessesAgree(s: State, acts: seq<Action>, t: State, a: Request, b: Request)
    requires Reachable(s) && Leads(s, acts, t) && a.key == b.key
    requires a in s.durable || a in t.acks
    requires b in t.acks || b in t.durable
    ensures a == b
  {
    ReachableInv(s);
    LeadsInv(s, acts, t);
    DurableGrows(s, acts, t);
    assert Published(t, a) && Published(t, b);
  }

  /** Success says what is published at that moment: an acknowledged plan is there, with those bytes. */
  lemma AcknowledgedIsPublished(s: State, r: Request)
    requires Reachable(s) && (r in s.acks || r in s.durable)
    ensures Published(s, r) && r in s.requests
  {
    ReachableInv(s);
    assert Target(r.key) in s.dir && (Target(r.key), s.dir[Target(r.key)]) in s.linked;
  }

  /** What is on the medium stays published, step by step. */
  lemma KeptStep(s: State, t: State, a: Action, r: Request)
    requires Inv(s) && Next(s, t, a) && Published(s, r) && Target(r.key) in s.synced
    ensures Published(t, r) && Target(r.key) in t.synced
  {
    if a.Crash? {
      assert t.dir[Target(r.key)] == s.synced[Target(r.key)];
      assert (Target(r.key), s.dir[Target(r.key)]) in s.linked;
    } else {
      StaysPublished(s, t, a, r);
    }
  }

  lemma {:induction false} KeptForever(s: State, acts: seq<Action>, t: State, r: Request)
    requires Inv(s) && Leads(s, acts, t) && Published(s, r) && Target(r.key) in s.synced
    ensures Published(t, r) && Target(r.key) in t.synced
    decreases |acts|
  {
    if acts == [] {
    } else {
      var m :| Leads(s, Front(acts), m) && Next(m, t, Last(acts));
      KeptForever(s, Front(acts), m, r);
      LeadsInv(s, Front(acts), m);
      KeptStep(m, t, Last(acts), r);
    }
  }

  /** The crash that keeps only what is on the medium. */
  lemma LostInCrash(s: State, r: Request) returns (t: State)
    requires Inv(s) && Target(r.key) !in s.synced
    ensures Later(s, t) && !Published(t, r)
  {
    var found := map n | n in s.synced && n.Target? :: s.synced[n];
    t := s.(dir := found, synced := found, calls := map[], acks := {});
    assert forall n :: n in found ==> (n, found[n]) in s.linked;
    assert Survives(s, found, s.inodes);
    LaterNow(s);
    LaterOn(s, s, Crash(found, s.inodes), t);
  }

  /**
   * An acknowledged plan is published after every later run, whatever crashes
   * it holds, exactly when its name is on the medium.  The early return syncs
   * nothing, so its success alone does not give that.
   */
  lemma SurvivesIffSynced(s: State, r: Request)
    requires Reachable(s) && r in s.acks
    ensures (forall t :: Later(s, t) ==> Published(t, r)) <==> Target(r.key) in s.synced
  {
    ReachableInv(s);
    if Target(r.key) in s.synced {
      forall t | Later(s, t) ensures Published(t, r) {
        var acts :| Leads(s, acts, t);
        KeptForever(s, acts, t, r);
      }
    } else {
      var t := LostInCrash(s, r);
    }
  }

  // ----- What puts a name on the medium

  /** A run with all its states. */
  ghost predicate Run(states: seq<State>, acts: seq<Action>) {
    && |states| == |acts| + 1 && Init(states[0])
    && forall i :: 0 <= i < |acts| ==> Next(states[i], states[i + 1], acts[i])
  }

  predicate LinksKey(s: State, a: Action, key: Key) {
    a.Link? && a.c in s.calls && s.calls[a.c].key == key
  }

  lemma {:induction false} RunInv(states: seq<State>, acts: seq<Action>, i: nat)
    requires Run(states, acts) && i <= |acts|
    ensures Inv(states[i])
  {
    if i == 0 {
      InitInv(states[0]);
    } else {
      RunInv(states, acts, i - 1);
      StepInv(states[i - 1], states[i], acts[i - 1]);
    }
  }

  lemma {:induction false} RunIsReachable(states: seq<State>, acts: seq<Action>, i: nat)
    requires Run(states, acts) && i <= |acts|
    ensures Leads(states[0], acts[..i], states[i])
  {
    if i == 0 {
      assert acts[..0] == [];
    } else {
      RunIsReachable(states, acts, i - 1);
      assert Front(acts[..i]) == acts[..i - 1] && Last(acts[..i]) == acts[i - 1];
    }
  }

  /** A name that was ever given to a file was given by a link. */
  lemma {:induction false} LinkedByLink(states: seq<State>, acts: seq<Action>, i: nat, key: Key, ino: nat) returns (j: nat)
    requires Run(states, acts) && i <= |acts| && (Target(key), ino) in states[i].linked
    ensures j < i && LinksKey(states[j], acts[j], key)
  {
    if (Target(key), ino) in states[i - 1].linked {
      j := LinkedByLink(states, acts, i - 1, key, ino);
    } else {
      j := i - 1;
    }
  }

  lemma SyncedStep(s: State, t: State, a: Action, key: Key)
    requires Inv(s) && Next(s, t, a)
    ensures Target(key) in s.synced ==> Target(key) in t.synced
    ensures Target(key) in t.synced && Target(key) !in s.synced ==> (a.SyncDir? || a.Crash?) && Target(key) in t.dir
    ensures (a.SyncDir? || a.Crash?) && Target(key) in t.dir ==> Target(key) in t.synced
    ensures (a.SyncDir? || a.Crash?) && Target(key) in t.dir ==> exists ino :: (Target(key), ino) in s.linked
  {
    if (a.SyncDir? || a.Crash?) && Target(key) in t.dir {
      assert (Target(key), t.dir[Target(key)]) in s.linked;
    }
  }

  ghost predicate LinksAt(states: seq<State>, acts: seq<Action>, j: nat, key: Key)
    requires |states| == |acts| + 1 && j < |acts|
  {
    LinksKey(states[j], acts[j], key)
  }

  /** A directory sync, or a boot, that found the name. */
  ghost predicate FindsAt(states: seq<State>, acts: seq<Action>, i: nat, key: Key)
    requires |states| == |acts| + 1 && i < |acts|
  {
    (acts[i].SyncDir? || acts[i].Crash?) && Target(key) in states[i + 1].dir
  }

  /** A link of the name, and behind it a sync or a boot that found it. */
  ghost predicate SyncFollows(states: seq<State>, acts: seq<Action>, n: nat, key: Key)
    requires |states| == |acts| + 1 && n <= |acts|
  {
    exists j: nat, i: nat :: j < i < n && LinksAt(states, acts, j, key) && FindsAt(states, acts, i, key)
  }

  lemma FollowsMore(states: seq<State>, acts: seq<Action>, n: nat, key: Key)
    requires |states| == |acts| + 1 && n < |acts|
    ensures SyncFollows(states, acts, n, key) ==> SyncFollows(states, acts, n + 1, key)
    ensures SyncFollows(states, acts, n + 1, key) && !SyncFollows(states, acts, n, key) ==> FindsAt(states, acts, n, key)
  {
    if SyncFollows(states, acts, n + 1, key) {
      var j: nat, i: nat :| j < i < n + 1 && LinksAt(states, acts, j, key) && FindsAt(states, acts, i, key);
    }
  }

  lemma FollowsNow(states: seq<State>, acts: seq<Action>, n: nat, key: Key)
    requires Run(states, acts) && n < |acts| && FindsAt(states, acts, n, key)
    ensures SyncFollows(states, acts, n + 1, key)
  {
    RunInv(states, acts, n);
    SyncedStep(states[n], states[n + 1], acts[n], key);
    var ino :| (Target(key), ino) in states[n].linked;
    var j := LinkedByLink(states, acts, n, key, ino);
    assert LinksAt(states, acts, j, key);
  }

  lemma SyncedNext(states: seq<State>, acts: seq<Action>, n: nat, key: Key)
    requires Run(states, acts) && n < |acts|
    ensures Target(key) in states[n + 1].synced <==> Target(key) in states[n].synced || FindsAt(states, acts, n, key)
  {
    RunInv(states, acts, n);
    SyncedStep(states[n], states[n + 1], acts[n], key);
  }

  lemma {:induction false} SyncedIffFollowed(states: seq<State>, acts: seq<Action>, n: nat, key: Key)
    requires Run(states, acts) && n <= |acts|
    ensures Target(key) in states[n].synced <==> SyncFollows(states, acts, n, key)
  {
    if n == 0 {
    } else {
      SyncedIffFollowed(states, acts, n - 1, key);
      SyncedNext(states, acts, n - 1, key);
      FollowsMore(states, acts, n - 1, key);
      if FindsAt(states, acts, n - 1, key) {
        FollowsNow(states, acts, n - 1, key);
      }
    }
  }

  /**
   * On runs: an acknowledged plan survives whatever comes exactly when a
   * directory sync, or a boot that found the name, followed the link of its
   * name.  Whether the acknowledged call made that sync does not matter.
   */
  lemma SurvivesIffSyncFollowed(states: seq<State>, acts: seq<Action>, r: Request)
    requires Run(states, acts) && r in states[|acts|].acks
    ensures (forall t :: Later(states[|acts|], t) ==> Published(t, r)) <==> SyncFollows(states, acts, |acts|, r.key)
  {
    RunIsReachable(states, acts, |acts|);
    SurvivesIffSynced(states[|acts|], r);
    SyncedIffFollowed(states, acts, |acts|, r.key);
  }

  // ----- A run in which the early return is not durable

  ghost predicate Later(s: State, t: State) {
    exists acts :: Leads(s, acts, t)
  }

  lemma LaterOn(s: State, m: State, a: Action, t: State)
    requires Later(s, m) && Next(m, t, a)
    ensures Later(s, t)
  {
    var acts :| Leads(s, acts, m);
    assert Front(acts + [a]) == acts && Last(acts + [a]) == a;
    assert Leads(s, acts + [a], t);
  }

  lemma LaterNow(s: State)
    ensures Later(s, s)
  {
    assert Leads(s, [], s);
  }

  function Fresh(r: Request): (c: Call) {
    Call(r.key, r.bytes, Begin, 0, 0, 0, false)
  }

  function Invoked(s: State, c: nat, r: Request): (t: State) {
    s.(calls := s.calls[c := Fresh(r)], requests := s.requests + {r})
  }

  /** The state of a call that has created its staging file and nothing more. */
  function Staged(s: State, c: nat, r: Request, ino: nat): (t: State) {
    Invoked(s, c, r).(calls := s.calls[c := Call(r.key, r.bytes, Writing, ino, ino, 0, false)],
                      inodes := s.inodes[ino := Inode([], false)],
                      dir := s.dir[Pending(ino) := ino],
                      linked := s.linked + {(Pending(ino), ino)})
  }

  lemma Stages(o: State, s: State, c: nat, r: Request, ino: nat)
    requires Later(o, s)
    requires c !in s.calls && ino !in s.inodes && Pending(ino) !in s.dir && Target(r.key) !in s.dir
    ensures Later(o, Staged(s, c, r, ino))
  {
    var s1 := Invoked(s, c, r);
    LaterOn(o, s, Invoke(c, r), s1);
    var s2 := Move(s1, c, Fresh(r).(pc := Staging));
    LaterOn(o, s1, FindNothing(c), s2);
    var t := Staged(s, c, r, ino);
    assert t == Move(s2, c, s2.calls[c].(pc := Writing, nonce := ino, ino := ino, written := 0))
                .(inodes := s2.inodes[ino := Inode([], false)], dir := s2.dir[Pending(ino) := ino],
                  linked := s2.linked + {(Pending(ino), ino)});
    LaterOn(o, s2, Stage(c, ino, ino), t);
  }

  /** The state of that call once its file is written, synced and linked. */
  function Linked(s: State, c: nat, r: Request, ino: nat): (t: State) {
    Staged(s, c, r, ino).(calls := s.calls[c := Call(r.key, r.bytes, SyncingDir, ino, ino, |r.bytes|, false)],
                          inodes := s.inodes[ino := Inode(r.bytes, true)],
                          dir := s.dir[Pending(ino) := ino][Target(r.key) := ino],
                          linked := s.linked + {(Pending(ino), ino)} + {(Target(r.key), ino)})
  }

  /** The state of that call once its file is written and synced. */
  function Written(s: State, c: nat, r: Request, ino: nat): (t: State) {
    Staged(s, c, r, ino).(calls := s.calls[c := Call(r.key, r.bytes, Linking, ino, ino, |r.bytes|, false)],
                          inodes := s.inodes[ino := Inode(r.bytes, true)])
  }

  /** The state of that call once its file is written. */
  function Filled(s: State, c: nat, r: Request, ino: nat): (t: State) {
    Staged(s, c, r, ino).(calls := s.calls[c := Call(r.key, r.bytes, Syncing, ino, ino, |r.bytes|, false)],
                          inodes := s.inodes[ino := Inode(r.bytes, false)])
  }

  lemma Fills(o: State, s: State, c: nat, r: Request, ino: nat)
    requires Later(o, Staged(s, c, r, ino))
    ensures Later(o, Filled(s, c, r, ino))
  {
    var s1, t := Staged(s, c, r, ino), Filled(s, c, r, ino);
    assert r.bytes[..|r.bytes|] == r.bytes;
    assert t == Move(s1, c, s1.calls[c].(pc := Syncing, written := |r.bytes|))
                .(inodes := s1.inodes[ino := Inode(r.bytes, false)]);
    LaterOn(o, s1, Write(c, |r.bytes|), t);
  }

  lemma Writes(o: State, s: State, c: nat, r: Request, ino: nat)
    requires Later(o, Staged(s, c, r, ino))
    ensures Later(o, Written(s, c, r, ino))
  {
    Fills(o, s, c, r, ino);
    var s2, t := Filled(s, c, r, ino), Written(s, c, r, ino);
    assert t == Move(s2, c, s2.calls[c].(pc := Linking)).(inodes := s2.inodes[ino := Inode(r.bytes, true)]);
    LaterOn(o, s2, Sync(c), t);
  }

  lemma Links(o: State, s: State, c: nat, r: Request, ino: nat)
    requires Later(o, Staged(s, c, r, ino)) && Target(r.key) !in s.dir
    ensures Later(o, Linked(s, c, r, ino))
  {
    Writes(o, s, c, r, ino);
    var s3 := Written(s, c, r, ino);
    var call := s3.calls[c];
    var t := Linked(s, c, r, ino);
    assert t == Move(s3, c, call.(pc := SyncingDir))
                .(dir := s3.dir[Target(r.key) := ino], linked := s3.linked + {(Target(r.key), ino)});
    LaterOn(o, s3, Link(c), t);
  }

  /** The state after a call that found its bytes already published. */
  function ReturnedEarly(s: State, c: nat, r: Request): (t: State) {
    Invoked(s, c, r).(calls := s.calls[c := Fresh(r).(pc := Done, ok := true)], acks := s.acks + {r})
  }

  lemma ReturnsEarly(o: State, s: State, c: nat, r: Request)
    requires Later(o, s) && c !in s.calls && Matches(s, Target(r.key), r.bytes)
    ensures Later(o, ReturnedEarly(s, c, r))
  {
    var s1 := Invoked(s, c, r);
    LaterOn(o, s, Invoke(c, r), s1);
    var s2 := Move(s1, c, Fresh(r).(pc := ComparingEarly));
    LaterOn(o, s1, FindExisting(c), s2);
    var t := ReturnedEarly(s, c, r);
    assert t == Move(s2, c, Fresh(r).(pc := Done, ok := true)).(acks := s2.acks + {r});
    LaterOn(o, s2, CompareEarly(c, false), t);
  }

  /** The machine comes back with none of the names that were never synced. */
  function Rebooted(s: State): (t: State) {
    s.(dir := map[], synced := map[], calls := map[], acks := {})
  }

  lemma Reboots(o: State, s: State)
    requires Later(o, s) && s.synced == map[]
    ensures Later(o, Rebooted(s))
  {
    assert Survives(s, map[], s.inodes);
    assert Next(s, Rebooted(s), Crash(map[], s.inodes));
    LaterOn(o, s, Crash(map[], s.inodes), Rebooted(s));
  }

  lemma Completes(o: State, s: State, c: nat, r: Request) returns (t: State)
    requires Later(o, s) && At(s, c, SyncingDir) && s.calls[c].key == r.key && s.calls[c].bytes == r.bytes
    ensures Later(o, t) && r in t.durable
  {
    var call := s.calls[c].(pc := Cleaning, ok := true);
    var s1 := Move(s, c, call).(synced := s.dir);
    LaterOn(o, s, SyncDir(c), s1);
    assert s1.calls[c] == call;
    t := Move(s1, c, call.(pc := Done)).(dir := s1.dir, acks := s1.acks + {r}, durable := s1.durable + {r});
    LaterOn(o, s1, Clean(c, false), t);
  }

  /** Two callers of one identifier, with any two different plans, both told Ok: the first by the early return, before a
      crash. */
  lemma EarlyReturnIsNotDurable(key: Key, first: seq<byte>, second: seq<byte>)
    returns (start: State, early: State, late: State)
    requires first != second && |first| <= MAX_STORAGE_BYTES
    ensures Init(start) && Later(start, early) && Later(early, late)
    ensures Request(key, first) in early.acks && Request(key, second) in late.durable
  {
    start := State(map[], map[], map[], {}, map[], {}, {}, {});
    var a, b := Request(key, first), Request(key, second);
    LaterNow(start);
    Stages(start, start, 0, a, 0);
    Links(start, start, 0, a, 0);
    var linked := Linked(start, 0, a, 0);
    ReturnsEarly(start, linked, 1, a);
    early := ReturnedEarly(linked, 1, a);
    LaterNow(early);
    Reboots(early, early);
    var again := Rebooted(early);
    Stages(early, again, 2, b, 1);
    Links(early, again, 2, b, 1);
    late := Completes(early, Linked(again, 2, b, 1), 2, b);
  }

  // ----- Loading

  datatype LoadError = TooLarge | Undecodable | WrongName

  datatype Plan = Plan(key: Key, bytes: seq<byte>)

  /** One directory entry: staging files are skipped, plans are decoded and checked against their name. */
  function LoadEntry(name: Name, content: seq<byte>, decode: seq<byte> -> Option<Key>): (r: Result<seq<Plan>, LoadError>) {
    if name.Pending? then Ok([])
    else if |content| > MAX_STORAGE_BYTES then Err(TooLarge)
    else
      match decode(content)
      case None => Err(Undecodable)
      case Some(key) => if key != name.key then Err(WrongName) else Ok([Plan(key, content)])
  }

  /** The published names of a listing, in its order. */
  function Targets(names: seq<Name>): (r: seq<Name>)
    ensures forall i :: 0 <= i < |r| ==> r[i].Target? && r[i] in names
    ensures forall n :: n in names && n.Target? ==> n in r
  {
    if names == [] then []
    else Targets(names[..|names| - 1]) + if names[|names| - 1].Target? then [names[|names| - 1]] else []
  }

  predicate DistinctNames(names: seq<Name>) {
    forall i, j :: 0 <= i < j < |names| ==> names[i] != names[j]
  }

  lemma {:induction false} TargetsDistinct(names: seq<Name>)
    requires DistinctNames(names)
    ensures DistinctNames(Targets(names))
  {
    if names == [] {
    } else {
      var front, last := names[..|names| - 1], names[|names| - 1];
      TargetsDistinct(front);
      assert last !in front;
    }
  }

  /** One plan for each published name, in order, with its file's bytes. */
  predicate OnePlanEach(plans: seq<Plan>, names: seq<Name>, dir: map<Name, nat>, inodes: map<nat, Inode>) {
    && |plans| == |Targets(names)|
    && forall i :: 0 <= i < |plans| ==>
                     && Targets(names)[i] == Target(plans[i].key) && Target(plans[i].key) in dir
                     && dir[Target(plans[i].key)] in inodes && plans[i].bytes == inodes[dir[Target(plans[i].key)]].content
  }

  /** `open`: all entries, in whatever order the directory gives them. */
  method Open(names: seq<Name>, dir: map<Name, nat>, inodes: map<nat, Inode>, decode: seq<byte> -> Option<Key>)
    returns (r: Result<seq<Plan>, LoadError>)
    requires forall i :: 0 <= i < |names| ==> names[i] in dir && dir[names[i]] in inodes
    ensures r.Ok? <==> forall i :: 0 <= i < |names| ==> LoadEntry(names[i], inodes[dir[names[i]]].content, decode).Ok?
    ensures r.Ok? ==> OnePlanEach(r.value, names, dir, inodes)
  {
    var plans: seq<Plan> := [];
    for i := 0 to |names|
      invariant forall j :: 0 <= j < i ==> LoadEntry(names[j], inodes[dir[names[j]]].content, decode).Ok?
      invariant OnePlanEach(plans, names[..i], dir, inodes)
    {
      var entry := LoadEntry(names[i], inodes[dir[names[i]]].content, decode);
      if entry.Err? {
        return Err(entry.error);
      }
      assert names[..i + 1][..i] == names[..i];
      plans := plans + entry.value;
    }
    assert names[..|names|] == names;
    return Ok(plans);
  }

  /** The engine only stores plans that encode their own identifier within the size bound. */
  ghost predicate WellFormed(requests: set<Request>, decode: seq<byte> -> Option<Key>) {
    forall r :: r in requests ==> |r.bytes| <= MAX_STORAGE_BYTES && decode(r.bytes) == Some(r.key)
  }

  /** After any run, loading succeeds on every entry, whatever a crash left in the staging files. */
  lemma LoadsAfterAnyRun(s: State, name: Name, decode: seq<byte> -> Option<Key>)
    requires Reachable(s) && WellFormed(s.requests, decode) && name in s.dir
    ensures s.dir[name] in s.inodes && LoadEntry(name, s.inodes[s.dir[name]].content, decode).Ok?
  {
    ReachableInv(s);
    assert (name, s.dir[name]) in s.linked;
    if name.Target? {
      PublishedIsComplete(s, name.key);
    }
  }

  /**
   * After any run, a listing of the directory loads; it gives each published
   * plan once, and every plan that was acknowledged behind its own directory
   * sync is among them.
   */
  method OpenAfterAnyRun(s: State, names: seq<Name>, decode: seq<byte> -> Option<Key>) returns (plans: seq<Plan>)
    requires Reachable(s) && WellFormed(s.requests, decode)
    requires DistinctNames(names) && forall n :: n in names <==> n in s.dir
    ensures forall i, j :: 0 <= i < j < |plans| ==> plans[i].key != plans[j].key
    ensures forall key :: Target(key) in s.dir <==> exists i :: 0 <= i < |plans| && plans[i].key == key
    ensures forall plan :: plan in plans ==> Published(s, Request(plan.key, plan.bytes))
    ensures forall r :: r in s.durable || r in s.acks ==> Plan(r.key, r.bytes) in plans
  {
    forall i | 0 <= i < |names|
      ensures names[i] in s.dir && s.dir[names[i]] in s.inodes
      ensures LoadEntry(names[i], s.inodes[s.dir[names[i]]].content, decode).Ok?
    {
      LoadsAfterAnyRun(s, names[i], decode);
    }
    var r := Open(names, s.dir, s.inodes, decode);
    plans := r.value;
    TargetsDistinct(names);
    EachPublished(s, names, plans);
  }

  lemma EachPublished(s: State, names: seq<Name>, plans: seq<Plan>)
    requires Reachable(s) && OnePlanEach(plans, names, s.dir, s.inodes) && DistinctNames(Targets(names))
    requires forall n :: n in names <==> n in s.dir
    ensures forall i, j :: 0 <= i < j < |plans| ==> plans[i].key != plans[j].key
    ensures forall key :: Target(key) in s.dir <==> exists i :: 0 <= i < |plans| && plans[i].key == key
    ensures forall plan :: plan in plans ==> Published(s, Request(plan.key, plan.bytes))
    ensures forall r :: r in s.durable || r in s.acks ==> Plan(r.key, r.bytes) in plans
  {
    forall key | Target(key) in s.dir
      ensures exists i :: 0 <= i < |plans| && plans[i].key == key
    {
      var i :| 0 <= i < |Targets(names)| && Targets(names)[i] == Target(key);
      assert plans[i].key == key;
    }
    forall r | r in s.durable || r in s.acks
      ensures Plan(r.key, r.bytes) in plans
    {
      AcknowledgedIsPublished(s, r);
      var i :| 0 <= i < |plans| && plans[i].key == r.key;
      assert plans[i] == Plan(r.key, r.bytes);
    }
  }
}
