/** Offline restore: the journalled replacement of the live files and blob directories, with a crash
    possible before every durable step. Files are told apart by their digests, taken as injective. */
module Restore {
  import opened Wrappers

  /** A digest; the empty string stands for an absent file, as in the journal. */
  type Hash = string

  /** The fixed files a restore replaces; a journal read from disk may name others. */
  datatype FileName =
    | Database | DatabaseWAL | DatabaseSHM | HubConfig | CollectorConfig | SessionKey | BootstrapToken
    | CAKey | CACert | HubKey | HubCert
    | Other(text: string)

  datatype BlobName = Snapshots | Attachments | NotificationSecrets

  type Files = map<FileName, Hash>
  type Tree = map<string, Hash>
  type Blobs = map<BlobName, Tree>

  predicate OnlyFixed(files: Files) {
    forall name :: name in files ==> !name.Other?
  }

  const JOURNAL_FILE_LIMIT := 16
  const RECOVERY_ENTRY_LIMIT := 33

  datatype RecoveryFile = RecoveryFile(name: FileName, sha: Hash, previous: Hash)

  datatype JournalState = Prepared | Committed

  datatype Journal = Journal(
    transactionID: string, deploymentID: string, previousGeneration: string, generation: string,
    recoveryPointMS: int, startedMS: int, completedMS: Option<int>, state: JournalState,
    manifest: Blobs, files: seq<RecoveryFile>)

  /** The directory of one transaction. */
  datatype Transaction = Transaction(
    prepared: Files, displaced: Files, preparedBlobs: Blobs, displacedBlobs: Blobs,
    manifest: Blobs)

  /** Everything a restore may replace. */
  datatype FileSet = FileSet(files: Files, blobs: Blobs)

  function HashAt(files: Files, name: FileName): Hash {
    if name in files then files[name] else ""
  }

  predicate Present(files: Files) {
    forall name :: name in files ==> files[name] != ""
  }

  /** What an optional directory must be for verification against a manifest's tree. */
  predicate Verified(root: Option<Tree>, expected: Tree) {
    root == Some(expected) || (root.None? && expected == map[])
  }

  function TreeAt(blobs: Blobs, name: BlobName): Option<Tree> {
    if name in blobs then Some(blobs[name]) else None
  }

  /** Keys of one map that all agree with another of the same size are all of its keys. */
  lemma SameSizeIsEqual(a: Tree, b: Tree)
    requires forall x :: x in a ==> x in b && b[x] == a[x]
    requires |a| == |b|
    ensures a == b
  {
    assert a.Keys <= b.Keys;
    var missing := b.Keys - a.Keys;
    assert b.Keys == a.Keys + missing;
    assert |b.Keys| == |a.Keys| + |missing|;
    assert missing == {};
  }

  /** verifyRecoveryBlobs: walk the tree in any order, refuse what is unexpected, then compare counts. */
  method VerifyBlobs(root: Option<Tree>, expected: Tree) returns (ok: bool)
    ensures ok <==> Verified(root, expected)
  {
    if root.None? {
      return expected == map[];
    }
    var todo, seen := root.value.Keys, 0;
    while todo != {}
      invariant todo <= root.value.Keys && seen + |todo| == |root.value|
      invariant forall x :: x in root.value && x !in todo ==> x in expected && expected[x] == root.value[x]
    {
      var path :| path in todo;
      if path !in expected {
        return false;
      }
      if root.value[path] != expected[path] {
        return false;
      }
      todo, seen := todo - {path}, seen + 1;
    }
    if seen == |expected| {
      SameSizeIsEqual(root.value, expected);
    }
    return seen == |expected|;
  }

  // ----- the journal -----

  predicate DistinctNames(files: seq<RecoveryFile>) {
    forall i, j :: 0 <= i < j < |files| ==> files[i].name != files[j].name
  }

  /** readRecoveryJournal accepts it; identifiers and digests are well formed by construction. */
  predicate Readable(j: Journal) {
    && j.previousGeneration != j.generation
    && j.recoveryPointMS >= 0 && j.startedMS >= j.recoveryPointMS
    && 0 < |j.files| <= 16
    && (j.state == Committed <==> j.completedMS.Some?)
    && (j.completedMS.Some? ==> j.completedMS.value >= j.startedMS)
    && DistinctNames(j.files) && forall i :: 0 <= i < |j.files| ==> !j.files[i].name.Other?
  }

  lemma ReadableIsPast(j: Journal)
    ensures Readable(j) ==> j.recoveryPointMS >= 0
  {
  }

  /** The duplicate check of readRecoveryJournal. */
  method ReadJournal(j: Journal) returns (ok: bool)
    ensures ok <==> Readable(j)
  {
    if j.previousGeneration == j.generation || j.recoveryPointMS < 0 || j.startedMS < j.recoveryPointMS
       || |j.files| == 0 || |j.files| > JOURNAL_FILE_LIMIT {
      return false;
    }
    if (j.state == Committed) != j.completedMS.Some? {
      return false;
    }
    if j.completedMS.Some? && j.completedMS.value < j.startedMS {
      return false;
    }
    var seen: set<FileName> := {};
    for i := 0 to |j.files|
      invariant forall k :: 0 <= k < i ==> !j.files[k].name.Other?
      invariant forall name :: name in seen <==> exists k :: 0 <= k < i && j.files[k].name == name
      invariant DistinctNames(j.files[..i])
    {
      if j.files[i].name.Other? || j.files[i].name in seen {
        return false;
      }
      seen := seen + {j.files[i].name};
    }
    assert j.files[..|j.files|] == j.files;
    return true;
  }

  // ----- what holds while a restore is prepared -----

  /** The journal lists exactly the fixed files that exist before or after, with both digests. */
  ghost predicate Lists(files: seq<RecoveryFile>, prepared: Files, displaced: Files) {
    && DistinctNames(files)
    && (forall i :: 0 <= i < |files| ==>
          && !files[i].name.Other?
          && files[i] == RecoveryFile(files[i].name, HashAt(prepared, files[i].name), HashAt(displaced, files[i].name)))
    && (forall name :: name in prepared || name in displaced ==> IsListed(files, name))
  }

  predicate IsListed(files: seq<RecoveryFile>, name: FileName) {
    exists i :: 0 <= i < |files| && files[i].name == name
  }

  /** A journalled file is live in its earlier or in its prepared version, and only while it is not yet
      the prepared one can a temporary copy lie beside it. */
  predicate FileStands(f: RecoveryFile, live: Files, temps: Files) {
    && (HashAt(live, f.name) == f.sha || HashAt(live, f.name) == f.previous)
    && (f.name in temps ==> f.sha != "" && HashAt(live, f.name) != f.sha)
  }

  /** A blob directory waits in the transaction, or has been moved into place. */
  predicate BlobStands(name: BlobName, live: Blobs, t: Transaction)
    requires name in t.manifest
  {
    if name in t.preparedBlobs then
      t.preparedBlobs[name] == t.manifest[name] && (name in live ==> name !in t.displacedBlobs)
    else name in live && live[name] == t.manifest[name]
  }

  /** A blob directory that was live is still there, or is kept in the transaction. */
  predicate BlobKept(name: BlobName, before: Blobs, live: Blobs, t: Transaction)
    requires name in before
  {
    if name in t.displacedBlobs then t.displacedBlobs[name] == before[name]
    else name in t.preparedBlobs && name in live && live[name] == before[name]
  }

  predicate BlobsStand(before: Blobs, live: Blobs, t: Transaction) {
    && (forall name: BlobName :: name in t.manifest)
    && (forall name: BlobName :: BlobStands(name, live, t))
    && (forall name :: name in before ==> BlobKept(name, before, live, t))
  }

  ghost predicate FilesStand(files: seq<RecoveryFile>, before: Files, live: Files, temps: Files, t: Transaction) {
    && Present(t.prepared) && Present(t.displaced) && Present(live)
    && OnlyFixed(t.prepared) && OnlyFixed(t.displaced)
    && Lists(files, t.prepared, t.displaced)
    && t.displaced == before
    && (forall i :: 0 <= i < |files| ==> FileStands(files[i], live, temps))
    && (forall name :: name in live || name in temps ==> IsListed(files, name))
  }

  /** The journal says prepared: every live file is in its old or its new version, every blob directory
      waits or is in place, and everything live before is live or displaced. */
  ghost predicate InProgress(j: Journal, t: Transaction, now: FileSet, temps: Files, before: FileSet) {
    && j.state == Prepared && j.completedMS.None? && j.manifest == t.manifest && j.previousGeneration != j.generation
    && FilesStand(j.files, before.files, now.files, temps, t)
    && BlobsStand(before.blobs, now.blobs, t)
  }

  /** Nothing of the earlier file set is lost: it is in the displaced directory. */
  predicate Displaced(before: FileSet, t: Transaction) {
    t.displaced == before.files && forall name :: name in before.blobs ==> TreeAt(t.displacedBlobs, name) == Some(before.blobs[name])
  }

  lemma AllFilesDone(files: seq<RecoveryFile>, before: Files, live: Files, temps: Files, t: Transaction)
    requires FilesStand(files, before, live, temps, t)
    requires forall i :: 0 <= i < |files| ==> HashAt(live, files[i].name) == files[i].sha
    ensures live == t.prepared && temps == map[]
  {
    forall name ensures HashAt(live, name) == HashAt(t.prepared, name) && name !in temps {
      if IsListed(files, name) {
        var i :| 0 <= i < |files| && files[i].name == name;
        assert FileStands(files[i], live, temps);
      }
    }
    forall name ensures name in live <==> name in t.prepared {
      assert HashAt(live, name) == HashAt(t.prepared, name);
    }
    assert live.Keys == t.prepared.Keys;
    forall name | name in live ensures live[name] == t.prepared[name] {
      assert HashAt(live, name) == HashAt(t.prepared, name);
    }
  }

  lemma AllBlobsDone(before: Blobs, live: Blobs, t: Transaction)
    requires BlobsStand(before, live, t) && t.preparedBlobs == map[]
    ensures live == t.manifest
    ensures forall name :: name in before ==> TreeAt(t.displacedBlobs, name) == Some(before[name])
  {
    forall name: BlobName ensures name in live && live[name] == t.manifest[name] {
      assert BlobStands(name, live, t);
    }
    assert live.Keys == t.manifest.Keys;
    forall name | name in before ensures TreeAt(t.displacedBlobs, name) == Some(before[name]) {
      assert BlobKept(name, before, live, t);
    }
  }

  lemma EntryFacts(files: seq<RecoveryFile>, before: Files, live: Files, temps: Files, t: Transaction, i: nat)
    requires FilesStand(files, before, live, temps, t) && i < |files|
    ensures !files[i].name.Other? && FileStands(files[i], live, temps)
    ensures files[i].sha == HashAt(t.prepared, files[i].name)
    ensures Present(live)
  {
  }

  /** A change of one live file or its temporary copy after which the file still stands. */
  ghost predicate OnlyThisFile(f: RecoveryFile, live: Files, temps: Files, live': Files, temps': Files) {
    && (forall name :: name != f.name ==>
          && (name in live' <==> name in live) && (name in live ==> live'[name] == live[name])
          && (name in temps' <==> name in temps))
    && FileStands(f, live', temps') && (f.name in live' ==> live'[f.name] != "")
  }

  lemma RemovalIsOne(f: RecoveryFile, live: Files, temps: Files)
    requires FileStands(f, live, temps) && f.sha == ""
    ensures OnlyThisFile(f, live, temps, live - {f.name}, temps) && HashAt(live - {f.name}, f.name) == f.sha
  {
  }

  /** Until the rename the live file keeps its earlier version, whatever lies in the temporary copy. */
  lemma CopyingIsOne(f: RecoveryFile, live: Files, temps: Files, temps': Files)
    requires FileStands(f, live, temps) && Present(live) && f.sha != "" && HashAt(live, f.name) != f.sha
    requires forall name :: name != f.name ==> (name in temps' <==> name in temps)
    ensures OnlyThisFile(f, live, temps, live, temps') && FileStands(f, live, temps')
  {
  }

  lemma RenameIsOne(f: RecoveryFile, live: Files, temps: Files)
    requires FileStands(f, live, temps) && f.sha != "" && f.name in temps && temps[f.name] == f.sha
    ensures OnlyThisFile(f, live, temps, live[f.name := temps[f.name]], temps - {f.name})
    ensures HashAt(live[f.name := temps[f.name]], f.name) == f.sha && SameButOne(live, live[f.name := temps[f.name]], f.name)
  {
  }

  lemma NothingChangedYet(live: Files, name: FileName)
    ensures SameButOne(live, live, name)
  {
  }

  /** The live files differ at most in one name. */
  ghost predicate SameButOne(live: Files, live': Files, name: FileName) {
    forall other :: other != name ==> HashAt(live', other) == HashAt(live, other)
  }

  /** Files that were installed before stay installed. */
  lemma OthersStay(files: seq<RecoveryFile>, live: Files, live': Files, i: nat)
    requires i < |files| && DistinctNames(files) && SameButOne(live, live', files[i].name)
    requires forall k :: 0 <= k < i ==> HashAt(live, files[k].name) == files[k].sha
    requires HashAt(live', files[i].name) == files[i].sha
    ensures forall k :: 0 <= k < i + 1 ==> HashAt(live', files[k].name) == files[k].sha
  {
    hide HashAt;
  }

  /** A step on one file keeps what holds of all of them. */
  lemma FileMoves(files: seq<RecoveryFile>, before: Files, live: Files, temps: Files, t: Transaction, i: nat, live': Files, temps': Files)
    requires FilesStand(files, before, live, temps, t) && i < |files|
    requires OnlyThisFile(files[i], live, temps, live', temps')
    ensures FilesStand(files, before, live', temps', t) && Present(live') && OnlyFixed(live')
  {
    hide Present, OnlyFixed, FileStands, IsListed, DistinctNames, HashAt, OnlyThisFile;
    forall j | 0 <= j < |files| ensures FileStands(files[j], live', temps') {
      if j == i {
        ThisFileStands(files[i], live, temps, live', temps');
      } else {
        NamesDiffer(files, i, j);
        StandsElsewhere(files[j], files[i], live, temps, live', temps');
      }
    }
    ListedAt(files, i);
    StillListed(files, i, live, temps, live', temps');
    StandingWhole(files, before, live', temps', t);
  }

  ghost predicate AllListed(files: seq<RecoveryFile>, live: Files, temps: Files) {
    forall name :: name in live || name in temps ==> IsListed(files, name)
  }

  lemma StandingWhole(files: seq<RecoveryFile>, before: Files, live: Files, temps: Files, t: Transaction)
    requires Present(t.prepared) && Present(t.displaced) && Present(live) && OnlyFixed(t.prepared) && OnlyFixed(t.displaced)
    requires Lists(files, t.prepared, t.displaced) && t.displaced == before
    requires forall i :: 0 <= i < |files| ==> FileStands(files[i], live, temps)
    requires AllListed(files, live, temps)
    ensures FilesStand(files, before, live, temps, t) && OnlyFixed(live)
  {
    ListedIsFixed(files, t.prepared, t.displaced);
    hide Present, FileStands, IsListed, Lists;
  }

  lemma ThisFileStands(f: RecoveryFile, live: Files, temps: Files, live': Files, temps': Files)
    requires OnlyThisFile(f, live, temps, live', temps') && Present(live)
    ensures FileStands(f, live', temps')
  {
  }

  lemma NamesDiffer(files: seq<RecoveryFile>, i: nat, j: nat)
    requires DistinctNames(files) && i < |files| && j < |files| && i != j
    ensures files[i].name != files[j].name
  {
  }

  lemma StillListed(files: seq<RecoveryFile>, i: nat, live: Files, temps: Files, live': Files, temps': Files)
    requires i < |files| && IsListed(files, files[i].name) && AllListed(files, live, temps)
    requires OnlyThisFile(files[i], live, temps, live', temps') && Present(live)
    ensures AllListed(files, live', temps') && Present(live')
  {
    hide IsListed, FileStands;
  }

  lemma ListedIsFixed(files: seq<RecoveryFile>, prepared: Files, displaced: Files)
    requires Lists(files, prepared, displaced)
    ensures forall name :: IsListed(files, name) ==> !name.Other?
  {
  }

  lemma ListedAt(files: seq<RecoveryFile>, i: nat)
    requires i < |files|
    ensures IsListed(files, files[i].name)
  {
  }

  lemma StandsElsewhere(other: RecoveryFile, f: RecoveryFile, live: Files, temps: Files, live': Files, temps': Files)
    requires FileStands(other, live, temps) && other.name != f.name && OnlyThisFile(f, live, temps, live', temps')
    ensures FileStands(other, live', temps')
  {
  }

  lemma BlobFacts(before: Blobs, live: Blobs, t: Transaction, name: BlobName)
    requires BlobsStand(before, live, t)
    ensures name in t.manifest && BlobStands(name, live, t) && (name in before ==> BlobKept(name, before, live, t))
  {
  }

  lemma SameFiles(files: seq<RecoveryFile>, before: Files, liveFiles: Files, temps: Files, t: Transaction,
                  name: BlobName, blobs: Blobs, live: Blobs, live': Blobs, t': Transaction)
    requires FilesStand(files, before, liveFiles, temps, t) && OnlyThisBlob(name, blobs, live, t, live', t')
    ensures FilesStand(files, before, liveFiles, temps, t') && t'.manifest == t.manifest
  {
  }

  /** A change of one blob directory after which it still stands and is still kept. */
  ghost predicate OnlyThisBlob(name: BlobName, before: Blobs, live: Blobs, t: Transaction, live': Blobs, t': Transaction) {
    && t'.manifest == t.manifest && t'.prepared == t.prepared && t'.displaced == t.displaced && name in t.manifest
    && (forall b :: b != name ==>
          TreeAt(live', b) == TreeAt(live, b) && TreeAt(t'.preparedBlobs, b) == TreeAt(t.preparedBlobs, b)
          && TreeAt(t'.displacedBlobs, b) == TreeAt(t.displacedBlobs, b))
    && BlobStands(name, live', t') && (name in before ==> BlobKept(name, before, live', t'))
  }

  lemma DisplacingIsOne(name: BlobName, before: Blobs, live: Blobs, t: Transaction)
    requires name in t.manifest && BlobStands(name, live, t) && (name in before ==> BlobKept(name, before, live, t))
    requires name in t.preparedBlobs && name in live && name !in t.displacedBlobs
    ensures OnlyThisBlob(name, before, live, t, live - {name}, t.(displacedBlobs := t.displacedBlobs[name := live[name]]))
  {
  }

  lemma InstallingIsOne(name: BlobName, before: Blobs, live: Blobs, t: Transaction)
    requires name in t.manifest && BlobStands(name, live, t) && (name in before ==> BlobKept(name, before, live, t))
    requires name in t.preparedBlobs && name !in live
    ensures OnlyThisBlob(name, before, live, t, live[name := t.preparedBlobs[name]], t.(preparedBlobs := t.preparedBlobs - {name}))
  {
  }

  /** A step on one blob directory keeps what holds of all of them. */
  lemma BlobMoves(before: Blobs, live: Blobs, t: Transaction, name: BlobName, live': Blobs, t': Transaction)
    requires BlobsStand(before, live, t)
    requires OnlyThisBlob(name, before, live, t, live', t')
    ensures BlobsStand(before, live', t')
  {
    forall b: BlobName ensures BlobStands(b, live', t') && (b in before ==> BlobKept(b, before, live', t')) {
      if b != name {
        assert TreeAt(live', b) == TreeAt(live, b) && TreeAt(t'.preparedBlobs, b) == TreeAt(t.preparedBlobs, b);
        assert BlobStands(b, live, t) && (b in before ==> BlobKept(b, before, live, t));
      }
    }
  }

  datatype Reason =
    | MixedRequest | NotReviewed | HubRunning | OtherTransaction | Unreadable | NothingToResume
    | RelativePaths | JournalLimit | GenerationConflict
    | LiveChanged | DisplacedExists | PreparedChanged | BlobsChanged | ManifestChanged | Unsupported

  /** A run of the program ends committed, is cut off at a durable step, or refuses. */
  datatype Outcome = Done(transactionID: string) | Crashed | Refused(reason: Reason)

  datatype Request = Request(
    backupGiven: bool, absolutePaths: bool, reviewed: bool,
    deploymentID: string, generation: string, recoveryPointMS: int, resume: Option<string>)

  /** What one run brings along: fresh identifiers, clock readings, the state of the services and of the
      current database, and the files and blob trees made from the backup. */
  datatype Attempt = Attempt(
    transactionID: string, generation: string, startedMS: int, completedMS: int, hubStopped: bool,
    current: Option<(string, string)>, recoveryPointMS: int, files: Files, manifest: Blobs)

  /** The store restores the files of the backup and trees that match its manifest. */
  predicate SoundBackup(a: Attempt) {
    && Present(a.files) && OnlyFixed(a.files) && Database in a.files
    && forall name: BlobName :: name in a.manifest
  }

  /** The keys of restoreFilePaths. */
  function FixedNames(): (names: set<FileName>)
    ensures forall name :: name in names <==> !name.Other?
    ensures |names| == 11
  {
    {Database, DatabaseWAL, DatabaseSHM, HubConfig, CollectorConfig, SessionKey, BootstrapToken,
     CAKey, CACert, HubKey, HubCert}
  }

  /** Both digests of every fixed file that has one, in any order. */
  method ListFiles(prepared: Files, displaced: Files) returns (files: seq<RecoveryFile>)
    requires Present(prepared) && OnlyFixed(prepared) && Present(displaced) && OnlyFixed(displaced)
    ensures Lists(files, prepared, displaced) && |files| <= 11
    ensures prepared != map[] ==> files != []
  {
    hide FixedNames, IsListed, DistinctNames;
    files := [];
    NothingListed();
    var todo := FixedNames();
    while todo != {}
      invariant forall name :: name in todo ==> !name.Other? && !IsListed(files, name)
      invariant |files| + |todo| <= 11
      invariant DistinctNames(files)
      invariant forall i :: 0 <= i < |files| ==>
        && !files[i].name.Other?
        && files[i] == RecoveryFile(files[i].name, HashAt(prepared, files[i].name), HashAt(displaced, files[i].name))
      invariant forall name :: name in prepared || name in displaced ==> name in todo || IsListed(files, name)
    {
      var name :| name in todo;
      todo := todo - {name};
      var sha, previous := HashAt(prepared, name), HashAt(displaced, name);
      if sha != "" || previous != "" {
        ListingOneMore(files, RecoveryFile(name, sha, previous));
        files := files + [RecoveryFile(name, sha, previous)];
      }
    }
    if prepared != map[] {
      var name :| name in prepared;
      assert IsListed(files, name);
    }
  }

  lemma ListsMeans(files: seq<RecoveryFile>, prepared: Files, displaced: Files)
    requires Lists(files, prepared, displaced)
    ensures DistinctNames(files) && forall i :: 0 <= i < |files| ==> !files[i].name.Other?
  {
  }

  lemma NothingListed()
    ensures DistinctNames([]) && forall name :: !IsListed([], name)
  {
  }

  lemma ListingOneMore(files: seq<RecoveryFile>, f: RecoveryFile)
    ensures DistinctNames(files) && !IsListed(files, f.name) ==> DistinctNames(files + [f])
    ensures forall name :: IsListed(files + [f], name) <==> IsListed(files, name) || name == f.name
  {
    var all := files + [f];
    assert all[|files|] == f;
    forall name | IsListed(files, name) ensures IsListed(all, name) {
      var i :| 0 <= i < |files| && files[i].name == name;
      assert all[i] == files[i];
    }
  }

  /** A fresh journal over an untouched installation. */
  lemma FreshIsInProgress(j: Journal, t: Transaction, now: FileSet)
    requires j.state == Prepared && j.completedMS.None? && j.manifest == t.manifest && j.previousGeneration != j.generation
    requires Present(now.files) && OnlyFixed(now.files) && Present(t.prepared) && OnlyFixed(t.prepared)
    requires t.displaced == now.files && t.preparedBlobs == t.manifest && t.displacedBlobs == map[]
    requires (forall name: BlobName :: name in t.manifest) && Lists(j.files, t.prepared, t.displaced)
    ensures InProgress(j, t, now, map[], now)
  {
  }

  /** The journal a preparation writes, without its file list. */
  function JournalOf(request: Request, a: Attempt): Journal {
    Journal(a.transactionID, request.deploymentID, request.generation, a.generation,
            a.recoveryPointMS, a.startedMS, None, Prepared, a.manifest, [])
  }

  /** The files outside todo have been copied. */
  predicate CopiedExcept(live: Files, displaced: Files, todo: set<FileName>) {
    && todo <= live.Keys && displaced.Keys == live.Keys - todo
    && forall name :: name in displaced ==> displaced[name] == live[name]
  }

  lemma NothingCopied(live: Files)
    ensures CopiedExcept(live, map[], live.Keys) && |live.Keys| == |live|
  {
  }

  lemma CopiedOneMore(live: Files, displaced: Files, todo: set<FileName>, name: FileName)
    requires CopiedExcept(live, displaced, todo) && name in todo
    ensures name in live && CopiedExcept(live, displaced[name := live[name]], todo - {name})
    ensures |todo - {name}| == |todo| - 1
  {
  }

  lemma AllCopied(live: Files, displaced: Files)
    requires CopiedExcept(live, displaced, {})
    ensures displaced == live
  {
  }

  /** The journal is of this request and this attempt. */
  predicate Recorded(j: Journal, request: Request, a: Attempt) {
    && j.transactionID == a.transactionID && j.deploymentID == request.deploymentID
    && j.previousGeneration == request.generation && j.generation == a.generation
    && j.recoveryPointMS == a.recoveryPointMS && j.startedMS == a.startedMS && j.manifest == a.manifest
  }

  datatype Progress = Going | Cut | Stuck(reason: Reason)

  /** What the checks of a restore lead to. */
  datatype Course = Stop(reason: Reason) | AnswerAgain | TakeUp | StartNew

  class Installation {
    var live: Files
    var liveBlobs: Blobs
    // temporary copies of the active transaction beside the live files
    var temps: Files
    var transactions: map<string, Transaction>
    var journal: Option<Journal>
    // durable steps left before the process is cut off
    var budget: nat
    // the last whole file set: as the monitor left it, or as a restore installed it
    ghost var whole: FileSet

    ghost function Now(): FileSet
      reads `live, `liveBlobs
    {
      FileSet(live, liveBlobs)
    }

    predicate IsPrepared()
      reads `journal
    {
      journal.Some? && journal.value.state == Prepared
    }

    ghost predicate Valid()
      reads `live, `liveBlobs, `temps, `transactions, `journal, `whole
    {
      && Present(live) && OnlyFixed(live)
      && (journal.Some? ==> journal.value.transactionID in transactions)
      && (if IsPrepared()
          then InProgress(journal.value, transactions[journal.value.transactionID], Now(), temps, whole)
          else Now() == whole && temps == map[])
    }

    /** An installation as the monitor left it, with no restore recorded. */
    constructor (files: Files, blobs: Blobs)
      requires Present(files) && OnlyFixed(files)
      ensures Valid() && Now() == FileSet(files, blobs) && journal.None? && transactions == map[]
    {
      live, liveBlobs, temps, transactions, journal, budget := files, blobs, map[], map[], None, 0;
      whole := FileSet(files, blobs);
    }

    /** RequireRecoveryReady. */
    method RequireRecoveryReady() returns (ready: bool)
      requires Valid()
      ensures ready <==> journal.None? || (Readable(journal.value) && journal.value.state == Committed)
      ensures ready ==> Now() == whole && temps == map[]
    {
      if journal.None? {
        return true;
      }
      var ok := ReadJournal(journal.value);
      return ok && journal.value.state == Committed;
    }

    method Step() returns (alive: bool)
      modifies this`budget
      ensures alive <==> old(budget) > 0
      ensures budget == if alive then old(budget) - 1 else 0
    {
      alive := budget > 0;
      if alive {
        budget := budget - 1;
      }
    }

    ghost function Active(): Transaction
      requires IsPrepared() && journal.value.transactionID in transactions
      reads `journal, `transactions
    {
      transactions[journal.value.transactionID]
    }

    /** One durable step on one live file or its temporary copy, or the crash before it. */
    method FileStep(i: nat, live': Files, temps': Files) returns (alive: bool)
      requires Valid() && IsPrepared() && i < |journal.value.files|
      requires OnlyThisFile(journal.value.files[i], live, temps, live', temps')
      modifies this`live, this`temps, this`budget
      ensures Valid() && (alive <==> old(budget) > 0) && budget == if alive then old(budget) - 1 else 0
      ensures live == (if alive then live' else old(live)) && temps == (if alive then temps' else old(temps))
    {
      hide FilesStand, BlobsStand, OnlyThisFile;
      alive := Step();
      if alive {
        FileMoves(journal.value.files, whole.files, live, temps, Active(), i, live', temps');
        live, temps := live', temps';
      }
    }

    /** Copy the prepared file beside the live one and rename it over. */
    method Replace(i: nat) returns (p: Progress)
      requires Valid() && IsPrepared() && i < |journal.value.files|
      requires journal.value.files[i].sha != "" && HashAt(live, journal.value.files[i].name) != journal.value.files[i].sha
      modifies this`live, this`temps, this`budget
      ensures Valid()
      ensures !p.Stuck? && (p.Cut? ==> budget == 0 && old(budget) < 4) && budget <= old(budget)
      ensures p.Going? ==>
        HashAt(live, journal.value.files[i].name) == journal.value.files[i].sha && old(budget) <= budget + 4
      ensures SameButOne(old(live), live, journal.value.files[i].name)
    {
      hide Valid, FileStands, OnlyThisFile, HashAt, Present, OnlyFixed;
      FileFacts(i);
      NothingChangedYet(live, journal.value.files[i].name);
      hide IsPrepared, SameButOne;
      var f := journal.value.files[i];
      var source := HashAt(transactions[journal.value.transactionID].prepared, f.name);
      var alive: bool;
      if f.name in temps {
        CopyingIsOne(f, live, temps, temps - {f.name});
        alive := FileStep(i, live, temps - {f.name});
        if !alive {
          return Cut;
        }
      }
      // a crash in the copy leaves any part of it behind
      var torn: Hash := *;
      CopyingIsOne(f, live, temps, temps[f.name := torn]);
      alive := FileStep(i, live, temps[f.name := torn]);
      if !alive {
        return Cut;
      }
      CopyingIsOne(f, live, temps, temps[f.name := source]);
      alive := FileStep(i, live, temps[f.name := source]);
      if !alive {
        return Cut;
      }
      RenameIsOne(f, live, temps);
      alive := FileStep(i, live[f.name := temps[f.name]], temps - {f.name});
      return if alive then Going else Cut;
    }

    /** One round of the loop over the journal: leave, remove or replace one live file. */
    method InstallFile(i: nat) returns (p: Progress)
      requires Valid() && IsPrepared() && i < |journal.value.files|
      modifies this`live, this`temps, this`budget
      ensures Valid()
      ensures !p.Stuck? && (p.Cut? ==> budget == 0 && old(budget) < 4) && budget <= old(budget)
      ensures p.Going? ==>
        HashAt(live, journal.value.files[i].name) == journal.value.files[i].sha && old(budget) <= budget + 4
      ensures SameButOne(old(live), live, journal.value.files[i].name)
    {
      FileFacts(i);
      var f := journal.value.files[i];
      hide Valid, OnlyThisFile;
      if f.name.Other? {
        return Stuck(Unsupported);
      }
      var current := HashAt(live, f.name);
      if f.sha != "" && current == f.sha {
        return Going;
      }
      if current != "" && current != f.previous {
        return Stuck(LiveChanged);
      }
      if f.sha == "" {
        if current != "" {
          RemovalIsOne(f, live, temps);
          var alive := FileStep(i, live - {f.name}, temps);
          return if alive then Going else Cut;
        }
        return Going;
      }
      if HashAt(transactions[journal.value.transactionID].prepared, f.name) != f.sha {
        return Stuck(PreparedChanged);
      }
      p := Replace(i);
    }

    lemma FileFacts(i: nat)
      requires Valid() && IsPrepared() && i < |journal.value.files|
      ensures journal.value.transactionID in transactions
      ensures
        var f := journal.value.files[i];
        !f.name.Other? && FileStands(f, live, temps) && f.sha == HashAt(Active().prepared, f.name) && Present(live)
    {
      EntryFacts(journal.value.files, whole.files, live, temps, Active(), i);
    }

    lemma ActiveFacts()
      requires Valid() && IsPrepared()
      ensures journal.Some? && journal.value.transactionID in transactions && DistinctNames(journal.value.files)
      ensures FilesStand(journal.value.files, whole.files, live, temps, Active())
    {
      hide Present, OnlyFixed, BlobsStand, FileStands, IsListed;
    }

    /** Every journalled file, in the journal's order. */
    method InstallFiles() returns (p: Progress)
      requires Valid() && IsPrepared()
      modifies this`live, this`temps, this`budget
      ensures Valid()
      ensures !p.Stuck? && (p.Cut? ==> budget == 0 && old(budget) < 4 * |journal.value.files|) && budget <= old(budget)
      ensures p.Going? ==>
        live == Active().prepared && temps == map[] && old(budget) <= budget + 4 * |journal.value.files|
    {
      hide *;
      ActiveFacts();
      var files := journal.value.files;
      for i := 0 to |files|
        invariant Valid() && budget <= old(budget) <= budget + 4 * i
        invariant forall k :: 0 <= k < i ==> HashAt(live, files[k].name) == files[k].sha
      {
        ghost var before := live;
        p := InstallFile(i);
        if !p.Going? {
          return;
        }
        OthersStay(files, before, live, i);
      }
      ActiveFacts();
      AllFilesDone(files, whole.files, live, temps, Active());
      return Going;
    }

    /** One durable rename of a blob directory, or the crash before it. */
    method BlobStep(name: BlobName, liveBlobs': Blobs, t': Transaction) returns (alive: bool)
      requires Valid() && IsPrepared() && OnlyThisBlob(name, whole.blobs, liveBlobs, Active(), liveBlobs', t')
      modifies this`liveBlobs, this`transactions, this`budget
      ensures Valid() && (alive <==> old(budget) > 0) && budget == if alive then old(budget) - 1 else 0
      ensures liveBlobs == (if alive then liveBlobs' else old(liveBlobs))
      ensures transactions == if alive then old(transactions)[journal.value.transactionID := t'] else old(transactions)
    {
      hide FilesStand, BlobsStand, OnlyThisBlob;
      alive := Step();
      if alive {
        SameFiles(journal.value.files, whole.files, live, temps, Active(), name, whole.blobs, liveBlobs, liveBlobs', t');
        BlobMoves(whole.blobs, liveBlobs, Active(), name, liveBlobs', t');
        liveBlobs, transactions := liveBlobs', transactions[journal.value.transactionID := t'];
      }
    }

    /** One blob directory: verify it, displace the live one, move it into place. */
    method InstallBlob(name: BlobName) returns (p: Progress)
      requires Valid() && IsPrepared()
      modifies this`liveBlobs, this`transactions, this`budget
      ensures Valid()
      ensures !p.Stuck? && (p.Cut? ==> budget == 0 && old(budget) < 2) && budget <= old(budget)
      ensures p.Going? ==> name !in Active().preparedBlobs && old(budget) <= budget + 2
      ensures transactions.Keys == old(transactions.Keys) && Active().prepared == old(Active().prepared)
      ensures Active().preparedBlobs.Keys <= old(Active().preparedBlobs.Keys)
    {
      BlobIsThere(name);
      hide Valid, BlobKept, OnlyThisBlob;
      var t := transactions[journal.value.transactionID];
      var expected := journal.value.manifest[name];
      if name !in t.preparedBlobs {
        var verified := VerifyBlobs(TreeAt(liveBlobs, name), expected);
        return if verified then Going else Stuck(BlobsChanged);
      }
      var verified := VerifyBlobs(Some(t.preparedBlobs[name]), expected);
      if !verified {
        return Stuck(BlobsChanged);
      }
      if name in liveBlobs {
        if name in t.displacedBlobs {
          return Stuck(DisplacedExists);
        }
        DisplacingIsOne(name, whole.blobs, liveBlobs, t);
        var alive := BlobStep(name, liveBlobs - {name}, t.(displacedBlobs := t.displacedBlobs[name := liveBlobs[name]]));
        if !alive {
          return Cut;
        }
      }
      p := MoveIn(name);
    }

    /** The second rename of a blob directory. */
    method MoveIn(name: BlobName) returns (p: Progress)
      requires Valid() && IsPrepared() && journal.value.transactionID in transactions
      requires name in Active().preparedBlobs && name !in liveBlobs
      modifies this`liveBlobs, this`transactions, this`budget
      ensures Valid()
      ensures !p.Stuck? && (p.Cut? ==> budget == 0 && old(budget) < 1) && budget <= old(budget)
      ensures p.Going? ==> name !in Active().preparedBlobs && old(budget) <= budget + 1
      ensures transactions.Keys == old(transactions.Keys) && Active().prepared == old(Active().prepared)
      ensures Active().preparedBlobs.Keys <= old(Active().preparedBlobs.Keys)
    {
      BlobIsThere(name);
      hide Valid, BlobKept, OnlyThisBlob;
      var t := transactions[journal.value.transactionID];
      InstallingIsOne(name, whole.blobs, liveBlobs, t);
      var alive := BlobStep(name, liveBlobs[name := t.preparedBlobs[name]], t.(preparedBlobs := t.preparedBlobs - {name}));
      return if alive then Going else Cut;
    }

    lemma BlobIsThere(name: BlobName)
      requires Valid() && IsPrepared()
      ensures journal.value.transactionID in transactions && journal.value.manifest == Active().manifest
      ensures name in Active().manifest && BlobStands(name, liveBlobs, Active())
      ensures name in whole.blobs ==> BlobKept(name, whole.blobs, liveBlobs, Active())
    {
      BlobFacts(whole.blobs, liveBlobs, Active(), name);
    }

    /** installRecoveryBlobs. */
    method InstallBlobs() returns (p: Progress)
      requires Valid() && IsPrepared()
      modifies this`liveBlobs, this`transactions, this`budget
      ensures Valid()
      ensures !p.Stuck? && (p.Cut? ==> budget == 0 && old(budget) < 6) && budget <= old(budget)
      ensures transactions.Keys == old(transactions.Keys) && Active().prepared == old(Active().prepared)
      ensures p.Going? ==>
        && old(budget) <= budget + 6 && liveBlobs == Active().manifest
        && forall name :: name in whole.blobs ==> TreeAt(Active().displacedBlobs, name) == Some(whole.blobs[name])
    {
      BlobIsThere(Snapshots);
      if transactions[journal.value.transactionID].manifest != journal.value.manifest {
        return Stuck(ManifestChanged);
      }
      var names := [Snapshots, Attachments, NotificationSecrets];
      for i := 0 to |names|
        invariant Valid() && budget <= old(budget) <= budget + 2 * i
        invariant transactions.Keys == old(transactions.Keys) && Active().prepared == old(Active().prepared)
        invariant forall k :: 0 <= k < i ==> names[k] !in Active().preparedBlobs
      {
        hide Valid;
        p := InstallBlob(names[i]);
        if !p.Going? {
          return;
        }
      }
      assert Active().preparedBlobs == map[] by {
        assert names[0] !in Active().preparedBlobs && names[1] !in Active().preparedBlobs && names[2] !in Active().preparedBlobs;
        forall name: BlobName ensures name !in Active().preparedBlobs {
          match name { case Snapshots => case Attachments => case NotificationSecrets => }
        }
      }
      AllBlobsDone(whole.blobs, liveBlobs, Active());
      return Going;
    }

    /** activateRestore: files, then blob directories, then the summary and the committed journal. A run
        that is not cut off installs exactly the prepared file set, wherever an earlier one stopped. */
    method Activate(completedMS: int) returns (o: Outcome)
      requires Valid() && IsPrepared()
      modifies this`live, this`liveBlobs, this`temps, this`transactions, this`journal, this`budget, this`whole
      ensures Valid() && journal.Some? && transactions.Keys == old(transactions.Keys)
      ensures o.Done? || o.Crashed?
      ensures o.Crashed? ==>
        && budget == 0 && old(budget) < 4 * |old(journal).value.files| + 8
        && journal == old(journal) && whole == old(whole) && Active().prepared == old(Active().prepared)
      ensures o.Done? ==>
        && o.transactionID == old(journal).value.transactionID
        && journal.value == old(journal).value.(state := Committed, completedMS := Some(completedMS))
        && Now() == FileSet(old(Active().prepared), old(journal).value.manifest) && temps == map[]
        && Displaced(old(whole), transactions[o.transactionID])
        && (Readable(journal.value) <==>
              0 < |journal.value.files| <= 16
              && 0 <= journal.value.recoveryPointMS <= journal.value.startedMS <= completedMS)
    {
      var p := InstallFiles();
      match p {
        case Cut => return Crashed;
        case Stuck(reason) => return Refused(reason);
        case Going =>
      }
      ghost var files, prepared := live, Active().prepared;
      p := InstallBlobs();
      match p {
        case Cut => return Crashed;
        case Stuck(reason) => return Refused(reason);
        case Going =>
      }
      var alive := Step();
      if !alive {
        return Crashed;
      }
      alive := Step();
      if !alive {
        return Crashed;
      }
      AllDone(prepared);
      var committed := journal.value.(state := Committed, completedMS := Some(completedMS));
      journal := Some(committed);
      whole := FileSet(live, liveBlobs);
      return Done(committed.transactionID);
    }

    lemma AllDone(prepared: Files)
      requires Valid() && IsPrepared() && live == prepared == Active().prepared && liveBlobs == Active().manifest
      requires forall name :: name in whole.blobs ==> TreeAt(Active().displacedBlobs, name) == Some(whole.blobs[name])
      requires temps == map[]
      ensures journal.value.transactionID in transactions && journal.value.manifest == Active().manifest
      ensures Displaced(whole, Active())
      ensures DistinctNames(journal.value.files) && journal.value.previousGeneration != journal.value.generation
      ensures forall i :: 0 <= i < |journal.value.files| ==> !journal.value.files[i].name.Other?
    {
    }

    /** While nothing is prepared, transaction directories may be added. */
    twostate lemma AddingIsValid()
      requires old(Valid()) && !old(IsPrepared()) && unchanged(`live, `liveBlobs, `temps, `journal, `whole)
      requires old(transactions.Keys) <= transactions.Keys
      ensures Valid() && !IsPrepared()
    {
      hide Present, OnlyFixed, InProgress;
    }

    /** Every live file, in any order, into the displaced directory of a new transaction. */
    method CopyLive(id: string) returns (alive: bool, displaced: Files)
      requires Valid() && !IsPrepared() && id !in transactions
      modifies this`transactions, this`budget
      ensures Valid()
      ensures if alive then displaced == live && old(budget) == budget + |live| else budget == 0 && old(budget) < |live|
      ensures transactions == old(transactions)
              || transactions == old(transactions)[id := Transaction(map[], displaced, map[], map[], map[])]
    {
      hide *;
      alive, displaced := true, map[];
      var todo := live.Keys;
      NothingCopied(live);
      while todo != {}
        invariant CopiedExcept(live, displaced, todo) && |todo| <= |live|
        invariant Valid() && !IsPrepared() && alive && old(budget) == budget + |live| - |todo|
        invariant transactions == old(transactions)
                  || transactions == old(transactions)[id := Transaction(map[], displaced, map[], map[], map[])]
      {
        label Before:
        var name :| name in todo;
        alive := Step();
        if !alive {
          return;
        }
        CopiedOneMore(live, displaced, todo, name);
        displaced, todo := displaced[name := live[name]], todo - {name};
        transactions := transactions[id := Transaction(map[], displaced, map[], map[], map[])];
        AddingIsValid@Before();
      }
      AllCopied(live, displaced);
    }

    /** The journal of a transaction whose directory is complete. False if cut off before it is durable. */
    method Record(request: Request, a: Attempt) returns (prepared: bool)
      requires Valid() && !IsPrepared() && a.generation != request.generation && SoundBackup(a)
      requires a.transactionID in transactions
      requires transactions[a.transactionID] == Transaction(a.files, live, a.manifest, map[], a.manifest)
      modifies this`journal, this`budget
      ensures Valid() && (if prepared then old(budget) == budget + 1 else budget == 0 && old(budget) == 0 && journal == old(journal))
      ensures prepared ==>
        && IsPrepared() && Recorded(journal.value, request, a) && journal.value.completedMS.None?
        && (Readable(journal.value) <==> 0 <= a.recoveryPointMS <= a.startedMS)
        && 0 < |journal.value.files| <= 11
    {
      hide Present, OnlyFixed, Lists, InProgress;
      var files := ListFiles(a.files, live);
      ListsMeans(files, a.files, live);
      prepared := Step();
      if !prepared {
        return;
      }
      FreshIsInProgress(JournalOf(request, a).(files := files), transactions[a.transactionID], Now());
      journal := Some(JournalOf(request, a).(files := files));
    }

    /** The live files into the displaced directory, then the prepared backup with its manifest, and last
        the journal. Nothing live changes. False if cut off before the journal is durable. */
    method Prepare(request: Request, a: Attempt) returns (prepared: bool)
      requires Valid() && !IsPrepared() && a.transactionID !in transactions && a.generation != request.generation && SoundBackup(a)
      modifies this`transactions, this`journal, this`budget
      ensures Valid() && (if prepared then old(budget) == budget + |live| + 2 else old(budget) < |live| + 2)
      ensures forall id :: id in old(transactions) ==> id in transactions && transactions[id] == old(transactions)[id]
      ensures transactions.Keys <= old(transactions.Keys) + {a.transactionID}
      ensures !prepared ==> budget == 0 && journal == old(journal)
      ensures prepared ==>
        && a.transactionID in transactions && IsPrepared() && transactions[a.transactionID].displaced == live
        && Recorded(journal.value, request, a) && journal.value.state == Prepared && journal.value.completedMS.None?
        && (Readable(journal.value) <==> 0 <= a.recoveryPointMS <= a.startedMS)
        && Active().prepared == a.files && Active().manifest == a.manifest
        && 0 < |journal.value.files| <= 11
    {
      hide Present, OnlyFixed, Lists, InProgress;
      prepared := false;
      var alive, displaced := CopyLive(a.transactionID);
      if !alive {
        return;
      }
      alive := Step();
      if !alive {
        return;
      }
      var t := Transaction(a.files, displaced, a.manifest, map[], a.manifest);
      transactions := transactions[a.transactionID := t];
      prepared := Record(request, a);
    }

    /** The request names the recorded transaction exactly. */
    predicate Matches(request: Request)
      requires journal.Some?
      reads `journal
    {
      && request.resume == Some(journal.value.transactionID) && request.deploymentID == journal.value.deploymentID
      && request.generation == journal.value.previousGeneration && request.recoveryPointMS == journal.value.recoveryPointMS
    }

    /** The documented way to resume: no new backup, the reviewed boundary, the hub stopped. */
    predicate Resumes(request: Request, a: Attempt)
      reads `journal
    {
      && !request.backupGiven && request.reviewed && a.hubStopped
      && journal.Some? && Readable(journal.value) && Matches(request)
    }

    /** Every later run of this request, with the hub stopped, is an exact resume. */
    ghost predicate ResumedBy(request: Request)
      reads `journal
    {
      forall later: Attempt :: later.hubStopped ==> Resumes(request, later)
    }

    /** The documented way to start a restore: reviewed, the hub stopped, absolute paths, no unfinished or
        unreadable restore, room for one more, and the deployment that is there. */
    predicate Starts(request: Request, a: Attempt)
      reads `journal, `transactions
    {
      && request.resume.None? && request.reviewed && request.recoveryPointMS >= 0 && a.hubStopped && request.absolutePaths
      && (journal.Some? ==> Readable(journal.value) && journal.value.state == Committed)
      && |transactions| + (if journal.Some? then 1 else 0) < 33
      && (a.current.Some? ==> a.current.value == (request.deploymentID, request.generation))
    }

    /** A new restore past its checks: prepare, then activate. */
    method Begin(request: Request, a: Attempt) returns (o: Outcome)
      requires Valid() && !IsPrepared() && SoundBackup(a) && a.transactionID !in transactions && a.generation != request.generation
      modifies this
      ensures Valid() && !o.Refused? && transactions.Keys <= old(transactions.Keys) + {a.transactionID}
      ensures o.Crashed? ==> budget == 0 && whole == old(whole) && old(budget) < old(|live|) + 54
      ensures o.Crashed? && IsPrepared() ==>
        && Recorded(journal.value, request, a)
        && Active().prepared == a.files && Active().manifest == a.manifest
        && (Readable(journal.value) <==> 0 <= a.recoveryPointMS <= a.startedMS) && |journal.value.files| <= 11
      ensures o.Crashed? && !IsPrepared() ==> old(budget) < old(|live|) + 2 && journal == old(journal)
      ensures o.Done? ==>
        && Now() == FileSet(a.files, a.manifest) && journal.Some?
        && Recorded(journal.value, request, a)
        && journal.value.state == Committed && journal.value.completedMS == Some(a.completedMS)
        && (Readable(journal.value) <==> 0 <= a.recoveryPointMS <= a.startedMS <= a.completedMS)
        && a.transactionID in transactions && Displaced(old(whole), transactions[a.transactionID])
    {
      hide InProgress, SoundBackup, Displaced, Present, OnlyFixed, Readable;
      var prepared := Prepare(request, a);
      if !prepared {
        return Crashed;
      }
      o := Activate(a.completedMS);
      if o.Crashed? {
        BlobIsThere(Snapshots);
      }
    }

    /** A prepared restore that the request names is taken up again. */
    method Resume(request: Request, completedMS: int) returns (o: Outcome)
      requires Valid() && IsPrepared() && Readable(journal.value) && Matches(request)
      modifies this
      ensures Valid() && transactions.Keys == old(transactions.Keys) && (o.Done? || o.Crashed?)
      ensures o.Crashed? ==>
        && budget == 0 && old(budget) < 4 * |old(journal).value.files| + 8
        && journal == old(journal) && whole == old(whole) && Active().prepared == old(Active().prepared)
      ensures o.Done? ==>
        && journal == Some(old(journal).value.(state := Committed, completedMS := Some(completedMS)))
        && Now() == FileSet(old(Active().prepared), old(journal).value.manifest)
        && journal.value.transactionID in transactions && Displaced(old(whole), transactions[journal.value.transactionID])
        && (Readable(journal.value) <==> completedMS >= journal.value.startedMS)
    {
      hide InProgress, Displaced, Present, OnlyFixed;
      o := Activate(completedMS);
    }

    /** The request that started a restore resumes it. */
    lemma StartedResumes(request: Request, a: Attempt)
      requires request.reviewed && a.recoveryPointMS == request.recoveryPointMS
      requires journal.Some? && Readable(journal.value) && Recorded(journal.value, request, a)
      ensures ResumedBy(request.(resume := Some(a.transactionID), backupGiven := false))
    {
      hide Readable;
    }

    /** The checks of the restore command, in their order. */
    method Decide(request: Request, a: Attempt) returns (c: Course)
      ensures c.TakeUp? <==> IsPrepared() && Resumes(request, a)
      ensures c.AnswerAgain? <==> !IsPrepared() && Resumes(request, a)
      ensures c.StartNew? <==> !IsPrepared() && Starts(request, a)
      ensures c.TakeUp? || c.AnswerAgain? ==> request.resume.Some?
    {
      hide Readable;
      if journal.Some? {
        ReadableIsPast(journal.value);
      }
      if request.resume.Some? && request.backupGiven {
        return Stop(MixedRequest);
      }
      if !request.reviewed || request.recoveryPointMS < 0 {
        return Stop(NotReviewed);
      }
      if !a.hubStopped {
        return Stop(HubRunning);
      }
      if journal.Some? {
        var readable := ReadJournal(journal.value);
        if !readable {
          return Stop(Unreadable);
        }
        if journal.value.state == Prepared || request.resume.Some? {
          if request.resume != Some(journal.value.transactionID) || request.deploymentID != journal.value.deploymentID
             || request.generation != journal.value.previousGeneration
             || request.recoveryPointMS != journal.value.recoveryPointMS {
            return Stop(OtherTransaction);
          }
          return if journal.value.state == Committed then AnswerAgain else TakeUp;
        }
      }
      if request.resume.Some? {
        return Stop(NothingToResume);
      }
      if !request.absolutePaths {
        return Stop(RelativePaths);
      }
      if |transactions| + (if journal.Some? then 1 else 0) >= RECOVERY_ENTRY_LIMIT {
        return Stop(JournalLimit);
      }
      if a.current.Some? && a.current.value != (request.deploymentID, request.generation) {
        return Stop(GenerationConflict);
      }
      return StartNew;
    }

    /** The restore command. */
    method Restore(request: Request, a: Attempt) returns (o: Outcome)
      requires Valid() && SoundBackup(a) && a.transactionID !in transactions && a.generation != request.generation
      modifies this
      ensures Valid()
      ensures transactions.Keys <= old(transactions.Keys) + {a.transactionID}
      // refused: nothing changed
      ensures o.Refused? ==>
        && Now() == old(Now()) && temps == old(temps) && transactions == old(transactions) && journal == old(journal)
        && budget == old(budget) && whole == old(whole)
      // cut off: the last whole file set is still what is live or kept, and a prepared restore stays prepared
      ensures o.Crashed? ==> budget == 0 && whole == old(whole)
      ensures o.Crashed? && old(IsPrepared()) ==> journal == old(journal) && Active().prepared == old(Active().prepared)
      // an exact resume of a prepared restore is never refused and needs only so many durable steps
      ensures old(Resumes(request, a)) ==> !o.Refused?
      ensures old(Resumes(request, a) && (IsPrepared() ==> budget >= 4 * |journal.value.files| + 8)) ==> o.Done?
      ensures o.Done? && old(IsPrepared()) ==>
        && journal == Some(old(journal).value.(state := Committed, completedMS := Some(a.completedMS)))
        && Now() == FileSet(old(Active().prepared), old(journal).value.manifest)
        && journal.value.transactionID in transactions && Displaced(old(whole), transactions[journal.value.transactionID])
      ensures old(IsPrepared()) ==> transactions.Keys == old(transactions.Keys)
      ensures o.Done? && old(IsPrepared()) ==>
        (Readable(journal.value) <==> a.completedMS >= journal.value.startedMS)
      // a committed restore is answered again without effect
      ensures request.resume.Some? && !old(IsPrepared()) ==>
        && !o.Crashed? && (o.Done? ==> old(Resumes(request, a)))
        && Now() == old(Now()) && journal == old(journal) && transactions == old(transactions)
      // a new restore installs its backup
      ensures o.Done? && !old(IsPrepared()) && request.resume.None? ==>
        && Now() == FileSet(a.files, a.manifest) && journal.Some?
        && Recorded(journal.value, request, a)
        && journal.value.state == Committed && journal.value.completedMS == Some(a.completedMS)
        && (Readable(journal.value) <==> 0 <= a.recoveryPointMS <= a.startedMS <= a.completedMS)
        && a.transactionID in transactions && Displaced(old(whole), transactions[a.transactionID])
      // it is refused exactly when it may not start, and needs only so many durable steps
      ensures request.resume.None? && !old(IsPrepared()) ==> (o.Refused? <==> !old(Starts(request, a)))
      ensures old(Starts(request, a) && budget >= |live| + 54) ==> o.Done?
      // cut off before the journal is durable nothing live has changed; afterwards the journal is of this very
      // request, which resumes it
      ensures old(Starts(request, a)) && o.Crashed? && !IsPrepared() ==>
        old(budget) < old(|live|) + 2 && Now() == old(Now()) && journal == old(journal)
      ensures old(Starts(request, a)) && o.Crashed? && IsPrepared() ==>
        && journal.value.transactionID == a.transactionID && journal.value.deploymentID == request.deploymentID
        && journal.value.previousGeneration == request.generation && journal.value.generation == a.generation
        && journal.value.recoveryPointMS == a.recoveryPointMS && journal.value.startedMS == a.startedMS
        && journal.value.manifest == a.manifest && |journal.value.files| <= 11
        && Active().prepared == a.files && Active().manifest == a.manifest
        && (Readable(journal.value) <==> 0 <= a.recoveryPointMS <= a.startedMS)
      ensures old(Starts(request, a)) && o.Crashed? && IsPrepared() && 0 <= a.recoveryPointMS <= a.startedMS
              && a.recoveryPointMS == request.recoveryPointMS ==>
        ResumedBy(request.(resume := Some(a.transactionID), backupGiven := false))
      // an unreadable journal refuses every request
      ensures old(journal.Some? && !Readable(journal.value)) ==> o.Refused?
      ensures old(journal.Some? && Readable(journal.value) && IsPrepared()) && !old(Matches(request)) ==> o.Refused?
    {
      hide InProgress, SoundBackup, Displaced, Present, OnlyFixed, Readable, ResumedBy, Matches;
      var c := Decide(request, a);
      match c {
        case Stop(reason) => return Refused(reason);
        case AnswerAgain => return Done(journal.value.transactionID);
        case TakeUp => o := Resume(request, a.completedMS);
        case StartNew =>
          o := Begin(request, a);
          if o.Crashed? && IsPrepared() && Readable(journal.value) && a.recoveryPointMS == request.recoveryPointMS {
            StartedResumes(request, a);
          }
      }
    }

    /** The monitor runs only when no restore is unfinished, and may then write any live file. */
    method RunMonitor(files: Files, blobs: Blobs) returns (ran: bool)
      requires Valid() && Present(files) && OnlyFixed(files)
      modifies this`live, this`liveBlobs, this`whole
      ensures Valid()
      ensures ran <==> journal.None? || (Readable(journal.value) && journal.value.state == Committed)
      ensures ran ==> old(Now() == whole) && Now() == FileSet(files, blobs)
      ensures !ran ==> Now() == old(Now()) && whole == old(whole)
    {
      ran := RequireRecoveryReady();
      if ran {
        live, liveBlobs := files, blobs;
        whole := FileSet(files, blobs);
      }
    }

    /** Any number of exact resumes, each cut off anywhere, end in the file set of an uninterrupted run as
        soon as one of them has steps enough; until then the restore stays prepared. */
    method ResumeRepeatedly(request: Request, attempts: seq<Attempt>, budgets: seq<nat>)
      requires Valid() && IsPrepared() && |attempts| == |budgets|
      requires forall i :: 0 <= i < |attempts| ==>
        && Resumes(request, attempts[i]) && SoundBackup(attempts[i])
        && attempts[i].transactionID !in transactions && attempts[i].generation != request.generation
      modifies this
      ensures Valid() && journal.Some? && journal.value.transactionID == old(journal).value.transactionID
      ensures IsPrepared() ==> journal == old(journal) && whole == old(whole)
      ensures !IsPrepared() ==>
        && Now() == FileSet(old(Active().prepared), old(journal).value.manifest)
        && journal.value.transactionID in transactions && Displaced(old(whole), transactions[journal.value.transactionID])
      ensures (exists i :: 0 <= i < |budgets| && budgets[i] >= 4 * |old(journal).value.files| + 8) ==> !IsPrepared()
    {
      for i := 0 to |attempts|
        invariant Valid() && journal.Some? && journal.value.transactionID == old(journal).value.transactionID
        invariant transactions.Keys == old(transactions.Keys)
        invariant IsPrepared() ==>
          && journal == old(journal) && whole == old(whole) && Active().prepared == old(Active().prepared)
          && forall k :: 0 <= k < i ==> budgets[k] < 4 * |journal.value.files| + 8
        invariant !IsPrepared() ==>
          && Now() == FileSet(old(Active().prepared), old(journal).value.manifest)
          && journal.value.transactionID in transactions && Displaced(old(whole), transactions[journal.value.transactionID])
      {
        budget := budgets[i];
        var o := Restore(request, attempts[i]);
      }
    }

    /** A restore and its resumptions: once the first run has had steps enough to make the journal durable, and
        one run steps enough to finish, the backup is what is live and everything earlier is kept. */
    method RestoreThroughCrashes(request: Request, a: Attempt, first: nat, attempts: seq<Attempt>, budgets: seq<nat>)
      requires Valid() && Starts(request, a) && SoundBackup(a) && a.transactionID !in transactions && a.generation != request.generation
      requires a.recoveryPointMS == request.recoveryPointMS <= a.startedMS && |attempts| == |budgets|
      requires forall i :: 0 <= i < |attempts| ==>
        && attempts[i].hubStopped && SoundBackup(attempts[i]) && attempts[i].generation != request.generation
        && attempts[i].transactionID !in transactions && attempts[i].transactionID != a.transactionID
      modifies this
      ensures Valid()
      ensures !IsPrepared() ==> Now() == old(Now()) || Now() == FileSet(a.files, a.manifest)
      ensures first >= old(|live|) + 54 || (first >= old(|live|) + 2 && exists i :: 0 <= i < |budgets| && budgets[i] >= 52) ==>
        && !IsPrepared() && Now() == FileSet(a.files, a.manifest)
        && journal.Some? && journal.value.transactionID == a.transactionID
        && a.transactionID in transactions && Displaced(old(whole), transactions[a.transactionID])
    {
      hide InProgress, SoundBackup, Displaced, Present, OnlyFixed, Readable, Matches;
      budget := first;
      var o := Restore(request, a);
      if o.Crashed? && IsPrepared() {
        ResumeRepeatedly(request.(resume := Some(a.transactionID), backupGiven := false), attempts, budgets);
      }
    }

    /** At every point of every run: a mixed file set exists only while the journal says prepared, each
        live file is then its earlier or its prepared version, and nothing that was live before is lost. */
    lemma NothingIsLost()
      requires Valid()
      ensures Now() != whole ==> IsPrepared()
      ensures IsPrepared() ==>
        && journal.value.transactionID in transactions
        && (forall name :: HashAt(live, name) == HashAt(whole.files, name) || HashAt(live, name) == HashAt(Active().prepared, name))
        && (forall name :: name in whole.files ==> name in Active().displaced && Active().displaced[name] == whole.files[name])
        && (forall name :: name in whole.blobs ==>
              TreeAt(liveBlobs, name) == Some(whole.blobs[name]) || TreeAt(Active().displacedBlobs, name) == Some(whole.blobs[name]))
    {
      if IsPrepared() {
        var t := Active();
        forall name ensures HashAt(live, name) == HashAt(whole.files, name) || HashAt(live, name) == HashAt(t.prepared, name) {
          if IsListed(journal.value.files, name) {
            var i :| 0 <= i < |journal.value.files| && journal.value.files[i].name == name;
            EntryFacts(journal.value.files, whole.files, live, temps, t, i);
          }
        }
        forall name | name in whole.blobs
          ensures TreeAt(liveBlobs, name) == Some(whole.blobs[name]) || TreeAt(t.displacedBlobs, name) == Some(whole.blobs[name])
        {
          BlobFacts(whole.blobs, liveBlobs, t, name);
        }
      }
    }
  }
}
