/** Removal of an installation: a receipt first, then ordinary paths, the database, the hub binary and the
    receipt last. A removal that fails ends the run, which is also what a crash before it looks like. */
module Uninstall {
  import opened Wrappers

  /** The paths of an installation; the three that are kept back have names of their own. */
  datatype Path =
    | Service(name: string) | Data(name: string) | CollectorConfig
    | Database | HubBinary | RemovalReceipt

  predicate IsData(p: Path) {
    p.Data? || p == CollectorConfig || p == Database
  }

  predicate IsOrdinary(p: Path) {
    p.Service? || p.Data? || p == CollectorConfig
  }

  /** PurgePaths, or ServicePaths when data is kept. */
  predicate InInventory(p: Path, keepData: bool) {
    keepData ==> !IsData(p)
  }

  datatype Receipt = Receipt(deploymentID: string, generation: string, keepData: bool)

  /** What the run finds and what goes wrong in it: the identity in the database and in the collector
      configuration, whether the database opens and its state can be read, whether services stopped, and which removals fail. */
  datatype Environment = Environment(
    database: (string, string), databaseOpens: bool, stateReads: bool, collector: Option<(string, string)>,
    receiptReadable: bool, receiptWrites: bool, stopped: bool, fails: set<Path>)

  datatype Request = Request(keepData: bool, preview: bool, generation: string, confirm: string, acknowledged: bool)

  datatype Outcome =
    | Listed | Failed | Partial(removed: seq<Path>) | Succeeded(removed: seq<Path>)

  /** The identity and mode the run goes on with, or None when it stops before changing anything. */
  function Decide(request: Request, env: Environment, present: set<Path>, receipt: Option<Receipt>): Option<Receipt> {
    if receipt.Some? && !env.receiptReadable then None
    else if Database in present && env.databaseOpens then
      if !env.stateReads then None else FromState(request, env.database, receipt)
    else if Database !in present then
      if CollectorConfig in present && env.collector.Some? then FromState(request, env.collector.value, receipt)
      else if receipt.None? || receipt.value.keepData != request.keepData then None
      else receipt
    else receipt
  }

  function FromState(request: Request, state: (string, string), receipt: Option<Receipt>): Option<Receipt> {
    if receipt.Some? && receipt.value.deploymentID == state.0 && receipt.value.generation == state.1
       && receipt.value.keepData != request.keepData
    then None
    else Some(Receipt(state.0, state.1, request.keepData))
  }

  predicate Confirmed(request: Request, r: Receipt) {
    && request.generation != "" && request.generation == r.generation
    && (!request.keepData ==> request.confirm == r.deploymentID && request.acknowledged)
  }

  /** The deployment a removal is for: that of the database that opens, without a database that of the collector
      configuration, else that of the preserved receipt. */
  ghost predicate IsFor(env: Environment, present: set<Path>, receipt: Option<Receipt>, deployment: string, generation: string) {
    if Database in present && env.databaseOpens then env.stateReads && env.database == (deployment, generation)
    else if Database !in present && CollectorConfig in present && env.collector.Some? then
      env.collector.value == (deployment, generation)
    else receipt.Some? && receipt.value.deploymentID == deployment && receipt.value.generation == generation
  }

  /** A preserved receipt of this deployment in the other mode. */
  ghost predicate OtherModePreserved(request: Request, receipt: Option<Receipt>, deployment: string) {
    && receipt.Some? && receipt.value.keepData != request.keepData
    && receipt.value.deploymentID == deployment && receipt.value.generation == request.generation
  }

  /** Whether the removal of a deployment may go ahead: its generation is named, a purge also names the deployment
      and acknowledges the backup, and no preserved receipt holds the other mode, unless the database does not open. */
  ghost predicate MayRemove(request: Request, env: Environment, present: set<Path>, receipt: Option<Receipt>, deployment: string) {
    && (receipt.Some? ==> env.receiptReadable)
    && request.generation != "" && IsFor(env, present, receipt, deployment, request.generation)
    && (!request.keepData ==> request.confirm == deployment && request.acknowledged)
    && (OtherModePreserved(request, receipt, deployment) ==> Database in present && !env.databaseOpens)
  }

  /** The code's decision is to go ahead exactly when a removal may, and for that deployment, generation and mode. */
  lemma DecideExactly(request: Request, env: Environment, present: set<Path>, receipt: Option<Receipt>)
    ensures
      var d := Decide(request, env, present, receipt);
      (d.Some? && Confirmed(request, d.value)) <==> exists deployment :: MayRemove(request, env, present, receipt, deployment)
    ensures forall deployment :: MayRemove(request, env, present, receipt, deployment) ==>
      Decide(request, env, present, receipt) ==
        Some(Receipt(deployment, request.generation,
                     if Database in present && !env.databaseOpens then receipt.value.keepData else request.keepData))
  {
    var d := Decide(request, env, present, receipt);
    if d.Some? && Confirmed(request, d.value) {
      assert MayRemove(request, env, present, receipt, d.value.deploymentID);
    }
  }

  lemma PurgeIsConfirmed(request: Request, env: Environment, present: set<Path>, receipt: Option<Receipt>)
    ensures (exists deployment :: MayRemove(request, env, present, receipt, deployment)) && !request.keepData ==>
      request.acknowledged && IsFor(env, present, receipt, request.confirm, request.generation)
  {
  }

  /** A retry in the other mode than the preserved receipt's is stopped exactly unless the database is there
      but does not open, or the receipt is of another deployment. */
  lemma ModeIsHeldExactlyWhen(request: Request, env: Environment, present: set<Path>, receipt: Receipt)
    requires env.receiptReadable && receipt.keepData != request.keepData
    ensures
      Decide(request, env, present, Some(receipt)).Some? <==>
      || (Database in present && !env.databaseOpens)
      || (Database in present && env.databaseOpens && env.stateReads
          && (receipt.deploymentID, receipt.generation) != env.database)
      || (Database !in present && CollectorConfig in present && env.collector.Some?
          && (receipt.deploymentID, receipt.generation) != env.collector.value)
  {
  }

  /** With a database that does not open, a receipt that keeps data does not stop a purge. */
  lemma UnopenedDatabaseLosesTheMode(env: Environment)
    requires env.receiptReadable && !env.databaseOpens
    ensures
      var receipt := Receipt("deployment", "generation", true);
      var request := Request(false, false, "generation", "deployment", true);
      Decide(request, env, {Database, RemovalReceipt}, Some(receipt)) == Some(receipt) && Confirmed(request, receipt)
  {
  }

  ghost predicate NoneLeft(present: set<Path>, keepData: bool) {
    forall p :: p in present && IsOrdinary(p) ==> !InInventory(p, keepData)
  }

  class Machine {
    var present: set<Path>
    var receipt: Option<Receipt>
    // the paths there were when no removal was pending
    ghost var whole: set<Path>

    ghost predicate Valid()
      reads this
    {
      && (RemovalReceipt in present <==> receipt.Some?)
      && RemovalReceipt !in whole
      && present - {RemovalReceipt} <= whole
      && (receipt.None? ==> present == whole)
    }

    constructor (paths: set<Path>)
      requires RemovalReceipt !in paths
      ensures Valid() && present == paths && receipt.None?
    {
      present, receipt, whole := paths, None, paths;
    }

    /** One removal: refused by the file system, or done. */
    method Remove(p: Path, fails: set<Path>) returns (ok: bool)
      requires p != RemovalReceipt
      modifies this`present
      ensures ok <==> p !in fails
      ensures present == if ok then old(present) - {p} else old(present)
    {
      ok := p !in fails;
      if ok {
        present := present - {p};
      }
    }

    /** The ordinary paths of the inventory, in its order, up to the first that cannot be removed. */
    method RemoveOrdinary(inventory: seq<Path>, resources: set<Path>, fails: set<Path>, ghost keepData: bool)
      returns (ok: bool, removed: seq<Path>)
      requires Valid() && receipt.Some? && present == resources + {RemovalReceipt}
      requires forall p :: p in resources ==> (p in inventory <==> InInventory(p, keepData))
      modifies this`present
      ensures Valid() && present <= old(present) && RemovalReceipt in present
      ensures forall p :: p in removed <==> p in old(present) && p !in present
      ensures forall p :: p in old(present) && p !in present ==> IsOrdinary(p) && InInventory(p, keepData)
      ensures ok ==> NoneLeft(present, keepData)
      ensures fails == {} ==> ok
    {
      hide InInventory;
      ok, removed := true, [];
      for i := 0 to |inventory|
        invariant Valid() && RemovalReceipt in present && present <= resources + {RemovalReceipt}
        invariant forall p :: p in removed <==> p in resources && p !in present
        invariant forall p :: p in resources && p !in present ==> IsOrdinary(p) && p in inventory[..i]
        invariant forall p :: p in inventory[..i] && IsOrdinary(p) ==> p !in present
      {
        var p := inventory[i];
        if p in resources && p != Database && p != HubBinary && p != RemovalReceipt {
          ok := Remove(p, fails);
          if !ok {
            return;
          }
          removed := removed + [p];
        }
      }
      EverythingOrdinaryIsGone(inventory, resources, keepData);
    }

    /** The database, when data goes too, and then the hub binary. */
    method RemoveKept(keepData: bool, fails: set<Path>) returns (ok: bool, removed: seq<Path>)
      requires Valid() && receipt.Some? && NoneLeft(present, keepData)
      modifies this`present
      ensures Valid() && present <= old(present) && RemovalReceipt in present && NoneLeft(present, keepData)
      ensures forall p :: p in removed <==> p in old(present) && p !in present
      ensures forall p :: p in old(present) && p !in present ==> p == HubBinary || (p == Database && !keepData)
      ensures HubBinary in old(present) && HubBinary !in present && !keepData ==> Database !in present
      ensures ok ==> HubBinary !in present && (!keepData ==> Database !in present)
      ensures fails == {} ==> ok
    {
      hide InInventory;
      ok, removed := true, [];
      if !keepData && Database in present {
        ok := Remove(Database, fails);
        if !ok {
          return;
        }
        removed := removed + [Database];
      }
      if HubBinary in present {
        ok := Remove(HubBinary, fails);
        if !ok {
          return;
        }
        removed := removed + [HubBinary];
      }
    }

    /** The uninstall command, on the inventory in any order. */
    method Apply(request: Request, env: Environment, inventory: seq<Path>) returns (o: Outcome)
      requires Valid() && forall p :: p in present ==> (p in inventory <==> InInventory(p, request.keepData))
      requires forall i, j :: 0 <= i < j < |inventory| ==> inventory[i] != inventory[j]
      modifies this
      ensures Valid()
      ensures o.Listed? <==> request.preview
      ensures o.Listed? || o.Failed? ==> present == old(present) && receipt == old(receipt) && whole == old(whole)
      // it goes ahead exactly when it may, and then for that deployment, generation and mode
      ensures o.Partial? || o.Succeeded? <==>
        && !request.preview && env.receiptWrites
        && exists deployment :: MayRemove(request, env, old(present), old(receipt), deployment)
      ensures o.Partial? ==>
        && receipt.Some? && MayRemove(request, env, old(present), old(receipt), receipt.value.deploymentID)
        && receipt.value.generation == request.generation
        && receipt.value.keepData == if Database in old(present) && !env.databaseOpens then old(receipt).value.keepData
                                     else request.keepData
      // a purge without the matching confirmation and acknowledgement changes nothing
      ensures !request.keepData
              && !(request.acknowledged && IsFor(env, old(present), old(receipt), request.confirm, request.generation)) ==>
        present == old(present) && receipt == old(receipt) && whole == old(whole)
      // keep-data removes no data path
      ensures request.keepData ==>
        forall p: Path :: p in old(present) && (p.Data? || p == CollectorConfig || p == Database) ==> p in present
      // the receipt is there first, and stays until nothing of the inventory is left
      ensures o.Partial? ==>
        receipt.Some? && whole == old(whole)
      ensures o.Succeeded? ==>
        && receipt.None? && (forall p :: p in old(present) && InInventory(p, request.keepData) ==> p !in present)
      // nothing else is removed, and the order is kept whatever fails
      ensures forall p :: p in old(present) && p !in present ==> InInventory(p, request.keepData)
      ensures Database in old(present) && Database !in present ==> !request.keepData && NoneLeft(present, request.keepData)
      ensures HubBinary in old(present) && HubBinary !in present ==>
        NoneLeft(present, request.keepData) && (!request.keepData ==> Database !in present)
      ensures old(receipt).Some? && receipt.None? ==> HubBinary !in present && NoneLeft(present, request.keepData)
      ensures (o.Partial? || o.Succeeded?) ==>
        forall p :: p in o.removed <==> (p in old(present) + {RemovalReceipt} && p !in present)
      // with nothing failing a confirmed run succeeds
      ensures (!request.preview && env.fails == {} && env.stopped && env.receiptWrites
               && exists deployment :: MayRemove(request, env, old(present), old(receipt), deployment)) ==> o.Succeeded?
    {
      DecideExactly(request, env, present, receipt);
      PurgeIsConfirmed(request, env, present, receipt);
      hide Decide, Confirmed, MayRemove, IsFor;
      if request.preview {
        return Listed;
      }
      var decided := Decide(request, env, present, receipt);
      if decided.None? || !Confirmed(request, decided.value) || !env.receiptWrites {
        return Failed;
      }
      var resources := present;
      receipt := decided;
      present := present + {RemovalReceipt};
      if !env.stopped {
        return Partial([]);
      }
      var ok, ordinary := RemoveOrdinary(inventory, resources, env.fails, request.keepData);
      if !ok {
        return Partial(ordinary);
      }
      var kept;
      ok, kept := RemoveKept(request.keepData, env.fails);
      if !ok {
        return Partial(ordinary + kept);
      }
      // the receipt is last
      if RemovalReceipt in env.fails {
        return Partial(ordinary + kept);
      }
      present, receipt := present - {RemovalReceipt}, None;
      whole := present;
      return Succeeded(ordinary + kept + [RemovalReceipt]);
    }

    lemma EverythingOrdinaryIsGone(inventory: seq<Path>, resources: set<Path>, keepData: bool)
      requires forall p :: p in resources ==> (p in inventory <==> InInventory(p, keepData))
      requires present <= resources + {RemovalReceipt}
      requires forall p :: p in inventory[..|inventory|] && IsOrdinary(p) ==> p !in present
      ensures NoneLeft(present, keepData)
    {
      assert inventory[..|inventory|] == inventory;
    }

    /** setupLocal's gate: no setup while a receipt, readable or not, is there. */
    method Setup(paths: set<Path>) returns (ok: bool)
      requires Valid() && RemovalReceipt !in paths
      modifies this
      ensures Valid() && (ok <==> old(receipt).None?)
      ensures ok ==> present == old(present) + paths
      ensures !ok ==> present == old(present) && receipt == old(receipt) && whole == old(whole)
    {
      if receipt.Some? {
        return false;
      }
      present := present + paths;
      whole := present;
      return true;
    }

    /** Under any pattern of failures and retries: while some but not all of a removal has happened its
        receipt is there, and setup refuses. */
    lemma PartialRemovalIsMarked()
      requires Valid()
      ensures (exists p :: p in whole && p !in present) ==> receipt.Some? && RemovalReceipt in present
    {
    }
  }
}
