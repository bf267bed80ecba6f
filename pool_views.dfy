/** The decision flows of `pools/pool_views.py`: registering an existing
    pool (credential probe, gateway add, record creation), removing one,
    scaling up and terminating an EC2 pool, and the pool test page.

    The pool-level gateway commands (`test_bosco_pool`, the three-result
    `add_bosco_pool`, `remove_bosco_pool`, `remove_ec2_pool`) and the EC2
    calls are not modelled: their results are parameters, and the model
    records which commands were issued, in order. */
module PoolViews {
  import opened Text
  import opened PoolForms

  /** A command issued outside the web process. */
  datatype GatewayCall =
    | SshProbe(argv: seq<string>)
    | AddToGateway(platform: string, address: string, keyFile: string, poolType: string)
    | RemoveFromGateway(address: string)

  const CredentialsRejectedMessage := "The SSH credentials provided are not correct"
  const AddFailedMessage := "There was an error adding the pool"

  /** The argv of the probe that checks the credentials: `pwd` run over ssh
      with the uploaded key, without host key checking. */
  function ProbeArgv(keyFile: string, username: string, address: string): (argv: seq<string>)
    ensures |argv| == 9 && argv[0] == "ssh" && argv[8] == "pwd"
    ensures argv[4] == keyFile && argv[6] == username && argv[7] == address
    ensures argv[1] == "-o" && argv[2] == "StrictHostKeyChecking=no"
    ensures argv[3] == "-i" && argv[5] == "-l"
  {
    ["ssh", "-o", "StrictHostKeyChecking=no", "-i", keyFile, "-l", username, address, "pwd"]
  }

  /** How a request to register an existing pool ends. */
  datatype AddOutcome =
    | FormRejected                        // the form is shown again with its own errors
    | CredentialsRejected(errors: seq<string>)
    | AddFailed(errors: seq<string>)
    | Added(poolId: nat)                  // redirect to the test page of the new pool

  /** How a request to remove a pool ends. */
  datatype RemoveOutcome =
    | PoolMissing                         // the lookup raises
    | NotOwner                            // the ownership assertion fails
    | ConfirmRemoval(pool: BoscoPool)     // the confirmation page
    | RemoveFailed(poolId: nat)           // redirect back to the pool's details
    | Removed                             // redirect to the pool list

  /** The pool table, the temporary files on disk, the commands issued and
      the errors stored in the session. */
  class PoolStore {
    var pools: map<nat, BoscoPool>
    var nextId: nat
    var files: map<string, string>
    var calls: seq<GatewayCall>
    var sessionErrors: seq<string>

    /** Record ids are below the next id to be assigned; names are unique per
        user and addresses over the whole table. */
    ghost predicate Valid()
      reads this
    {
      (forall id :: id in pools ==> id < nextId) && UniqueNames(pools) && UniqueAddresses(pools)
    }

    constructor ()
      ensures Valid()
      ensures pools == map[] && files == map[] && calls == [] && sessionErrors == []
    {
      pools := map[];
      nextId := 0;
      files := map[];
      calls := [];
      sessionErrors := [];
    }

    /** A POST to `BoscoPoolAddView`: the form is validated against the pool
        table and `form_valid` runs only when it is valid. */
    method PostAddPool(user: nat, f: PoolFormInput, keyFile: string, sshExit: int,
                       addOutput: seq<string>, addErrors: seq<string>, addExit: int)
      returns (r: AddOutcome)
      requires Valid() && keyFile !in files
      modifies this
      ensures Valid()
      ensures files == old(files) && sessionErrors == old(sessionErrors)
      ensures !AddPoolFormValid(old(pools), user, f) ==>
                r == FormRejected && pools == old(pools) && nextId == old(nextId) && calls == old(calls)
      ensures AddPoolFormValid(old(pools), user, f) ==>
                && (r.CredentialsRejected? <==> sshExit != 0)
                && (r.AddFailed? <==> sshExit == 0 && addExit != 0)
                && (r.Added? <==> sshExit == 0 && addExit == 0)
      ensures r.Added? ==> pools == old(pools)[r.poolId := NewPool(user, f)] && r.poolId !in old(pools)
      ensures !r.Added? ==> pools == old(pools)
      ensures AddPoolFormValid(old(pools), user, f) && sshExit != 0 ==>
                && r == CredentialsRejected([CredentialsRejectedMessage]) && nextId == old(nextId)
                && calls == old(calls) + [SshProbe(ProbeArgv(keyFile, f.username, f.address))]
      ensures AddPoolFormValid(old(pools), user, f) && sshExit == 0 && addExit != 0 ==>
                && r == AddFailed([AddFailedMessage] + addOutput + addErrors) && nextId == old(nextId)
                && calls == old(calls) + [SshProbe(ProbeArgv(keyFile, f.username, f.address)),
                                          AddToGateway(f.platform, CredentialAddress(f.username, f.address), keyFile, f.poolType),
                                          RemoveFromGateway(CredentialAddress(f.username, f.address))]
      ensures AddPoolFormValid(old(pools), user, f) && sshExit == 0 && addExit == 0 ==>
                && r == Added(old(nextId)) && nextId == old(nextId) + 1
                && calls == old(calls) + [SshProbe(ProbeArgv(keyFile, f.username, f.address)),
                                          AddToGateway(f.platform, CredentialAddress(f.username, f.address), keyFile, f.poolType)]
    {
      if !AddPoolFormValid(pools, user, f) {
        return FormRejected;
      }
      r := FormValid(user, f, keyFile, sshExit, addOutput, addErrors, addExit);
    }

    /** `BoscoPoolAddView.form_valid` for a valid form. `keyFile` is the
        fresh name `tempfile.mkstemp` returns; `sshExit` is the probe's exit
        status and `addOutput`, `addErrors`, `addExit` are what the gateway's
        add command returns. Whether the clean-up removal raises makes no
        difference, so it is not a parameter. On each of the three ways the
        method returns, the key file is gone again. */
    method FormValid(user: nat, f: PoolFormInput, keyFile: string, sshExit: int,
                     addOutput: seq<string>, addErrors: seq<string>, addExit: int)
      returns (r: AddOutcome)
      requires Valid() && keyFile !in files && AddPoolFormValid(pools, user, f)
      modifies this
      ensures Valid()
      ensures files == old(files) && sessionErrors == old(sessionErrors)
      ensures sshExit != 0 ==>
                && r == CredentialsRejected([CredentialsRejectedMessage])
                && pools == old(pools) && nextId == old(nextId)
                && calls == old(calls) + [SshProbe(ProbeArgv(keyFile, f.username, f.address))]
      ensures sshExit == 0 && addExit != 0 ==>
                && r == AddFailed([AddFailedMessage] + addOutput + addErrors)
                && pools == old(pools) && nextId == old(nextId)
                && calls == old(calls) + [SshProbe(ProbeArgv(keyFile, f.username, f.address)),
                                          AddToGateway(f.platform, CredentialAddress(f.username, f.address), keyFile, f.poolType),
                                          RemoveFromGateway(CredentialAddress(f.username, f.address))]
      ensures sshExit == 0 && addExit == 0 ==>
                && r == Added(old(nextId)) && old(nextId) !in old(pools)
                && pools == old(pools)[old(nextId) := NewPool(user, f)] && nextId == old(nextId) + 1
                && calls == old(calls) + [SshProbe(ProbeArgv(keyFile, f.username, f.address)),
                                          AddToGateway(f.platform, CredentialAddress(f.username, f.address), keyFile, f.poolType)]
    {
      ghost var before := files;
      // the key is written to the temporary file
      files := files[keyFile := f.sshKey];
      calls := calls + [SshProbe(ProbeArgv(keyFile, f.username, f.address))];
      if sshExit != 0 {
        files := files - {keyFile};
        assert files == before;
        return CredentialsRejected([CredentialsRejectedMessage]);
      }
      var address := CredentialAddress(f.username, f.address);
      calls := calls + [AddToGateway(f.platform, address, keyFile, f.poolType)];
      if addExit != 0 {
        files := files - {keyFile};
        assert files == before;
        var errors := [AddFailedMessage] + addOutput + addErrors;
        // the clean-up removal's exceptions are swallowed
        calls := calls + [RemoveFromGateway(address)];
        return AddFailed(errors);
      }
      files := files - {keyFile};
      assert files == before;
      ValidFormIsFree(pools, user, f);
      var id := SavePool(NewPool(user, f));
      return Added(id);
    }

    /** `pool.save()` of a new record: it gets the next id. */
    method SavePool(p: BoscoPool) returns (id: nat)
      requires Valid() && !AddressTaken(pools, p.address) && !NameTaken(pools, p.user, p.name)
      modifies this
      ensures Valid()
      ensures id == old(nextId) && id !in old(pools)
      ensures pools == old(pools)[id := p] && nextId == old(nextId) + 1
      ensures files == old(files) && calls == old(calls) && sessionErrors == old(sessionErrors)
    {
      id := nextId;
      InsertKeepsUnique(pools, id, p);
      pools := pools[id := p];
      nextId := nextId + 1;
    }

    /** A request to `BoscoPoolRemoveView` by `user` for pool `poolId`.
        `removeError` is None when the gateway removal returns normally and
        the exception's message when it raises. */
    method RemovePool(user: nat, poolId: nat, confirmed: bool, removeError: Option<string>)
      returns (r: RemoveOutcome)
      requires Valid()
      modifies this
      ensures Valid()
      ensures files == old(files) && nextId == old(nextId)
      ensures poolId !in old(pools) ==>
                r == PoolMissing && pools == old(pools) && calls == old(calls) && sessionErrors == old(sessionErrors)
      ensures poolId in old(pools) && old(pools)[poolId].user != user ==>
                r == NotOwner && pools == old(pools) && calls == old(calls) && sessionErrors == old(sessionErrors)
      ensures poolId in old(pools) && old(pools)[poolId].user == user && !confirmed ==>
                && r == ConfirmRemoval(old(pools)[poolId])
                && pools == old(pools) && calls == old(calls) && sessionErrors == old(sessionErrors)
      ensures poolId in old(pools) && old(pools)[poolId].user == user && confirmed ==>
                calls == old(calls) + [RemoveFromGateway(old(pools)[poolId].address)]
      ensures poolId in old(pools) && old(pools)[poolId].user == user && confirmed && removeError.Some? ==>
                r == RemoveFailed(poolId) && pools == old(pools) && sessionErrors == [removeError.value]
      ensures poolId in old(pools) && old(pools)[poolId].user == user && confirmed && removeError.None? ==>
                r == Removed && pools == old(pools) - {poolId} && sessionErrors == old(sessionErrors)
    {
      if poolId !in pools {
        return PoolMissing;
      }
      var pool := pools[poolId];
      if pool.user != user {
        return NotOwner;
      }
      if !confirmed {
        return ConfirmRemoval(pool);
      }
      calls := calls + [RemoveFromGateway(pool.address)];
      match removeError {
        case Some(e) =>
          sessionErrors := [e];
          r := RemoveFailed(poolId);
        case None =>
          RemovalKeepsUnique(pools, poolId);
          pools := pools - {poolId};
          r := Removed;
      }
    }
  }

  // ---------------------------------------------------------------------
  // EC2 pools

  /** `extra_nodes` in `EC2PoolScaleUpView.form_valid`, given the cleaned
      form fields and the pool's current instance count. None stands for the
      TypeError of `None - count` when neither field was given a value; the
      view then redirects with the error. */
  function ExtraNodes(nodesToAdd: Option<int>, totalPoolSize: Option<int>, instanceCount: nat): (r: Option<int>)
    ensures r.Some? <==> Given(nodesToAdd) || totalPoolSize.Some?
    ensures Given(nodesToAdd) ==> r == Some(nodesToAdd.value)
    ensures !Given(nodesToAdd) && totalPoolSize.Some? ==> instanceCount + r.value == totalPoolSize.value
  {
    if Given(nodesToAdd) then Some(nodesToAdd.value)
    else if totalPoolSize.None? then None
    else Some(totalPoolSize.value - instanceCount)
  }

  /** After a valid scale-up form the count is always computed, and it is
      positive when the nodes to add were given. */
  lemma ExtraNodesAfterValidForm(nodesToAdd: Option<int>, totalPoolSize: Option<int>, instanceCount: nat)
    requires CleanScaleUp(nodesToAdd, totalPoolSize).Valid?
    ensures ExtraNodes(nodesToAdd, totalPoolSize, instanceCount).Some?
    ensures Given(nodesToAdd) ==> ExtraNodes(nodesToAdd, totalPoolSize, instanceCount).value > 0
  {
  }

  /** Nothing keeps the count positive: any target size below the current
      instance count passes the form and asks for a negative number of nodes,
      the difference. */
  lemma ExtraNodesUnguarded(totalPoolSize: int, instanceCount: nat)
    requires 0 < totalPoolSize < instanceCount
    ensures CleanScaleUp(None, Some(totalPoolSize)).Valid?
    ensures ExtraNodes(None, Some(totalPoolSize), instanceCount) == Some(totalPoolSize - instanceCount)
    ensures ExtraNodes(None, Some(totalPoolSize), instanceCount).value < 0
  {
  }

  /** A call `EC2PoolTerminateView` makes, in order. */
  datatype Ec2Call = RefreshPool | RemoveEc2FromGateway | TerminatePool

  datatype TerminateOutcome =
    | TerminateRefused                    // the lookup raises or the ownership assertion fails
    | ConfirmTermination
    | PoolTerminated(sessionErrors: seq<string>)

  /** `EC2PoolTerminateView.dispatch`: `owned` is whether the pool exists
      and belongs to the requester, `removeRaises` whether the gateway
      removal raises and `terminateErrors` what terminating the pool
      reports. */
  function TerminateFlow(owned: bool, confirmed: bool, removeRaises: bool, terminateErrors: seq<string>)
    : (r: (seq<Ec2Call>, TerminateOutcome))
    ensures !owned ==> r == ([], TerminateRefused)
    ensures owned && !confirmed ==> r == ([RefreshPool], ConfirmTermination)
    ensures owned && confirmed ==> r == ([RefreshPool, RemoveEc2FromGateway, TerminatePool], PoolTerminated(terminateErrors))
  {
    if !owned then ([], TerminateRefused)
    else if !confirmed then ([RefreshPool], ConfirmTermination)
    else
      // an exception from the gateway removal is swallowed
      ([RefreshPool, RemoveEc2FromGateway, TerminatePool], PoolTerminated(terminateErrors))
  }

  /** Whether the gateway removal raises makes no difference to the calls or
      the outcome. */
  lemma TerminateIgnoresRemoval(owned: bool, confirmed: bool, terminateErrors: seq<string>)
    ensures TerminateFlow(owned, confirmed, true, terminateErrors) == TerminateFlow(owned, confirmed, false, terminateErrors)
  {
  }

  // ---------------------------------------------------------------------
  // PoolTestResultView

  datatype TestPage = TestPage(output: seq<string>, stderr: seq<string>, exitStatus: int, success: bool)

  /** The test result page of an owned pool, given what the gateway's test
      command returned. */
  function TestResultPage(output: seq<string>, errors: seq<string>, exitStatus: int): (p: TestPage)
    ensures p.success <==> exitStatus == 0
    ensures p.output == output && p.stderr == errors && p.exitStatus == exitStatus
  {
    TestPage(output, errors, exitStatus, if exitStatus == 0 then true else false)
  }
}
