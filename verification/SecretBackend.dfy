/** The secret backend: a flat set of accounts without transactions. */
module SecretBackend {
  import opened Wrappers
  import opened Faults
  import opened Mutation

  class Backend {
    var accounts: Accounts

    constructor (accounts: Accounts)
      ensures this.accounts == accounts
    {
      this.accounts := accounts;
    }

    method ListIds(calm: bool) returns (o: Outcome, ids: set<string>)
      ensures o == Done ==> ids == accounts.Keys
      ensures calm ==> o == Done
    {
      o := Attempt(calm);
      ids := accounts.Keys;
    }

    method Get(account: string, calm: bool) returns (o: Outcome, value: string)
      ensures o == Done ==> account in accounts && value == accounts[account]
      ensures calm && account in accounts ==> o == Done
    {
      value := "";
      o := Attempt(calm);
      if account !in accounts { return Raised, value; }
      value := accounts[account];
    }

    method Set(account: string, value: string, calm: bool) returns (o: Outcome)
      modifies this
      ensures accounts == old(accounts) || accounts == old(accounts)[account := value]
      ensures o == Done ==> accounts == old(accounts)[account := value]
      ensures calm ==> o == Done
    {
      var f := Draw(calm);
      if f.Published() { accounts := accounts[account := value]; }
      return f.Ending();
    }

    method Delete(account: string, calm: bool) returns (o: Outcome)
      modifies this
      ensures accounts == old(accounts) || accounts == old(accounts) - {account}
      ensures o == Done ==> accounts == old(accounts) - {account}
      ensures calm ==> o == Done
    {
      var f := Draw(calm);
      if f.Published() { accounts := accounts - {account}; }
      return f.Ending();
    }
  }

  /** Every account in the images holds its old value or its image; every other account is
    as it was. */
  ghost predicate Between(before: Accounts, images: Images, accounts: Accounts) {
    forall account ::
      if account in images then At(accounts, account) == At(before, account) || At(accounts, account) == images[account]
      else At(accounts, account) == At(before, account)
  }

  /** Brings the accounts to their images, skipping those that already agree. */
  method ApplyAccounts(backend: Backend, desired: Images, calm: bool) returns (o: Outcome)
    modifies backend
    ensures Between(old(backend.accounts), desired, backend.accounts)
    ensures o == Done ==> backend.accounts == Imposed(old(backend.accounts), desired)
    ensures calm ==> o == Done
  {
    var present;
    o, present := backend.ListIds(calm);
    if o != Done { return; }
    var todo := desired.Keys;
    while todo != {}
      invariant todo <= desired.Keys && o == Done
      invariant present == backend.accounts.Keys
      invariant Between(old(backend.accounts), desired, backend.accounts)
      invariant forall account :: account in desired && account !in todo ==> At(backend.accounts, account) == desired[account]
    {
      var account :| account in todo;
      todo := todo - {account};
      if desired[account].Some? {
        var value := desired[account].value;
        var same := false;
        if account in present {
          var current;
          o, current := backend.Get(account, calm);
          if o != Done { return; }
          same := current == value;
        }
        if !same {
          o := backend.Set(account, value, calm);
          if o != Done { return; }
          present := present + {account};
        }
      } else if account in present {
        o := backend.Delete(account, calm);
        if o != Done { return; }
        present := present - {account};
      }
    }
    forall account ensures At(backend.accounts, account) == At(Imposed(old(backend.accounts), desired), account) {
      ImposedAt(old(backend.accounts), desired, account);
    }
    SameAccounts(backend.accounts, Imposed(old(backend.accounts), desired));
  }

  /** Compensation: restores each account on its own, so one failure does not stop the rest. */
  method RestoreAccounts(backend: Backend, before: Images, calm: bool) returns (o: Outcome, failures: nat)
    modifies backend
    ensures o != Raised
    ensures Between(old(backend.accounts), before, backend.accounts)
    ensures o == Done && failures == 0 ==> backend.accounts == Imposed(old(backend.accounts), before)
    ensures calm ==> o == Done && failures == 0
  {
    o, failures := Done, 0;
    var todo := before.Keys;
    while todo != {}
      invariant todo <= before.Keys && o == Done
      invariant Between(old(backend.accounts), before, backend.accounts)
      invariant failures == 0 ==>
                  forall account :: account in before && account !in todo ==> At(backend.accounts, account) == before[account]
      invariant calm ==> failures == 0
    {
      var account :| account in todo;
      todo := todo - {account};
      ghost var prior := backend.accounts;
      var ending := ApplyAccounts(backend, map[account := before[account]], calm);
      ImposedAt(prior, map[account := before[account]], account);
      assert forall other :: other != account ==> At(backend.accounts, other) == At(prior, other);
      if ending == Crashed { return Crashed, failures; }
      if ending == Raised { failures := failures + 1; }
    }
    forall account ensures failures == 0 ==> At(backend.accounts, account) == At(Imposed(old(backend.accounts), before), account) {
      ImposedAt(old(backend.accounts), before, account);
    }
    if failures == 0 {
      SameAccounts(backend.accounts, Imposed(old(backend.accounts), before));
    }
  }

  /** From any mixture of old values and images, imposing the images gives one result and
    imposing the preimages gives the original back. */
  lemma MixturesSettle(before: Accounts, images: Images, accounts: Accounts)
    requires Between(before, images, accounts)
    ensures Imposed(accounts, images) == Imposed(before, images)
    ensures Imposed(accounts, SnapshotAccounts(before, images)) == before
  {
    forall account
      ensures At(Imposed(accounts, images), account) == At(Imposed(before, images), account)
      ensures At(Imposed(accounts, SnapshotAccounts(before, images)), account) == At(before, account)
    {
      ImposedAt(accounts, images, account);
      ImposedAt(before, images, account);
      ImposedAt(accounts, SnapshotAccounts(before, images), account);
    }
    SameAccounts(Imposed(accounts, images), Imposed(before, images));
    SameAccounts(Imposed(accounts, SnapshotAccounts(before, images)), before);
  }

  lemma BetweenStart(accounts: Accounts, images: Images)
    ensures Between(accounts, images, accounts)
  {
  }

  lemma BetweenComposes(before: Accounts, images: Images, middle: Accounts, after: Accounts)
    requires Between(before, images, middle)
    requires Between(middle, images, after) || Between(middle, SnapshotAccounts(before, images), after)
    ensures Between(before, images, after)
  {
  }

  /** Once every image is in place, imposing the images again moves nothing. */
  lemma ImposedIsStable(before: Accounts, images: Images, accounts: Accounts)
    requires Between(Imposed(before, images), images, accounts)
    ensures accounts == Imposed(before, images)
  {
    forall account ensures At(accounts, account) == At(Imposed(before, images), account) {
      ImposedAt(before, images, account);
    }
    SameAccounts(accounts, Imposed(before, images));
  }
}
