/** src/pages/Accounts.tsx: the account table and its delete and save handlers. */
module Accounts {
  import opened Lists
  import opened Entities
  import opened Storage

  /** Editing replaces the accounts whose email is the edited account's original
      email; accounts with other emails and the length are unchanged. This is
      the contract of `Lists.Map` read at `ReplacingAccount`. */
  lemma EditAccountSpec(accounts: seq<Account>, original: Option<Account>, a: Account)
    ensures var email := if original.Some? then Some(original.value.email) else None;
            var r := Map(accounts, ReplacingAccount(email, a));
            && |r| == |accounts|
            && (forall i :: 0 <= i < |accounts| && email == Some(accounts[i].email) ==> r[i] == a)
            && (forall i :: 0 <= i < |accounts| && email != Some(accounts[i].email) ==> r[i] == accounts[i])
  {
  }

  class AccountsPage {
    const store: Store
    var accounts: seq<Account>
    var selectedAccount: Option<Account>
    var mode: Mode

    constructor (store: Store)
      ensures this.store == store && accounts == [] && selectedAccount == None && mode == Add
    {
      this.store := store;
      accounts, selectedAccount, mode := [], None, Add;
    }

    /** The mount effect: seed storage, then read the accounts. */
    method Load()
      modifies this`accounts, store
      ensures store.accounts == if old(store.accounts).None? then Some(InitialAccounts) else old(store.accounts)
      ensures store.employees == if old(store.employees).None? then Some(InitialEmployees) else old(store.employees)
      ensures store.departments == if old(store.departments).None? then Some(InitialDepartments) else old(store.departments)
      ensures store.transfers == if old(store.transfers).None? then Some([]) else old(store.transfers)
      ensures store.requests == if old(store.requests).None? then Some(InitialRequests) else old(store.requests)
      ensures accounts == store.GetAccounts()
    {
      store.InitializeStorage();
      accounts := store.GetAccounts();
    }

    method HandleAddClick()
      modifies this`selectedAccount, this`mode
      ensures selectedAccount == None && mode == Add
    {
      selectedAccount, mode := None, Add;
    }

    method HandleEditClick(a: Account)
      modifies this`selectedAccount, this`mode
      ensures selectedAccount == Some(a) && mode == Edit
    {
      selectedAccount, mode := Some(a), Edit;
    }

    /** handleDialogClose: closing the dialog forgets the selected account; the mode stays. */
    method HandleDialogClose()
      modifies this`selectedAccount
      ensures selectedAccount == None
    {
      selectedAccount := None;
    }

    /** handleDeleteClick: every account with that email goes, the others keep their order. */
    method HandleDeleteClick(a: Account)
      modifies this`accounts, store`accounts
      ensures accounts == Filter(old(accounts), AccountOtherEmail(a.email))
      ensures store.accounts == Some(accounts)
    {
      var updated := Filter(accounts, AccountOtherEmail(a.email));
      accounts := updated;
      store.SetAccounts(updated);
    }

    /** handleSaveAccount: append in add mode; in edit mode replace the accounts
        carrying the selected account's original email. */
    method HandleSaveAccount(a: Account)
      modifies this`accounts, store`accounts
      ensures mode == Add ==> accounts == old(accounts) + [a]
      ensures mode == Edit ==>
                accounts == Map(old(accounts),
                                ReplacingAccount(if selectedAccount.Some? then Some(selectedAccount.value.email) else None, a))
      ensures store.accounts == Some(accounts)
    {
      var updated: seq<Account>;
      if mode == Add {
        updated := accounts + [a];
      } else {
        var email := if selectedAccount.Some? then Some(selectedAccount.value.email) else None;
        updated := Map(accounts, ReplacingAccount(email, a));
      }
      accounts := updated;
      store.SetAccounts(updated);
    }
  }
}
