/** What `create_ssh_account_directories` does to the set of existing
    directories, and which key-generation commands it issues, as a pure
    function of its inputs and of the directories that exist when it starts.

    For each provider in order, and each of its accounts in order, it makes
    `ssh_path/provider/account` with `mkdir(parents=True)` and then generates
    the account's key pair. `mkdir` raises "exists" when that directory is
    already there, and the handler sits around the whole account loop of
    the provider: the rest of that provider's accounts are skipped, the
    next provider is still visited. */
module SshWalk {
  import opened Paths
  import opened Keygen

  /** A provider (`VersionControl`): its host name and its account names. */
  datatype VersionControl = VersionControl(name: string, accounts: seq<string>)

  /** The directories that exist after a walk, and the `ssh-keygen`
      argument lists the walk ran, in order. */
  datatype Walk = Walk(dirs: set<Segments>, keygens: seq<seq<string>>)

  /** A walk preceded by commands already issued. */
  function Resume(done: seq<seq<string>>, w: Walk): Walk
  {
    Walk(w.dirs, done + w.keygens)
  }

  function ProviderPath(sshPath: string, vc: VersionControl): string
  {
    JoinPath(sshPath, vc.name)
  }

  function AccountPath(vcPath: string, account: string): string
  {
    JoinPath(vcPath, account)
  }

  /** The directory `mkdir` is asked to make for `account`. */
  function AccountDir(vcPath: string, account: string): Segments
  {
    Parts(AccountPath(vcPath, account))
  }

  /** The accounts of one provider, from the given state: stop at the first
      account whose directory already exists. */
  function AccountWalk(dirs: set<Segments>, vcPath: string, accounts: seq<string>): (w: Walk)
    ensures |w.keygens| <= |accounts|
    decreases |accounts|
  {
    if accounts == [] then Walk(dirs, [])
    else
      var accountPath := AccountPath(vcPath, accounts[0]);
      if Parts(accountPath) in dirs then Walk(dirs, [])
      else
        var rest := AccountWalk(dirs + Prefixes(Parts(accountPath)), vcPath, accounts[1..]);
        Resume([GenerateSshKeysCommand(accountPath, accounts[0])], rest)
  }

  /** Proof helper for the account loop: the walk from an account whose
      directory exists stops there. */
  lemma AccountWalkAtPresent(dirs: set<Segments>, vcPath: string, accounts: seq<string>, j: nat)
    requires j < |accounts| && AccountDir(vcPath, accounts[j]) in dirs
    ensures AccountWalk(dirs, vcPath, accounts[j..]) == Walk(dirs, [])
  {
    assert accounts[j..][0] == accounts[j];
  }

  /** Proof helper for the account loop: the walk from an absent account
      creates and keys it, then goes on with the next one. */
  lemma AccountWalkAtAbsent(dirs: set<Segments>, vcPath: string, accounts: seq<string>, j: nat)
    requires j < |accounts| && AccountDir(vcPath, accounts[j]) !in dirs
    ensures AccountWalk(dirs, vcPath, accounts[j..])
         == Resume([GenerateSshKeysCommand(AccountPath(vcPath, accounts[j]), accounts[j])],
                   AccountWalk(dirs + Prefixes(AccountDir(vcPath, accounts[j])), vcPath, accounts[j + 1..]))
  {
    assert accounts[j..][0] == accounts[j] && accounts[j..][1..] == accounts[j + 1..];
  }

  /** Issuing `done` and then one more command, before a walk. */
  lemma ResumeAppend(done: seq<seq<string>>, command: seq<string>, w: Walk)
    ensures Resume(done + [command], w) == Resume(done, Resume([command], w))
  {
    assert (done + [command]) + w.keygens == done + ([command] + w.keygens);
  }

  /** Proof helper for the account loop: a walk reached after issuing
      `done` ends where account `j` already exists. */
  lemma AccountWalkStop(total: Walk, done: seq<seq<string>>, dirs: set<Segments>,
                        vcPath: string, accounts: seq<string>, j: nat)
    requires j < |accounts| && AccountDir(vcPath, accounts[j]) in dirs
    requires total == Resume(done, AccountWalk(dirs, vcPath, accounts[j..]))
    ensures total == Walk(dirs, done)
  {
    AccountWalkAtPresent(dirs, vcPath, accounts, j);
    assert done + [] == done;
  }

  /** Proof helper for the account loop: a walk reached after issuing
      `done` goes on past an absent account `j` with its command issued and
      its directory made. */
  lemma AccountWalkContinue(total: Walk, done: seq<seq<string>>, dirs: set<Segments>,
                            vcPath: string, accounts: seq<string>, j: nat)
    requires j < |accounts| && AccountDir(vcPath, accounts[j]) !in dirs
    requires total == Resume(done, AccountWalk(dirs, vcPath, accounts[j..]))
    ensures total == Resume(done + [GenerateSshKeysCommand(AccountPath(vcPath, accounts[j]), accounts[j])],
                            AccountWalk(dirs + Prefixes(AccountDir(vcPath, accounts[j])), vcPath, accounts[j + 1..]))
  {
    var command := GenerateSshKeysCommand(AccountPath(vcPath, accounts[j]), accounts[j]);
    var rest := AccountWalk(dirs + Prefixes(AccountDir(vcPath, accounts[j])), vcPath, accounts[j + 1..]);
    assert total == Resume(done, Resume([command], rest)) by {
      AccountWalkAtAbsent(dirs, vcPath, accounts, j);
    }
    ResumeAppend(done, command, rest);
  }

  /** Proof helper for the provider loop: a walk reached after issuing
      `done` goes on past provider `i` with that provider's account walk. */
  lemma ProvidersWalkContinue(total: Walk, done: seq<seq<string>>, dirs: set<Segments>,
                              sshPath: string, vcs: seq<VersionControl>, i: nat)
    requires i < |vcs|
    requires total == Resume(done, ProvidersWalk(dirs, sshPath, vcs[i..]))
    ensures var w := AccountWalk(dirs, ProviderPath(sshPath, vcs[i]), vcs[i].accounts);
      total == Resume(done + w.keygens, ProvidersWalk(w.dirs, sshPath, vcs[i + 1..]))
  {
    var w := AccountWalk(dirs, ProviderPath(sshPath, vcs[i]), vcs[i].accounts);
    var rest := ProvidersWalk(w.dirs, sshPath, vcs[i + 1..]);
    assert ProvidersWalk(dirs, sshPath, vcs[i..]) == Resume(w.keygens, rest) by {
      assert vcs[i..][0] == vcs[i] && vcs[i..][1..] == vcs[i + 1..];
    }
    assert (done + w.keygens) + rest.keygens == done + (w.keygens + rest.keygens);
  }

  /** The number of accounts over all providers. */
  function AccountCount(vcs: seq<VersionControl>): nat
    decreases |vcs|
  {
    if vcs == [] then 0 else |vcs[0].accounts| + AccountCount(vcs[1..])
  }

  /** All providers, in order, each starting from the state the previous
      one left. */
  function ProvidersWalk(dirs: set<Segments>, sshPath: string, vcs: seq<VersionControl>): (w: Walk)
    ensures |w.keygens| <= AccountCount(vcs)
    decreases |vcs|
  {
    if vcs == [] then Walk(dirs, [])
    else
      var w := AccountWalk(dirs, ProviderPath(sshPath, vcs[0]), vcs[0].accounts);
      Resume(w.keygens, ProvidersWalk(w.dirs, sshPath, vcs[1..]))
  }

  /** The key-generation commands for the given accounts, in order. */
  function Keyed(vcPath: string, accounts: seq<string>): seq<seq<string>>
    decreases |accounts|
  {
    if accounts == [] then []
    else [GenerateSshKeysCommand(AccountPath(vcPath, accounts[0]), accounts[0])] + Keyed(vcPath, accounts[1..])
  }

  /** The directories `mkdir(parents=True)` makes for the given accounts. */
  function Created(vcPath: string, accounts: seq<string>): set<Segments>
    decreases |accounts|
  {
    if accounts == [] then {}
    else Prefixes(AccountDir(vcPath, accounts[0])) + Created(vcPath, accounts[1..])
  }

  /** Taking the first `m` accounts and then dropping the first one is
      taking `m - 1` of the rest. */
  lemma PrefixUnfold(vcPath: string, accounts: seq<string>, m: nat)
    requires 1 <= m <= |accounts|
    ensures Keyed(vcPath, accounts[..m])
         == [GenerateSshKeysCommand(AccountPath(vcPath, accounts[0]), accounts[0])] + Keyed(vcPath, accounts[1..][..m - 1])
    ensures Created(vcPath, accounts[..m])
         == Prefixes(AccountDir(vcPath, accounts[0])) + Created(vcPath, accounts[1..][..m - 1])
  {
    assert accounts[..m][1..] == accounts[1..][..m - 1];
  }

  /** How one provider's walk ends: after `n` accounts, each created and
      keyed in order because it was absent when reached, and, when `n` is
      not the whole list, because account `n`'s directory exists by then. */
  ghost predicate StopsAfter(dirs: set<Segments>, vcPath: string, accounts: seq<string>, w: Walk)
  {
    var n := |w.keygens|;
    && n <= |accounts|
    && w.keygens == Keyed(vcPath, accounts[..n])
    && w.dirs == dirs + Created(vcPath, accounts[..n])
    && (forall m :: 0 <= m < n ==>
          AccountDir(vcPath, accounts[m]) !in dirs + Created(vcPath, accounts[..m]))
    && (n < |accounts| ==> AccountDir(vcPath, accounts[n]) in dirs + Created(vcPath, accounts[..n]))
  }

  /** `StopsAfter` carries over from the rest of the list to the whole
      list when the first account was absent and got created and keyed. */
  lemma StopsAfterCons(dirs: set<Segments>, vcPath: string, accounts: seq<string>, rest: Walk)
    requires accounts != [] && AccountDir(vcPath, accounts[0]) !in dirs
    requires StopsAfter(dirs + Prefixes(AccountDir(vcPath, accounts[0])), vcPath, accounts[1..], rest)
    ensures StopsAfter(dirs, vcPath, accounts,
      Resume([GenerateSshKeysCommand(AccountPath(vcPath, accounts[0]), accounts[0])], rest))
  {
    var p := AccountDir(vcPath, accounts[0]);
    var tail := accounts[1..];
    var w := Resume([GenerateSshKeysCommand(AccountPath(vcPath, accounts[0]), accounts[0])], rest);
    var n' := |rest.keygens|;
    var n := n' + 1;
    assert |w.keygens| == n && n <= |accounts|;
    assert w.keygens == Keyed(vcPath, accounts[..n]) && w.dirs == dirs + Created(vcPath, accounts[..n]) by {
      PrefixUnfold(vcPath, accounts, n);
    }
    assert forall m :: 0 <= m < n ==>
        AccountDir(vcPath, accounts[m]) !in dirs + Created(vcPath, accounts[..m]) by {
      StopsAfterConsAbsent(dirs, vcPath, accounts, n);
    }
    assert n < |accounts| ==> AccountDir(vcPath, accounts[n]) in dirs + Created(vcPath, accounts[..n]) by {
      if n < |accounts| {
        PrefixUnfold(vcPath, accounts, n);
        assert accounts[n] == tail[n'];
      }
    }
  }

  /** The accounts handled were each absent when reached, the first one
      because it was absent at the start, the others as the rest of the
      list found them. */
  lemma StopsAfterConsAbsent(dirs: set<Segments>, vcPath: string, accounts: seq<string>, n: nat)
    requires 1 <= n <= |accounts| && AccountDir(vcPath, accounts[0]) !in dirs
    requires forall m :: 0 <= m < n - 1 ==>
      AccountDir(vcPath, accounts[1..][m]) !in dirs + Prefixes(AccountDir(vcPath, accounts[0])) + Created(vcPath, accounts[1..][..m])
    ensures forall m :: 0 <= m < n ==>
      AccountDir(vcPath, accounts[m]) !in dirs + Created(vcPath, accounts[..m])
  {
    forall m | 0 <= m < n
      ensures AccountDir(vcPath, accounts[m]) !in dirs + Created(vcPath, accounts[..m])
    {
      if m == 0 {
        assert accounts[..0] == [];
      } else {
        PrefixUnfold(vcPath, accounts, m);
        assert accounts[m] == accounts[1..][m - 1];
      }
    }
  }

  /** One provider's walk handles a prefix of its account list, in order,
      and stops exactly at the first account whose directory exists when
      reached. */
  lemma {:induction false} AccountWalkShape(dirs: set<Segments>, vcPath: string, accounts: seq<string>)
    ensures StopsAfter(dirs, vcPath, accounts, AccountWalk(dirs, vcPath, accounts))
    decreases |accounts|
  {
    assert accounts[..0] == [];
    if accounts != [] {
      var p := AccountDir(vcPath, accounts[0]);
      if p !in dirs {
        AccountWalkShape(dirs + Prefixes(p), vcPath, accounts[1..]);
        StopsAfterCons(dirs, vcPath, accounts, AccountWalk(dirs + Prefixes(p), vcPath, accounts[1..]));
      }
    }
  }

  /** Once an account's directory exists, neither it nor any later account
      of the same provider is created or keyed. */
  lemma SkipAfterExisting(dirs: set<Segments>, vcPath: string, accounts: seq<string>, j: nat)
    requires j < |accounts| && AccountDir(vcPath, accounts[j]) in dirs
    ensures var w := AccountWalk(dirs, vcPath, accounts);
      |w.keygens| <= j && w.dirs == dirs + Created(vcPath, accounts[..|w.keygens|])
  {
    AccountWalkShape(dirs, vcPath, accounts);
  }

  /** The handler is per provider: when a provider stops at an existing
      account, the walk goes on with the next provider from the state
      reached, after the commands of the accounts handled before the stop. */
  lemma ProviderStopsAtExistingAccount(dirs: set<Segments>, sshPath: string, vcs: seq<VersionControl>, j: nat)
    requires vcs != [] && j < |vcs[0].accounts|
    requires AccountDir(ProviderPath(sshPath, vcs[0]), vcs[0].accounts[j]) in dirs
    ensures var vcPath := ProviderPath(sshPath, vcs[0]);
      var n := |AccountWalk(dirs, vcPath, vcs[0].accounts).keygens|;
      && n <= j
      && ProvidersWalk(dirs, sshPath, vcs)
         == Resume(Keyed(vcPath, vcs[0].accounts[..n]),
                   ProvidersWalk(dirs + Created(vcPath, vcs[0].accounts[..n]), sshPath, vcs[1..]))
  {
    var vcPath := ProviderPath(sshPath, vcs[0]);
    SkipAfterExisting(dirs, vcPath, vcs[0].accounts, j);
    AccountWalkShape(dirs, vcPath, vcs[0].accounts);
  }

  /** The walk only adds directories; it never removes one. */
  lemma {:induction false} AccountWalkGrows(dirs: set<Segments>, vcPath: string, accounts: seq<string>)
    ensures dirs <= AccountWalk(dirs, vcPath, accounts).dirs
    decreases |accounts|
  {
    if accounts != [] {
      var p := AccountDir(vcPath, accounts[0]);
      if p !in dirs {
        AccountWalkGrows(dirs + Prefixes(p), vcPath, accounts[1..]);
      }
    }
  }

  /** The walk over all providers only adds directories. */
  lemma {:induction false} ProvidersWalkGrows(dirs: set<Segments>, sshPath: string, vcs: seq<VersionControl>)
    ensures dirs <= ProvidersWalk(dirs, sshPath, vcs).dirs
    decreases |vcs|
  {
    if vcs != [] {
      var w := AccountWalk(dirs, ProviderPath(sshPath, vcs[0]), vcs[0].accounts);
      AccountWalkGrows(dirs, ProviderPath(sshPath, vcs[0]), vcs[0].accounts);
      ProvidersWalkGrows(w.dirs, sshPath, vcs[1..]);
    }
  }

  /** The directory of a provider's first account, which the walk either
      finds or creates. */
  function FirstAccountDir(sshPath: string, vc: VersionControl): Segments
    requires vc.accounts != []
  {
    AccountDir(ProviderPath(sshPath, vc), vc.accounts[0])
  }

  /** After the walk, the first account directory of every provider exists. */
  lemma {:induction false} ProvidersWalkReachesFirstAccounts(dirs: set<Segments>, sshPath: string, vcs: seq<VersionControl>)
    ensures forall i :: 0 <= i < |vcs| && vcs[i].accounts != [] ==>
      FirstAccountDir(sshPath, vcs[i]) in ProvidersWalk(dirs, sshPath, vcs).dirs
    decreases |vcs|
  {
    if vcs != [] {
      var vcPath := ProviderPath(sshPath, vcs[0]);
      var w := AccountWalk(dirs, vcPath, vcs[0].accounts);
      var rest := ProvidersWalk(w.dirs, sshPath, vcs[1..]);
      ProvidersWalkGrows(w.dirs, sshPath, vcs[1..]);
      if vcs[0].accounts != [] {
        var p := FirstAccountDir(sshPath, vcs[0]);
        if p !in dirs {
          assert p[..|p|] == p;
          AccountWalkGrows(dirs + Prefixes(p), vcPath, vcs[0].accounts[1..]);
        }
      }
      ProvidersWalkReachesFirstAccounts(w.dirs, sshPath, vcs[1..]);
      forall i | 1 <= i < |vcs| && vcs[i].accounts != []
        ensures FirstAccountDir(sshPath, vcs[i]) in rest.dirs
      {
        assert vcs[i] == vcs[1..][i - 1];
      }
    }
  }

  /** When the first account directory of every provider exists, the walk
      creates nothing and generates no key. */
  lemma {:induction false} ProvidersWalkNothingToDo(dirs: set<Segments>, sshPath: string, vcs: seq<VersionControl>)
    requires forall i :: 0 <= i < |vcs| && vcs[i].accounts != [] ==> FirstAccountDir(sshPath, vcs[i]) in dirs
    ensures ProvidersWalk(dirs, sshPath, vcs) == Walk(dirs, [])
    decreases |vcs|
  {
    if vcs != [] {
      assert AccountWalk(dirs, ProviderPath(sshPath, vcs[0]), vcs[0].accounts) == Walk(dirs, []);
      forall i | 0 <= i < |vcs[1..]| && vcs[1..][i].accounts != []
        ensures FirstAccountDir(sshPath, vcs[1..][i]) in dirs
      {
        assert vcs[1..][i] == vcs[i + 1];
      }
      ProvidersWalkNothingToDo(dirs, sshPath, vcs[1..]);
    }
  }

  /** Running the walk a second time changes nothing and runs no
      `ssh-keygen`. */
  lemma ProvidersWalkIdempotent(dirs: set<Segments>, sshPath: string, vcs: seq<VersionControl>)
    ensures var w := ProvidersWalk(dirs, sshPath, vcs);
      ProvidersWalk(w.dirs, sshPath, vcs) == Walk(w.dirs, [])
  {
    ProvidersWalkReachesFirstAccounts(dirs, sshPath, vcs);
    ProvidersWalkNothingToDo(ProvidersWalk(dirs, sshPath, vcs).dirs, sshPath, vcs);
  }

  /** Where an account's directory lands: `ssh_path/provider/account`, for
      provider and account names without a separator. */
  lemma AccountDirLayout(sshPath: string, vc: VersionControl, account: string)
    requires Sep !in vc.name && Sep !in account
    ensures AccountDir(ProviderPath(sshPath, vc), account) == Parts(sshPath) + Keep(vc.name) + Keep(account)
  {
    PartsOfJoin(sshPath, vc.name);
    PartsOfJoin(ProviderPath(sshPath, vc), account);
  }

  /** A walk over a single provider is that provider's account walk. */
  lemma SingleProvider(dirs: set<Segments>, sshPath: string, vc: VersionControl)
    ensures ProvidersWalk(dirs, sshPath, [vc]) == AccountWalk(dirs, ProviderPath(sshPath, vc), vc.accounts)
  {
    assert [vc][1..] == [];
  }

  /** A single absent account is created and keyed. */
  lemma SingleAbsentAccount(dirs: set<Segments>, vcPath: string, account: string)
    requires AccountDir(vcPath, account) !in dirs
    ensures AccountWalk(dirs, vcPath, [account])
      == Walk(dirs + Prefixes(AccountDir(vcPath, account)), [GenerateSshKeysCommand(AccountPath(vcPath, account), account)])
  {
    assert [account][1..] == [];
  }

  /** A fresh standalone account: one provider with one account whose
      directory does not exist yet gets `ssh_path/provider/account` with
      its parents, and one key pair `{account}_rsa` inside it. */
  lemma FreshStandaloneAccount(dirs: set<Segments>, sshPath: string, provider: string, account: string)
    requires provider != "" && provider != "." && Sep !in provider
    requires account != "" && account != "." && Sep !in account
    requires Parts(sshPath) + [provider, account] !in dirs
    ensures ProvidersWalk(dirs, sshPath, [VersionControl(provider, [account])])
      == Walk(dirs + Prefixes(Parts(sshPath) + [provider, account]),
              [GenerateSshKeysCommand(JoinPath(JoinPath(sshPath, provider), account), account)])
  {
    var vc := VersionControl(provider, [account]);
    var vcPath := ProviderPath(sshPath, vc);
    assert AccountDir(vcPath, account) == Parts(sshPath) + [provider, account] by {
      AccountDirLayout(sshPath, vc, account);
      assert Keep(provider) == [provider] && Keep(account) == [account];
    }
    SingleProvider(dirs, sshPath, vc);
    SingleAbsentAccount(dirs, vcPath, account);
  }
}
