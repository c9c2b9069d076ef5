/** The directory-creating functions of the setup script, over an abstract
    file system: the set of directories that exist. `mkdir(parents=True)`
    makes a directory with all its missing ancestors, and raises "exists"
    when the directory itself is already there. */
module Filesystem {
  import opened Paths
  import opened Keygen
  import opened SshWalk

  class FileSystem {
    /** The directories that exist, each as its list of path components. */
    var dirs: set<Segments>

    /** The starting directory exists, and so do the ancestors of every
        existing directory. */
    ghost predicate Valid()
      reads this
    {
      [] in dirs && PrefixClosed(dirs)
    }

    constructor (existing: set<Segments>)
      requires PrefixClosed(existing)
      ensures Valid() && dirs == existing + {[]}
    {
      dirs := existing + {[]};
    }

    /** `Path(path).mkdir(parents=True)`: `created` is false where the source
        raises `FileExistsError`, and then nothing changes. */
    method MakeDirs(path: string) returns (created: bool)
      requires Valid()
      modifies this
      ensures Valid()
      ensures created <==> Parts(path) !in old(dirs)
      ensures created ==> dirs == old(dirs) + Prefixes(Parts(path))
      ensures !created ==> dirs == old(dirs)
    {
      var target := Parts(path);
      if target in dirs {
        created := false;
      } else {
        AddPrefixesClosed(dirs, target);
        dirs := dirs + Prefixes(target);
        created := true;
      }
    }

    /** `create_src_directory`: make `home_path/src_dir` unless it exists,
        and return the joined path either way. */
    method CreateSrcDirectory(homePath: string, srcDir: string) returns (srcPath: string)
      requires Valid()
      modifies this
      ensures Valid()
      ensures srcPath == JoinPath(homePath, srcDir)
      ensures dirs == old(dirs) + Prefixes(Parts(srcPath))
      ensures Parts(srcPath) in dirs
    {
      srcPath := JoinPath(homePath, srcDir);
      var created := MakeDirs(srcPath);
      AddPrefixesClosed(old(dirs), Parts(srcPath));
      if !created {
        PrefixesPresent(dirs, Parts(srcPath));
      }
    }

    /** `create_ssh_directory`: make `home_path/ssh_dir` unless it exists,
        and return the joined path either way. */
    method CreateSshDirectory(homePath: string, sshDir: string) returns (sshPath: string)
      requires Valid()
      modifies this
      ensures Valid()
      ensures sshPath == JoinPath(homePath, sshDir)
      ensures dirs == old(dirs) + Prefixes(Parts(sshPath))
      ensures Parts(sshPath) in dirs
    {
      sshPath := JoinPath(homePath, sshDir);
      var created := MakeDirs(sshPath);
      AddPrefixesClosed(old(dirs), Parts(sshPath));
      if !created {
        PrefixesPresent(dirs, Parts(sshPath));
      }
    }

    /** The body of the per-provider `try` in `create_ssh_account_directories`:
        make each account directory under `vcPath` and generate its key
        pair, until an account directory turns out to exist. */
    method CreateAccountDirectories(vcPath: string, accounts: seq<string>)
      returns (keygens: seq<seq<string>>)
      requires Valid()
      modifies this
      ensures Valid()
      ensures Walk(dirs, keygens) == AccountWalk(old(dirs), vcPath, accounts)
    {
      ghost var total := AccountWalk(dirs, vcPath, accounts);
      keygens := [];
      var j := 0;
      assert accounts[j..] == accounts;
      while j < |accounts|
        invariant 0 <= j <= |accounts|
        invariant Valid()
        invariant total == Resume(keygens, AccountWalk(dirs, vcPath, accounts[j..]))
      {
        var account := accounts[j];
        var accountPath := JoinPath(vcPath, account);
        ghost var before := dirs;
        var created := MakeDirs(accountPath);
        if !created {
          // FileExistsError: the handler ends this provider's accounts.
          AccountWalkStop(total, keygens, dirs, vcPath, accounts, j);
          return;
        }
        AccountWalkContinue(total, keygens, before, vcPath, accounts, j);
        keygens := keygens + [GenerateSshKeysCommand(accountPath, account)];
        j := j + 1;
      }
    }

    /** `create_ssh_account_directories`: for every provider and account, in
        order, make `ssh_path/provider/account` and generate its key pair;
        an existing account directory ends that provider's accounts. The
        result lists the `ssh-keygen` argument lists, in the order run. */
    method CreateSshAccountDirectories(sshPath: string, vcs: seq<VersionControl>)
      returns (keygens: seq<seq<string>>)
      requires Valid()
      modifies this
      ensures Valid()
      ensures Walk(dirs, keygens) == ProvidersWalk(old(dirs), sshPath, vcs)
    {
      ghost var total := ProvidersWalk(dirs, sshPath, vcs);
      keygens := [];
      assert vcs[0..] == vcs;
      for i := 0 to |vcs|
        invariant Valid()
        invariant total == Resume(keygens, ProvidersWalk(dirs, sshPath, vcs[i..]))
      {
        var vc := vcs[i];
        var vcPath := JoinPath(sshPath, vc.name);
        ghost var before := dirs;
        var providerKeygens := CreateAccountDirectories(vcPath, vc.accounts);
        ProvidersWalkContinue(total, keygens, before, sshPath, vcs, i);
        keygens := keygens + providerKeygens;
      }
      assert vcs[|vcs|..] == [] && keygens + [] == keygens;
    }
  }
}
