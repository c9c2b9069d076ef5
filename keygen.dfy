/** The command line `generate_ssh_keys` hands to `ssh-keygen`. Running it
    is not part of the model; the argument list is. */
module Keygen {
  import opened Paths

  datatype Option<T> = None | Some(value: T)

  const Program: string := "ssh-keygen"
  const KeyType: string := "rsa"
  const KeyBits: string := "4096"

  /** Name of the private-key file of `account`: the account name with the
      suffix `_rsa`. */
  function KeyFileName(account: string): (name: string)
    ensures |name| == |account| + 4 && name[..|account|] == account && name[|account|..] == "_rsa"
    ensures Sep !in account ==> Sep !in name
  {
    account + "_rsa"
  }

  /** Different accounts get different key files. */
  lemma KeyFileNameInjective(a: string, b: string)
    requires KeyFileName(a) == KeyFileName(b)
    ensures a == b
  {
    assert |a| == |b|;
    assert a == KeyFileName(a)[..|a|] && b == KeyFileName(b)[..|b|];
  }

  /** The argument list of `generate_ssh_keys(ssh_account_path, account)`. */
  function GenerateSshKeysCommand(sshAccountPath: string, account: string): (argv: seq<string>)
    ensures |argv| == 9 && argv[0] == Program
  {
    [ Program,
      "-t", KeyType,
      "-b", KeyBits,
      "-f", JoinPath(sshAccountPath, KeyFileName(account)),
      "-C", account ]
  }

  /** The value given to option `flag` in an argument list read as
      flag/value pairs (the program name taken off). */
  function OptionValue(args: seq<string>, flag: string): Option<string>
    decreases |args|
  {
    if |args| < 2 then None
    else if args[0] == flag then Some(args[1])
    else OptionValue(args[2..], flag)
  }

  /** Read back as options, the command asks for an RSA key of 4096 bits,
      written to `{account}_rsa` under the account's directory, with the
      account name as comment, and it sets no passphrase option. */
  lemma GenerateSshKeysOptions(sshAccountPath: string, account: string)
    ensures var args := GenerateSshKeysCommand(sshAccountPath, account)[1..];
      && OptionValue(args, "-t") == Some(KeyType)
      && OptionValue(args, "-b") == Some(KeyBits)
      && OptionValue(args, "-f") == Some(JoinPath(sshAccountPath, KeyFileName(account)))
      && OptionValue(args, "-C") == Some(account)
      && OptionValue(args, "-N") == None
  {
    var file := JoinPath(sshAccountPath, KeyFileName(account));
    var a0 := GenerateSshKeysCommand(sshAccountPath, account)[1..];
    var a1, a2, a3, a4 := a0[2..], a0[4..], a0[6..], a0[8..];
    assert a0 == ["-t", KeyType, "-b", KeyBits, "-f", file, "-C", account];
    assert a1 == ["-b", KeyBits, "-f", file, "-C", account] && a1 == a0[2..];
    assert a2 == ["-f", file, "-C", account] && a2 == a1[2..];
    assert a3 == ["-C", account] && a3 == a2[2..];
    assert a4 == [] && a4 == a3[2..];
    assert OptionValue(a3, "-N") == None;
    assert OptionValue(a2, "-N") == None;
    assert OptionValue(a1, "-N") == None;
    assert OptionValue(a2, "-C") == Some(account);
    assert OptionValue(a1, "-C") == Some(account);
    assert OptionValue(a1, "-f") == Some(file);
  }

  /** The key file lies directly inside the account's directory when the
      account name holds no separator. */
  lemma KeyFileInAccountDirectory(sshAccountPath: string, account: string)
    requires Sep !in account
    ensures Parts(GenerateSshKeysCommand(sshAccountPath, account)[6])
         == Parts(sshAccountPath) + [KeyFileName(account)]
  {
    var name := KeyFileName(account);
    assert Keep(name) == [name];
    PartsOfJoin(sshAccountPath, name);
  }
}
