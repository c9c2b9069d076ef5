/** How the `ssh-keygen` argument list reaches the program. The source
    calls `subprocess.run(command, shell=True)` with a list. On POSIX that
    starts `/bin/sh -c command[0] command[1] ...`: the shell runs the string
    `command[0]` and takes the remaining items as its own positional
    parameters (`$0`, `$1`, ...), so the program gets none of them. Without
    the shell, the program receives them as its arguments. */
module Subprocess {
  import opened Paths
  import opened Keygen

  /** A started process: the program and the arguments it receives. */
  datatype Exec = Exec(program: string, args: seq<string>)

  /** A word the shell does not split: no blank, tab or newline. */
  predicate IsSingleWord(w: string)
  {
    ' ' !in w && '\t' !in w && '\n' !in w
  }

  /** The process the shell starts for a list whose first item is a single
      word, as `command[0]` is here: that word, with no arguments. */
  function StartedWithShell(command: seq<string>): Exec
    requires |command| > 0 && IsSingleWord(command[0])
  {
    Exec(command[0], [])
  }

  /** The process started without the shell (`shell=False`). */
  function StartedDirectly(command: seq<string>): Exec
    requires |command| > 0
  {
    Exec(command[0], command[1..])
  }

  /** As written (`shell=True`, POSIX): `ssh-keygen` receives neither the
      key type, the size, the key file nor the comment, whatever the
      account. */
  lemma ShellDropsKeygenOptions(sshAccountPath: string, account: string)
    ensures var e := StartedWithShell(GenerateSshKeysCommand(sshAccountPath, account));
      && e.program == Program
      && OptionValue(e.args, "-t") == None
      && OptionValue(e.args, "-b") == None
      && OptionValue(e.args, "-f") == None
      && OptionValue(e.args, "-C") == None
  {
  }

  /** Corrected (`shell=False`): `ssh-keygen` receives an RSA type, 4096
      bits, the key file `{account}_rsa` in the account directory and the
      account as comment. */
  lemma DirectRunKeepsKeygenOptions(sshAccountPath: string, account: string)
    ensures var e := StartedDirectly(GenerateSshKeysCommand(sshAccountPath, account));
      && e.program == Program
      && OptionValue(e.args, "-t") == Some(KeyType)
      && OptionValue(e.args, "-b") == Some(KeyBits)
      && OptionValue(e.args, "-f") == Some(JoinPath(sshAccountPath, KeyFileName(account)))
      && OptionValue(e.args, "-C") == Some(account)
  {
    GenerateSshKeysOptions(sshAccountPath, account);
  }
}
