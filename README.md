# Developer profile setup — a Dafny model of its core

`profile_setup.py` prepares a developer's home directory: it checks the
operating system and creates a source directory and an SSH directory.
Then, for each version-control provider in order, it creates
`ssh_path/provider/account` for that provider's accounts, stopping at the
first one that already exists, and asks `ssh-keygen` for an RSA key pair
for each account directory it created. It also cleans account names with a
small sanitiser and reads yes/no answers from the console.

This project models the parts of that script that decide something:

- the name sanitiser `get_valid_filename`, in module `Sanitizer`;
- the yes/no conversion `convert_yes_no_to_bool`, in `Prompts`, with the
  `str.lower`/`str.startswith` helpers in `Text`;
- the operating-system check `set_operating_system`, in `Platform`, with the
  value of `platform.system()` passed in;
- POSIX `os.path.join` and the way `pathlib` splits a path into components,
  in `Paths`;
- the argument list `generate_ssh_keys` builds for `ssh-keygen`, in `Keygen`;
- the directory-creating functions over an abstract file system, in
  `Filesystem`. The file system is the set of existing directories, each
  one a list of path components, held by a `FileSystem` class whose methods
  update it in place as `mkdir(parents=True)` does;
- `create_ssh_account_directories` as a pure function of the starting
  directories, in `SshWalk`. The loop in `Filesystem` is proved equal to
  that function;
- what the shell does with the `ssh-keygen` list, in `Subprocess`. This
  module holds the one finding below.

Errors are values. `FileExistsError` from `mkdir` is the `created == false`
result of `MakeDirs`, and the `OSError` of the platform check is
`Result.Err`. The commands the script would run come back as a list of
argument lists, in the order it would run them.

## Model

| member | source | states |
|---|---|---|
| Sanitizer.LeadingWhitespace | profile_setup.py:95 | the number of leading characters `strip()` removes: all of them are whitespace and the next one is not |
| Sanitizer.TrailingWhitespace | profile_setup.py:95 | the number of trailing characters `strip()` removes: all of them are whitespace and the one before them is not |
| Sanitizer.Strip | profile_setup.py:95 | the stripped name is no longer than the input and neither starts nor ends with whitespace |
| Sanitizer.StripSlice | profile_setup.py:95 | the stripped name is the slice of the input that starts at the first non-whitespace character, and everything outside that slice is whitespace |
| Sanitizer.Truncate | profile_setup.py:97-99 | the result is the first `min(len, 32)` characters of its input |
| Sanitizer.RemoveInvalid | profile_setup.py:103-105 | the substitution keeps a subsequence of the input made only of `-`, `.` and word characters, and it is never longer |
| Sanitizer.RemoveInvalidCounts | profile_setup.py:105 | every allowed character occurs in the output as often as in the input, and no disallowed character occurs at all |
| Sanitizer.RemoveInvalidIdentity | profile_setup.py:105 | the substitution leaves a string unchanged if and only if all its characters are allowed |
| Sanitizer.RemoveInvalidAllInvalid | profile_setup.py:105 | a string with no allowed character becomes empty |
| Sanitizer.GetValidFilename | profile_setup.py:92-110 | the name returned has at most 32 characters, contains only `-`, `.` and word characters and no whitespace, and is a subsequence of the stripped, truncated input |
| Sanitizer.TruncateCountsFromFirstNonWhitespace | profile_setup.py:95-99 | stripping happens before truncation, so the 32 characters kept are counted from the first non-whitespace character of the input |
| Sanitizer.GetValidFilenameKeepsAllowed | profile_setup.py:95-105 | every allowed character of the stripped, truncated name is kept as often as it occurs there, and no other character is kept |
| Sanitizer.GetValidFilenameIdentity | profile_setup.py:92-110 | a name of at most 32 allowed characters comes back unchanged |
| Sanitizer.GetValidFilenameIdempotent | profile_setup.py:92-110 | sanitising a sanitised name changes nothing |
| Sanitizer.GetValidFilenameAllInvalid | profile_setup.py:105-110 | an input with no allowed character gives the empty name; nothing rejects it |
| Sanitizer.GetValidFilenameAllWhitespace | profile_setup.py:95-110 | a whitespace-only input strips to nothing and gives the empty name |
| Text.ToLowerIdempotent | profile_setup.py:55 | lower-casing twice is lower-casing once |
| Prompts.ConvertYesNoToBool | profile_setup.py:124-127 | the answer means yes if and only if it is non-empty and starts with a lower-case `y` |
| Prompts.UpperCaseYesIsNo | profile_setup.py:125 | the test is case-sensitive: an answer starting with `Y` means no |
| Prompts.LoweredAnswer | profile_setup.py:119-127 | an answer passed through `lower()` first, as `get_user_input_loop` does, means yes if and only if the typed answer starts with `y` or `Y` |
| Platform.SetOperatingSystem | profile_setup.py:55-61 | the check succeeds if and only if the lower-cased system name is windows, linux or darwin; it then returns that lower-cased name, and otherwise the error "Invalid Operating System!" |
| Platform.SetOperatingSystemIgnoresCase | profile_setup.py:55 | a system name and its lower-cased form get the same verdict |
| Platform.KnownSystems | profile_setup.py:55-58 | `Linux`, `Windows` and `Darwin` are accepted as linux, windows and darwin; `Java` and the empty name are rejected |
| Paths.JoinPath | profile_setup.py:218-223 | `os.path.join`: an absolute second part replaces the first; otherwise the result starts with the first part and ends with the second |
| Paths.PartsOfJoin | profile_setup.py:218-224 | joining a name without a separator adds exactly that one path component, or none for `""` and `.` |
| Paths.AddPrefixesClosed | profile_setup.py:224 | `mkdir(parents=True)` keeps the file system closed under ancestors, and the directory asked for exists afterwards |
| Paths.PrefixesPresent | profile_setup.py:133-136 | when a directory exists, all of its ancestors exist too |
| Keygen.KeyFileName | profile_setup.py:244 | the key file name is the account name followed by four more characters (`_rsa`), and it holds no separator when the account name holds none |
| Keygen.KeyFileNameInjective | profile_setup.py:244 | different accounts get different key file names |
| Keygen.GenerateSshKeysCommand | profile_setup.py:244-253 | the command line has nine items and runs `ssh-keygen` |
| Keygen.GenerateSshKeysOptions | profile_setup.py:244-253 | read as options, the command asks for type `rsa`, 4096 bits, the file `{account}_rsa` joined to the account path, and the account as comment; it passes no `-N` passphrase option |
| Keygen.KeyFileInAccountDirectory | profile_setup.py:244 | for an account name without a separator, the key file lies directly inside the account directory |
| SshWalk.AccountWalk | profile_setup.py:221-232 | one provider's account loop with its `FileExistsError` handler: it generates at most one key per account |
| SshWalk.ProvidersWalk | profile_setup.py:216-232 | the provider loop, each provider starting from the directories the previous one left: it generates at most one key per account over all providers |
| SshWalk.AccountWalkShape | profile_setup.py:221-232 | one provider's accounts are handled in order: each one is created and keyed because its directory was absent when reached, and the walk stops exactly at the first account whose directory exists by then |
| SshWalk.SkipAfterExisting | profile_setup.py:221-232 | once an account's directory exists, neither that account nor any later account of the same provider is created or keyed |
| SshWalk.ProviderStopsAtExistingAccount | profile_setup.py:216-232 | the `FileExistsError` handler is per provider: after a provider stops at an existing account, the walk goes on with the next provider |
| SshWalk.AccountWalkGrows | profile_setup.py:221-225 | handling accounts never removes a directory |
| SshWalk.ProvidersWalkGrows | profile_setup.py:216-232 | the walk over all providers never removes a directory |
| SshWalk.ProvidersWalkReachesFirstAccounts | profile_setup.py:216-229 | after the walk, the first account directory of every provider with accounts exists |
| SshWalk.ProvidersWalkNothingToDo | profile_setup.py:216-232 | when the first account directory of every provider already exists, the walk creates nothing and runs no `ssh-keygen` |
| SshWalk.ProvidersWalkIdempotent | profile_setup.py:216-232 | running the walk a second time changes nothing and runs no `ssh-keygen` |
| SshWalk.AccountDirLayout | profile_setup.py:218-223 | an account directory is `ssh_path/provider/account` for names without a separator |
| SshWalk.FreshStandaloneAccount | profile_setup.py:216-229 | one provider with one new account gets `ssh_path/provider/account` with all its parents and exactly one key-generation command |
| Filesystem.FileSystem.MakeDirs | profile_setup.py:224 | `mkdir(parents=True)` creates the directory and its missing ancestors if and only if the directory is absent; otherwise it reports "exists" and changes nothing |
| Filesystem.FileSystem.CreateSrcDirectory | profile_setup.py:130-139 | the source directory `home_path/src_dir` exists afterwards, whether or not it existed before, only it and its ancestors are added, and the joined path is returned |
| Filesystem.FileSystem.CreateSshDirectory | profile_setup.py:196-203 | the SSH directory `home_path/ssh_dir` exists afterwards, whether or not it existed before, only it and its ancestors are added, and the joined path is returned |
| Filesystem.FileSystem.CreateAccountDirectories | profile_setup.py:221-229 | the loop over one provider's accounts leaves the directories, and returns the commands, that `SshWalk.AccountWalk` describes |
| Filesystem.FileSystem.CreateSshAccountDirectories | profile_setup.py:206-232 | the loop over all providers leaves the directories, and returns the commands, that `SshWalk.ProvidersWalk` describes, so every `SshWalk` lemma applies to it |
| Subprocess.ShellDropsKeygenOptions | profile_setup.py:255-256 | as written, with `shell=True` on POSIX, the started `ssh-keygen` receives no type, size, key file or comment |
| Subprocess.DirectRunKeepsKeygenOptions | profile_setup.py:255-256 | started without the shell, `ssh-keygen` receives type `rsa`, 4096 bits, the key file in the account directory and the account as comment |

## Left out

- Console prompting (`get_user_input_loop`, `input`, `EOFError`) is not modelled. Only the conversion of its answer is modelled.
- `create_vcs_directories`, which asks for providers and accounts interactively, is not modelled. The model takes the provider list as a value.
- `VersionControl` has a mutable default argument for `accounts`, so instances created without accounts share one list. The model takes each provider's accounts as an immutable value and does not capture that sharing.
- `get_github_id` is not modelled, because it needs the network.
- `platform.system()` and `Path.home()` are not modelled; their results are parameters. `set_user_home_path` only wraps `Path.home()`.
- The stubs `set_github_accounts` and `set_version_controls` are not modelled, because their bodies do nothing.
- Running `ssh-keygen` and the handling of `CalledProcessError` are not modelled. The model returns the argument lists instead.
- `create_ssh_config` (which creates an empty `config` file with mode 0600 when none exists), the unfinished stubs `update_ssh_config` (which opens `""` and so raises `FileNotFoundError`) and `create_git_config` (`pass`), and `run`, which only calls the others, are not modelled.
- The `print` logging is not modelled.
- Sanitizer.IsWordChar: `\w` is Unicode-aware in the source, but the model accepts only ASCII letters, digits and `_`. Non-ASCII letters are therefore removed in the model but kept by the source.
- Text.ToLower: lower-cases ASCII letters only, whereas `str.lower` is Unicode-aware. The platform names it is applied to are ASCII. For typed answers (Prompts.LoweredAnswer) only the first character matters, and the only characters whose Unicode lower case begins with `y` are `y` and `Y` themselves, so the yes/no verdict is the same.
- Paths.JoinPath: only POSIX `os.path.join` is modelled; Windows paths (`ntpath`, drive letters, `\`) are not.
- Paths.Parts: `..` is kept as an ordinary component, as `pathlib` does; symbolic links are not resolved. The operating system resolves `..` when `mkdir` runs, so in the source an account named `..` (which the sanitiser lets through) names `ssh_path` itself; `mkdir(parents=True)` creates the provider directory if it is missing, then raises "exists", and the rest of that provider is skipped; the model instead creates a directory ending in `..` and issues a key-generation command for it. A leading `/` is not recorded, so absolute and relative paths with the same components are one directory in the model.
- Filesystem.FileSystem.MakeDirs: directory names are compared exactly. On a case-insensitive file system (macOS by default, Windows) `alice` and `Alice` are one directory, so for accounts `["alice", "Alice"]` the source stops that provider at the second one and runs one `ssh-keygen`, while the model creates and keys both. A regular file standing where a directory should be is not modelled either, nor are permission errors or any `OSError` other than "exists".
- Some behaviour is described for this tool but does not exist in this source: key repair, merging SSH configuration without duplicates, and organisations. It is not modelled.
- Where that description and the code differ, the model follows the code:
  - the sanitiser does not reject an empty name;
  - an existing account directory skips the rest of that provider's accounts, not only that account;
  - `ssh-keygen` is given no `-N ""` empty passphrase;
  - `get_valid_filename` is annotated as returning `bool`, but it returns the cleaned string.

## Findings

| source | as written | input that shows it | evidently intended | confidence | as-written member | corrected member |
|---|---|---|---|---|---|---|
| profile_setup.py:256 | `subprocess.run(command, shell=True)` is given a list. On POSIX the shell runs only `command[0]`, and the other items become the shell's own `$0`, `$1`, …; `Subprocess.StartedWithShell` defines the process started this way | any account on Linux or macOS, e.g. account `alice` | `ssh-keygen -t rsa -b 4096 -f …/alice_rsa -C alice`, the process `Subprocess.StartedDirectly` defines (a list run without the shell) | high on POSIX, not executed | Subprocess.ShellDropsKeygenOptions | Subprocess.DirectRunKeepsKeygenOptions |
