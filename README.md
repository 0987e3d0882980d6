# fake_id0 ownership and permission emulation, in Dafny

proot's `fake_id0` extension lets an unprivileged process act as root inside
a guest file system. Ownership and permission bits are kept in meta files
beside the guest files, not in the host file system. This project models
three pieces of that extension and proves what they do:

- `get_dir_path` strips the final component of a guest path
  (`dir_paths.dfy`, module `DirPaths`).
- `check_dir_perms` checks the emulated permission bits of a path's parent
  directory, then walks the ancestors up to a reference path `rel_path`
  (`dir_perms.dfy`, module `DirPerms`).
- `handle_chown` emulates `chown`, `lchown`, `fchown` and `fchownat`
  (`chown.dfy`, module `Chown`; properties in `chown_properties.dfy`,
  module `ChownProperties`).
- Error numbers are in `errno.dfy`, module `Errno`: `EPERM` = 1 and
  `EACCES` = 13. They are returned negated.

Each imperative C routine is a method. `GetDirPath` keeps the two backward
loops. `CheckDirPerms` keeps the ancestor loop. `Tracee.HandleChown`
updates the fields of a `Tracee` object. Each method is proved equal to a
pure function: `DirPath`, `Verdict` and `Handle`. The lemmas state the
promised properties about those functions.

Conventions of the model:

- A path is `seq<char>`: the C string without its NUL.
- `uid_t`, `gid_t` and `mode_t` are `U32`. Register values are 64-bit
  `Word`s. A word read as an owner or group is truncated to 32 bits, so the
  "unchanged" owner -1 is `0xFFFF_FFFF` after truncation.
- The permission tests `(perms & 1) == 1` and `(perms & 2) == 2` are written
  with Euclidean `%` and `/`. These give the two's-complement low bits for
  negative values too.
- The collaborators are oracles, passed as total functions:
  - `DirPerms.Env` stands for `get_meta_path` (its status and its meta
    path), `get_permissions` and `belongs_to_guestfs`;
  - `Chown.Translator` stands for `read_sysarg_path` and `get_fd_path`,
    keyed by the register that holds the argument.
- The tracee holds:
  - its syscall number (`PrGetuid` or any other entry);
  - its current registers, which `poke_reg` writes;
  - its registers at syscall entry (`original`), which
    `peek_reg(ORIGINAL, …)` reads;
  - the metadata records as a map from meta path to (mode, owner, group). A
    key is present exactly when `path_exists` finds the meta file.

Behaviour of the C code that a reader might not expect:

- `get_dir_path("/a/b/")` is `"/a"`, not `"/a/b"`. Trailing separators are
  skipped before the last component is located.
- The ancestor walk tests its loop condition before it shortens the path.
  So the ancestor that reaches `rel_path`, or becomes no longer than it, is
  checked too. That includes `rel_path` itself when the walk lands on it.
- The parent of the root is the root itself. The root's bits are still
  checked.
- A target outside the guest root does not reach the kernel. Its syscall is
  replaced by `PR_getuid` and the result is 0.
- A target without a meta file is passed to the kernel untouched.

## Model

| member | source | states |
|---|---|---|
| DirPaths.SkipSeparators | src/extension/fake_id0/check_dir_path_and_perms.c:67-69 | the trailing-separator scan stops at the largest index that is 1 or not a separator; it never goes below 1, and everything it passed over is a separator |
| DirPaths.SkipComponent | src/extension/fake_id0/check_dir_path_and_perms.c:71-73 | the component scan stops at the largest index that is 1 or a separator; everything it passed over is a component character |
| DirPaths.DirPath | src/extension/fake_id0/check_dir_path_and_perms.c:60-79 | the result is a prefix of the input; inputs of length 0 or 1 come back unchanged; longer inputs give a result whose length is between 1 and the input length minus 1 |
| DirPaths.DirPathCutsAtLastComponent | src/extension/fake_id0/check_dir_path_and_perms.c:64-77 | for length at least 2, the cut point is index 1 or a separator followed by a component character, and no separator after the cut is followed by anything but separators |
| DirPaths.CutIsUnique | src/extension/fake_id0/check_dir_path_and_perms.c:64-77 | a path has at most one such cut point |
| DirPaths.DirPathIsCut | src/extension/fake_id0/check_dir_path_and_perms.c:64-77 | any index with the cut-point property determines the result, so that property is an independent definition of get_dir_path |
| DirPaths.DirPathExamples | src/extension/fake_id0/check_dir_path_and_perms.c:65-76 | "/a/b/c" gives "/a/b", "/a/b/" gives "/a", "/a" gives "/", "/" gives "/", and "/a//" gives "/" |
| DirPaths.GetDirPath | src/extension/fake_id0/check_dir_path_and_perms.c:60-79 | the two backward loops and the cut compute exactly DirPath |
| DirPerms.ChainShape | src/extension/fake_id0/check_dir_path_and_perms.c:39-40 | each path of the walk is get_dir_path of the one before, so the walk shortens before it checks; the loop test holds before every step; the last path is the first that equals rel_path or is no longer than it; every path is a strictly shorter prefix of the parent |
| DirPerms.ExaminedIsGuestPrefix | src/extension/fake_id0/check_dir_path_and_perms.c:39-42 | the examined ancestors are the longest prefix of that chain that lies inside the guest root; the walk stops silently at the first ancestor outside it and examines nothing beyond |
| DirPerms.RelPathEndsChain | src/extension/fake_id0/check_dir_path_and_perms.c:39 | rel_path can only be the last path of the walk: once it is reached it is checked, and nothing above it is |
| DirPerms.WalkZeroIff | src/extension/fake_id0/check_dir_path_and_perms.c:39-52 | the walk returns 0 exactly when every examined ancestor has a resolvable meta path and the execute bit |
| DirPerms.WalkFailsAtFirst | src/extension/fake_id0/check_dir_path_and_perms.c:44-50 | a failing walk returns the failure of the first examined ancestor that is not traversable: its negative get_meta_path status unchanged, or -EACCES when the execute bit is missing |
| DirPerms.VerdictZeroIff | src/extension/fake_id0/check_dir_path_and_perms.c:17-55 | check_dir_perms returns 0 exactly when the parent passes its check (write bit for 'w', execute bit for 'r', no bit for any other type) and every examined ancestor is traversable |
| DirPerms.VerdictErrors | src/extension/fake_id0/check_dir_path_and_perms.c:26-54 | every other result is -EACCES or the negative get_meta_path status of the parent or of an examined ancestor |
| DirPerms.VerdictOnParent | src/extension/fake_id0/check_dir_path_and_perms.c:26-37 | a failing meta path for the parent is returned unchanged; 'w' without bit 2 and 'r' without bit 1 give -EACCES; with the bit set, or for any other type, the ancestor walk decides |
| DirPerms.CheckDirPerms | src/extension/fake_id0/check_dir_path_and_perms.c:17-55 | the loop-based check returns exactly Verdict |
| Chown.Tracee.HandleChown | src/extension/fake_id0/handle_chown.c:16-80 | the return value, syscall number, registers and records after the call are exactly those that Handle gives for the state before it |
| ChownProperties.ResolutionErrorPropagates | src/extension/fake_id0/handle_chown.c:27-32 | the target comes from fd_sysarg exactly when path_sysarg is IGNORE_SYSARG (2000), otherwise from the path argument; a negative status is returned with no state change |
| ChownProperties.OutsideGuestfsDropsSyscall | src/extension/fake_id0/handle_chown.c:33-37 | a target outside the guest root turns the syscall into PR_getuid and returns 0, with registers and records unchanged |
| ChownProperties.UnmanagedPassesThrough | src/extension/fake_id0/handle_chown.c:43-44 | a target without a meta file returns 0 with the whole state unchanged, so the real syscall runs |
| ChownProperties.LookupErrorsPropagate | src/extension/fake_id0/handle_chown.c:39-52 | errors from get_meta_path, from resolving the dirfd and from check_dir_perms(…, 'r', …) are returned verbatim with the whole state unchanged |
| ChownProperties.RootSetsOwnerAndGroup | src/extension/fake_id0/handle_chown.c:54-65 | as euid 0 the record becomes (stored mode, requested owner with -1 replaced by the stored owner, requested group as given), registers stay, the syscall becomes PR_getuid and the result is 0 |
| ChownProperties.OwnerChangesGroupOnly | src/extension/fake_id0/handle_chown.c:66-79 | as the non-root stored owner the record becomes (stored mode, stored owner, requested group), the owner register is rewritten to the stored owner, the syscall becomes PR_getuid and the result is 0; a different requested owner is ignored without -EPERM |
| ChownProperties.OthersDenied | src/extension/fake_id0/handle_chown.c:74-75 | any other euid gets -EPERM with records, registers and syscall number unchanged |
| ChownProperties.FailureChangesNothing | src/extension/fake_id0/handle_chown.c:27-75 | every call that does not return 0 leaves the state exactly as it was |
| ChownProperties.WritesAreNeutralized | src/extension/fake_id0/handle_chown.c:64-79 | any change to a record or register comes with result 0 and the syscall turned into PR_getuid; the syscall number is otherwise left alone |
| ChownProperties.OnlyTargetOwnershipChanges | src/extension/fake_id0/handle_chown.c:54-72 | no record is created or removed, no mode ever changes, and records other than the target's stay as they were |
| ChownProperties.NonRootKeepsOwners | src/extension/fake_id0/handle_chown.c:64-75 | a non-root euid never changes a stored owner; the registers either stay or only the owner register is set to euid, by a non-root owner |
| ChownProperties.Idempotent | src/extension/fake_id0/handle_chown.c:54-79 | a second call with the same arguments returns the same value and leaves the same state as the first |
| ChownProperties.GroupChangeByOwner | src/extension/fake_id0/handle_chown.c:61-79 | record (0644, 1000, 1000), euid 1000, chown(path, -1, 2000): the record becomes (0644, 1000, 2000), the result is 0 and the syscall is neutralized |
| ChownProperties.ChownByStranger | src/extension/fake_id0/handle_chown.c:74-75 | the same record with euid 1001 and any request gives -EPERM and leaves the record unchanged |

## Left out

- ptrace machinery is not modelled. `peek_reg`, `poke_reg` and `set_sysnum`
  become reads and writes of the tracee's fields.
- Path translation is not modelled: `read_sysarg_path`, `get_fd_path` and
  `belongs_to_guestfs` read tracee memory and the host file system. Their
  results are oracle inputs.
- Meta-file I/O is not modelled. `get_meta_path` and `get_permissions`
  encode and read files whose format is not part of this model. They are
  uninterpreted functions.
- `read_meta_file` and `write_meta_file` are a read and an update of the
  records map. Their return values are ignored by the C code, so I/O
  failures of those two calls are not modelled.
- The `PATH_MAX` buffers and the self-aliasing `strcpy` in the ancestor loop
  are not modelled. Paths are unbounded sequences.
- Group membership is not checked when an owner changes the group. The C
  code leaves this as a TODO, and the model keeps the relaxed behaviour.
- Concurrency is not modelled. Each call runs while the tracee is stopped,
  and the C code takes no locks.
- DirPerms.CheckDirPerms: requires a non-empty `rel_path`. With an empty
  `rel_path`, the loop keeps running once the walk reaches a one-character
  path, because `get_dir_path` leaves such a path unchanged. The loop then
  runs forever when that path is inside the guest root, its meta path
  resolves and it has the execute bit. Otherwise it ends: outside the guest
  root it breaks, a failing meta path returns its status, and a missing
  execute bit returns -EACCES. `rel_path` comes from `get_fd_path`, which
  yields a non-empty absolute guest path.
- Chown.Tracee.HandleChown: requires the dirfd to resolve to a non-empty
  path or to fail, for the same reason. It also requires the owner and
  group registers to exist.
- The dirfd resolution's status 1 ("outside the guest root") gets no special
  case, because the C code gives it none.
- Syscall numbers are abstract (`PrGetuid` and `PrOther`). proot's numeric
  syscall table is not part of this model.
