/** handle_chown: the emulation of chown, lchown, fchown and fchownat.

    The tracee is an object whose syscall number, registers and metadata
    records the handler updates in place. The metadata store proot keeps in
    meta files on the host is the map `meta` here, keyed by meta path; a key
    is present exactly when path_exists reports the meta file. Resolving a
    syscall argument or a file descriptor to a guest path reads tracee memory
    and the host file system, so those results are oracles (Translator). */
module Chown {
  import opened DirPaths
  import opened DirPerms
  import opened Errno

  /** A register identifier (proot's Reg). */
  type Reg = nat

  /** The pseudo register a caller passes as path_sysarg for the fd forms. */
  const IGNORE_SYSARG: Reg := 2000

  /** uid_t, gid_t and mode_t: 32-bit unsigned. */
  type U32 = x: int | 0 <= x < 0x1_0000_0000

  /** A register value: a 64-bit machine word. */
  type Word = x: int | 0 <= x < 0x1_0000_0000_0000_0000

  /** (uid_t) -1, chown's "leave the owner unchanged". */
  const NO_CHANGE: U32 := 0xFFFF_FFFF

  /** A metadata record: mode, owner and group. */
  datatype Record = Record(mode: U32, owner: U32, group: U32)

  /** The traced syscall: PR_getuid, which the handler substitutes to make the
      real call harmless, or any other entry of proot's syscall table. */
  datatype Sysnum = PrGetuid | PrOther(index: nat)

  /** The status and guest path that read_sysarg_path or get_fd_path give:
      negative on error, 1 when the path lies outside the guest root. */
  datatype Resolution = Resolution(status: int, path: Path)

  /** read_sysarg_path and get_fd_path, by the register that holds the path
      or the descriptor. */
  datatype Translator = Translator(
    sysargPath: Reg -> Resolution,
    fdPath: Reg -> Resolution)

  /** The registers that name handle_chown's arguments. */
  datatype ChownArgs = ChownArgs(path: Reg, owner: Reg, group: Reg, fd: Reg, dirfd: Reg)

  /** What the handler may change: the syscall number, the current registers
      and the metadata records. */
  datatype State = State(sysnum: Sysnum, regs: map<Reg, Word>, meta: map<Path, Record>)

  /** A return value and the state after the call. */
  datatype Reply = Reply(status: int, post: State)

  /** The uid_t or gid_t a register word is converted to. */
  function ToU32(w: Word): U32
  {
    w % 0x1_0000_0000
  }

  /** The target: the descriptor's path for the fd forms, the path argument
      otherwise. */
  function Target(tr: Translator, args: ChownArgs): Resolution
  {
    if args.path == IGNORE_SYSARG then tr.fdPath(args.fd) else tr.sysargPath(args.path)
  }

  /** The requested owner with the "unchanged" sentinel replaced by the
      stored owner. */
  function RequestedOwner(word: Word, stored: U32): U32
  {
    if ToU32(word) == NO_CHANGE then stored else ToU32(word)
  }

  /** What handle_chown needs of its caller: the owner and group registers
      exist, and the dirfd resolves to a non-empty guest path or fails.
      get_fd_path yields a non-empty absolute path; with an empty rel_path
      the ancestor walk of check_dir_perms would run forever once it reached
      a one-character path inside the guest root whose meta path resolves
      and which has the execute bit. */
  predicate Callable(original: map<Reg, Word>, tr: Translator, args: ChownArgs)
  {
    args.owner in original && args.group in original && DirfdUsable(tr, args)
  }

  predicate DirfdUsable(tr: Translator, args: ChownArgs)
  {
    tr.fdPath(args.dirfd).status < 0 || |tr.fdPath(args.dirfd).path| >= 1
  }

  /** The meta path of the target. */
  function MetaKey(tr: Translator, env: Env, args: ChownArgs): Path
  {
    env.metaPath(Target(tr, args).path)
  }

  /** The outcome of handle_chown on state s; `original` holds the register
      values at syscall entry, which peek_reg(ORIGINAL, ...) reads. */
  function Handle(s: State, original: map<Reg, Word>, tr: Translator, env: Env,
                  euid: U32, args: ChownArgs): Reply
    requires Callable(original, tr, args)
  {
    var target := Target(tr, args);
    if target.status < 0 then Reply(target.status, s)
    else if target.status == 1 then Reply(0, s.(sysnum := PrGetuid))
    else if env.metaStatus(target.path) < 0 then Reply(env.metaStatus(target.path), s)
    else
      var metaPath := MetaKey(tr, env, args);
      if metaPath !in s.meta then Reply(0, s)
      else
        var rel := tr.fdPath(args.dirfd);
        if rel.status < 0 then Reply(rel.status, s)
        else
          var verdict := Verdict(env, 'r', target.path, rel.path);
          if verdict < 0 then Reply(verdict, s)
          else
            var stored := s.meta[metaPath];
            var owner := RequestedOwner(original[args.owner], stored.owner);
            var group := ToU32(original[args.group]);
            if euid == 0 then
              Reply(0, s.(sysnum := PrGetuid,
                          meta := s.meta[metaPath := Record(stored.mode, owner, group)]))
            else if euid == stored.owner then
              Reply(0, State(PrGetuid, s.regs[args.owner := stored.owner],
                             s.meta[metaPath := Record(stored.mode, stored.owner, group)]))
            else Reply(-EPERM, s)
  }

  /** The target reaches the authorization step: it resolves inside the
      guest root, has a meta file, and its dirfd and the ancestor check
      succeed. */
  predicate Managed(s: State, tr: Translator, env: Env, args: ChownArgs)
    requires DirfdUsable(tr, args)
  {
    var target := Target(tr, args);
    && target.status >= 0 && target.status != 1
    && env.metaStatus(target.path) >= 0
    && MetaKey(tr, env, args) in s.meta
    && tr.fdPath(args.dirfd).status >= 0
    && Verdict(env, 'r', target.path, tr.fdPath(args.dirfd).path) >= 0
  }

  /** The tracee: syscall number, current registers (poke_reg writes these),
      the registers as they were at syscall entry, and the metadata records. */
  class Tracee {
    var sysnum: Sysnum
    var regs: map<Reg, Word>
    const original: map<Reg, Word>
    var meta: map<Path, Record>

    constructor(sysnum: Sysnum, regs: map<Reg, Word>, meta: map<Path, Record>)
      ensures this.sysnum == sysnum && this.regs == regs && this.meta == meta
      ensures original == regs
    {
      this.sysnum := sysnum;
      this.regs := regs;
      this.original := regs;
      this.meta := meta;
    }

    function Snapshot(): State
      reads this
    {
      State(sysnum, regs, meta)
    }

    /** handle_chown as the C code runs it. */
    method HandleChown(tr: Translator, env: Env, euid: U32, args: ChownArgs)
      returns (status: int)
      requires Callable(original, tr, args)
      modifies this
      ensures Reply(status, Snapshot()) == Handle(old(Snapshot()), original, tr, env, euid, args)
    {
      var target: Resolution;
      if args.path == IGNORE_SYSARG {
        target := tr.fdPath(args.fd);
      } else {
        target := tr.sysargPath(args.path);
      }
      status := target.status;
      if status < 0 {
        return;
      } else if status == 1 {
        // The path lies outside the guest root: drop the syscall.
        sysnum := PrGetuid;
        return 0;
      }

      var path := target.path;
      status := env.metaStatus(path);
      if status < 0 {
        return;
      }
      var metaPath := env.metaPath(path);
      if metaPath !in meta {
        return 0;
      }

      var rel := tr.fdPath(args.dirfd);
      status := rel.status;
      if status < 0 {
        return;
      }
      status := CheckDirPerms(env, 'r', path, rel.path);
      if status < 0 {
        return;
      }

      var stored := meta[metaPath];
      var owner := ToU32(original[args.owner]);
      if owner == NO_CHANGE {
        owner := stored.owner;
      }
      var group := ToU32(original[args.group]);
      if euid == 0 {
        meta := meta[metaPath := Record(stored.mode, owner, group)];
      } else if euid == stored.owner {
        meta := meta[metaPath := Record(stored.mode, stored.owner, group)];
        regs := regs[args.owner := stored.owner];
      } else {
        return -EPERM;
      }
      sysnum := PrGetuid;
      return 0;
    }
  }
}

