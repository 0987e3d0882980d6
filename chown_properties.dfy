/** What handle_chown promises, outcome by outcome and over all outcomes. */
module ChownProperties {
  import opened DirPaths
  import opened DirPerms
  import opened Errno
  import opened Chown

  /** A negative status from resolving the target is returned with no state
      change; the fd forms (path register IGNORE_SYSARG) resolve fd_sysarg,
      the others the path argument. */
  lemma ResolutionErrorPropagates(s: State, original: map<Reg, Word>, tr: Translator,
                                  env: Env, euid: U32, args: ChownArgs)
    requires Callable(original, tr, args)
    requires Target(tr, args).status < 0
    ensures Handle(s, original, tr, env, euid, args) == Reply(Target(tr, args).status, s)
    ensures args.path == IGNORE_SYSARG ==> Target(tr, args) == tr.fdPath(args.fd)
    ensures args.path != IGNORE_SYSARG ==> Target(tr, args) == tr.sysargPath(args.path)
  {
  }

  /** A target outside the guest root: the syscall becomes PR_getuid, the
      result is 0, and no record or register is touched. */
  lemma OutsideGuestfsDropsSyscall(s: State, original: map<Reg, Word>, tr: Translator,
                                   env: Env, euid: U32, args: ChownArgs)
    requires Callable(original, tr, args)
    requires Target(tr, args).status == 1
    ensures Handle(s, original, tr, env, euid, args)
         == Reply(0, State(PrGetuid, s.regs, s.meta))
  {
  }

  /** A target without a meta file is left to the kernel: result 0 and the
      state exactly as it was, syscall number included. */
  lemma UnmanagedPassesThrough(s: State, original: map<Reg, Word>, tr: Translator,
                               env: Env, euid: U32, args: ChownArgs)
    requires Callable(original, tr, args)
    requires Target(tr, args).status >= 0 && Target(tr, args).status != 1
    requires env.metaStatus(Target(tr, args).path) >= 0
    requires MetaKey(tr, env, args) !in s.meta
    ensures Handle(s, original, tr, env, euid, args) == Reply(0, s)
  {
  }

  /** Errors from get_meta_path, from resolving the dirfd and from the
      ancestor check are returned verbatim, with nothing written and the
      syscall not neutralized. */
  lemma LookupErrorsPropagate(s: State, original: map<Reg, Word>, tr: Translator,
                              env: Env, euid: U32, args: ChownArgs)
    requires Callable(original, tr, args)
    requires Target(tr, args).status >= 0 && Target(tr, args).status != 1
    ensures var path := Target(tr, args).path;
      env.metaStatus(path) < 0 ==>
        Handle(s, original, tr, env, euid, args) == Reply(env.metaStatus(path), s)
    ensures var path := Target(tr, args).path;
      var rel := tr.fdPath(args.dirfd);
      env.metaStatus(path) >= 0 && MetaKey(tr, env, args) in s.meta && rel.status < 0 ==>
        Handle(s, original, tr, env, euid, args) == Reply(rel.status, s)
    ensures var path := Target(tr, args).path;
      var rel := tr.fdPath(args.dirfd);
      env.metaStatus(path) >= 0 && MetaKey(tr, env, args) in s.meta && rel.status >= 0
      && Verdict(env, 'r', path, rel.path) < 0 ==>
        Handle(s, original, tr, env, euid, args) == Reply(Verdict(env, 'r', path, rel.path), s)
  {
  }

  /** As root (euid 0): the record becomes (stored mode, requested owner with
      -1 replaced by the stored owner, requested group as given), registers
      stay, the syscall becomes PR_getuid and the result is 0. */
  lemma RootSetsOwnerAndGroup(s: State, original: map<Reg, Word>, tr: Translator,
                              env: Env, args: ChownArgs)
    requires Callable(original, tr, args)
    requires Managed(s, tr, env, args)
    ensures var key := MetaKey(tr, env, args);
      var stored := s.meta[key];
      var owner := RequestedOwner(original[args.owner], stored.owner);
      Handle(s, original, tr, env, 0, args)
        == Reply(0, State(PrGetuid, s.regs,
                          s.meta[key := Record(stored.mode, owner, ToU32(original[args.group]))]))
  {
  }

  /** As the stored owner (not root): only the group changes, a different
      requested owner is ignored without -EPERM, the owner register is
      rewritten to the stored owner, the syscall becomes PR_getuid and the
      result is 0. */
  lemma OwnerChangesGroupOnly(s: State, original: map<Reg, Word>, tr: Translator,
                              env: Env, euid: U32, args: ChownArgs)
    requires Callable(original, tr, args)
    requires Managed(s, tr, env, args)
    requires euid != 0 && euid == s.meta[MetaKey(tr, env, args)].owner
    ensures var key := MetaKey(tr, env, args);
      var stored := s.meta[key];
      Handle(s, original, tr, env, euid, args)
        == Reply(0, State(PrGetuid, s.regs[args.owner := stored.owner],
                          s.meta[key := Record(stored.mode, stored.owner,
                                               ToU32(original[args.group]))]))
  {
  }

  /** Anyone else gets -EPERM with the state exactly as it was. */
  lemma OthersDenied(s: State, original: map<Reg, Word>, tr: Translator,
                     env: Env, euid: U32, args: ChownArgs)
    requires Callable(original, tr, args)
    requires Managed(s, tr, env, args)
    requires euid != 0 && euid != s.meta[MetaKey(tr, env, args)].owner
    ensures Handle(s, original, tr, env, euid, args) == Reply(-EPERM, s)
  {
  }

  /** Every failing call leaves the state exactly as it was. */
  lemma FailureChangesNothing(s: State, original: map<Reg, Word>, tr: Translator,
                              env: Env, euid: U32, args: ChownArgs)
    requires Callable(original, tr, args)
    ensures var r := Handle(s, original, tr, env, euid, args);
      r.status != 0 ==> r.post == s
  {
  }

  /** Any record or register change comes with a neutralized syscall and a
      result of 0; the syscall number is otherwise left alone. */
  lemma WritesAreNeutralized(s: State, original: map<Reg, Word>, tr: Translator,
                             env: Env, euid: U32, args: ChownArgs)
    requires Callable(original, tr, args)
    ensures var r := Handle(s, original, tr, env, euid, args);
      (r.post.meta != s.meta || r.post.regs != s.regs) ==>
        r.status == 0 && r.post.sysnum == PrGetuid
    ensures var r := Handle(s, original, tr, env, euid, args);
      r.post.sysnum == s.sysnum || r.post.sysnum == PrGetuid
  {
  }

  /** No record is created or removed, no mode changes, and only the
      target's record can change. */
  lemma OnlyTargetOwnershipChanges(s: State, original: map<Reg, Word>, tr: Translator,
                                   env: Env, euid: U32, args: ChownArgs)
    requires Callable(original, tr, args)
    ensures var r := Handle(s, original, tr, env, euid, args);
      && r.post.meta.Keys == s.meta.Keys
      && (forall k :: k in s.meta ==> r.post.meta[k].mode == s.meta[k].mode)
      && (forall k :: k in s.meta && k != MetaKey(tr, env, args) ==> r.post.meta[k] == s.meta[k])
  {
  }

  /** Only root can change a stored owner; only the owner register can be
      rewritten, and only by a non-root owner, to the stored owner. */
  lemma NonRootKeepsOwners(s: State, original: map<Reg, Word>, tr: Translator,
                           env: Env, euid: U32, args: ChownArgs)
    requires Callable(original, tr, args)
    ensures var r := Handle(s, original, tr, env, euid, args);
      euid != 0 ==> forall k :: k in s.meta ==> k in r.post.meta && r.post.meta[k].owner == s.meta[k].owner
    ensures var r := Handle(s, original, tr, env, euid, args);
      r.post.regs == s.regs
      || (euid != 0 && r.post.regs == s.regs[args.owner := euid])
  {
  }

  /** Repeating the call with the same arguments gives the same outcome: the
      second call reads back what the first wrote. */
  lemma Idempotent(s: State, original: map<Reg, Word>, tr: Translator,
                   env: Env, euid: U32, args: ChownArgs)
    requires Callable(original, tr, args)
    ensures var r := Handle(s, original, tr, env, euid, args);
      Handle(r.post, original, tr, env, euid, args) == r
  {
  }

  /** Record (0644 = 420, 1000, 1000), euid 1000, chown(path, -1, 2000): the record
      becomes (420, 1000, 2000), the call succeeds and is neutralized. */
  lemma GroupChangeByOwner(s: State, original: map<Reg, Word>, tr: Translator,
                           env: Env, args: ChownArgs)
    requires Callable(original, tr, args)
    requires Managed(s, tr, env, args)
    requires s.meta[MetaKey(tr, env, args)] == Record(420, 1000, 1000)
    requires original[args.owner] == 0xFFFF_FFFF_FFFF_FFFF && original[args.group] == 2000
    ensures var r := Handle(s, original, tr, env, 1000, args);
      && r.status == 0
      && r.post.sysnum == PrGetuid
      && r.post.meta == s.meta[MetaKey(tr, env, args) := Record(420, 1000, 2000)]
  {
  }

  /** Same record, euid 1001, any request: -EPERM and the record unchanged. */
  lemma ChownByStranger(s: State, original: map<Reg, Word>, tr: Translator,
                        env: Env, args: ChownArgs)
    requires Callable(original, tr, args)
    requires Managed(s, tr, env, args)
    requires s.meta[MetaKey(tr, env, args)] == Record(420, 1000, 1000)
    ensures var r := Handle(s, original, tr, env, 1001, args);
      r.status == -EPERM && r.post.meta[MetaKey(tr, env, args)] == Record(420, 1000, 1000)
  {
  }
}
