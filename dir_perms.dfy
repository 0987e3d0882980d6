/** check_dir_perms: the emulated permission check on the parent directory of
    a guest path and on its ancestors, up to a reference ancestor rel_path.

    The collaborators the C code calls are oracles here: get_meta_path
    (status and meta path of a guest path), get_permissions (the permission
    bits the current configuration has on a meta file) and belongs_to_guestfs
    (whether a guest path is still inside the guest root). */
module DirPerms {
  import opened DirPaths
  import opened Errno

  /** The metadata store and the path translator, as seen by the check. */
  datatype Env = Env(
    metaStatus: Path -> int,     // status returned by get_meta_path
    metaPath: Path -> Path,      // meta path written by get_meta_path
    permissions: Path -> int,    // get_permissions(meta_path, config, 0)
    inGuestfs: Path -> bool)     // belongs_to_guestfs(tracee, path)

  /** (perms & 1) == 1. Dafny's % and / are Euclidean, which gives the low
      bits of the two's-complement representation for negative values too. */
  predicate CanExec(perms: int)
  {
    perms % 2 == 1
  }

  /** (perms & 2) == 2. */
  predicate CanWrite(perms: int)
  {
    (perms / 2) % 2 == 1
  }

  /** The permission bits of the meta file of a guest path. */
  function PermsOf(env: Env, p: Path): int
  {
    env.permissions(env.metaPath(p))
  }

  /** An ancestor the loop lets through: its meta path resolves and it carries
      the execute bit. */
  predicate Traversable(env: Env, p: Path)
  {
    env.metaStatus(p) >= 0 && CanExec(PermsOf(env, p))
  }

  /** What the loop returns on an ancestor that is not traversable. */
  function Failure(env: Env, p: Path): int
  {
    if env.metaStatus(p) < 0 then env.metaStatus(p) else -EACCES
  }

  /** The loop test: the current path is not rel_path and is longer than it. */
  predicate Continues(cur: Path, rel: Path)
  {
    cur != rel && |rel| < |cur|
  }

  /** The ancestors the loop shortens cur to when nothing stops it early. */
  function Chain(cur: Path, rel: Path): seq<Path>
    requires |rel| >= 1
    decreases |cur|
  {
    if !Continues(cur, rel) then [] else [DirPath(cur)] + Chain(DirPath(cur), rel)
  }

  /** The shape of the chain: each path is get_dir_path of the one before,
      the loop test holds on every path but the last, the last is the first
      that equals rel_path or is no longer than it, and every path is a
      strictly shorter prefix of the start. */
  lemma {:induction false} ChainShape(cur: Path, rel: Path)
    requires |rel| >= 1
    ensures var c := Chain(cur, rel);
      && (c == [] <==> !Continues(cur, rel))
      && (c != [] ==> c[0] == DirPath(cur))
      && (forall i, j :: 0 <= i && j == i + 1 && j < |c| ==> c[j] == DirPath(c[i]))
      && (forall i :: 0 <= i < |c| - 1 ==> Continues(c[i], rel))
      && (c != [] ==> !Continues(c[|c| - 1], rel))
      && (forall i :: 0 <= i < |c| ==> |c[i]| < |cur| && c[i] <= cur)
    decreases |cur|
  {
    if Continues(cur, rel) {
      var next := DirPath(cur);
      var c := Chain(cur, rel);
      var rest := Chain(next, rel);
      assert c == [next] + rest;
      ChainShape(next, rel);
      forall i | 0 < i < |c|
        ensures c[i] == rest[i - 1]
      {
      }
    }
  }

  /** The ancestors the loop actually examines. */
  function Examined(env: Env, cur: Path, rel: Path): seq<Path>
    requires |rel| >= 1
    decreases |cur|
  {
    if !Continues(cur, rel) then []
    else if !env.inGuestfs(DirPath(cur)) then []
    else [DirPath(cur)] + Examined(env, DirPath(cur), rel)
  }

  /** The examined ancestors are the longest prefix of the chain that stays
      inside the guest root: the walk stops silently at the first ancestor
      outside it and looks at nothing beyond. */
  lemma {:induction false} ExaminedIsGuestPrefix(env: Env, cur: Path, rel: Path)
    requires |rel| >= 1
    ensures var e := Examined(env, cur, rel);
      var c := Chain(cur, rel);
      && e <= c
      && (forall i :: 0 <= i < |e| ==> env.inGuestfs(e[i]))
      && (|e| < |c| ==> !env.inGuestfs(c[|e|]))
    decreases |cur|
  {
    if Continues(cur, rel) && env.inGuestfs(DirPath(cur)) {
      var next := DirPath(cur);
      ExaminedIsGuestPrefix(env, next, rel);
      var e := Examined(env, cur, rel);
      var c := Chain(cur, rel);
      assert e == [next] + Examined(env, next, rel);
      assert c == [next] + Chain(next, rel);
    }
  }

  /** The loop of check_dir_perms from the current shortened path on. */
  function Walk(env: Env, cur: Path, rel: Path): int
    requires |rel| >= 1
    decreases |cur|
  {
    if !Continues(cur, rel) then 0
    else
      var next := DirPath(cur);
      if !env.inGuestfs(next) then 0
      else if env.metaStatus(next) < 0 then env.metaStatus(next)
      else if !CanExec(PermsOf(env, next)) then -EACCES
      else Walk(env, next, rel)
  }

  /** The permission check of the immediate parent: write bit for 'w',
      execute bit for 'r', nothing for any other type. */
  predicate ParentAllows(env: Env, kind: char, parent: Path)
  {
    && env.metaStatus(parent) >= 0
    && (kind == 'w' ==> CanWrite(PermsOf(env, parent)))
    && (kind == 'r' ==> CanExec(PermsOf(env, parent)))
  }

  /** The value check_dir_perms returns. */
  function Verdict(env: Env, kind: char, path: Path, rel: Path): int
    requires |rel| >= 1
  {
    var parent := DirPath(path);
    if env.metaStatus(parent) < 0 then env.metaStatus(parent)
    else if kind == 'w' && !CanWrite(PermsOf(env, parent)) then -EACCES
    else if kind == 'r' && !CanExec(PermsOf(env, parent)) then -EACCES
    else Walk(env, parent, rel)
  }

  /** Every path of s is traversable. */
  predicate AllTraversable(env: Env, s: seq<Path>)
  {
    forall i :: 0 <= i < |s| ==> Traversable(env, s[i])
  }

  /** The walk succeeds exactly when every examined ancestor is traversable. */
  lemma {:induction false} WalkZeroIff(env: Env, cur: Path, rel: Path)
    requires |rel| >= 1
    ensures Walk(env, cur, rel) == 0 <==> AllTraversable(env, Examined(env, cur, rel))
    decreases |cur|
  {
    if Continues(cur, rel) {
      var next := DirPath(cur);
      if env.inGuestfs(next) {
        var e := Examined(env, cur, rel);
        var rest := Examined(env, next, rel);
        assert e == [next] + rest;
        if Traversable(env, next) {
          WalkZeroIff(env, next, rel);
          if AllTraversable(env, rest) {
            forall j | 0 <= j < |e| ensures Traversable(env, e[j]) {
              if j > 0 { assert e[j] == rest[j - 1]; }
            }
          } else {
            var i :| 0 <= i < |rest| && !Traversable(env, rest[i]);
            assert e[i + 1] == rest[i];
          }
        } else {
          assert !Traversable(env, e[0]);
        }
      }
    }
  }

  /** e[i] is the first path of e that is not traversable. */
  predicate FirstFailureAt(env: Env, e: seq<Path>, i: int)
  {
    0 <= i < |e| && !Traversable(env, e[i]) && AllTraversable(env, e[..i])
  }

  /** A failing walk returns the failure of the first examined ancestor that
      is not traversable. */
  lemma {:induction false} WalkFailsAtFirst(env: Env, cur: Path, rel: Path)
    requires |rel| >= 1
    requires Walk(env, cur, rel) != 0
    ensures exists i ::
      && FirstFailureAt(env, Examined(env, cur, rel), i)
      && Walk(env, cur, rel) == Failure(env, Examined(env, cur, rel)[i])
    decreases |cur|
  {
    var next := DirPath(cur);
    var e := Examined(env, cur, rel);
    var rest := Examined(env, next, rel);
    assert e == [next] + rest;
    if Traversable(env, next) {
      WalkFailsAtFirst(env, next, rel);
      var i :| FirstFailureAt(env, rest, i) && Walk(env, next, rel) == Failure(env, rest[i]);
      assert e[i + 1] == rest[i];
      var before := e[..i + 1];
      assert before == [next] + rest[..i];
      forall j | 0 <= j < |before| ensures Traversable(env, before[j]) {
        if j > 0 { assert before[j] == rest[..i][j - 1]; }
      }
      assert FirstFailureAt(env, e, i + 1);
    } else {
      assert e[..0] == [];
      assert FirstFailureAt(env, e, 0);
    }
  }

  /** rel_path is examined when the walk reaches it: it can only be the last
      path of the chain, so the walk stops right after checking it. */
  lemma RelPathEndsChain(cur: Path, rel: Path, i: int)
    requires |rel| >= 1
    requires 0 <= i < |Chain(cur, rel)| && Chain(cur, rel)[i] == rel
    ensures i == |Chain(cur, rel)| - 1
  {
    ChainShape(cur, rel);
  }

  /** check_dir_perms returns 0 exactly when the parent passes its check and
      every examined ancestor is traversable. */
  lemma VerdictZeroIff(env: Env, kind: char, path: Path, rel: Path)
    requires |rel| >= 1
    ensures var e := Examined(env, DirPath(path), rel);
      Verdict(env, kind, path, rel) == 0 <==>
        ParentAllows(env, kind, DirPath(path)) && AllTraversable(env, e)
  {
    WalkZeroIff(env, DirPath(path), rel);
  }

  /** Any other result is -EACCES or the negative status get_meta_path gave
      for the parent or for an examined ancestor, returned unchanged. */
  lemma VerdictErrors(env: Env, kind: char, path: Path, rel: Path)
    requires |rel| >= 1
    ensures var r := Verdict(env, kind, path, rel);
      var e := Examined(env, DirPath(path), rel);
      r == 0 || r == -EACCES
      || (r < 0 && r == env.metaStatus(DirPath(path)))
      || (r < 0 && exists i :: 0 <= i < |e| && r == env.metaStatus(e[i]))
  {
    if Verdict(env, kind, path, rel) == Walk(env, DirPath(path), rel) != 0 {
      WalkFailsAtFirst(env, DirPath(path), rel);
    }
  }

  /** The parent check alone: a failing meta path is returned as is; 'w'
      without the write bit and 'r' without the execute bit are -EACCES;
      otherwise (and always for another type) the walk decides. */
  lemma VerdictOnParent(env: Env, kind: char, path: Path, rel: Path)
    requires |rel| >= 1
    ensures var parent := DirPath(path);
      var r := Verdict(env, kind, path, rel);
      && (env.metaStatus(parent) < 0 ==> r == env.metaStatus(parent))
      && (env.metaStatus(parent) >= 0 && kind == 'w' ==>
            (!CanWrite(PermsOf(env, parent)) ==> r == -EACCES)
            && (CanWrite(PermsOf(env, parent)) ==> r == Walk(env, parent, rel)))
      && (env.metaStatus(parent) >= 0 && kind == 'r' ==>
            (!CanExec(PermsOf(env, parent)) ==> r == -EACCES)
            && (CanExec(PermsOf(env, parent)) ==> r == Walk(env, parent, rel)))
      && (env.metaStatus(parent) >= 0 && kind != 'w' && kind != 'r' ==>
            r == Walk(env, parent, rel))
  {
  }

  /** check_dir_perms as the C code runs it. */
  method CheckDirPerms(env: Env, kind: char, path: Path, rel: Path) returns (status: int)
    requires |rel| >= 1
    ensures status == Verdict(env, kind, path, rel)
  {
    var shortenPath := GetDirPath(path);
    status := env.metaStatus(shortenPath);
    if status < 0 {
      return;
    }
    var metaPath := env.metaPath(shortenPath);
    var perms := env.permissions(metaPath);
    if kind == 'w' && !CanWrite(perms) {
      return -EACCES;
    }
    if kind == 'r' && !CanExec(perms) {
      return -EACCES;
    }
    while shortenPath != rel && |rel| < |shortenPath|
      invariant Walk(env, shortenPath, rel) == Walk(env, DirPath(path), rel)
      decreases |shortenPath|
    {
      shortenPath := GetDirPath(shortenPath);
      if !env.inGuestfs(shortenPath) {
        break;
      }
      status := env.metaStatus(shortenPath);
      if status < 0 {
        return;
      }
      metaPath := env.metaPath(shortenPath);
      perms := env.permissions(metaPath);
      if !CanExec(perms) {
        return -EACCES;
      }
    }
    return 0;
  }
}
