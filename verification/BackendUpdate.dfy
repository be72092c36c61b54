/** Promotion, archiving and rollback of a backend's build trees: go/cmd/ggrun/backend_update.go. Any
    rename, removal, build, conformance run or manifest write may fail. */
module BackendUpdate {
  import opened Options
  import opened Text

  /** A build directory: where it lies and what it is called. */
  datatype Dir = Dir(parent: string, base: string)

  /** A binary's path: filepath.Dir twice, the base of the first, the base of the path. */
  datatype Path = Path(tree: Dir, bin: string, file: string)

  /** What a build tree holds. */
  type Build = nat

  datatype Version = Version(path: Path, commit: string, patches: seq<string>, replacedAt: string)

  /** A manifest record; policy stands for the fields a recipe may rewrite. */
  datatype Backend = Backend(path: Path, commit: string, patches: seq<string>, previous: Option<Version>, policy: nat)

  datatype Recipe = Recipe(patches: seq<string>, policy: nat)

  type Trees = map<Dir, Build>

  const MAX_ARCHIVES := 50

  function Beside(d: Dir, suffix: string): Dir {
    Dir(d.parent, d.base + suffix)
  }

  /** Where a candidate is staged. */
  function CandidateDir(active: Dir, short: string, nano: string): Dir {
    Beside(active, "-candidate-" + (short + "-" + nano))
  }

  /** backendLayoutFor: the record points into build-<accel>/bin. */
  predicate Managed(be: Backend) {
    be.path.bin == "bin" && HasPrefix(be.path.tree.base, "build-")
  }

  /** shortCommit: twelve characters of the trimmed commit, or as many as there are. */
  function Short(commit: string): (s: string)
    ensures if TrimSpace(commit) == "" then s == "unknown"
            else s != "" && s <= TrimSpace(commit) && (|s| == 12 || (|s| < 12 && s == TrimSpace(commit)))
  {
    var c := TrimSpace(commit);
    var s := if |c| > 12 then c[..12] else c;
    if s == "" then "unknown" else s
  }

  /** The names archiveBuildDir tries, in order. */
  function ArchiveName(active: Dir, commit: string, i: nat): (d: Dir)
    ensures d.parent == active.parent
    ensures d.base == active.base + "-prev-" + Short(commit) + (if i == 0 then "" else "." + Decimal(i))
  {
    Beside(active, "-prev-" + Short(commit) + (if i == 0 then "" else "." + Decimal(i)))
  }

  function Moved(t: Trees, from: Dir, to: Dir): Trees
    requires from in t
  {
    (t - {from})[to := t[from]]
  }

  function Swapped(t: Trees, a: Dir, b: Dir): Trees
    requires a in t && b in t
  {
    t[a := t[b]][b := t[a]]
  }

  /** Archive names of one commit differ, so a collision is never an overwriting. */
  lemma ArchiveNamesDiffer(active: Dir, commit: string, i: nat, j: nat)
    requires i != j
    ensures ArchiveName(active, commit, i) != ArchiveName(active, commit, j)
  {
    hide Short, Decimal;
    NumberRead(i);
    NumberRead(j);
    var head := active.base + ("-prev-" + Short(commit));
    forall k: nat ensures ArchiveName(active, commit, k).base == head + (if k == 0 then "" else "." + Decimal(k)) {
    }
    if i != 0 && j != 0 {
      assert (head + ("." + Decimal(i)))[|head| + 1..] == Decimal(i);
      assert (head + ("." + Decimal(j)))[|head| + 1..] == Decimal(j);
    }
  }

  /** Every archive name of a commit is taken. */
  ghost predicate NoNameFree(t: Trees, active: Dir, commit: string) {
    forall i: nat :: i <= MAX_ARCHIVES ==> ArchiveName(active, commit, i) in t
  }

  /** The first archive name of a commit that is not taken, if one of those tried is free. */
  function FirstArchive(t: Trees, active: Dir, commit: string, i: nat): (d: Option<Dir>)
    requires i <= MAX_ARCHIVES + 1
    decreases MAX_ARCHIVES + 1 - i
  {
    if i > MAX_ARCHIVES then None
    else if ArchiveName(active, commit, i) !in t then Some(ArchiveName(active, commit, i))
    else FirstArchive(t, active, commit, i + 1)
  }

  lemma {:induction false} FirstArchiveIs(t: Trees, active: Dir, commit: string, from: nat, i: nat)
    requires from <= i <= MAX_ARCHIVES && ArchiveName(active, commit, i) !in t
    requires forall k: nat :: from <= k < i ==> ArchiveName(active, commit, k) in t
    ensures FirstArchive(t, active, commit, from) == Some(ArchiveName(active, commit, i))
    decreases i - from
  {
    if from < i {
      FirstArchiveIs(t, active, commit, from + 1, i);
    }
  }

  lemma {:induction false} FirstArchiveFree(t: Trees, active: Dir, commit: string, from: nat)
    requires from <= MAX_ARCHIVES + 1
    ensures var d := FirstArchive(t, active, commit, from);
            d.Some? ==> d.value !in t && exists i: nat :: from <= i <= MAX_ARCHIVES && d.value == ArchiveName(active, commit, i)
    decreases MAX_ARCHIVES + 1 - from
  {
    if from <= MAX_ARCHIVES && ArchiveName(active, commit, from) in t {
      FirstArchiveFree(t, active, commit, from + 1);
    }
  }

  /** The disk after a promotion in which nothing fails, from the disk before it. */
  function AfterPromotion(t: Trees, be: Backend, candidate: Dir, build: Build): Trees {
    var active := be.path.tree;
    PromotedTrees(t, active, candidate, build,
                  if active in t then FirstArchive(t, active, be.commit, 0) else None,
                  if Stale(be).Some? && Prunable(Stale(be).value) then {Stale(be).value} else {})
  }

  /** The tree an update would drop from history. */
  function Stale(be: Backend): Option<Dir> {
    if be.previous.Some? then Some(be.previous.value.path.tree) else None
  }

  predicate Prunable(d: Dir) {
    Contains(d.base, "-prev-")
  }

  /** The record after an update whose old tree went to archived. */
  function Updated(be: Backend, commit: string, archived: Option<Dir>, recipe: Option<Recipe>, stamp: string): Backend {
    Backend(Path(be.path.tree, "bin", be.path.file), commit,
            if recipe.Some? then recipe.value.patches else be.patches,
            if archived.Some? then Some(Version(Path(archived.value, "bin", be.path.file), be.commit, be.patches, stamp)) else None,
            if recipe.Some? then recipe.value.policy else be.policy)
  }

  function RolledBack(be: Backend, stamp: string): Backend
    requires be.previous.Some?
  {
    var prev := be.previous.value;
    Backend(Path(be.path.tree, "bin", be.path.file), prev.commit, prev.patches,
            Some(Version(Path(prev.path.tree, "bin", be.path.file), be.commit, be.patches, stamp)), be.policy)
  }

  /** What an update did: nothing, a promotion, or an error. */
  datatype Outcome = Kept | Promoted(build: Build, archived: Option<Dir>, pruned: bool, commit: string, stamp: string) | Error

  /** The disk after a promotion: the old tree archived, the candidate in its place, and the superseded
      archive gone if it was pruned. */
  function PromotedTrees(t: Trees, active: Dir, candidate: Dir, build: Build, archived: Option<Dir>, stale: set<Dir>): Trees {
    var staged := t[candidate := build];
    var cleared := if archived.Some? && active in staged then Moved(staged, active, archived.value) else staged;
    (cleared - {candidate})[active := build] - stale
  }

  datatype Presence = There | Absent | Unknown

  class Installation {
    /** Whether a build holds a file in a directory: a tree may lack its binary. */
    const contains: (Build, string, string) -> bool
    var trees: Trees
    var record: Option<Backend>
    /** Every directory RemoveAll was called on. */
    ghost var removed: set<Dir>
    /** Whether a rename or swap that was to undo another failed. */
    ghost var undoFailed: bool
    /** Whether anything asked of the outside failed. */
    ghost var troubled: bool
    /** Trees that passed conformance, in order. */
    ghost var vetted: seq<Dir>
    /** Whether the candidate took the place of the active tree. */
    ghost var activated: bool

    constructor (contents: (Build, string, string) -> bool, t: Trees, r: Option<Backend>)
      ensures contains == contents && trees == t && record == r && removed == {} && !undoFailed && !troubled
      ensures vetted == [] && !activated
    {
      contains := contents;
      trees, record, removed, undoFailed, troubled := t, r, {}, false, false;
      vetted, activated := [], false;
    }

    // Effects.

    method Rename(from: Dir, to: Dir) returns (ok: bool)
      modifies this`trees, this`troubled
      ensures ok ==> from in old(trees) && to !in old(trees) && trees == Moved(old(trees), from, to)
      ensures !ok ==> trees == old(trees)
      ensures troubled == (old(troubled) || !ok)
    {
      ok := *;
      ok := ok && from in trees && to !in trees;
      if ok {
        trees := Moved(trees, from, to);
      }
      troubled := troubled || !ok;
    }

    /** A rename that puts something back. */
    method Undo(from: Dir, to: Dir) returns (ok: bool)
      modifies this`trees, this`undoFailed, this`troubled
      ensures troubled == (old(troubled) || !ok)
      ensures ok ==> from in old(trees) && to !in old(trees) && trees == Moved(old(trees), from, to)
      ensures !ok ==> trees == old(trees) && undoFailed
      ensures ok ==> undoFailed == old(undoFailed)
    {
      ok := Rename(from, to);
      undoFailed := undoFailed || !ok;
    }

    /** os.Stat: there, not there, or an error that says neither. */
    method Stat(d: Dir) returns (s: Presence)
      modifies this`troubled
      ensures troubled == (old(troubled) || s == Unknown)
      ensures s == There ==> d in trees
      ensures s == Absent ==> d !in trees
    {
      var known: bool := *;
      s := if !known then Unknown else if d in trees then There else Absent;
      troubled := troubled || s == Unknown;
    }

    predicate Present(p: Path)
      reads this`trees
    {
      p.tree in trees && contains(trees[p.tree], p.bin, p.file)
    }

    /** os.Stat of a binary. */
    method StatFile(p: Path) returns (s: Presence)
      modifies this`troubled
      ensures troubled == (old(troubled) || s == Unknown)
      ensures s == There ==> Present(p)
      ensures s == Absent ==> !Present(p)
    {
      var known: bool := *;
      s := if !known then Unknown else if Present(p) then There else Absent;
      troubled := troubled || s == Unknown;
    }

    method RemoveAll(d: Dir) returns (ok: bool)
      modifies this`trees, this`removed, this`troubled
      ensures troubled == (old(troubled) || !ok)
      ensures removed == old(removed) + {d}
      ensures trees == if ok then old(trees) - {d} else old(trees)
    {
      ok := *;
      removed := removed + {d};
      if ok {
        trees := trees - {d};
      }
      troubled := troubled || !ok;
    }

    method BuildAt(d: Dir) returns (ok: bool, build: Build)
      modifies this`trees, this`troubled
      ensures troubled == (old(troubled) || !ok)
      ensures trees == old(trees)[d := build] || (!ok && trees == old(trees))
    {
      ok, build := *, *;
      var left: bool := *;
      if ok || left {
        trees := trees[d := build];
      }
      troubled := troubled || !ok;
    }

    /** The source checkout. */
    method Checkout() returns (ok: bool)
      modifies this`troubled
      ensures troubled == (old(troubled) || !ok)
    {
      ok := *;
      troubled := troubled || !ok;
    }

    /** validateBackendCandidate of the binary in a tree. */
    method Conforms(d: Dir) returns (ok: bool)
      modifies this`troubled, this`vetted
      ensures troubled == (old(troubled) || !ok)
      ensures vetted == if ok then old(vetted) + [d] else old(vetted)
    {
      ok := *;
      vetted := if ok then vetted + [d] else vetted;
      troubled := troubled || !ok;
    }

    method Upsert(be: Backend) returns (ok: bool)
      modifies this`record, this`troubled
      ensures record == if ok then Some(be) else old(record)
      ensures troubled == (old(troubled) || !ok)
    {
      ok := *;
      if ok {
        record := Some(be);
      }
      troubled := troubled || !ok;
    }

    // Operations.

    /** archiveBuildDir: move a build aside under a name that is free. */
    method Archive(active: Dir, commit: string) returns (dest: Option<Dir>)
      modifies this`trees, this`troubled
      ensures old(troubled) ==> troubled
      ensures dest.None? ==> trees == old(trees) && (troubled || NoNameFree(trees, active, commit))
      ensures dest.Some? ==>
                && active in old(trees) && dest.value !in old(trees) && trees == Moved(old(trees), active, dest.value)
                && exists i: nat :: i <= MAX_ARCHIVES && dest.value == ArchiveName(active, commit, i)
      ensures dest.Some? ==> troubled || dest == FirstArchive(old(trees), active, commit, 0)
    {
      var i := 0;
      while true
        invariant 0 <= i <= MAX_ARCHIVES && trees == old(trees) && (old(troubled) ==> troubled)
        invariant troubled || forall k: nat :: k < i ==> ArchiveName(active, commit, k) in trees
        decreases MAX_ARCHIVES - i
      {
        var s := Stat(ArchiveName(active, commit, i));
        if s == Absent {
          break;
        }
        if i == MAX_ARCHIVES {
          return None;
        }
        i := i + 1;
      }
      if !troubled {
        FirstArchiveIs(trees, active, commit, 0, i);
      }
      var ok := Rename(active, ArchiveName(active, commit, i));
      return if ok then Some(ArchiveName(active, commit, i)) else None;
    }

    /** pruneBuildDir. */
    method Prune(d: Dir) returns (ok: bool)
      modifies this`trees, this`removed, this`troubled
      ensures old(troubled) ==> troubled
      ensures !troubled ==> (ok <==> Prunable(d))
      ensures removed == if Prunable(d) then old(removed) + {d} else old(removed)
      ensures trees == if ok then old(trees) - {d} else old(trees)
      ensures ok ==> Prunable(d)
    {
      if !Prunable(d) {
        return false;
      }
      ok := RemoveAll(d);
    }

    /** pruneCandidateBuildDir. */
    method PruneCandidate(d: Dir, active: Dir)
      modifies this`trees, this`removed, this`troubled
      ensures old(troubled) ==> troubled
      ensures removed == if d.parent == active.parent && HasPrefix(d.base, active.base + "-candidate-") then old(removed) + {d}
                         else old(removed)
      ensures trees == old(trees) || trees == old(trees) - {d}
      ensures !troubled && d in removed - old(removed) ==> d !in trees
      ensures removed == old(removed) ==> trees == old(trees) || d in removed
    {
      if d.parent == active.parent && HasPrefix(d.base, active.base + "-candidate-") {
        var ok := RemoveAll(d);
      }
    }

    /** swapBackendBuildDirs: exchange two trees through a third name, or put everything back. */
    method Swap(left: Dir, right: Dir, stamp: string) returns (ok: bool)
      modifies this`trees, this`undoFailed, this`troubled
      ensures old(troubled) ==> troubled
      ensures !ok ==> troubled || left == right || left.parent != right.parent
      ensures ok ==> left in old(trees) && right in old(trees) && left != right && trees == Swapped(old(trees), left, right)
      ensures ok ==> left.parent == right.parent
      ensures ok ==> undoFailed == old(undoFailed)
      ensures !ok ==> undoFailed || trees == old(trees)
      ensures old(undoFailed) ==> undoFailed
    {
      if left == right || left.parent != right.parent {
        return false;
      }
      ghost var before := trees;
      var tmp := Beside(left, "-rollback-swap-" + stamp);
      ok := Rename(left, tmp);
      if !ok {
        return false;
      }
      ok := Rename(right, left);
      if !ok {
        var undone := Undo(tmp, left);
        assert undone ==> trees == before;
        return false;
      }
      ok := Rename(tmp, right);
      if !ok {
        var undone := Undo(left, right);
        var again := Undo(tmp, left);
        assert undone && again ==> trees == before;
        return false;
      }
      assert trees == Swapped(before, left, right);
    }

    /** Nothing but the staged candidate and, after a promotion, the superseded archive was removed. */
    ghost predicate RemovedOnly(before: set<Dir>, candidate: Dir, stale: Option<Dir>)
      reads this`removed
    {
      removed <= before + {candidate} + (if stale.Some? && Prunable(stale.value) then {stale.value} else {})
    }

    ghost predicate Survives(build: Build)
      reads this`trees
    {
      exists d :: d in trees && trees[d] == build
    }

    /** Every tree that was there keeps its place, apart from the active one and the staged candidate. */
    ghost predicate OthersStay(before: Trees, active: Dir, candidate: Dir)
      reads this`trees
    {
      forall d :: d in before && d != active && d != candidate ==> d in trees && trees[d] == before[d]
    }

    /** A name that pruneCandidateBuildDir accepts. */
    ghost predicate Staged(candidate: Dir, active: Dir) {
      candidate.parent == active.parent && HasPrefix(candidate.base, active.base + "-candidate-")
    }

    lemma CandidateStaged(active: Dir, short: string, nano: string)
      ensures Staged(CandidateDir(active, short, nano), active)
    {
      CandidatesDiffer(active, short, nano, nano);
    }

    /** What an update leaves of the trees there were: after an error the record, every other tree and,
        unless an undoing rename failed, the active tree are as before, and the active tree is on the disk
        anyway; after a promotion the record and the disk are those of
        Updated and PromotedTrees. */
    ghost predicate Settled(was: Trees, gone: set<Dir>, be: Backend, out: Outcome, candidate: Dir, recipe: Option<Recipe>)
      reads this
    {
      var active := be.path.tree;
      match out
      case Kept =>
        trees == was && removed == gone && (record == Some(be) || exists p :: record == Some(be.(policy := p)))
      case Error =>
        && record == Some(be)
        && RemovedOnly(gone, candidate, None)
        && OthersStay(was, active, candidate)
        && (active in was ==> Survives(was[active]))
        && (active in was && !undoFailed ==> active in trees && trees[active] == was[active])
      case Promoted(build, archived, pruned, commit, stamp) =>
        && record == Some(Updated(be, commit, archived, recipe, stamp))
        && (archived.None? <==> active !in was)
        && (archived.Some? ==>
              && archived.value !in was
              && archived.value != candidate
              && exists i: nat :: i <= MAX_ARCHIVES && archived.value == ArchiveName(active, be.commit, i))
        && (pruned ==> Stale(be).Some? && Prunable(Stale(be).value))
        && RemovedOnly(gone, candidate, Stale(be))
        && trees == PromotedTrees(was, active, candidate, build, archived,
                                  if pruned then {Stale(be).value} else {})
    }

    /** updateRegisteredBackend. short is the short new commit and nano the clock, which name the candidate. */
    method Update(be: Backend, recipe: Option<Recipe>, short: string, nano: string, commit: string, stamp: string)
      returns (out: Outcome)
      requires record == Some(be) && !undoFailed
      modifies this
      ensures Settled(old(trees), old(removed), be, out, CandidateDir(be.path.tree, short, nano), recipe)
      ensures out == Error ==> troubled || !Managed(be) || NoNameFree(old(trees), be.path.tree, be.commit)
      ensures out.Promoted? ==> vetted == old(vetted) + [CandidateDir(be.path.tree, short, nano), be.path.tree]
      ensures out == Error ==>
                activated || CandidateDir(be.path.tree, short, nano) in removed || (trees == old(trees) && removed == old(removed))
      ensures out.Promoted? ==>
                && out.commit == commit && record.Some? && record.value.commit == commit
                && record.value.path == Path(be.path.tree, "bin", be.path.file)
                && record.value.patches == (if recipe.Some? then recipe.value.patches else be.patches)
                && record.value.policy == (if recipe.Some? then recipe.value.policy else be.policy)
                && (be.path.tree !in old(trees) ==> record.value.previous.None?)
                && (be.path.tree in old(trees) ==>
                      record.value.previous == Some(Version(Path(out.archived.value, "bin", be.path.file), be.commit, be.patches, stamp)))
      ensures out.Promoted? ==>
                troubled || trees == AfterPromotion(old(trees), be, CandidateDir(be.path.tree, short, nano), out.build)
    {
      hide FirstArchive, ArchiveName, NoNameFree, CandidateDir, Prunable, Staged;
      activated := false;
      CandidateElsewhere(be.path.tree, short, nano);
      CandidateStaged(be.path.tree, short, nano);
      if !Managed(be) {
        return Error;
      }
      var current: bool := *;
      if current {
        out := Refresh(be);
        return;
      }
      var checkedOut := Checkout();
      if !checkedOut {
        return Error;
      }
      ghost var was := trees;
      var active := be.path.tree;
      var candidate := CandidateDir(active, short, nano);
      var built, build := BuildAt(candidate);
      var fit: bool := false;
      if built {
        fit := Conforms(candidate);
      }
      if !fit {
        Discard(be, candidate, was, active);
        return Error;
      }
      out := Promote(be, recipe, candidate, build, short, commit, stamp, was);
      CandidateIsNoArchive(was, active, be.commit, short, nano, build);
    }

    /** Nothing to rebuild: at most the reviewed policy is written back. */
    method Refresh(be: Backend) returns (out: Outcome)
      requires record == Some(be)
      modifies this`record, this`troubled
      ensures out.Kept? || troubled
      ensures out.Kept? || (out.Error? && record == old(record))
      ensures record == Some(be) || exists p :: record == Some(be.(policy := p))
    {
      var persist: bool := *;
      if persist {
        var p: nat := *;
        var ok := Upsert(be.(policy := p));
        return if ok then Kept else Error;
      }
      return Kept;
    }

    /** The disk right after the candidate took the place of the active tree. */
    ghost predicate Activated(was: Trees, active: Dir, candidate: Dir, build: Build, archived: Option<Dir>)
      reads this`trees
    {
      && (archived.None? <==> active !in was)
      && (archived.Some? ==> archived.value !in was && archived.value != candidate && archived.value != active)
      && trees == PromotedTrees(was, active, candidate, build, archived, {})
    }

    /** Archive the active tree and rename the candidate into its place. */
    method Activate(be: Backend, candidate: Dir, build: Build, ghost was: Trees) returns (ok: bool, archived: Option<Dir>)
      requires record == Some(be) && !undoFailed && trees == was[candidate := build] && candidate != be.path.tree
      modifies this`trees, this`removed, this`undoFailed, this`troubled, this`activated
      ensures ok ==> activated
      ensures !ok ==> activated == old(activated)
      ensures !ok && Staged(candidate, be.path.tree) ==> candidate in removed
      ensures !ok ==> troubled || NoNameFree(was[candidate := build], be.path.tree, be.commit)
      ensures ok ==> Activated(was, be.path.tree, candidate, build, archived) && removed == old(removed) && !undoFailed
      ensures ok && archived.Some? ==>
                exists i: nat :: i <= MAX_ARCHIVES && archived.value == ArchiveName(be.path.tree, be.commit, i)
      ensures ok && archived.Some? ==>
                troubled || archived == FirstArchive(was[candidate := build], be.path.tree, be.commit, 0)
      ensures old(troubled) ==> troubled
      ensures !ok ==> Settled(was, old(removed), be, Error, candidate, None)
    {
      hide ArchiveName, Prunable, FirstArchive;
      var active := be.path.tree;
      archived := None;
      var s := Stat(active);
      if s == There {
        archived := Archive(active, be.commit);
      }
      ok := s == Absent || archived.Some?;
      if ok {
        ok := Rename(candidate, active);
        if !ok && archived.Some? {
          var undone := Undo(archived.value, active);
        }
      }
      activated := activated || ok;
      if !ok {
        Discard(be, candidate, was, if active in trees || archived.None? then active else archived.value);
      }
    }

    /** Give a candidate up before it was activated, with the active tree where it was or at home. */
    method Discard(be: Backend, candidate: Dir, ghost was: Trees, ghost home: Dir)
      requires record == Some(be) && home != candidate && OthersStay(was, be.path.tree, candidate)
      requires be.path.tree in was ==> home in trees && trees[home] == was[be.path.tree]
      requires be.path.tree in was && !undoFailed ==> home == be.path.tree
      modifies this`trees, this`removed, this`troubled
      ensures old(troubled) ==> troubled
      ensures Staged(candidate, be.path.tree) ==> candidate in removed
      ensures candidate != be.path.tree ==> Settled(was, old(removed), be, Error, candidate, None)
    {
      PruneCandidate(candidate, be.path.tree);
      assert be.path.tree in was ==> home in trees && trees[home] == was[be.path.tree];
    }

    /** Move the new tree aside and put the archived one back; the second rename is tried anyway when
        insist holds. */
    method PutBack(be: Backend, aside: Dir, insist: bool, candidate: Dir, build: Build, archived: Option<Dir>, ghost was: Trees)
      requires record == Some(be) && !undoFailed && candidate != be.path.tree && aside != be.path.tree
      requires Activated(was, be.path.tree, candidate, build, archived)
      modifies this`trees, this`undoFailed, this`troubled
      ensures Settled(was, removed, be, Error, candidate, None) && (old(troubled) ==> troubled)
    {
      var active := be.path.tree;
      var undone := false;
      if insist || archived.Some? {
        undone := Undo(active, aside);
      }
      var back := false;
      if archived.Some? && (insist || undone) {
        back := Undo(archived.value, active);
      }
      assert active in was ==> (var home := if back then active else archived.value; home in trees && trees[home] == was[active]);
    }

    /** What a promotion in which nothing failed picked and pruned. */
    ghost predicate Picked(was: Trees, be: Backend, candidate: Dir, build: Build, out: Outcome)
      requires out.Promoted?
    {
      && (be.path.tree in was ==> out.archived == FirstArchive(was[candidate := build], be.path.tree, be.commit, 0))
      && (out.pruned <==> Stale(be).Some? && Prunable(Stale(be).value))
    }

    /** From a conforming candidate to a registered one. */
    method Promote(be: Backend, recipe: Option<Recipe>, candidate: Dir, build: Build, short: string, commit: string,
                   stamp: string, ghost was: Trees) returns (out: Outcome)
      requires record == Some(be) && !undoFailed && trees == was[candidate := build] && candidate != be.path.tree
      modifies this
      ensures Settled(was, old(removed), be, out, candidate, recipe)
      ensures out == Error ==> troubled || NoNameFree(was[candidate := build], be.path.tree, be.commit)
      ensures out.Promoted? ==> vetted == old(vetted) + [be.path.tree]
      ensures out == Error && Staged(candidate, be.path.tree) ==> activated || candidate in removed
      ensures out.Promoted? ==> troubled || Picked(was, be, candidate, build, out)
      ensures out.Promoted? ==> out.build == build && out.commit == commit && out.stamp == stamp
    {
      hide ArchiveName, Prunable, NoNameFree, FirstArchive, Beside, OthersStay, Survives, Staged;
      var active := be.path.tree;
      BesideElsewhere(active, "-candidate-invalid-" + short);
      BesideElsewhere(active, "-unregistered-" + short);
      var ok, archived := Activate(be, candidate, build, was);
      if !ok {
        return Error;
      }
      ok := Conforms(active);
      if !ok {
        PutBack(be, Beside(active, "-candidate-invalid-" + short), true, candidate, build, archived, was);
        return Error;
      }
      ok := Upsert(Updated(be, commit, archived, recipe, stamp));
      if !ok {
        PutBack(be, Beside(active, "-unregistered-" + short), false, candidate, build, archived, was);
        return Error;
      }
      var pruned := false;
      if be.previous.Some? {
        pruned := Prune(be.previous.value.path.tree);
      }
      return Promoted(build, archived, pruned, commit, stamp);
    }

    /** rollbackRegisteredBackend: exchange the active tree and the recorded archive. */
    method Rollback(be: Backend, nano: string, again: string, stamp: string) returns (ok: bool)
      requires record == Some(be) && !undoFailed
      modifies this`trees, this`record, this`undoFailed, this`troubled, this`vetted
      ensures ok ==> vetted == old(vetted) + [be.path.tree]
      ensures !ok ==> troubled || !Managed(be) || !Archived(be) || !old(Present(be.previous.value.path))
      ensures ok ==> Archived(be) && old(Present(be.previous.value.path))
      ensures ok ==>
                && var prev := be.previous.value.path;
                && prev.tree in old(trees) && contains(old(trees)[prev.tree], prev.bin, prev.file)
      ensures ok ==>
                && Stale(be).value.parent == be.path.tree.parent && be.path.tree.base + "-prev-" <= Stale(be).value.base
                && be.path.bin == "bin" && "build-" <= be.path.tree.base
      ensures ok ==>
                && record.Some? && record.value.commit == be.previous.value.commit && record.value.patches == be.previous.value.patches
                && record.value.path == Path(be.path.tree, "bin", be.path.file) && record.value.policy == be.policy
                && record.value.previous == Some(Version(Path(Stale(be).value, "bin", be.path.file), be.commit, be.patches, stamp))
      ensures ok ==> be.previous.Some? && Managed(be)
      ensures ok ==> record == Some(RolledBack(be, stamp)) && be.path.tree in old(trees) && Stale(be).value in old(trees)
      ensures ok ==> trees == Swapped(old(trees), be.path.tree, Stale(be).value) && Archived(be)
      ensures !ok ==> record == Some(be) && (!undoFailed ==> trees == old(trees))
    {
      if be.previous.None? {
        return false;
      }
      var s := StatFile(be.previous.value.path);
      if s != There || !Managed(be) || !Archived(be) {
        return false;
      }
      var left, right := be.path.tree, be.previous.value.path.tree;
      ghost var was := trees;
      ok := Swap(left, right, nano);
      if !ok {
        return;
      }
      ok := Conforms(left);
      if ok {
        ok := Upsert(RolledBack(be, stamp));
      }
      if !ok {
        var back := Swap(left, right, again);
        undoFailed := undoFailed || !back;
        assert back ==> trees == was;
      }
    }
  }

  /** The recorded archive lies beside the active tree under one of its archive names. */
  predicate Archived(be: Backend) {
    && be.previous.Some? && be.previous.value.path.tree.parent == be.path.tree.parent
    && HasPrefix(be.previous.value.path.tree.base, be.path.tree.base + "-prev-")
  }

  lemma ArchiveIsNoCandidate(active: Dir, commit: string, short: string, nano: string, i: nat)
    ensures ArchiveName(active, commit, i) != CandidateDir(active, short, nano)
  {
    hide Short, Decimal;
    var candidate := CandidateDir(active, short, nano);
    var tail := Short(commit) + (if i == 0 then "" else "." + Decimal(i));
    assert ArchiveName(active, commit, i).base == active.base + ("-prev-" + tail);
    assert candidate.base[|active.base| + 1] == 'c' && (active.base + ("-prev-" + tail))[|active.base| + 1] == 'p';
  }

  /** Staging a candidate takes no archive name. */
  lemma {:induction false} StagingKeepsFirst(was: Trees, active: Dir, commit: string, short: string, nano: string, build: Build, i: nat)
    requires i <= MAX_ARCHIVES + 1
    ensures FirstArchive(was[CandidateDir(active, short, nano) := build], active, commit, i) == FirstArchive(was, active, commit, i)
    decreases MAX_ARCHIVES + 1 - i
  {
    hide ArchiveName, CandidateDir;
    if i <= MAX_ARCHIVES {
      ArchiveIsNoCandidate(active, commit, short, nano, i);
      StagingKeepsFirst(was, active, commit, short, nano, build, i + 1);
    }
  }

  lemma CandidateIsNoArchive(was: Trees, active: Dir, commit: string, short: string, nano: string, build: Build)
    ensures NoNameFree(was[CandidateDir(active, short, nano) := build], active, commit) ==> NoNameFree(was, active, commit)
    ensures FirstArchive(was[CandidateDir(active, short, nano) := build], active, commit, 0) == FirstArchive(was, active, commit, 0)
  {
    hide ArchiveName, CandidateDir, FirstArchive;
    forall i: nat | i <= MAX_ARCHIVES ensures ArchiveName(active, commit, i) != CandidateDir(active, short, nano) {
      ArchiveIsNoCandidate(active, commit, short, nano, i);
    }
    StagingKeepsFirst(was, active, commit, short, nano, build, 0);
  }

  // What a promotion means.

  lemma PrefixContains(a: string, part: string, s: string)
    requires HasPrefix(s, a + part)
    ensures Contains(s, part)
  {
    assert s[..|a + part|] == a + part;
    assert part <= s[|a|..];
  }

  lemma ArchivePrunable(active: Dir, commit: string, i: nat)
    ensures Prunable(ArchiveName(active, commit, i))
  {
    hide Short, Decimal;
    var tail := Short(commit) + (if i == 0 then "" else "." + Decimal(i));
    assert ArchiveName(active, commit, i).base == active.base + "-prev-" + tail;
    PrefixContains(active.base, "-prev-", active.base + "-prev-" + tail);
  }

  /** After a promotion the active directory holds the new build and the recorded previous path the tree
      that was active, unless the superseded archive that was pruned is that very directory. */
  lemma ArchiveStays(was: Trees, be: Backend, candidate: Dir, build: Build, archived: Dir, pruned: bool)
    requires be.path.tree in was && archived !in was && archived != candidate && candidate != be.path.tree
    requires pruned ==> Stale(be).Some?
    ensures var stale := if pruned then {Stale(be).value} else {};
            var now := PromotedTrees(was, be.path.tree, candidate, build, Some(archived), stale);
            && (archived in now && now[archived] == was[be.path.tree] <==> !(pruned && Stale(be) == Some(archived)))
            && (be.path.tree in now && now[be.path.tree] == build <==> !(pruned && Stale(be) == Some(be.path.tree)))
            && (Stale(be).Some? && Stale(be).value in was ==> Stale(be) != Some(archived))
  {
  }

  /** Whether a promotion keeps the tree it replaces, told before it begins: a promotion in which nothing
      fails loses that tree exactly if the recorded previous path is the first archive name that is free.
      An older archive that still exists is not. */
  lemma PromotionKeepsPrevious(was: Trees, be: Backend, short: string, nano: string, build: Build)
    requires be.path.tree in was && FirstArchive(was, be.path.tree, be.commit, 0).Some?
    ensures var dest := FirstArchive(was, be.path.tree, be.commit, 0).value;
            var now := AfterPromotion(was, be, CandidateDir(be.path.tree, short, nano), build);
            && (dest in now && now[dest] == was[be.path.tree] <==> Stale(be) != Some(dest))
            && (Stale(be).Some? && Stale(be).value in was ==> Stale(be) != Some(dest))
            && (be.path.tree in now && now[be.path.tree] == build <==>
                  !(Stale(be) == Some(be.path.tree) && Prunable(be.path.tree)))
  {
    hide ArchiveName, FirstArchive, Prunable, CandidateDir;
    var active := be.path.tree;
    FirstArchiveFree(was, active, be.commit, 0);
    var dest := FirstArchive(was, active, be.commit, 0).value;
    var i: nat :| i <= MAX_ARCHIVES && dest == ArchiveName(active, be.commit, i);
    ArchivePrunable(active, be.commit, i);
    ArchiveIsNoCandidate(active, be.commit, short, nano, i);
    CandidateElsewhere(active, short, nano);
    ArchiveStays(was, be, CandidateDir(active, short, nano), build, dest, Stale(be).Some? && Prunable(Stale(be).value));
  }

  /** A candidate is staged beside the active tree under a name that pruning accepts, another one every
      time. */
  lemma CandidatesDiffer(active: Dir, short: string, nano: string, again: string)
    ensures var d := CandidateDir(active, short, nano);
            d.parent == active.parent && HasPrefix(d.base, active.base + "-candidate-")
    ensures nano != again ==> CandidateDir(active, short, nano) != CandidateDir(active, short, again)
  {
    var head := active.base + "-candidate-" + (short + "-");
    assert CandidateDir(active, short, nano).base == head + nano;
    assert CandidateDir(active, short, again).base == head + again;
    assert (head + nano)[|head|..] == nano && (head + again)[|head|..] == again;
    assert (active.base + "-candidate-") + ((short + "-") + nano) == head + nano;
  }

  lemma BesideElsewhere(d: Dir, suffix: string)
    requires suffix != ""
    ensures Beside(d, suffix) != d
  {
    assert |Beside(d, suffix).base| > |d.base|;
  }

  lemma CandidateElsewhere(active: Dir, short: string, nano: string)
    ensures CandidateDir(active, short, nano) != active
  {
    assert |CandidateDir(active, short, nano).base| > |active.base|;
  }

  /** The loss does happen: the older archive was deleted by hand, its commit is the one being replaced,
      and its name is the first that is free. Then the build just archived is on the disk nowhere, unless
      another tree holds the same. */
  lemma ArchiveLost(was: Trees, be: Backend, short: string, nano: string, build: Build, i: nat)
    requires be.path.tree in was && be.previous.Some? && i <= MAX_ARCHIVES
    requires be.previous.value.path.tree == ArchiveName(be.path.tree, be.commit, i)
    requires be.previous.value.path.tree !in was
    requires forall k: nat :: k < i ==> ArchiveName(be.path.tree, be.commit, k) in was
    requires build != was[be.path.tree] && forall d :: d in was && d != be.path.tree ==> was[d] != was[be.path.tree]
    ensures var now := AfterPromotion(was, be, CandidateDir(be.path.tree, short, nano), build);
            forall d :: d in now ==> now[d] != was[be.path.tree]
  {
    hide ArchiveName, FirstArchive, Prunable, CandidateDir;
    FirstArchiveIs(was, be.path.tree, be.commit, 0, i);
    ArchivePrunable(be.path.tree, be.commit, i);
  }

  // Rolling back twice.

  /** The record up to the time of the replacement. */
  function Timeless(be: Backend): Backend {
    if be.previous.None? then be
    else be.(previous := Some(be.previous.value.(replacedAt := "")))
  }

  /** Rolling back twice puts both trees back, and the record up to its timestamp exactly when the
      recorded previous binary is called like the active one. */
  lemma RollbackTwice(t: Trees, be: Backend, first: string, second: string)
    requires Managed(be) && be.previous.Some? && Archived(be)
    requires be.path.tree in t && be.previous.value.path.tree in t
    ensures var once := RolledBack(be, first);
            && Archived(once) && Managed(once)
            && once.path.tree in Swapped(t, be.path.tree, Stale(be).value)
            && Stale(once).value in Swapped(t, be.path.tree, Stale(be).value)
            && Swapped(Swapped(t, be.path.tree, Stale(be).value), once.path.tree, Stale(once).value) == t
            && (Timeless(RolledBack(once, second)) == Timeless(be) <==>
                  be.previous.value.path == Path(Stale(be).value, "bin", be.path.file))
  {
  }

  /** A record written by an update is such a record, so an update can be rolled back, and that undone. */
  lemma UpdateThenRollback(t: Trees, be: Backend, commit: string, archived: Dir, recipe: Option<Recipe>, stamp: string,
                           i: nat, first: string, second: string)
    requires Managed(be) && archived == ArchiveName(be.path.tree, be.commit, i)
    requires be.path.tree in t && archived in t
    ensures var up := Updated(be, commit, Some(archived), recipe, stamp);
            && Managed(up) && Archived(up)
            && RolledBack(up, first).commit == be.commit && RolledBack(up, first).patches == be.patches
            && RolledBack(up, first).path == be.path
            && Timeless(RolledBack(RolledBack(up, first), second)) == Timeless(up)
  {
    var name := archived.base;
    var tail := Short(be.commit) + (if i == 0 then "" else "." + Decimal(i));
    assert name == be.path.tree.base + "-prev-" + tail;
    assert HasPrefix(name, be.path.tree.base + "-prev-");
    var up := Updated(be, commit, Some(archived), recipe, stamp);
    assert Archived(up);
    RollbackTwice(t, up, first, second);
  }
}
