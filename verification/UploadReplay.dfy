// The remote side of `quish cp -r`: the scripted upload as the session user, with
// the kernel's permission checks on the modes it sends (quish-client/src/cp.rs and
// the upload and mkdir helpers of quish-server/src/privdrop.rs).
module UploadReplay {
  import opened Base
  import opened Paths
  import opened UploadTree

  type Fs = map<string, Remote>

  /** The session user: whether it is root, and the modes of its home directory (where
      relative paths start) and of `/`. Modes count by their owner bits: entries the
      upload creates belong to this user. */
  datatype User = User(superuser: bool, home: nat, slash: nat) {
    predicate MayWrite(mode: nat) { superuser || mode / 128 % 2 == 1 }

    predicate MaySearch(mode: nat) { superuser || mode / 64 % 2 == 1 }
  }

  function Under(root: string, rel: string): string { root + "/" + rel }

  /** The mode of the directory that holds `p`, if it is there. */
  function HolderMode(u: User, fs: Fs, p: string): Option<nat> {
    match Parent(p)
    case None => Some(u.home)
    case Some(d) =>
      if d == "" then Some(u.slash)
      else if d in fs && fs[d].RDir? then Some(fs[d].mode)
      else None
  }

  /** Every directory on the way to `p` exists and may be searched. */
  predicate Reaches(u: User, fs: Fs, p: string)
    decreases |p|
  {
    && HolderMode(u, fs, p).Some? && u.MaySearch(HolderMode(u, fs, p).value)
    && match Parent(p)
       case None => true
       case Some(d) => d == "" || Reaches(u, fs, d)
  }

  /** A new entry may be made at `p`. */
  predicate Creates(u: User, fs: Fs, p: string) {
    Reaches(u, fs, p) && u.MayWrite(HolderMode(u, fs, p).value)
  }

  datatype Progress = Progress(fs: Fs, ok: bool)

  /** An existing directory is success; anything else in the way is failure. */
  function Mkdir(u: User, fs: Fs, p: string, mode: nat): Progress {
    if p in fs then Progress(fs, Reaches(u, fs, p) && fs[p].RDir?)
    else if Creates(u, fs, p) then Progress(fs[p := RDir(mode)], true)
    else Progress(fs, false)
  }

  /** Create a regular file, or truncate one that may be written; an existing file
      keeps its mode. */
  function WriteFile(u: User, fs: Fs, p: string, mode: nat, content: bytes): Progress {
    if p in fs then
      if Reaches(u, fs, p) && fs[p].RFile? && u.MayWrite(fs[p].mode)
      then Progress(fs[p := RFile(fs[p].mode, content)], true)
      else Progress(fs, false)
    else if Creates(u, fs, p) then Progress(fs[p := RFile(mode, content)], true)
    else Progress(fs, false)
  }

  /** One more directory, unless something failed before. */
  function MkdirNext(u: User, g: Progress, root: string, d: WalkDir): Progress {
    if !g.ok then g else Mkdir(u, g.fs, Under(root, d.rel), d.mode)
  }

  /** The first `n` directories, up to the first failure. */
  function MkdirAll(u: User, fs: Fs, root: string, dirs: seq<WalkDir>, n: nat): Progress
    requires n <= |dirs|
  {
    if n == 0 then Progress(fs, true) else MkdirNext(u, MkdirAll(u, fs, root, dirs, n - 1), root, dirs[n - 1])
  }

  lemma {:induction false} MkdirAllInduct(u: User, fs: Fs, root: string, dirs: seq<WalkDir>, n: nat,
                                          holds: (Progress, nat) -> bool)
    requires n <= |dirs| && holds(Progress(fs, true), 0)
    requires forall g: Progress, i: nat :: i < |dirs| && holds(g, i) ==> holds(MkdirNext(u, g, root, dirs[i]), i + 1)
    ensures holds(MkdirAll(u, fs, root, dirs, n), n)
    decreases n
  {
    if n > 0 {
      MkdirAllInduct(u, fs, root, dirs, n - 1, holds);
    }
  }

  function UploadOne(u: User, fs: Fs, root: string, rel: string, local: Fs): Progress {
    if rel in local && local[rel].RFile?
    then WriteFile(u, fs, Under(root, rel), local[rel].mode, local[rel].content)
    else Progress(fs, false)
  }

  /** One more file, unless something failed before. */
  function UploadNext(u: User, g: Progress, root: string, f: string, local: Fs): Progress {
    if !g.ok then g else UploadOne(u, g.fs, root, f, local)
  }

  /** The first `k` files, up to the first failure. */
  function UploadAll(u: User, fs: Fs, root: string, files: seq<string>, local: Fs, k: nat): Progress
    requires k <= |files|
  {
    if k == 0 then Progress(fs, true)
    else UploadNext(u, UploadAll(u, fs, root, files, local, k - 1), root, files[k - 1], local)
  }

  lemma {:induction false} UploadAllInduct(u: User, fs: Fs, root: string, files: seq<string>, local: Fs, k: nat,
                                           holds: (Progress, nat) -> bool)
    requires k <= |files| && holds(Progress(fs, true), 0)
    requires forall g: Progress, i: nat :: i < |files| && holds(g, i)
               ==> holds(UploadNext(u, g, root, files[i], local), i + 1)
    ensures holds(UploadAll(u, fs, root, files, local, k), k)
    decreases k
  {
    if k > 0 {
      UploadAllInduct(u, fs, root, files, local, k - 1, holds);
    }
  }

  /** The whole script: the root, the directories, the files; stop at a failure. */
  function Replay(u: User, fs: Fs, root: string, rootMode: nat, w: Walk, local: Fs): Progress {
    var g := Mkdir(u, fs, root, rootMode);
    if !g.ok then g
    else
      var h := MkdirAll(u, g.fs, root, w.dirs, |w.dirs|);
      if !h.ok then h else UploadAll(u, h.fs, root, w.files, local, |w.files|)
  }

  /** The loop over directories, up to the first failure. */
  method MakeDirs(u: User, fs: Fs, root: string, dirs: seq<WalkDir>) returns (g: Progress)
    ensures g == MkdirAll(u, fs, root, dirs, |dirs|)
  {
    g := Progress(fs, true);
    for i := 0 to |dirs|
      invariant g == MkdirAll(u, fs, root, dirs, i) && g.ok
    {
      g := Mkdir(u, g.fs, Under(root, dirs[i].rel), dirs[i].mode);
      if !g.ok {
        MkdirAllStops(u, fs, root, dirs, i + 1, |dirs|);
        return;
      }
    }
  }

  /** The loop over files, up to the first failure. */
  method SendFiles(u: User, fs: Fs, root: string, files: seq<string>, local: Fs) returns (g: Progress)
    ensures g == UploadAll(u, fs, root, files, local, |files|)
  {
    g := Progress(fs, true);
    for i := 0 to |files|
      invariant g == UploadAll(u, fs, root, files, local, i) && g.ok
    {
      g := UploadOne(u, g.fs, root, files[i], local);
      if !g.ok {
        UploadAllStops(u, fs, root, files, local, i + 1, |files|);
        return;
      }
    }
  }

  /** `upload_tree`: the exit code and what it leaves. `refused` is the status that a
      helper exits with when its operation fails. */
  method UploadWalk(u: User, fs: Fs, root: string, rootMode: nat, w: Walk, local: Fs, refused: int)
    returns (fs': Fs, code: int)
    requires refused != 0
    ensures var r := Replay(u, fs, root, rootMode, w, local);
            fs' == r.fs && code == if r.ok then 0 else refused
  {
    var g := Mkdir(u, fs, root, rootMode);
    if !g.ok {
      return g.fs, refused;
    }
    g := MakeDirs(u, g.fs, root, w.dirs);
    if !g.ok {
      return g.fs, refused;
    }
    g := SendFiles(u, g.fs, root, w.files, local);
    return g.fs, if g.ok then 0 else refused;
  }

  lemma {:induction false} MkdirAllStops(u: User, fs: Fs, root: string, dirs: seq<WalkDir>, n: nat, m: nat)
    requires n <= m <= |dirs| && !MkdirAll(u, fs, root, dirs, n).ok
    ensures MkdirAll(u, fs, root, dirs, m) == MkdirAll(u, fs, root, dirs, n)
    decreases m
  {
    if n < m {
      MkdirAllStops(u, fs, root, dirs, n, m - 1);
    }
  }

  lemma {:induction false} UploadAllStops(u: User, fs: Fs, root: string, files: seq<string>, local: Fs, n: nat, m: nat)
    requires n <= m <= |files| && !UploadAll(u, fs, root, files, local, n).ok
    ensures UploadAll(u, fs, root, files, local, m) == UploadAll(u, fs, root, files, local, n)
    decreases m
  {
    if n < m {
      UploadAllStops(u, fs, root, files, local, n, m - 1);
    }
  }

  // ---- one replay, step by step -------------------------------------------

  /** A replay after its root was made: `fs` has the root and nothing below it. */
  datatype Job = Job(u: User, fs: Fs, root: string, rootMode: nat, t: Fs, w: Walk)

  ghost predicate Valid(j: Job) {
    && j.root != "" && j.root in j.fs && j.fs[j.root] == RDir(j.rootMode) && Reaches(j.u, j.fs, j.root)
    && (forall p :: p in j.fs ==> !(j.root + "/" <= p))
    && Lists(j.w, j.t) && ParentsFirst(j.w, None)
  }

  ghost predicate Extends(fs: Fs, g: Fs) {
    forall p :: p in fs ==> p in g && g[p] == fs[p]
  }

  /** `g` is the start plus some of the tree under the root. */
  ghost predicate Growing(j: Job, g: Fs) {
    && Extends(j.fs, g)
    && (forall rel :: rel in j.t && Under(j.root, rel) in g ==> g[Under(j.root, rel)] == j.t[rel])
    && (forall p :: p in g && p !in j.fs ==> j.root + "/" <= p && p[|j.root| + 1..] in j.t)
  }

  /** The local mode of the directory that holds `rel`. */
  function LocalHolder(rootMode: nat, t: Fs, rel: string): Option<nat> {
    match Parent(rel)
    case None => Some(rootMode)
    case Some(q) => if q in t && t[q].RDir? then Some(t[q].mode) else None
  }

  /** The directory that holds `rel` lets the user add entries to it. */
  ghost predicate Open(u: User, rootMode: nat, t: Fs, rel: string) {
    var m := LocalHolder(rootMode, t, rel);
    m.Some? && u.MayWrite(m.value) && u.MaySearch(m.value)
  }

  /** What has been made can be reached, and its directory was open. */
  ghost predicate Settled(j: Job, g: Fs) {
    forall rel :: rel in j.t && Under(j.root, rel) in g ==>
      Reaches(j.u, g, Under(j.root, rel)) && Open(j.u, j.rootMode, j.t, rel)
  }

  /** The first `n` directories and `k` files are there, and no later file. */
  ghost predicate Stage(j: Job, g: Fs, n: nat, k: nat)
    requires n <= |j.w.dirs| && k <= |j.w.files|
  {
    && Growing(j, g) && Settled(j, g)
    && (forall i :: 0 <= i < n ==> Under(j.root, j.w.dirs[i].rel) in g)
    && (forall i :: 0 <= i < |j.w.files| ==> (Under(j.root, j.w.files[i]) in g <==> i < k))
  }

  lemma UnderRoot(root: string, rel: string)
    ensures root + "/" <= Under(root, rel) && Under(root, rel)[|root| + 1..] == rel
  {
  }

  /** Adding entries never takes a way away. */
  lemma {:induction false} ReachesGrows(u: User, fs: Fs, g: Fs, p: string)
    requires Extends(fs, g) && Reaches(u, fs, p)
    ensures Reaches(u, g, p) && HolderMode(u, g, p) == HolderMode(u, fs, p)
    decreases |p|
  {
    match Parent(p)
    case None =>
    case Some(d) =>
      if d != "" {
        ReachesGrows(u, fs, g, d);
      }
  }

  lemma UnderInjective(root: string, a: string, b: string)
    requires Under(root, a) == Under(root, b)
    ensures a == b
  {
    UnderRoot(root, a);
    UnderRoot(root, b);
  }

  lemma Grow(j: Job, g: Fs, rel: string)
    requires Valid(j) && Growing(j, g) && rel in j.t
    ensures Growing(j, g[Under(j.root, rel) := j.t[rel]])
  {
    var q := Under(j.root, rel);
    UnderRoot(j.root, rel);
    GrowAt(j, g, q, rel);
  }

  lemma GrowAt(j: Job, g: Fs, q: string, rel: string)
    requires Growing(j, g) && rel in j.t && q == Under(j.root, rel)
    requires j.root + "/" <= q && q[|j.root| + 1..] == rel && q !in j.fs
    ensures Growing(j, g[q := j.t[rel]])
  {
    var g' := g[q := j.t[rel]];
    forall r | r in j.t && Under(j.root, r) in g' ensures g'[Under(j.root, r)] == j.t[r] {
      if Under(j.root, r) == q {
        UnderInjective(j.root, r, rel);
      }
    }
  }

  lemma Settle(j: Job, g: Fs, rel: string)
    requires Valid(j) && Growing(j, g) && Settled(j, g) && rel in j.t && Under(j.root, rel) !in g
    requires Reaches(j.u, g, Under(j.root, rel)) && Open(j.u, j.rootMode, j.t, rel)
    ensures Settled(j, g[Under(j.root, rel) := j.t[rel]])
  {
    var g' := g[Under(j.root, rel) := j.t[rel]];
    UnderRoot(j.root, rel);
    forall r | r in j.t && Under(j.root, r) in g'
      ensures Reaches(j.u, g', Under(j.root, r)) && Open(j.u, j.rootMode, j.t, r)
    {
      UnderRoot(j.root, r);
      ReachesGrows(j.u, g, g', Under(j.root, r));
    }
  }

  lemma CreatesIn(u: User, g: Fs, p: string, d: string, mode: nat)
    requires Parent(p) == Some(d) && d != "" && d in g && g[d] == RDir(mode) && Reaches(u, g, d)
    ensures Creates(u, g, p) <==> u.MayWrite(mode) && u.MaySearch(mode)
  {
  }

  /** Once its parent has been made, a path can be made exactly when the directory
      that holds it is open. */
  lemma CreatesIffOpen(j: Job, g: Fs, n: nat, rel: string)
    requires Valid(j) && Growing(j, g) && Settled(j, g) && n <= |j.w.dirs|
    requires forall i :: 0 <= i < n ==> Under(j.root, j.w.dirs[i].rel) in g
    requires ParentListed(j.w.dirs, n, rel, None)
    ensures Creates(j.u, g, Under(j.root, rel)) <==> Open(j.u, j.rootMode, j.t, rel)
  {
    ParentUnder(j.root, rel);
    if Parent(rel) == None {
      ReachesGrows(j.u, j.fs, g, j.root);
      CreatesIn(j.u, g, Under(j.root, rel), j.root, j.rootMode);
    } else {
      var i :| 0 <= i < n && Parent(rel) == Some(j.w.dirs[i].rel);
      var d := j.w.dirs[i];
      assert d in j.w.dirs;
      CreatesIn(j.u, g, Under(j.root, rel), Under(j.root, d.rel), d.mode);
    }
  }

  lemma DirStep(j: Job, g: Fs, n: nat)
    requires Valid(j) && n < |j.w.dirs| && Stage(j, g, n, 0)
    ensures var r := Mkdir(j.u, g, Under(j.root, j.w.dirs[n].rel), j.w.dirs[n].mode);
            && Growing(j, r.fs) && (r.ok <==> Open(j.u, j.rootMode, j.t, j.w.dirs[n].rel))
            && (r.ok ==> Stage(j, r.fs, n + 1, 0))
  {
    var d := j.w.dirs[n];
    assert d in j.w.dirs;
    if Under(j.root, d.rel) !in g {
      CreatesIffOpen(j, g, n, d.rel);
      if Open(j.u, j.rootMode, j.t, d.rel) {
        Grow(j, g, d.rel);
        Settle(j, g, d.rel);
        NotAFile(j, g, d.rel, 0);
      }
    }
  }

  /** Making `rel` makes no file but itself. */
  lemma NotAFile(j: Job, g: Fs, rel: string, k: nat)
    requires Valid(j) && k <= |j.w.files| && rel in j.t
    requires j.t[rel].RFile? ==> k > 0 && j.w.files[k - 1] == rel
    requires forall i :: 0 <= i < |j.w.files| ==>
      (Under(j.root, j.w.files[i]) in g <==> i < if j.t[rel].RFile? then k - 1 else k)
    ensures var g' := g[Under(j.root, rel) := j.t[rel]];
            forall i :: 0 <= i < |j.w.files| ==> (Under(j.root, j.w.files[i]) in g' <==> i < k)
  {
    UnderRoot(j.root, rel);
    forall i | 0 <= i < |j.w.files|
      ensures Under(j.root, j.w.files[i]) == Under(j.root, rel) <==> j.t[rel].RFile? && i == k - 1
    {
      UnderRoot(j.root, j.w.files[i]);
      assert j.w.files[i] in j.w.files;
    }
  }

  ghost predicate DirsOpen(j: Job, n: nat)
    requires n <= |j.w.dirs|
  {
    forall i :: 0 <= i < n ==> Open(j.u, j.rootMode, j.t, j.w.dirs[i].rel)
  }

  /** Where the script stands after `n` directories. */
  ghost predicate DirsDone(j: Job, r: Progress, n: nat)
    requires n <= |j.w.dirs|
  {
    Growing(j, r.fs) && (r.ok <==> DirsOpen(j, n)) && (r.ok ==> Stage(j, r.fs, n, 0))
  }

  lemma DirsOpenNext(j: Job, n: nat)
    requires n < |j.w.dirs|
    ensures DirsOpen(j, n + 1) <==> DirsOpen(j, n) && Open(j.u, j.rootMode, j.t, j.w.dirs[n].rel)
  {
  }

  lemma DirsDoneNext(j: Job, g: Progress, n: nat)
    requires Valid(j) && n < |j.w.dirs| && DirsDone(j, g, n)
    ensures DirsDone(j, MkdirNext(j.u, g, j.root, j.w.dirs[n]), n + 1)
  {
    DirsOpenNext(j, n);
    if g.ok {
      DirStep(j, g.fs, n);
    }
  }

  lemma DirsReplay(j: Job)
    requires Valid(j)
    ensures DirsDone(j, MkdirAll(j.u, j.fs, j.root, j.w.dirs, |j.w.dirs|), |j.w.dirs|)
  {
    Start(j);
    var holds := (g: Progress, i: nat) => i <= |j.w.dirs| && DirsDone(j, g, i);
    forall g: Progress, i: nat | i < |j.w.dirs| && holds(g, i)
      ensures holds(MkdirNext(j.u, g, j.root, j.w.dirs[i]), i + 1)
    {
      DirsDoneNext(j, g, i);
    }
    MkdirAllInduct(j.u, j.fs, j.root, j.w.dirs, |j.w.dirs|, holds);
  }

  lemma Start(j: Job)
    requires Valid(j)
    ensures Stage(j, j.fs, 0, 0)
  {
    forall rel ensures Under(j.root, rel) !in j.fs {
      UnderRoot(j.root, rel);
    }
  }

  lemma FileStep(j: Job, g: Fs, k: nat)
    requires Valid(j) && k < |j.w.files| && Stage(j, g, |j.w.dirs|, k)
    ensures var r := UploadOne(j.u, g, j.root, j.w.files[k], j.t);
            && Growing(j, r.fs) && (r.ok <==> Open(j.u, j.rootMode, j.t, j.w.files[k]))
            && (r.ok ==> Stage(j, r.fs, |j.w.dirs|, k + 1))
  {
    var f := j.w.files[k];
    assert f in j.w.files;
    CreatesIffOpen(j, g, |j.w.dirs|, f);
    if Open(j.u, j.rootMode, j.t, f) {
      assert UploadOne(j.u, g, j.root, f, j.t) == Progress(g[Under(j.root, f) := j.t[f]], true);
      Grow(j, g, f);
      Settle(j, g, f);
      NotAFile(j, g, f, k + 1);
    }
  }

  ghost predicate FilesOpen(j: Job, k: nat)
    requires k <= |j.w.files|
  {
    forall i :: 0 <= i < k ==> Open(j.u, j.rootMode, j.t, j.w.files[i])
  }

  /** Where the script stands after all directories and `k` files. */
  ghost predicate FilesDone(j: Job, r: Progress, k: nat)
    requires k <= |j.w.files|
  {
    Growing(j, r.fs) && (r.ok <==> FilesOpen(j, k)) && (r.ok ==> Stage(j, r.fs, |j.w.dirs|, k))
  }

  lemma FilesOpenNext(j: Job, k: nat)
    requires k < |j.w.files|
    ensures FilesOpen(j, k + 1) <==> FilesOpen(j, k) && Open(j.u, j.rootMode, j.t, j.w.files[k])
  {
  }

  lemma FilesDoneNext(j: Job, g: Progress, k: nat)
    requires Valid(j) && k < |j.w.files| && FilesDone(j, g, k)
    ensures FilesDone(j, UploadNext(j.u, g, j.root, j.w.files[k], j.t), k + 1)
  {
    FilesOpenNext(j, k);
    if g.ok {
      FileStep(j, g.fs, k);
    }
  }

  lemma FilesReplay(j: Job, g: Fs)
    requires Valid(j) && Stage(j, g, |j.w.dirs|, 0)
    ensures FilesDone(j, UploadAll(j.u, g, j.root, j.w.files, j.t, |j.w.files|), |j.w.files|)
  {
    var holds := (g: Progress, i: nat) => i <= |j.w.files| && FilesDone(j, g, i);
    forall g: Progress, i: nat | i < |j.w.files| && holds(g, i)
      ensures holds(UploadNext(j.u, g, j.root, j.w.files[i], j.t), i + 1)
    {
      FilesDoneNext(j, g, i);
    }
    UploadAllInduct(j.u, g, j.root, j.w.files, j.t, |j.w.files|, holds);
  }

  /** Every directory of the tree that holds a regular entry, the root included, lets
      the user write and search it. */
  ghost predicate AllOpen(u: User, rootMode: nat, t: Fs) {
    forall rel :: rel in t ==> Open(u, rootMode, t, rel)
  }

  lemma ListedOpen(j: Job)
    requires Valid(j)
    ensures DirsOpen(j, |j.w.dirs|) && FilesOpen(j, |j.w.files|) <==> AllOpen(j.u, j.rootMode, j.t)
  {
    forall rel | rel in j.t
      ensures (exists i :: 0 <= i < |j.w.dirs| && j.w.dirs[i].rel == rel)
           || (exists i :: 0 <= i < |j.w.files| && j.w.files[i] == rel)
    {
      if j.t[rel].RDir? {
        var i :| 0 <= i < |j.w.dirs| && j.w.dirs[i] == WalkDir(rel, j.t[rel].mode);
        assert j.w.dirs[i].rel == rel;
      }
    }
    forall i | 0 <= i < |j.w.dirs| ensures j.w.dirs[i].rel in j.t {
      assert j.w.dirs[i] in j.w.dirs;
    }
    forall i | 0 <= i < |j.w.files| ensures j.w.files[i] in j.t {
      assert j.w.files[i] in j.w.files;
    }
  }

  /** The rest of the script, after the root. */
  lemma RestReplay(j: Job)
    requires Valid(j)
    ensures var h := MkdirAll(j.u, j.fs, j.root, j.w.dirs, |j.w.dirs|);
            var r := if h.ok then UploadAll(j.u, h.fs, j.root, j.w.files, j.t, |j.w.files|) else h;
            && Growing(j, r.fs) && (r.ok <==> AllOpen(j.u, j.rootMode, j.t))
            && (r.ok ==> Stage(j, r.fs, |j.w.dirs|, |j.w.files|))
  {
    ListedOpen(j);
    DirsReplay(j);
    var h := MkdirAll(j.u, j.fs, j.root, j.w.dirs, |j.w.dirs|);
    if h.ok {
      FilesReplay(j, h.fs);
    }
  }

  // ---- the upload rebuilds the tree ---------------------------------------

  /** A file system in which every path's parent is a directory. */
  ghost predicate Closed(fs: Fs) {
    forall p :: p in fs ==>
      match Parent(p) case None => true case Some(d) => d == "" || (d in fs && fs[d].RDir?)
  }

  /** Nothing can exist below a directory that does not. */
  lemma {:induction false} NothingBelow(fs: Fs, root: string, p: string)
    requires Closed(fs) && root != "" && root !in fs && root + "/" <= p
    ensures p !in fs
    decreases |p|
  {
    var rel := p[|root| + 1..];
    assert p == Under(root, rel);
    ParentUnder(root, rel);
    match Parent(rel)
    case None =>
    case Some(q) => NothingBelow(fs, root, Under(root, q));
  }

  /** The remote tree at `root` is exactly the local one, and the rest is untouched. */
  ghost predicate Rebuilt(fs: Fs, g: Fs, root: string, rootMode: nat, t: Fs) {
    && Extends(fs, g)
    && root in g && g[root] == RDir(rootMode)
    && (forall rel :: rel in t ==> Under(root, rel) in g && g[Under(root, rel)] == t[rel])
    && (forall p :: p in g ==> p in fs || p == root || (root + "/" <= p && p[|root| + 1..] in t))
  }

  function JobOf(u: User, fs: Fs, root: string, rootMode: nat, entries: seq<Entry>): Job {
    Job(u, fs[root := RDir(rootMode)], root, rootMode, TreeMap("", Sorted(entries)), WalkOf("", Sorted(entries)))
  }

  lemma JobIsValid(u: User, fs: Fs, root: string, rootMode: nat, entries: seq<Entry>)
    requires WellNamed(Sorted(entries)) && Closed(fs) && root != "" && root !in fs && Creates(u, fs, root)
    ensures Valid(JobOf(u, fs, root, rootMode, entries))
  {
    var fs1 := fs[root := RDir(rootMode)];
    TreeLists("", Sorted(entries));
    TreeParentsFirst("", Sorted(entries));
    ReachesGrows(u, fs, fs1, root);
    forall p | p in fs1 ensures !(root + "/" <= p) {
      if root + "/" <= p && p != root {
        NothingBelow(fs, root, p);
      }
    }
  }

  lemma AllThere(j: Job, g: Fs)
    requires Valid(j) && Stage(j, g, |j.w.dirs|, |j.w.files|)
    ensures forall rel :: rel in j.t ==> Under(j.root, rel) in g && g[Under(j.root, rel)] == j.t[rel]
  {
    forall rel | rel in j.t ensures Under(j.root, rel) in g {
      if j.t[rel].RDir? {
        var i :| 0 <= i < |j.w.dirs| && j.w.dirs[i] == WalkDir(rel, j.t[rel].mode);
      } else {
        var i :| 0 <= i < |j.w.files| && j.w.files[i] == rel;
      }
    }
  }

  lemma JobRebuilds(j: Job, fs: Fs, r: Progress)
    requires Valid(j) && j.root !in fs && j.fs == fs[j.root := RDir(j.rootMode)]
    requires Growing(j, r.fs) && (r.ok ==> Stage(j, r.fs, |j.w.dirs|, |j.w.files|))
    ensures Extends(fs, r.fs) && (r.ok ==> Rebuilt(fs, r.fs, j.root, j.rootMode, j.t))
  {
    assert Extends(fs, j.fs);
    assert j.root in r.fs;
    if r.ok {
      AllThere(j, r.fs);
    }
  }

  /** Uploading to a path that does not exist, on any remote file system: the script
      succeeds if and only if the root can be created and every directory that holds a
      regular entry gives its owner write and search. It then leaves exactly the local
      tree without its non-regular entries; it never changes what was there. */
  lemma UploadRebuildsTree(u: User, fs: Fs, root: string, rootMode: nat, entries: seq<Entry>)
    requires WellNamed(Sorted(entries)) && Closed(fs) && root != "" && root !in fs
    ensures var w, t := WalkOf("", Sorted(entries)), TreeMap("", Sorted(entries));
            var r := Replay(u, fs, root, rootMode, w, t);
            && (r.ok <==> Creates(u, fs, root) && AllOpen(u, rootMode, t))
            && (r.ok ==> Rebuilt(fs, r.fs, root, rootMode, t))
            && Extends(fs, r.fs)
  {
    if Creates(u, fs, root) {
      var j := JobOf(u, fs, root, rootMode, entries);
      JobIsValid(u, fs, root, rootMode, entries);
      RestReplay(j);
      JobRebuilds(j, fs, Replay(u, fs, root, rootMode, j.w, j.t));
    }
  }

  // ---- uploading again ----------------------------------------------------

  ghost predicate FilesWritable(u: User, t: Fs) {
    forall f :: f in t && t[f].RFile? ==> u.MayWrite(t[f].mode)
  }

  lemma DirAgain(j: Job, g: Fs, n: nat)
    requires Valid(j) && Stage(j, g, |j.w.dirs|, |j.w.files|) && n < |j.w.dirs|
    ensures Mkdir(j.u, g, Under(j.root, j.w.dirs[n].rel), j.w.dirs[n].mode) == Progress(g, true)
  {
    var d := j.w.dirs[n];
    assert d in j.w.dirs;
    assert g[Under(j.root, d.rel)] == j.t[d.rel] && Reaches(j.u, g, Under(j.root, d.rel));
  }

  lemma DirsAgain(j: Job, g: Fs)
    requires Valid(j) && Stage(j, g, |j.w.dirs|, |j.w.files|)
    ensures MkdirAll(j.u, g, j.root, j.w.dirs, |j.w.dirs|) == Progress(g, true)
  {
    var holds := (r: Progress, i: nat) => r == Progress(g, true);
    forall r: Progress, i: nat | i < |j.w.dirs| && holds(r, i)
      ensures holds(MkdirNext(j.u, r, j.root, j.w.dirs[i]), i + 1)
    {
      DirAgain(j, g, i);
    }
    MkdirAllInduct(j.u, g, j.root, j.w.dirs, |j.w.dirs|, holds);
  }

  ghost predicate WritableUpTo(j: Job, k: nat)
    requires k <= |j.w.files|
  {
    forall i :: 0 <= i < k ==> j.w.files[i] in j.t && j.u.MayWrite(j.t[j.w.files[i]].mode)
  }

  lemma WritableStep(j: Job, k: nat)
    requires k < |j.w.files| && j.w.files[k] in j.t
    ensures WritableUpTo(j, k + 1) <==> WritableUpTo(j, k) && j.u.MayWrite(j.t[j.w.files[k]].mode)
  {
  }

  lemma FileAgain(j: Job, g: Fs, k: nat)
    requires Valid(j) && Stage(j, g, |j.w.dirs|, |j.w.files|) && k < |j.w.files|
    ensures j.w.files[k] in j.t
    ensures UploadOne(j.u, g, j.root, j.w.files[k], j.t) == Progress(g, j.u.MayWrite(j.t[j.w.files[k]].mode))
  {
    var f := j.w.files[k];
    assert f in j.w.files;
    assert g[Under(j.root, f)] == j.t[f] && Reaches(j.u, g, Under(j.root, f));
    assert g[Under(j.root, f) := j.t[f]] == g;
  }

  lemma FilesAgain(j: Job, g: Fs)
    requires Valid(j) && Stage(j, g, |j.w.dirs|, |j.w.files|)
    ensures UploadAll(j.u, g, j.root, j.w.files, j.t, |j.w.files|) == Progress(g, WritableUpTo(j, |j.w.files|))
  {
    var holds := (r: Progress, i: nat) => i <= |j.w.files| && r == Progress(g, WritableUpTo(j, i));
    forall r: Progress, i: nat | i < |j.w.files| && holds(r, i)
      ensures holds(UploadNext(j.u, r, j.root, j.w.files[i], j.t), i + 1)
    {
      FileAgain(j, g, i);
      WritableStep(j, i);
    }
    assert WritableUpTo(j, 0);
    UploadAllInduct(j.u, g, j.root, j.w.files, j.t, |j.w.files|, holds);
  }

  /** After a successful upload, the same upload changes nothing, and succeeds if and
      only if every file gives its owner write. */
  lemma UploadAgain(u: User, fs: Fs, root: string, rootMode: nat, entries: seq<Entry>)
    requires WellNamed(Sorted(entries)) && Closed(fs) && root != "" && root !in fs
    requires Replay(u, fs, root, rootMode, WalkOf("", Sorted(entries)), TreeMap("", Sorted(entries))).ok
    ensures var w, t := WalkOf("", Sorted(entries)), TreeMap("", Sorted(entries));
            var g := Replay(u, fs, root, rootMode, w, t).fs;
            Replay(u, g, root, rootMode, w, t) == Progress(g, FilesWritable(u, t))
  {
    UploadRebuildsTree(u, fs, root, rootMode, entries);
    var j := JobOf(u, fs, root, rootMode, entries);
    JobIsValid(u, fs, root, rootMode, entries);
    RestReplay(j);
    var g := Replay(u, fs, root, rootMode, j.w, j.t).fs;
    ReachesGrows(u, j.fs, g, root);
    RestAgain(j, g);
  }

  lemma RestAgain(j: Job, g: Fs)
    requires Valid(j) && Stage(j, g, |j.w.dirs|, |j.w.files|)
    ensures MkdirAll(j.u, g, j.root, j.w.dirs, |j.w.dirs|) == Progress(g, true)
    ensures UploadAll(j.u, g, j.root, j.w.files, j.t, |j.w.files|) == Progress(g, FilesWritable(j.u, j.t))
  {
    DirsAgain(j, g);
    FilesAgain(j, g);
    forall i | 0 <= i < |j.w.files| ensures j.w.files[i] in j.t && j.t[j.w.files[i]].RFile? {
      assert j.w.files[i] in j.w.files;
    }
    forall f | f in j.t && j.t[f].RFile? ensures exists i :: 0 <= i < |j.w.files| && j.w.files[i] == f {
    }
  }

  // ---- uploading over what is there ---------------------------------------

  /** What a path holds after an upload of `r` to it: an existing directory stays as it
      is, an existing file keeps its mode and gets the content, anything new is `r`. */
  function Landed(fs: Fs, p: string, r: Remote): Remote {
    if p !in fs then r
    else match r
      case RDir(_) => fs[p]
      case RFile(_, content) => RFile(fs[p].mode, content)
  }

  ghost predicate Holds(fs: Fs, g: Fs, p: string, r: Remote) {
    p in g && g[p] == Landed(fs, p, r) && (g[p].RDir? <==> r.RDir?)
  }

  ghost predicate Same(fs: Fs, g: Fs, p: string) {
    (p in g <==> p in fs) && (p in g ==> g[p] == fs[p])
  }

  /** The paths of `done` have landed, and no other path has changed. */
  ghost predicate Partial(fs: Fs, g: Fs, root: string, t: Fs, done: set<string>) {
    && (forall rel :: rel in done ==> rel in t && Holds(fs, g, Under(root, rel), t[rel]))
    && (forall p :: !(root + "/" <= p && p[|root| + 1..] in done) ==> Same(fs, g, p))
  }

  lemma OneLands(fs: Fs, g: Fs, g': Fs, root: string, t: Fs, done: set<string>, rel: string)
    requires Partial(fs, g, root, t, done) && rel in t && rel !in done
    requires Holds(fs, g', Under(root, rel), t[rel]) && forall p :: p != Under(root, rel) ==> Same(g, g', p)
    ensures Partial(fs, g', root, t, done + {rel})
  {
    UnderRoot(root, rel);
    forall r | r in done ensures Holds(fs, g', Under(root, r), t[r]) {
      UnderRoot(root, r);
      assert Same(g, g', Under(root, r));
    }
    forall p | !(root + "/" <= p && p[|root| + 1..] in done + {rel}) ensures Same(fs, g', p) {
      assert p != Under(root, rel);
      assert Same(g, g', p) && Same(fs, g, p);
    }
  }

  lemma DirLands(u: User, fs: Fs, g: Fs, root: string, t: Fs, done: set<string>, rel: string, mode: nat)
    requires Partial(fs, g, root, t, done) && rel in t && rel !in done && t[rel] == RDir(mode)
    requires Mkdir(u, g, Under(root, rel), mode).ok
    ensures Partial(fs, Mkdir(u, g, Under(root, rel), mode).fs, root, t, done + {rel})
  {
    UnderRoot(root, rel);
    assert Same(fs, g, Under(root, rel));
    OneLands(fs, g, Mkdir(u, g, Under(root, rel), mode).fs, root, t, done, rel);
  }

  lemma FileLands(u: User, fs: Fs, g: Fs, root: string, t: Fs, done: set<string>, rel: string)
    requires Partial(fs, g, root, t, done) && rel in t && rel !in done && UploadOne(u, g, root, rel, t).ok
    ensures Partial(fs, UploadOne(u, g, root, rel, t).fs, root, t, done + {rel})
  {
    UnderRoot(root, rel);
    assert Same(fs, g, Under(root, rel));
    OneLands(fs, g, UploadOne(u, g, root, rel, t).fs, root, t, done, rel);
  }

  ghost function DirSet(w: Walk, n: nat): set<string>
    requires n <= |w.dirs|
  {
    set i | 0 <= i < n :: w.dirs[i].rel
  }

  ghost function FileSet(w: Walk, k: nat): set<string>
    requires k <= |w.files|
  {
    set i | 0 <= i < k :: w.files[i]
  }

  lemma DirNextLands(u: User, fs: Fs, root: string, t: Fs, w: Walk, g: Progress, n: nat)
    requires Lists(w, t) && n < |w.dirs| && (g.ok ==> Partial(fs, g.fs, root, t, DirSet(w, n)))
    ensures var r := MkdirNext(u, g, root, w.dirs[n]);
            r.ok ==> Partial(fs, r.fs, root, t, DirSet(w, n + 1))
  {
    var d := w.dirs[n];
    assert d in w.dirs && d.rel !in DirSet(w, n);
    assert DirSet(w, n + 1) == DirSet(w, n) + {d.rel};
    if MkdirNext(u, g, root, d).ok {
      DirLands(u, fs, g.fs, root, t, DirSet(w, n), d.rel, d.mode);
    }
  }

  lemma DirsLand(u: User, fs: Fs, root: string, t: Fs, w: Walk)
    requires Lists(w, t)
    ensures var r := MkdirAll(u, fs, root, w.dirs, |w.dirs|);
            r.ok ==> Partial(fs, r.fs, root, t, DirSet(w, |w.dirs|))
  {
    var holds := (g: Progress, i: nat) => i <= |w.dirs| && (g.ok ==> Partial(fs, g.fs, root, t, DirSet(w, i)));
    forall g: Progress, i: nat | i < |w.dirs| && holds(g, i)
      ensures holds(MkdirNext(u, g, root, w.dirs[i]), i + 1)
    {
      DirNextLands(u, fs, root, t, w, g, i);
    }
    MkdirAllInduct(u, fs, root, w.dirs, |w.dirs|, holds);
  }

  lemma FileNextLands(u: User, fs: Fs, root: string, t: Fs, w: Walk, g: Progress, k: nat)
    requires Lists(w, t) && k < |w.files|
    requires g.ok ==> Partial(fs, g.fs, root, t, DirSet(w, |w.dirs|) + FileSet(w, k))
    ensures var r := UploadNext(u, g, root, w.files[k], t);
            r.ok ==> Partial(fs, r.fs, root, t, DirSet(w, |w.dirs|) + FileSet(w, k + 1))
  {
    var f, done := w.files[k], DirSet(w, |w.dirs|) + FileSet(w, k);
    FileIsNew(w, t, k);
    assert DirSet(w, |w.dirs|) + FileSet(w, k + 1) == done + {f};
    if UploadNext(u, g, root, f, t).ok {
      FileLands(u, fs, g.fs, root, t, done, f);
    }
  }

  lemma FilesLand(u: User, fs: Fs, g: Fs, root: string, t: Fs, w: Walk)
    requires Lists(w, t) && Partial(fs, g, root, t, DirSet(w, |w.dirs|))
    ensures var r := UploadAll(u, g, root, w.files, t, |w.files|);
            r.ok ==> Partial(fs, r.fs, root, t, DirSet(w, |w.dirs|) + FileSet(w, |w.files|))
  {
    var dirs := DirSet(w, |w.dirs|);
    assert dirs + FileSet(w, 0) == dirs;
    var holds := (r: Progress, i: nat) => i <= |w.files| && (r.ok ==> Partial(fs, r.fs, root, t, dirs + FileSet(w, i)));
    forall r: Progress, i: nat | i < |w.files| && holds(r, i)
      ensures holds(UploadNext(u, r, root, w.files[i], t), i + 1)
    {
      FileNextLands(u, fs, root, t, w, r, i);
    }
    UploadAllInduct(u, g, root, w.files, t, |w.files|, holds);
  }

  lemma FileIsNew(w: Walk, t: Fs, k: nat)
    requires Lists(w, t) && k < |w.files|
    ensures w.files[k] in t && w.files[k] !in DirSet(w, |w.dirs|) + FileSet(w, k)
  {
    assert w.files[k] in w.files;
    assert forall i :: 0 <= i < |w.dirs| ==> w.dirs[i] in w.dirs;
  }

  lemma AllListed(w: Walk, t: Fs)
    requires Lists(w, t)
    ensures DirSet(w, |w.dirs|) + FileSet(w, |w.files|) == t.Keys
  {
    assert forall i :: 0 <= i < |w.dirs| ==> w.dirs[i] in w.dirs;
    forall rel | rel in t ensures rel in DirSet(w, |w.dirs|) + FileSet(w, |w.files|) {
      if t[rel].RDir? {
        var i :| 0 <= i < |w.dirs| && w.dirs[i] == WalkDir(rel, t[rel].mode);
        assert w.dirs[i].rel == rel;
      }
    }
  }

  /** The tree has landed at `root`: every path of it holds what was sent, and no path
      outside it has changed. */
  ghost predicate LandedTree(fs: Fs, g: Fs, root: string, rootMode: nat, t: Fs) {
    && Holds(fs, g, root, RDir(rootMode))
    && (forall rel :: rel in t ==> Holds(fs, g, Under(root, rel), t[rel]))
    && (forall p :: p != root && !(root + "/" <= p && p[|root| + 1..] in t) ==> Same(fs, g, p))
  }

  /** Whatever the remote side holds, and whoever uploads: an upload that reports success
      leaves every file with the local content at its path (an existing file keeps its
      mode, a new one gets the local mode), every directory in place, and every path
      outside the tree untouched. */
  lemma SuccessMeansLanded(u: User, fs: Fs, root: string, rootMode: nat, entries: seq<Entry>)
    requires WellNamed(Sorted(entries))
    requires Replay(u, fs, root, rootMode, WalkOf("", Sorted(entries)), TreeMap("", Sorted(entries))).ok
    ensures var w, t := WalkOf("", Sorted(entries)), TreeMap("", Sorted(entries));
            LandedTree(fs, Replay(u, fs, root, rootMode, w, t).fs, root, rootMode, t)
  {
    var w, t := WalkOf("", Sorted(entries)), TreeMap("", Sorted(entries));
    TreeLists("", Sorted(entries));
    var fs1 := Mkdir(u, fs, root, rootMode).fs;
    var h := MkdirAll(u, fs1, root, w.dirs, |w.dirs|).fs;
    DirsLand(u, fs1, root, t, w);
    FilesLand(u, fs1, h, root, t, w);
    AllListed(w, t);
    RootLands(u, fs, fs1, UploadAll(u, h, root, w.files, t, |w.files|).fs, root, rootMode, t);
  }

  lemma RootLands(u: User, fs: Fs, fs1: Fs, g: Fs, root: string, rootMode: nat, t: Fs)
    requires Mkdir(u, fs, root, rootMode) == Progress(fs1, true) && Partial(fs1, g, root, t, t.Keys)
    ensures LandedTree(fs, g, root, rootMode, t)
  {
    assert !(root + "/" <= root);
    assert Same(fs1, g, root);
    forall rel | rel in t ensures Holds(fs, g, Under(root, rel), t[rel]) {
      UnderRoot(root, rel);
      assert Under(root, rel) != root;
      assert Holds(fs1, g, Under(root, rel), t[rel]);
    }
    forall p | p != root && !(root + "/" <= p && p[|root| + 1..] in t) ensures Same(fs, g, p) {
      assert Same(fs1, g, p);
    }
  }

  // ---- permissions --------------------------------------------------------

  /** The rights of an ordinary user in terms of the three octal digits of a mode: the
      owner digit grants write with its 2 and search with its 1, the others nothing. */
  lemma OwnerDigit(u: User, owner: nat, others: nat)
    requires owner < 8 && others < 64 && !u.superuser
    ensures u.MayWrite(owner * 64 + others) <==> owner in {2, 3, 6, 7}
    ensures u.MaySearch(owner * 64 + others) <==> owner in {1, 3, 5, 7}
  {
  }

  /** A plain name is made in the home directory, a name after one '/' in the top
      directory; either only needs that directory's write and search. */
  lemma TopLevelRoots(u: User, fs: Fs, name: string)
    requires Plain(name)
    ensures Creates(u, fs, name) <==> u.MayWrite(u.home) && u.MaySearch(u.home)
    ensures Creates(u, fs, "/" + name) <==> u.MayWrite(u.slash) && u.MaySearch(u.slash)
  {
    ParentOfName(name);
    ParentOfChild("", name);
    assert "" + "/" + name == "/" + name;
  }

  // ---- trees that do not go through ---------------------------------------

  /** A file in a directory. */
  function OneDir(d: string, mode: nat, f: string, fileMode: nat): seq<Entry> {
    [Entry(d, Dir(mode, [Entry(f, File(fileMode, []))]))]
  }

  lemma SortedOne(e: Entry)
    ensures Sorted([e]) == [e]
  {
    assert Sorted([e][1..]) == [];
  }

  lemma TreeOfOne(rel: string, e: Entry)
    ensures TreeMap(rel, [e]) == EntryMap(rel, e)
  {
    assert TreeMap(rel, [e][1..]) == map[];
  }

  lemma OneDirTree(d: string, mode: nat, f: string, fileMode: nat)
    requires Plain(d) && Plain(f) && mode < 512 && fileMode < 512
    ensures var es := Sorted(OneDir(d, mode, f, fileMode));
            WellNamed(es) && TreeMap("", es) == map[d := RDir(mode), d + "/" + f := RFile(fileMode, [])]
  {
    var file := Entry(f, File(fileMode, []));
    var dir := Entry(d, Dir(mode, [file]));
    SortedOne(file);
    SortedOne(dir);
    TreeOfOne(d, file);
    TreeOfOne("", dir);
    assert WellNamed([file]);
    assert WellNamed([dir]);
  }

  /** The conditions for a tree of one directory and one file in it. */
  lemma PairConditions(u: User, rootMode: nat, t: Fs, d: string, f: string, dirMode: nat, fileMode: nat)
    requires d != f && Parent(d) == None && Parent(f) == Some(d)
    requires t == map[d := RDir(dirMode), f := RFile(fileMode, [])]
    ensures AllOpen(u, rootMode, t) <==>
            u.MayWrite(rootMode) && u.MaySearch(rootMode) && u.MayWrite(dirMode) && u.MaySearch(dirMode)
    ensures FilesWritable(u, t) <==> u.MayWrite(fileMode)
  {
    assert d in t && f in t && t[d] == RDir(dirMode) && t[f] == RFile(fileMode, []);
    assert Open(u, rootMode, t, d) <==> u.MayWrite(rootMode) && u.MaySearch(rootMode);
    assert Open(u, rootMode, t, f) <==> u.MayWrite(dirMode) && u.MaySearch(dirMode);
  }

  lemma OneDirConditions(u: User, rootMode: nat, d: string, mode: nat, f: string, fileMode: nat)
    requires Plain(d) && Plain(f) && mode < 512 && fileMode < 512
    ensures var t := TreeMap("", Sorted(OneDir(d, mode, f, fileMode)));
            && (AllOpen(u, rootMode, t) <==>
                u.MayWrite(rootMode) && u.MaySearch(rootMode) && u.MayWrite(mode) && u.MaySearch(mode))
            && (FilesWritable(u, t) <==> u.MayWrite(fileMode))
  {
    OneDirTree(d, mode, f, fileMode);
    ParentOfName(d);
    ParentOfChild(d, f);
    var t := TreeMap("", Sorted(OneDir(d, mode, f, fileMode)));
    PairConditions(u, rootMode, t, d, d + "/" + f, mode, fileMode);
  }

  lemma UploadFails(u: User, fs: Fs, root: string, rootMode: nat, entries: seq<Entry>)
    requires WellNamed(Sorted(entries)) && Closed(fs) && root != "" && root !in fs
    requires !AllOpen(u, rootMode, TreeMap("", Sorted(entries)))
    ensures !Replay(u, fs, root, rootMode, WalkOf("", Sorted(entries)), TreeMap("", Sorted(entries))).ok
  {
    UploadRebuildsTree(u, fs, root, rootMode, entries);
  }

  /** A directory whose owner digit lacks write or search (0555, say) and that holds a
      file: an ordinary user's upload of it fails. */
  lemma ClosedDirectoryFails(u: User, fs: Fs, root: string, rootMode: nat, d: string, mode: nat, f: string,
                             fileMode: nat)
    requires Plain(d) && Plain(f) && mode < 512 && fileMode < 512 && !(u.MayWrite(mode) && u.MaySearch(mode))
    requires Closed(fs) && root != "" && root !in fs
    ensures var es := Sorted(OneDir(d, mode, f, fileMode));
            !Replay(u, fs, root, rootMode, WalkOf("", es), TreeMap("", es)).ok
  {
    OneDirTree(d, mode, f, fileMode);
    OneDirConditions(u, rootMode, d, mode, f, fileMode);
    UploadFails(u, fs, root, rootMode, OneDir(d, mode, f, fileMode));
  }

  lemma ReuploadFails(u: User, fs: Fs, root: string, rootMode: nat, entries: seq<Entry>)
    requires WellNamed(Sorted(entries)) && Closed(fs) && root != "" && root !in fs && Creates(u, fs, root)
    requires var t := TreeMap("", Sorted(entries)); AllOpen(u, rootMode, t) && !FilesWritable(u, t)
    ensures var w, t := WalkOf("", Sorted(entries)), TreeMap("", Sorted(entries));
            var r := Replay(u, fs, root, rootMode, w, t);
            r.ok && !Replay(u, r.fs, root, rootMode, w, t).ok
  {
    UploadRebuildsTree(u, fs, root, rootMode, entries);
    UploadAgain(u, fs, root, rootMode, entries);
  }

  /** A file without owner write (0444, say) in open directories: the first upload goes
      through, the second does not. */
  lemma ReadOnlyFileFailsAgain(u: User, fs: Fs, root: string, d: string, mode: nat, f: string, fileMode: nat)
    requires Plain(d) && Plain(f) && mode < 512 && fileMode < 512
    requires u.MayWrite(mode) && u.MaySearch(mode) && !u.MayWrite(fileMode)
    requires Closed(fs) && root != "" && root !in fs && Creates(u, fs, root)
    ensures var es := Sorted(OneDir(d, mode, f, fileMode));
            var r := Replay(u, fs, root, mode, WalkOf("", es), TreeMap("", es));
            r.ok && !Replay(u, r.fs, root, mode, WalkOf("", es), TreeMap("", es)).ok
  {
    OneDirTree(d, mode, f, fileMode);
    OneDirConditions(u, mode, d, mode, f, fileMode);
    ReuploadFails(u, fs, root, mode, OneDir(d, mode, f, fileMode));
  }
}
