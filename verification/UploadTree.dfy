// `quish cp` of a directory: a depth-first walk scripts the upload (directories top
// down, then files), and replaying the script on the remote side rebuilds the tree.
module UploadTree {
  import opened Base
  import opened Paths

  // ---- local tree ---------------------------------------------------------

  datatype Node =
    | File(mode: nat, content: bytes)
    | Dir(mode: nat, entries: seq<Entry>)
    | Other

  datatype Entry = Entry(name: string, node: Node)

  function Size(n: Node): (size: nat)
    ensures size >= 1
  {
    if n.Dir? then 1 + Sizes(n.entries) else 1
  }

  function Sizes(es: seq<Entry>): nat { if es == [] then 0 else Size(es[0].node) + Sizes(es[1..]) }

  /** Names are plain and distinct in every directory, as a file system keeps them. */
  ghost predicate WellNamed(es: seq<Entry>)
    decreases Sizes(es)
  {
    es == [] ||
    (assert Size(es[0].node) <= Sizes(es);
     && Plain(es[0].name)
     && (forall i :: 1 <= i < |es| ==> es[i].name != es[0].name)
     && (es[0].node.Dir? ==> WellNamed(Sorted(es[0].node.entries)))
     && WellNamed(es[1..]))
  }

  predicate NameLess(a: string, b: string) {
    if a == "" then b != ""
    else b != "" && (a[0] < b[0] || (a[0] == b[0] && NameLess(a[1..], b[1..])))
  }

  function Insert(e: Entry, es: seq<Entry>): (r: seq<Entry>)
    ensures Sizes(r) == Size(e.node) + Sizes(es) && |r| == |es| + 1
    ensures multiset(r) == multiset(es) + multiset{e}
  {
    if es == [] || !NameLess(es[0].name, e.name) then
      assert ([e] + es)[1..] == es;
      [e] + es
    else
      var r := [es[0]] + Insert(e, es[1..]);
      assert r[1..] == Insert(e, es[1..]) && es == [es[0]] + es[1..];
      r
  }

  /** A directory listing in name order. */
  function Sorted(es: seq<Entry>): (r: seq<Entry>)
    ensures Sizes(r) == Sizes(es) && |r| == |es|
    ensures multiset(r) == multiset(es)
  {
    if es == [] then []
    else
      assert es == [es[0]] + es[1..];
      Insert(es[0], Sorted(es[1..]))
  }

  lemma {:induction false} NamesCompare(a: string, b: string)
    ensures a == b || NameLess(a, b) || NameLess(b, a)
    ensures !(NameLess(a, b) && NameLess(b, a)) && !NameLess(a, a)
  {
    if a != "" && b != "" {
      NamesCompare(a[1..], b[1..]);
      NamesCompare(a[1..], a[1..]);
      assert a == [a[0]] + a[1..] && b == [b[0]] + b[1..];
    } else if a != "" {
      NamesCompare(a[1..], "");
      NamesCompare(a[1..], a[1..]);
    }
  }

  lemma {:induction false} NamesTransitive(a: string, b: string, c: string)
    requires NameLess(a, b) && NameLess(b, c)
    ensures NameLess(a, c)
  {
    if a != "" && a[0] == b[0] && b[0] == c[0] {
      NamesTransitive(a[1..], b[1..], c[1..]);
    }
  }

  ghost predicate Distinct(es: seq<Entry>) {
    forall i, j :: 0 <= i < j < |es| ==> es[i].name != es[j].name
  }

  /** Strictly ascending names: each entry is below all that follow it. */
  ghost predicate Ascending(es: seq<Entry>) {
    es == [] || ((forall e :: e in es[1..] ==> NameLess(es[0].name, e.name)) && Ascending(es[1..]))
  }

  lemma {:induction false} InsertAscends(e: Entry, es: seq<Entry>)
    requires Ascending(es) && forall x :: x in es ==> x.name != e.name
    ensures Ascending(Insert(e, es))
  {
    if es != [] {
      NamesCompare(es[0].name, e.name);
      assert forall x :: x in es <==> x == es[0] || x in es[1..];
      if NameLess(es[0].name, e.name) {
        InsertAscends(e, es[1..]);
        assert forall x :: x in Insert(e, es[1..]) ==> x in multiset(es[1..]) + multiset{e};
        assert Insert(e, es)[1..] == Insert(e, es[1..]);
      } else {
        forall x | x in es[1..] ensures NameLess(e.name, x.name) {
          NamesTransitive(e.name, es[0].name, x.name);
        }
        assert ([e] + es)[1..] == es;
      }
    }
  }

  lemma {:induction false} SortedAscends(es: seq<Entry>)
    requires Distinct(es)
    ensures Ascending(Sorted(es))
  {
    if es != [] {
      SortedAscends(es[1..]);
      forall x | x in Sorted(es[1..]) ensures x.name != es[0].name {
        assert x in multiset(Sorted(es[1..]));
        assert x in es[1..];
      }
      InsertAscends(es[0], Sorted(es[1..]));
    }
  }

  lemma LeastFirst(es: seq<Entry>, e: Entry)
    requires Ascending(es) && e in es && e != es[0]
    ensures NameLess(es[0].name, e.name)
  {
    assert es == [es[0]] + es[1..];
  }

  lemma HeadsAgree(a: seq<Entry>, b: seq<Entry>)
    requires a != [] && b != [] && Ascending(a) && Ascending(b)
    requires a[0] in b && b[0] in a
    ensures a[0] == b[0]
  {
    if a[0] != b[0] {
      LeastFirst(a, b[0]);
      LeastFirst(b, a[0]);
      NamesCompare(a[0].name, b[0].name);
    }
  }

  lemma TailContents(es: seq<Entry>)
    requires es != []
    ensures multiset(es[1..]) == multiset(es) - multiset{es[0]}
  {
    assert es == [es[0]] + es[1..];
  }

  lemma {:induction false} AscendingUnique(a: seq<Entry>, b: seq<Entry>)
    requires Ascending(a) && Ascending(b) && multiset(a) == multiset(b)
    ensures a == b
  {
    assert |a| == |multiset(a)| == |b|;
    if a != [] {
      assert a[0] in multiset(b) && b[0] in multiset(a);
      HeadsAgree(a, b);
      TailContents(a);
      TailContents(b);
      AscendingUnique(a[1..], b[1..]);
      assert a == [a[0]] + a[1..] && b == [b[0]] + b[1..];
    }
  }

  /** The order in which the operating system lists a directory does not matter. */
  lemma ListingOrderIrrelevant(a: seq<Entry>, b: seq<Entry>)
    requires Distinct(a) && Distinct(b) && multiset(a) == multiset(b)
    ensures Sorted(a) == Sorted(b)
  {
    SortedAscends(a);
    SortedAscends(b);
    AscendingUnique(Sorted(a), Sorted(b));
  }

  // ---- the walk -----------------------------------------------------------

  datatype WalkDir = WalkDir(rel: string, mode: nat)

  datatype Walk = Walk(dirs: seq<WalkDir>, files: seq<string>)

  function ChildRel(rel: string, name: string): string { if rel == "" then name else rel + "/" + name }

  /** What the walk collects for one entry of the directory at `rel`. */
  function WalkOne(rel: string, e: Entry): Walk
    decreases Size(e.node), 0
  {
    var child := ChildRel(rel, e.name);
    match e.node
    case Dir(mode, sub) =>
      var below := WalkOf(child, Sorted(sub));
      Walk([WalkDir(child, mode % 512)] + below.dirs, below.files)
    case File(_, _) => Walk([], [child])
    case Other => Walk([], [])
  }

  /** What the walk of a listing collects. */
  function WalkOf(rel: string, es: seq<Entry>): Walk
    decreases Sizes(es), 1
  {
    if es == [] then Walk([], [])
    else
      Join(WalkOne(rel, es[0]), WalkOf(rel, es[1..]))
  }

  function Join(a: Walk, b: Walk): Walk { Walk(a.dirs + b.dirs, a.files + b.files) }

  lemma JoinAssociates(a: Walk, b: Walk, c: Walk)
    ensures Join(Join(a, b), c) == Join(a, Join(b, c))
  {
  }

  lemma JoinEmpty(a: Walk)
    ensures Join(a, Walk([], [])) == a && Join(Walk([], []), a) == a
  {
  }

  /** A directory is pushed before what lies below it. */
  lemma JoinDir(a: Walk, d: WalkDir, below: Walk)
    ensures Join(Walk(a.dirs + [d], a.files), below) == Join(a, Walk([d] + below.dirs, below.files))
  {
  }

  lemma WalkCons(rel: string, e: Entry, es: seq<Entry>)
    ensures WalkOf(rel, [e] + es) == Join(WalkOne(rel, e), WalkOf(rel, es))
  {
    assert ([e] + es)[1..] == es;
  }

  lemma {:induction false} WalkSnoc(rel: string, es: seq<Entry>, e: Entry)
    ensures WalkOf(rel, es + [e]) == Join(WalkOf(rel, es), WalkOne(rel, e))
  {
    if es == [] {
      WalkCons(rel, e, []);
      assert es + [e] == [e] + [];
      JoinEmpty(WalkOne(rel, e));
    } else {
      var head, tail := es[0], es[1..];
      WalkSnoc(rel, tail, e);
      WalkCons(rel, head, tail + [e]);
      WalkCons(rel, head, tail);
      assert es == [head] + tail && es + [e] == [head] + (tail + [e]);
      JoinAssociates(WalkOne(rel, head), WalkOf(rel, tail), WalkOne(rel, e));
    }
  }

  lemma {:induction false} SizeWithin(es: seq<Entry>, k: nat)
    requires k < |es|
    ensures Size(es[k].node) <= Sizes(es)
  {
    if k > 0 {
      SizeWithin(es[1..], k - 1);
    }
  }

  class Collector {
    var dirs: seq<WalkDir>
    var files: seq<string>

    constructor ()
      ensures dirs == [] && files == []
    {
      dirs, files := [], [];
    }

    /** Sort the listing, then push each entry, descending into directories. */
    method CollectDir(entries: seq<Entry>, rel: string)
      modifies this
      ensures Walk(dirs, files) == Join(Walk(old(dirs), old(files)), WalkOf(rel, Sorted(entries)))
      decreases Sizes(entries), 1
    {
      var sorted := Sorted(entries);
      ghost var before := Walk(dirs, files);
      JoinEmpty(before);
      var k := 0;
      while k < |sorted|
        invariant 0 <= k <= |sorted|
        invariant Walk(dirs, files) == Join(before, WalkOf(rel, sorted[..k]))
      {
        SizeWithin(sorted, k);
        assert sorted[..k + 1] == sorted[..k] + [sorted[k]];
        WalkSnoc(rel, sorted[..k], sorted[k]);
        JoinAssociates(before, WalkOf(rel, sorted[..k]), WalkOne(rel, sorted[k]));
        CollectEntry(sorted[k], rel);
        k := k + 1;
      }
      assert sorted[..k] == sorted;
    }

    method CollectEntry(e: Entry, rel: string)
      modifies this
      ensures Walk(dirs, files) == Join(Walk(old(dirs), old(files)), WalkOne(rel, e))
      decreases Size(e.node), 0
    {
      var child := ChildRel(rel, e.name);
      match e.node
      case Dir(mode, sub) =>
        JoinDir(Walk(dirs, files), WalkDir(child, mode % 512), WalkOf(child, Sorted(sub)));
        dirs := dirs + [WalkDir(child, mode % 512)];
        CollectDir(sub, child);
      case File(_, _) =>
        files := files + [child];
      case Other =>
    }
  }

  // ---- the tree as a map from paths ---------------------------------------

  datatype Remote = RDir(mode: nat) | RFile(mode: nat, content: bytes)

  /** The regular part of one entry, by relative path. */
  function EntryMap(rel: string, e: Entry): map<string, Remote>
    decreases Size(e.node), 0
  {
    var child := ChildRel(rel, e.name);
    match e.node
    case Dir(mode, sub) => TreeMap(child, Sorted(sub))[child := RDir(mode % 512)]
    case File(mode, content) => map[child := RFile(mode % 512, content)]
    case Other => map[]
  }

  /** The regular part of a listing, by relative path: the reference for what the
      upload must rebuild, and for what a relative path names locally. */
  function TreeMap(rel: string, es: seq<Entry>): map<string, Remote>
    decreases Sizes(es), 1
  {
    if es == [] then map[] else TreeMap(rel, es[1..]) + EntryMap(rel, es[0])
  }

  /** What every path inside `rel` starts with. */
  function Stem(rel: string): string { if rel == "" then "" else rel + "/" }

  lemma ChildHasStem(rel: string, name: string)
    ensures ChildRel(rel, name) == Stem(rel) + name
  {
  }

  /** Every path of an entry is the entry's own or below it. */
  lemma {:induction false} EntryKeys(rel: string, e: Entry, k: string)
    requires Plain(e.name) && (e.node.Dir? ==> WellNamed(Sorted(e.node.entries))) && k in EntryMap(rel, e)
    ensures AtOrBelow(ChildRel(rel, e.name), k)
    decreases Size(e.node), 0
  {
    var child := ChildRel(rel, e.name);
    if k != child {
      var i := TreeKeys(child, Sorted(e.node.entries), k);
    }
  }

  /** Every path of a listing is that of one of its entries or below it. */
  lemma {:induction false} TreeKeys(rel: string, es: seq<Entry>, k: string) returns (i: nat)
    requires WellNamed(es) && k in TreeMap(rel, es)
    ensures i < |es| && Plain(es[i].name) && AtOrBelow(ChildRel(rel, es[i].name), k)
    ensures i > 0 ==> es[i].name != es[0].name
    decreases Sizes(es), 1
  {
    if k in EntryMap(rel, es[0]) {
      EntryKeys(rel, es[0], k);
      i := 0;
    } else {
      var j := TreeKeys(rel, es[1..], k);
      i := j + 1;
    }
  }

  /** Different entries of a directory have no path in common. */
  lemma HeadApart(rel: string, es: seq<Entry>, k: string)
    requires es != [] && WellNamed(es) && k in EntryMap(rel, es[0])
    ensures k !in TreeMap(rel, es[1..])
  {
    EntryKeys(rel, es[0], k);
    ChildHasStem(rel, es[0].name);
    FirstPartOf(Stem(rel), es[0].name, k);
    if k in TreeMap(rel, es[1..]) {
      var i := TreeKeys(rel, es[1..], k);
      assert es[1..][i].name != es[0].name;
      ChildHasStem(rel, es[1..][i].name);
      FirstPartOf(Stem(rel), es[1..][i].name, k);
    }
  }

  // ---- the walk lists the tree, parents first -----------------------------

  /** No path is listed twice. */
  ghost predicate Once(w: Walk) {
    && (forall i, j :: 0 <= i < j < |w.dirs| ==> w.dirs[i].rel != w.dirs[j].rel)
    && (forall i, j :: 0 <= i < j < |w.files| ==> w.files[i] != w.files[j])
  }

  /** The walk's directories and files are exactly the paths of the tree, once. */
  ghost predicate Lists(w: Walk, t: map<string, Remote>) {
    && Once(w)
    && (forall d :: d in w.dirs ==> d.rel in t && t[d.rel] == RDir(d.mode))
    && (forall f :: f in w.files ==> f in t && t[f].RFile?)
    && (forall k :: k in t ==> if t[k].RDir? then WalkDir(k, t[k].mode) in w.dirs else k in w.files)
  }

  function Top(rel: string): Option<string> { if rel == "" then None else Some(rel) }

  ghost predicate ParentListed(dirs: seq<WalkDir>, n: nat, rel: string, top: Option<string>)
    requires n <= |dirs|
  {
    Parent(rel) == top || exists j :: 0 <= j < n && Parent(rel) == Some(dirs[j].rel)
  }

  /** Each directory comes after its parent; each file's directory is listed. */
  ghost predicate ParentsFirst(w: Walk, top: Option<string>) {
    && (forall i :: 0 <= i < |w.dirs| ==> ParentListed(w.dirs, i, w.dirs[i].rel, top))
    && (forall f :: f in w.files ==> ParentListed(w.dirs, |w.dirs|, f, top))
  }

  lemma ChildParent(rel: string, name: string)
    requires Plain(name)
    ensures Parent(ChildRel(rel, name)) == Top(rel) && ChildRel(rel, name) != ""
  {
    if rel == "" {
      ParentOfName(name);
    } else {
      ParentOfChild(rel, name);
    }
  }

  lemma JoinWalks(a: Walk, b: Walk, top: Option<string>)
    requires ParentsFirst(a, top) && ParentsFirst(b, top)
    ensures ParentsFirst(Join(a, b), top)
  {
    var dirs := a.dirs + b.dirs;
    forall i | 0 <= i < |dirs| ensures ParentListed(dirs, i, dirs[i].rel, top) {
      if i < |a.dirs| {
        assert ParentListed(a.dirs, i, a.dirs[i].rel, top);
        MoreDirs(a.dirs, [], b.dirs, i, dirs[i].rel, top);
      } else {
        assert ParentListed(b.dirs, i - |a.dirs|, b.dirs[i - |a.dirs|].rel, top);
        MoreDirs(b.dirs, a.dirs, [], i - |a.dirs|, dirs[i].rel, top);
      }
    }
    forall f | f in a.files + b.files ensures ParentListed(dirs, |dirs|, f, top) {
      if f in a.files {
        MoreDirs(a.dirs, [], b.dirs, |a.dirs|, f, top);
      } else {
        MoreDirs(b.dirs, a.dirs, [], |b.dirs|, f, top);
      }
    }
  }

  /** Listing more directories around a list keeps its parents listed. */
  lemma MoreDirs(dirs: seq<WalkDir>, before: seq<WalkDir>, after: seq<WalkDir>, n: nat, rel: string,
                 top: Option<string>)
    requires n <= |dirs| && ParentListed(dirs, n, rel, top)
    ensures var all := before + dirs + after;
            forall m :: |before| + n <= m <= |all| ==> ParentListed(all, m, rel, top)
    ensures before == [] ==> before + dirs + after == dirs + after
    ensures after == [] ==> before + dirs + after == before + dirs
  {
    var all := before + dirs + after;
    if Parent(rel) != top {
      var j :| 0 <= j < n && Parent(rel) == Some(dirs[j].rel);
      assert all[|before| + j] == dirs[j];
    }
  }

  lemma Descend(child: string, mode: nat, below: Walk, top: Option<string>)
    requires ParentsFirst(below, Some(child)) && Parent(child) == top
    ensures ParentsFirst(Walk([WalkDir(child, mode)] + below.dirs, below.files), top)
  {
    var dirs := [WalkDir(child, mode)] + below.dirs;
    forall i | 0 <= i < |dirs| ensures ParentListed(dirs, i, dirs[i].rel, top) {
      if i > 0 {
        assert ParentListed(below.dirs, i - 1, below.dirs[i - 1].rel, Some(child));
        Nested(child, mode, below.dirs, i - 1, dirs[i].rel, top);
      }
    }
    forall f | f in below.files ensures ParentListed(dirs, |dirs|, f, top) {
      Nested(child, mode, below.dirs, |below.dirs|, f, top);
    }
  }

  lemma Nested(child: string, mode: nat, dirs: seq<WalkDir>, n: nat, rel: string, top: Option<string>)
    requires n <= |dirs| && ParentListed(dirs, n, rel, Some(child))
    ensures ParentListed([WalkDir(child, mode)] + dirs, n + 1, rel, top)
  {
    var all := [WalkDir(child, mode)] + dirs;
    if Parent(rel) == Some(child) {
      assert all[0].rel == child;
    } else {
      var j :| 0 <= j < n && Parent(rel) == Some(dirs[j].rel);
      assert all[j + 1] == dirs[j];
    }
  }

  lemma {:induction false} EntryParentsFirst(rel: string, e: Entry)
    requires Plain(e.name) && (e.node.Dir? ==> WellNamed(Sorted(e.node.entries)))
    ensures ParentsFirst(WalkOne(rel, e), Top(rel))
    decreases Size(e.node), 0
  {
    var child := ChildRel(rel, e.name);
    ChildParent(rel, e.name);
    if e.node.Dir? {
      TreeParentsFirst(child, Sorted(e.node.entries));
      Descend(child, e.node.mode % 512, WalkOf(child, Sorted(e.node.entries)), Top(rel));
    }
  }

  /** The walk lists every directory after its parent. */
  lemma {:induction false} TreeParentsFirst(rel: string, es: seq<Entry>)
    requires WellNamed(es)
    ensures ParentsFirst(WalkOf(rel, es), Top(rel))
    decreases Sizes(es), 1
  {
    if es != [] {
      EntryParentsFirst(rel, es[0]);
      TreeParentsFirst(rel, es[1..]);
      JoinWalks(WalkOne(rel, es[0]), WalkOf(rel, es[1..]), Top(rel));
    }
  }

  lemma JoinOnce(a: Walk, b: Walk, ta: map<string, Remote>, tb: map<string, Remote>)
    requires Lists(a, ta) && Lists(b, tb) && ta.Keys !! tb.Keys
    ensures Once(Join(a, b))
  {
    assert forall i :: 0 <= i < |a.dirs| ==> a.dirs[i] in a.dirs && a.dirs[i].rel in ta.Keys;
    assert forall i :: 0 <= i < |b.dirs| ==> b.dirs[i] in b.dirs && b.dirs[i].rel in tb.Keys;
    assert forall i :: 0 <= i < |a.files| ==> a.files[i] in a.files && a.files[i] in ta.Keys;
    assert forall i :: 0 <= i < |b.files| ==> b.files[i] in b.files && b.files[i] in tb.Keys;
  }

  lemma JoinLists(a: Walk, b: Walk, ta: map<string, Remote>, tb: map<string, Remote>)
    requires Lists(a, ta) && Lists(b, tb) && ta.Keys !! tb.Keys
    ensures Lists(Join(a, b), tb + ta)
  {
    JoinOnce(a, b, ta, tb);
  }

  lemma DirLists(child: string, mode: nat, below: Walk, t: map<string, Remote>)
    requires Lists(below, t) && child !in t
    ensures Lists(Walk([WalkDir(child, mode)] + below.dirs, below.files), t[child := RDir(mode)])
  {
    assert forall i :: 0 <= i < |below.dirs| ==> below.dirs[i] in below.dirs && below.dirs[i].rel != child;
  }

  lemma {:induction false} EntryLists(rel: string, e: Entry)
    requires Plain(e.name) && (e.node.Dir? ==> WellNamed(Sorted(e.node.entries)))
    ensures Lists(WalkOne(rel, e), EntryMap(rel, e))
    decreases Size(e.node), 0
  {
    if e.node.Dir? {
      var child, sub := ChildRel(rel, e.name), Sorted(e.node.entries);
      TreeLists(child, sub);
      ChildParent(rel, e.name);
      if child in TreeMap(child, sub) {
        var i := TreeKeys(child, sub, child);
      }
      DirLists(child, e.node.mode % 512, WalkOf(child, sub), TreeMap(child, sub));
    }
  }

  /** The walk lists exactly the regular part of the tree. */
  lemma {:induction false} TreeLists(rel: string, es: seq<Entry>)
    requires WellNamed(es)
    ensures Lists(WalkOf(rel, es), TreeMap(rel, es))
    decreases Sizes(es), 1
  {
    if es != [] {
      EntryLists(rel, es[0]);
      TreeLists(rel, es[1..]);
      forall k | k in EntryMap(rel, es[0]) ensures k !in TreeMap(rel, es[1..]) {
        HeadApart(rel, es, k);
      }
      JoinLists(WalkOne(rel, es[0]), WalkOf(rel, es[1..]), EntryMap(rel, es[0]), TreeMap(rel, es[1..]));
    }
  }
}
