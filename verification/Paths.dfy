// Slash-separated path text: parents and first components.
module Paths {
  import opened Base

  /** The text up to the last '/', or nothing when there is none. */
  function Parent(p: string): (r: Option<string>)
    ensures r.Some? ==> |r.value| < |p|
  {
    if p == "" then None
    else if p[|p| - 1] == '/' then Some(p[..|p| - 1])
    else Parent(p[..|p| - 1])
  }

  predicate Plain(name: string) { name != "" && '/' !in name }

  lemma {:induction false} ParentOfChild(dir: string, name: string)
    requires '/' !in name
    ensures Parent(dir + "/" + name) == Some(dir)
    decreases |name|
  {
    var p := dir + "/" + name;
    if name == "" {
      assert p[..|p| - 1] == dir;
    } else {
      var init := name[..|name| - 1];
      ParentOfChild(dir, init);
      assert p[..|p| - 1] == dir + "/" + init;
    }
  }

  lemma {:induction false} ParentOfName(name: string)
    requires '/' !in name
    ensures Parent(name) == None
  {
    if name != "" {
      ParentOfName(name[..|name| - 1]);
    }
  }

  /** Putting a directory in front of a path puts it in front of its parent. */
  lemma {:induction false} ParentUnder(root: string, p: string)
    ensures Parent(root + "/" + p) == Some(match Parent(p) case None => root case Some(q) => root + "/" + q)
    decreases |p|
  {
    var r := root + "/" + p;
    if p == "" {
      assert r[..|r| - 1] == root;
    } else {
      var init := p[..|p| - 1];
      assert r[..|r| - 1] == root + "/" + init;
      if p[|p| - 1] != '/' {
        ParentUnder(root, init);
      }
    }
  }

  /** `p` itself, or something below it. */
  predicate AtOrBelow(p: string, k: string) { k == p || p + "/" <= k }

  /** What comes before the first '/'. */
  function FirstPart(s: string): string { s[..Find(s, '/')] }

  lemma FirstPartOf(base: string, name: string, k: string)
    requires '/' !in name && AtOrBelow(base + name, k)
    ensures base <= k && FirstPart(k[|base|..]) == name
  {
    var s := k[|base|..];
    if k == base + name {
      assert s == name;
    } else {
      assert k[..|base + name + "/"|] == base + name + "/";
      assert s[..|name|] == name && s[|name|] == '/';
      FindAt(s, '/', |name|);
    }
  }
}
