/** The tree of modules and methods that the window builds from the flat method list.
    Each method name is split on '/', the first piece ("services") is skipped, and the
    remaining pieces are walked from the top level down: a level is scanned for a node
    with the piece as header and a new node is appended when there is none. The method
    is attached only to a node created for the last piece. */
module MethodTree {
  import opened Basics
  import opened Text
  import opened Catalog

  /** A node is known by the headers on the way to it from the top level; the empty
      path stands for the tree view itself. */
  type Path = seq<string>

  /** The tree as its behaviour can be observed: for each node (including the tree
      view, at []) the headers of its children in display order, and for each proper
      node the method attached to it, if any. */
  datatype Outline = Outline(kids: map<Path, seq<string>>, tags: map<Path, Option<ApiMethod>>)

  /** A cleared tree view. */
  const Empty := Outline(map[[] := []], map[])

  function Parent(p: Path): Path
    requires p != []
  {
    p[..|p| - 1]
  }

  function Last(p: Path): string
    requires p != []
  {
    p[|p| - 1]
  }

  /** The shape every tree the window builds has: the tree view is there, every proper
      node has a tag slot, children lists name real nodes, every node is a child of its
      parent, and no two siblings share a header. */
  predicate WellFormed(o: Outline)
  {
    && [] in o.kids
    && o.tags.Keys == o.kids.Keys - {[]}
    && ChildrenExist(o)
    && ParentsExist(o)
    && SiblingsDistinct(o)
  }

  predicate ChildrenExist(o: Outline)
  {
    forall p, j {:trigger o.kids[p][j]} :: p in o.kids && 0 <= j < |o.kids[p]| ==> p + [o.kids[p][j]] in o.kids
  }

  predicate ParentsExist(o: Outline)
  {
    forall p {:trigger Parent(p)} :: p in o.kids && p != [] ==> Parent(p) in o.kids && Last(p) in o.kids[Parent(p)]
  }

  predicate SiblingsDistinct(o: Outline)
  {
    forall p {:trigger o.kids[p]} :: p in o.kids ==> Distinct(o.kids[p])
  }

  /** `items.Add(new TreeViewItem { Header = header, Tag = tag })` on the node at `at`. */
  function Grow(o: Outline, at: Path, header: string, tag: Option<ApiMethod>): Outline
    requires at in o.kids
  {
    Outline(o.kids[at := o.kids[at] + [header]][at + [header] := []], o.tags[at + [header] := tag])
  }

  /** What appending a header not yet among the siblings does: one node more, at the
      end of the list of `at`, with the given tag; nothing else changes. */
  lemma GrowFacts(o: Outline, at: Path, header: string, tag: Option<ApiMethod>)
    requires WellFormed(o) && at in o.kids && header !in o.kids[at]
    ensures at + [header] !in o.kids
    ensures Grow(o, at, header, tag).kids.Keys == o.kids.Keys + {at + [header]}
    ensures Grow(o, at, header, tag).tags.Keys == o.tags.Keys + {at + [header]}
    ensures Grow(o, at, header, tag).kids[at] == o.kids[at] + [header]
    ensures Grow(o, at, header, tag).kids[at + [header]] == []
    ensures Grow(o, at, header, tag).tags[at + [header]] == tag
    ensures forall p :: p in o.kids && p != at ==> Grow(o, at, header, tag).kids[p] == o.kids[p]
    ensures forall p :: p in o.tags ==> Grow(o, at, header, tag).tags[p] == o.tags[p]
  {
    var c := at + [header];
    assert Parent(c) == at && Last(c) == header;
  }

  /** Appending a header that is not yet among the siblings keeps the tree well formed. */
  lemma GrowWellFormed(o: Outline, at: Path, header: string, tag: Option<ApiMethod>)
    requires WellFormed(o) && at in o.kids && header !in o.kids[at]
    ensures at + [header] !in o.kids
    ensures WellFormed(Grow(o, at, header, tag))
  {
    GrowFacts(o, at, header, tag);
    var c := at + [header];
    assert c != [];
    GrowChildrenExist(o, at, header, tag);
    GrowParentsExist(o, at, header, tag);
    GrowSiblingsDistinct(o, at, header, tag);
  }

  lemma GrowChildrenExist(o: Outline, at: Path, header: string, tag: Option<ApiMethod>)
    requires WellFormed(o) && at in o.kids && header !in o.kids[at]
    ensures ChildrenExist(Grow(o, at, header, tag))
  {
    GrowFacts(o, at, header, tag);
    var c := at + [header];
    var g := Grow(o, at, header, tag);
    forall p, j | p in g.kids && 0 <= j < |g.kids[p]|
      ensures p + [g.kids[p][j]] in g.kids
    {
      if p == at {
        if j < |o.kids[at]| {
          assert g.kids[p][j] == o.kids[at][j];
        } else {
          assert g.kids[p][j] == header;
        }
      } else if p != c {
        assert g.kids[p][j] == o.kids[p][j];
      }
    }
  }

  lemma GrowParentsExist(o: Outline, at: Path, header: string, tag: Option<ApiMethod>)
    requires WellFormed(o) && at in o.kids && header !in o.kids[at]
    ensures ParentsExist(Grow(o, at, header, tag))
  {
    GrowFacts(o, at, header, tag);
    var c := at + [header];
    var g := Grow(o, at, header, tag);
    forall p | p in g.kids && p != []
      ensures Parent(p) in g.kids && Last(p) in g.kids[Parent(p)]
    {
      if p == c {
        assert Parent(p) == at && Last(p) == header;
        assert g.kids[at][|o.kids[at]|] == header;
      } else {
        assert Parent(p) in o.kids && Last(p) in o.kids[Parent(p)];
        assert o.kids[Parent(p)] <= g.kids[Parent(p)];
      }
    }
  }

  lemma GrowSiblingsDistinct(o: Outline, at: Path, header: string, tag: Option<ApiMethod>)
    requires WellFormed(o) && at in o.kids && header !in o.kids[at]
    ensures SiblingsDistinct(Grow(o, at, header, tag))
  {
    GrowFacts(o, at, header, tag);
    var g := Grow(o, at, header, tag);
    forall p | p in g.kids
      ensures Distinct(g.kids[p])
    {
      if p == at {
        assert Distinct(o.kids[at]);
      }
    }
  }

  /** Every ancestor of a node of a well-formed tree is a node. */
  lemma {:induction false} AncestorsPresent(o: Outline, p: Path, k: nat)
    requires WellFormed(o) && p in o.kids && k <= |p|
    ensures p[..k] in o.kids
    decreases |p| - k
  {
    if k < |p| {
      assert Parent(p) in o.kids;
      AncestorsPresent(o, Parent(p), k);
      assert Parent(p)[..k] == p[..k];
    } else {
      assert p[..k] == p;
    }
  }

  /** The inner loop of the window's tree building, from the node at `at` with the
      pieces `segs` still to walk: a piece already among the children is followed, a
      missing one is appended, tagged with `m` when it is the last piece. */
  function Descend(o: Outline, at: Path, segs: seq<string>, m: ApiMethod): (r: Outline)
    requires WellFormed(o) && at in o.kids
    ensures WellFormed(r) && at + segs in r.kids
    decreases |segs|
  {
    if segs == [] then
      assert at + segs == at;
      o
    else
      var child := at + [segs[0]];
      assert at + segs == child + segs[1..];
      if segs[0] in o.kids[at] then
        Descend(o, child, segs[1..], m)
      else
        var tag := if |segs| == 1 then Some(m) else None;
        GrowWellFormed(o, at, segs[0], tag);
        Descend(Grow(o, at, segs[0], tag), child, segs[1..], m)
  }

  /** The pieces of a method name that become tree levels: all but the first. */
  function Segments(name: string): seq<string>
  {
    Split(name, '/')[1..]
  }

  /** The tree after one method has been added. */
  function Inserted(o: Outline, m: ApiMethod): (r: Outline)
    requires WellFormed(o)
    ensures WellFormed(r)
  {
    Descend(o, [], Segments(m.name), m)
  }

  /** The tree after the methods have been added in list order. */
  function Built(o: Outline, ms: seq<ApiMethod>): (r: Outline)
    requires WellFormed(o)
    ensures WellFormed(r)
    decreases |ms|
  {
    if ms == [] then o else Built(Inserted(o, ms[0]), ms[1..])
  }

  /** Walking a path loses no node and only ever appends children at the end of a
      list: sibling order is first-seen order. */
  lemma {:induction false} DescendKeepsNodes(o: Outline, at: Path, segs: seq<string>, m: ApiMethod)
    requires WellFormed(o) && at in o.kids
    ensures o.kids.Keys <= Descend(o, at, segs, m).kids.Keys
    ensures forall p :: p in o.kids ==> o.kids[p] <= Descend(o, at, segs, m).kids[p]
    decreases |segs|
  {
    if segs != [] {
      var child := at + [segs[0]];
      if segs[0] in o.kids[at] {
        DescendKeepsNodes(o, child, segs[1..], m);
      } else {
        var tag := if |segs| == 1 then Some(m) else None;
        GrowFacts(o, at, segs[0], tag);
        GrowWellFormed(o, at, segs[0], tag);
        var g := Grow(o, at, segs[0], tag);
        DescendKeepsNodes(g, child, segs[1..], m);
        var r := Descend(g, child, segs[1..], m);
        forall p | p in o.kids
          ensures o.kids[p] <= r.kids[p]
        {
          assert o.kids[p] <= g.kids[p];
        }
      }
    }
  }

  /** Walking a path never changes the method attached to an existing node. */
  lemma {:induction false} DescendKeepsTags(o: Outline, at: Path, segs: seq<string>, m: ApiMethod)
    requires WellFormed(o) && at in o.kids
    ensures forall p :: p in o.tags ==>
      p in Descend(o, at, segs, m).tags && Descend(o, at, segs, m).tags[p] == o.tags[p]
    decreases |segs|
  {
    if segs != [] {
      var child := at + [segs[0]];
      if segs[0] in o.kids[at] {
        DescendKeepsTags(o, child, segs[1..], m);
      } else {
        var tag := if |segs| == 1 then Some(m) else None;
        GrowFacts(o, at, segs[0], tag);
        GrowWellFormed(o, at, segs[0], tag);
        DescendKeepsTags(Grow(o, at, segs[0], tag), child, segs[1..], m);
      }
    }
  }

  /** The nodes a walk creates lie on the walked path, below its starting node; all of
      them but the last come without a method. */
  lemma {:induction false} DescendNewNodes(o: Outline, at: Path, segs: seq<string>, m: ApiMethod)
    requires WellFormed(o) && at in o.kids
    ensures forall p :: p in Descend(o, at, segs, m).kids && p !in o.kids ==>
      |at| < |p| && p <= at + segs
    ensures forall p :: p in Descend(o, at, segs, m).tags && p !in o.tags && p != at + segs ==>
      Descend(o, at, segs, m).tags[p] == None
    decreases |segs|
  {
    if segs != [] {
      var child := at + [segs[0]];
      assert at + segs == child + segs[1..];
      if segs[0] in o.kids[at] {
        DescendNewNodes(o, child, segs[1..], m);
      } else {
        var tag := if |segs| == 1 then Some(m) else None;
        GrowFacts(o, at, segs[0], tag);
        GrowWellFormed(o, at, segs[0], tag);
        var g := Grow(o, at, segs[0], tag);
        DescendNewNodes(g, child, segs[1..], m);
        DescendKeepsTags(g, child, segs[1..], m);
        assert child <= at + segs;
      }
    }
  }

  /** The node of the last piece carries `m` exactly when the walk created it; a node
      that was there already (a duplicate name, or a module made by a longer name)
      keeps what it had. */
  lemma {:induction false} DescendLastTag(o: Outline, at: Path, segs: seq<string>, m: ApiMethod)
    requires WellFormed(o) && at in o.kids && segs != []
    ensures Descend(o, at, segs, m).tags[at + segs]
      == if at + segs in o.kids then o.tags[at + segs] else Some(m)
    decreases |segs|
  {
    var child := at + [segs[0]];
    assert at + segs == child + segs[1..];
    if segs[0] in o.kids[at] {
      if |segs| == 1 {
        assert segs[1..] == [];
        assert at + segs == child;
      } else {
        DescendLastTag(o, child, segs[1..], m);
      }
    } else {
      var tag := if |segs| == 1 then Some(m) else None;
      GrowFacts(o, at, segs[0], tag);
      GrowWellFormed(o, at, segs[0], tag);
      var g := Grow(o, at, segs[0], tag);
      if |segs| == 1 {
        assert at + segs == child;
      } else {
        DescendLastTag(g, child, segs[1..], m);
        assert at + segs != child;
      }
    }
  }

  /** The only change a walk makes to a list of children is appending the next piece
      of the walked path, at the end. */
  lemma {:induction false} DescendChildLists(o: Outline, at: Path, segs: seq<string>, m: ApiMethod)
    requires WellFormed(o) && at in o.kids
    ensures forall p :: p in o.kids ==>
      p in Descend(o, at, segs, m).kids && (
      || Descend(o, at, segs, m).kids[p] == o.kids[p]
      || (&& |at| <= |p| < |at + segs| && p == (at + segs)[..|p|]
          && Descend(o, at, segs, m).kids[p] == o.kids[p] + [(at + segs)[|p|]]))
    decreases |segs|
  {
    DescendKeepsNodes(o, at, segs, m);
    if segs != [] {
      var child := at + [segs[0]];
      assert at + segs == child + segs[1..];
      if segs[0] in o.kids[at] {
        DescendChildLists(o, child, segs[1..], m);
      } else {
        var tag := if |segs| == 1 then Some(m) else None;
        GrowFacts(o, at, segs[0], tag);
        GrowWellFormed(o, at, segs[0], tag);
        var g := Grow(o, at, segs[0], tag);
        DescendChildLists(g, child, segs[1..], m);
        assert (at + segs)[..|at|] == at && (at + segs)[|at|] == segs[0];
      }
    }
  }

  /** Walking a path that is already in the tree changes nothing. */
  lemma {:induction false} DescendExisting(o: Outline, at: Path, segs: seq<string>, m: ApiMethod)
    requires WellFormed(o) && at in o.kids && at + segs in o.kids
    ensures Descend(o, at, segs, m) == o
    decreases |segs|
  {
    if segs != [] {
      var child := at + [segs[0]];
      AncestorsPresent(o, at + segs, |child|);
      assert (at + segs)[..|child|] == child;
      assert child in o.kids;
      assert Parent(child) == at && Last(child) == segs[0];
      assert segs[0] in o.kids[at];
      assert at + segs == child + segs[1..];
      assert Descend(o, at, segs, m) == Descend(o, child, segs[1..], m);
      DescendExisting(o, child, segs[1..], m);
    }
  }

  /** A method whose name has at least one '/' ends up reachable by its pieces after
      the first; its node carries it unless that node existed already. */
  lemma InsertedReaches(o: Outline, m: ApiMethod)
    requires WellFormed(o)
    ensures Segments(m.name) in Inserted(o, m).kids
    ensures Segments(m.name) != [] ==>
      Inserted(o, m).tags[Segments(m.name)]
        == if Segments(m.name) in o.kids then o.tags[Segments(m.name)] else Some(m)
  {
    assert [] + Segments(m.name) == Segments(m.name);
    if Segments(m.name) != [] {
      DescendLastTag(o, [], Segments(m.name), m);
    }
  }

  /** A name without '/' adds nothing to the tree. */
  lemma InsertedWithoutSlash(o: Outline, m: ApiMethod)
    requires WellFormed(o) && '/' !in m.name
    ensures Inserted(o, m) == o
  {
    SplitWithoutSeparator(m.name, '/');
  }

  /** Adding a name a second time changes nothing: the first method keeps its node. */
  lemma InsertedTwice(o: Outline, m1: ApiMethod, m2: ApiMethod)
    requires WellFormed(o) && m1.name == m2.name
    ensures Inserted(Inserted(o, m1), m2) == Inserted(o, m1)
  {
    var r := Inserted(o, m1);
    assert [] + Segments(m2.name) == Segments(m2.name);
    DescendExisting(r, [], Segments(m2.name), m2);
  }

  /** After building, every listed method with a '/' in its name is reachable, and
      nothing that was in the tree before is lost. */
  lemma {:induction false} BuiltReaches(o: Outline, ms: seq<ApiMethod>)
    requires WellFormed(o)
    ensures o.kids.Keys <= Built(o, ms).kids.Keys
    ensures forall i :: 0 <= i < |ms| ==> Segments(ms[i].name) in Built(o, ms).kids
    decreases |ms|
  {
    if ms != [] {
      var o1 := Inserted(o, ms[0]);
      DescendKeepsNodes(o, [], Segments(ms[0].name), ms[0]);
      InsertedReaches(o, ms[0]);
      BuiltReaches(o1, ms[1..]);
      forall i | 0 <= i < |ms|
        ensures Segments(ms[i].name) in Built(o, ms).kids
      {
        if i > 0 {
          assert ms[i] == ms[1..][i - 1];
        }
      }
    }
  }

  /** Building from two methods is inserting one after the other. */
  lemma BuiltTwo(o: Outline, m1: ApiMethod, m2: ApiMethod)
    requires WellFormed(o)
    ensures Built(o, [m1, m2]) == Inserted(Inserted(o, m1), m2)
  {
    assert [m1, m2][1..] == [m2];
    assert [m2][1..] == [];
    assert Built(o, [m1, m2]) == Built(Inserted(o, m1), [m2]);
    assert Built(Inserted(o, m1), [m2]) == Built(Inserted(Inserted(o, m1), m2), []);
  }

  /** A module that is itself a method, listed before its members: its node carries
      the method and also gets the member as a child. */
  lemma ModuleBeforeMember(o: Outline, m1: ApiMethod, m2: ApiMethod, h: string)
    requires WellFormed(o)
    requires Segments(m1.name) != [] && Segments(m1.name) !in o.kids
    requires Segments(m2.name) == Segments(m1.name) + [h]
    ensures Segments(m1.name) in Built(o, [m1, m2]).kids
    ensures Segments(m2.name) in Built(o, [m1, m2]).kids
    ensures Built(o, [m1, m2]).tags[Segments(m1.name)] == Some(m1)
    ensures Built(o, [m1, m2]).tags[Segments(m2.name)] == Some(m2)
    ensures h in Built(o, [m1, m2]).kids[Segments(m1.name)]
  {
    BuiltTwo(o, m1, m2);
    var s1, s2 := Segments(m1.name), Segments(m2.name);
    var t1 := Inserted(o, m1);
    var t2 := Inserted(t1, m2);
    assert t1.tags[s1] == Some(m1) && s2 !in t1.kids by {
      assert [] + s1 == s1;
      assert Parent(s2) == s1;
      assert s2 !in o.kids;
      DescendLastTag(o, [], s1, m1);
      DescendNewNodes(o, [], s1, m1);
    }
    assert t2.tags[s1] == Some(m1) && t2.tags[s2] == Some(m2) by {
      assert [] + s2 == s2;
      DescendKeepsTags(t1, [], s2, m2);
      DescendLastTag(t1, [], s2, m2);
    }
    assert h in t2.kids[s1] by {
      assert Parent(s2) == s1 && Last(s2) == h;
    }
  }

  /** A module name listed after one of its members finds its node already there and
      gets no method attached: the node stays untagged. */
  lemma MemberBeforeModule(o: Outline, m1: ApiMethod, m2: ApiMethod)
    requires WellFormed(o)
    requires Segments(m2.name) != [] && Segments(m2.name) !in o.kids
    requires Segments(m2.name) < Segments(m1.name)
    ensures Segments(m2.name) in Built(o, [m1, m2]).kids
    ensures Built(o, [m1, m2]).tags[Segments(m2.name)] == None
  {
    BuiltTwo(o, m1, m2);
    var s1, s2 := Segments(m1.name), Segments(m2.name);
    var t1 := Inserted(o, m1);
    assert s2 in t1.kids by {
      assert [] + s1 == s1;
      AncestorsPresent(t1, s1, |s2|);
      assert s1[..|s2|] == s2;
    }
    assert t1.tags[s2] == None by {
      assert [] + s1 == s1;
      DescendNewNodes(o, [], s1, m1);
    }
    assert Inserted(t1, m2) == t1 by {
      assert [] + s2 == s2;
      DescendExisting(t1, [], s2, m2);
    }
  }

  /** Two methods that add new children to the same node show them in list order,
      after the children the node had. */
  lemma SiblingsInListOrder(o: Outline, m1: ApiMethod, m2: ApiMethod, p: Path, h1: string, h2: string)
    requires WellFormed(o) && p in o.kids
    requires Segments(m1.name) == p + [h1] && Segments(m2.name) == p + [h2]
    requires h1 != h2 && h1 !in o.kids[p] && h2 !in o.kids[p]
    ensures p in Built(o, [m1, m2]).kids
    ensures Built(o, [m1, m2]).kids[p] == o.kids[p] + [h1, h2]
  {
    BuiltTwo(o, m1, m2);
    var s1, s2 := Segments(m1.name), Segments(m2.name);
    var t1 := Inserted(o, m1);
    AppendsOneChild(o, p, h1, m1);
    var t2 := Inserted(t1, m2);
    AppendsOneChild(t1, p, h2, m2);
  }

  /** A method one level below an existing node whose last piece is new appends
      exactly that piece to the node's children. */
  lemma AppendsOneChild(o: Outline, p: Path, h: string, m: ApiMethod)
    requires WellFormed(o) && p in o.kids && h !in o.kids[p]
    requires Segments(m.name) == p + [h]
    ensures p in Inserted(o, m).kids
    ensures Inserted(o, m).kids[p] == o.kids[p] + [h]
  {
    var s := Segments(m.name);
    assert [] + s == s;
    DescendChildLists(o, [], s, m);
    assert s[..|p|] == p && s[|p|] == h;
    var t := Inserted(o, m);
    assert s in t.kids;
    assert Parent(s) == p && Last(s) == h;
    assert h in t.kids[p];
  }

  /** One level of the walk: the child `part` of `at` when it is already there, or
      the tree with it appended (tagged `tag`) when it is not. */
  function Visit(o: Outline, at: Path, part: string, tag: Option<ApiMethod>): (r: Outline)
    requires WellFormed(o) && at in o.kids
    ensures WellFormed(r) && at + [part] in r.kids
    ensures part in o.kids[at] ==> r == o
    ensures part !in o.kids[at] ==> r == Grow(o, at, part, tag)
  {
    if part in o.kids[at] then o
    else
      GrowWellFormed(o, at, part, tag);
      GrowFacts(o, at, part, tag);
      Grow(o, at, part, tag)
  }

  /** The walk is one visit followed by the walk of the rest of the path, with the
      method as the tag exactly when the piece is the last one. */
  lemma DescendVisit(o: Outline, at: Path, segs: seq<string>, m: ApiMethod)
    requires WellFormed(o) && at in o.kids && segs != []
    ensures Descend(o, at, segs, m)
         == Descend(Visit(o, at, segs[0], if |segs| == 1 then Some(m) else None), at + [segs[0]], segs[1..], m)
  {
  }

  /** A TreeViewItem, or the TreeView itself at the root: its header, the method in
      its Tag (its tooltip is that method's brief description), and its child items
      in display order. */
  class Node {
    var header: string
    var tag: Option<ApiMethod>
    var children: seq<Node>

    constructor (header: string, tag: Option<ApiMethod>)
      ensures this.header == header && this.tag == tag && children == []
    {
      this.header := header;
      this.tag := tag;
      children := [];
    }
  }

  /** The item holds what the value says it shows. */
  ghost predicate Mirrors(k: Node, s: Shown)
    reads k
  {
    k.header == s.header && k.tag == s.tag && k.children == s.children
  }

  /** What one item shows, as a value: where it stands, its header and tag, and its
      child items. */
  datatype Shown = Shown(path: Path, header: string, tag: Option<ApiMethod>, children: seq<Node>)

  /** The item `k` of the snapshot shows its path of the outline: header and tag of
      that path, and as children the items of the child paths, in order. */
  ghost predicate ShowsIn(o: Outline, snap: map<Node, Shown>, k: Node)
    requires WellFormed(o) && k in snap
  {
    var s := snap[k];
    && s.path in o.kids
    && |s.children| == |o.kids[s.path]|
    && (s.path != [] ==> s.header == Last(s.path) && s.tag == o.tags[s.path])
    && (forall j :: 0 <= j < |s.children| ==>
          s.children[j] in snap && snap[s.children[j]].path == s.path + [o.kids[s.path][j]])
  }

  /** No two items of the snapshot stand at the same path (`nodeAt` names the one item
      at each path that has one), and the root item stands at the empty path. */
  ghost predicate Indexed(nodeAt: map<Path, Node>, root: Node, snap: map<Node, Shown>)
  {
    && root in snap && snap[root].path == []
    && (forall k {:trigger snap[k]} :: k in snap ==> snap[k].path in nodeAt && nodeAt[snap[k].path] == k)
  }

  /** Every item of the snapshot shows its path. */
  ghost predicate AllShow(o: Outline, snap: map<Node, Shown>)
    requires WellFormed(o)
  {
    forall k {:trigger ShowsIn(o, snap, k)} :: k in snap ==> ShowsIn(o, snap, k)
  }

  /** The item tree and the outline agree. */
  ghost predicate Coherent(o: Outline, nodeAt: map<Path, Node>, root: Node, snap: map<Node, Shown>)
  {
    WellFormed(o) && Indexed(nodeAt, root, snap) && AllShow(o, snap)
  }

  /** The snapshot after appending item `n` at path `at + [part]` below the item `cur`. */
  function Appended(snap: map<Node, Shown>, cur: Node, n: Node, at: Path, part: string, tag: Option<ApiMethod>): map<Node, Shown>
    requires cur in snap
  {
    snap[cur := snap[cur].(children := snap[cur].children + [n])][n := Shown(at + [part], part, tag, [])]
  }

  lemma IndexedGrow(o: Outline, nodeAt: map<Path, Node>, root: Node, snap: map<Node, Shown>,
                    cur: Node, at: Path, part: string, tag: Option<ApiMethod>, n: Node)
    requires Coherent(o, nodeAt, root, snap) && cur in snap && snap[cur].path == at
    requires at in o.kids && part !in o.kids[at] && n !in snap
    ensures Indexed(nodeAt[at + [part] := n], root, Appended(snap, cur, n, at, part, tag))
  {
    GrowFacts(o, at, part, tag);
    var c := at + [part];
    var snap' := Appended(snap, cur, n, at, part, tag);
    forall k | k in snap' && k != n
      ensures snap'[k].path != c
    {
      assert ShowsIn(o, snap, k);
    }
  }

  /** After the append, an item other than `cur` and `n` still shows its path. */
  lemma ShowsAfterGrow(o: Outline, nodeAt: map<Path, Node>, root: Node, snap: map<Node, Shown>,
                       cur: Node, at: Path, part: string, tag: Option<ApiMethod>, n: Node, k: Node)
    requires Coherent(o, nodeAt, root, snap) && cur in snap && snap[cur].path == at
    requires at in o.kids && part !in o.kids[at] && n !in snap
    requires k in snap
    ensures WellFormed(Grow(o, at, part, tag))
    ensures ShowsIn(Grow(o, at, part, tag), Appended(snap, cur, n, at, part, tag), k)
  {
    GrowFacts(o, at, part, tag);
    GrowWellFormed(o, at, part, tag);
    var snap' := Appended(snap, cur, n, at, part, tag);
    assert ShowsIn(o, snap, k);
    if k != cur {
      assert snap'[k] == snap[k] && snap[k].path != at;
    }
  }

  lemma AllShowGrow(o: Outline, nodeAt: map<Path, Node>, root: Node, snap: map<Node, Shown>,
                    cur: Node, at: Path, part: string, tag: Option<ApiMethod>, n: Node)
    requires Coherent(o, nodeAt, root, snap) && cur in snap && snap[cur].path == at
    requires at in o.kids && part !in o.kids[at] && n !in snap
    ensures WellFormed(Grow(o, at, part, tag))
    ensures AllShow(Grow(o, at, part, tag), Appended(snap, cur, n, at, part, tag))
  {
    GrowFacts(o, at, part, tag);
    GrowWellFormed(o, at, part, tag);
    var g := Grow(o, at, part, tag);
    var snap' := Appended(snap, cur, n, at, part, tag);
    assert Last(at + [part]) == part;
    forall k | k in snap'
      ensures ShowsIn(g, snap', k)
    {
      if k != n {
        ShowsAfterGrow(o, nodeAt, root, snap, cur, at, part, tag, n, k);
      }
    }
  }

  /** Appending a new item for a missing child keeps the item tree and the outline in
      agreement. */
  lemma CoherentGrow(o: Outline, nodeAt: map<Path, Node>, root: Node, snap: map<Node, Shown>,
                     cur: Node, at: Path, part: string, tag: Option<ApiMethod>, n: Node)
    requires Coherent(o, nodeAt, root, snap) && cur in snap && snap[cur].path == at
    requires at in o.kids && part !in o.kids[at] && n !in snap
    ensures Coherent(Grow(o, at, part, tag), nodeAt[at + [part] := n], root,
                     Appended(snap, cur, n, at, part, tag))
  {
    IndexedGrow(o, nodeAt, root, snap, cur, at, part, tag, n);
    AllShowGrow(o, nodeAt, root, snap, cur, at, part, tag, n);
  }

  /** The tree holding only the root item, which has no children. */
  lemma CoherentEmpty(root: Node, s: Shown)
    requires s.path == [] && s.children == []
    ensures Coherent(Empty, map[[] := root], root, map[root := s])
  {
    assert ShowsIn(Empty, map[root := s], root);
  }

  /** The ghost picture of the tree view: the outline it shows, which item stands at
      each path, and what each item shows. */
  datatype Picture = Picture(view: Outline, nodeAt: map<Path, Node>, shown: map<Node, Shown>)

  /** The picture is one of a tree rooted at `root` whose items are `items`. */
  ghost predicate Sound(p: Picture, root: Node, items: set<Node>)
  {
    items == p.shown.Keys && Coherent(p.view, p.nodeAt, root, p.shown)
  }

  /** The picture after item `n` is appended below `cur`, at path `at + [part]`. */
  function Added(p: Picture, cur: Node, at: Path, part: string, tag: Option<ApiMethod>, n: Node): Picture
    requires at in p.view.kids && cur in p.shown
  {
    Picture(Grow(p.view, at, part, tag), p.nodeAt[at + [part] := n], Appended(p.shown, cur, n, at, part, tag))
  }

  /** Appending a new item for a missing child keeps the picture sound. */
  lemma SoundAdded(p: Picture, root: Node, items: set<Node>, cur: Node, at: Path, part: string, tag: Option<ApiMethod>, n: Node)
    requires Sound(p, root, items) && cur in items && p.shown[cur].path == at
    requires at in p.view.kids && part !in p.view.kids[at] && n !in items
    ensures Sound(Added(p, cur, at, part, tag, n), root, items + {n})
  {
    CoherentGrow(p.view, p.nodeAt, root, p.shown, cur, at, part, tag, n);
  }

  /** `cur.Items.Add(n)`: appends `n` to the children of `cur`. Every item keeps
      showing what the new snapshot says, since only `cur` changes. */
  method AppendItem(cur: Node, n: Node, ghost keys: set<Node>, ghost shown: map<Node, Shown>, ghost shown': map<Node, Shown>)
    requires keys <= shown.Keys && keys + {n} <= shown'.Keys && cur in keys && n !in keys
    requires forall k {:trigger Mirrors(k, shown[k])} :: k in keys ==> Mirrors(k, shown[k])
    requires forall k :: k in keys && k != cur ==> shown'[k] == shown[k]
    requires shown'[cur] == shown[cur].(children := shown[cur].children + [n]) && Mirrors(n, shown'[n])
    modifies cur
    ensures cur.children == old(cur.children) + [n]
    ensures forall k {:trigger Mirrors(k, shown'[k])} :: k in keys + {n} ==> Mirrors(k, shown'[k])
  {
    assert Mirrors(cur, shown[cur]);
    cur.children := cur.children + [n];
    forall k | k in keys + {n}
      ensures Mirrors(k, shown'[k])
    {
      if k != n && k != cur {
        assert old(Mirrors(k, shown[k]));
      }
    }
  }

  /** The methods TreeView, with its ghost picture; Valid ties the items to it. */
  class Tree {
    const root: Node
    ghost var model: Picture
    ghost var Repr: set<Node>

    ghost predicate Valid()
      reads this, Repr
    {
      && Sound(model, root, Repr)
      && (forall k {:trigger Mirrors(k, model.shown[k])} :: k in Repr ==> Mirrors(k, model.shown[k]))
    }

    /** `cur` is the item standing at path `at`. */
    ghost predicate At(cur: Node, at: Path)
      reads this
    {
      cur in model.shown && model.shown[cur].path == at
    }

    /** An empty tree view. */
    constructor ()
      ensures Valid() && fresh(Repr) && model.view == Empty
    {
      var r := new Node("", None);
      root := r;
      model := Picture(Empty, map[[] := r], map[r := Shown([], "", None, [])]);
      Repr := {r};
      new;
      CoherentEmpty(r, Shown([], "", None, []));
    }

    /** `methodsTreeView.Items.Clear()`. */
    method Clear()
      modifies this, root
      ensures Valid() && Repr == {root} && model.view == Empty
    {
      root.children := [];
      model := Picture(Empty, map[[] := root], map[root := Shown([], root.header, root.tag, [])]);
      Repr := {root};
      CoherentEmpty(root, Shown([], root.header, root.tag, []));
    }

    /** The item at `at` stands at a path of the outline, and its children are the
        items of the child paths, in order, each headed with its own name. */
    lemma LevelFacts(cur: Node, at: Path)
      requires Valid() && At(cur, at)
      ensures cur in Repr && at in model.view.kids
      ensures |cur.children| == |model.view.kids[at]|
      ensures forall j :: 0 <= j < |cur.children| ==>
             && At(cur.children[j], at + [model.view.kids[at][j]])
             && cur.children[j].header == model.view.kids[at][j]
    {
      var Picture(view, nodeAt, shown) := model;
      assert ShowsIn(view, shown, cur) && Mirrors(cur, shown[cur]);
      forall j | 0 <= j < |cur.children|
        ensures At(cur.children[j], at + [view.kids[at][j]])
        ensures cur.children[j].header == view.kids[at][j]
      {
        var c := at + [view.kids[at][j]];
        var k := cur.children[j];
        assert k in shown && shown[k].path == c;
        assert ShowsIn(view, shown, k) && Mirrors(k, shown[k]);
        assert Last(c) == view.kids[at][j];
      }
    }

    /** The scan of one level: the item among `level` whose header is `part`, if there
        is one. Every item is looked at; a later match would replace an earlier one. */
    static method FindChild(level: seq<Node>, part: string) returns (found: bool, hit: Node?)
      ensures found <==> exists j :: 0 <= j < |level| && level[j].header == part
      ensures found ==> hit in level && hit.header == part
    {
      found, hit := false, null;
      for k := 0 to |level|
        invariant found <==> exists j :: 0 <= j < k && level[j].header == part
        invariant found ==> hit in level && hit.header == part
      {
        if level[k].header == part {
          found, hit := true, level[k];
        }
      }
    }

    /** `items.Add(new TreeViewItem { Header = part, Tag = tag })` on the item at `at`. */
    method AddChild(cur: Node, ghost at: Path, part: string, tag: Option<ApiMethod>) returns (n: Node)
      requires Valid() && At(cur, at) && at in model.view.kids && part !in model.view.kids[at]
      modifies this, cur
      ensures Valid() && fresh(n) && Repr == old(Repr) + {n}
      ensures model.view == Grow(old(model.view), at, part, tag)
      ensures At(n, at + [part])
    {
      n := new Node(part, tag);
      SoundAdded(model, root, Repr, cur, at, part, tag, n);
      ghost var p := Added(model, cur, at, part, tag, n);
      AppendItem(cur, n, Repr, model.shown, p.shown);
      model, Repr := p, Repr + {n};
    }

    /** One level of adding a method: follow the child `part` of the item at `at`, or
        append it when there is none. What is left of the walk along `segs` (the
        pieces from `part` on) is the same before and after. */
    method Step(cur: Node, ghost at: Path, part: string, tag: Option<ApiMethod>, ghost segs: seq<string>, ghost m: ApiMethod)
      returns (next: Node)
      requires Valid() && At(cur, at)
      requires segs != [] && segs[0] == part && tag == (if |segs| == 1 then Some(m) else None)
      modifies this, cur
      ensures Valid() && at in old(model.view.kids)
      ensures Repr == old(Repr) || (Repr == old(Repr) + {next} && fresh(next))
      ensures model.view == Visit(old(model.view), at, part, tag)
      ensures At(next, at + [part]) && next in Repr && at + [part] in model.view.kids
      ensures Descend(model.view, at + [part], segs[1..], m) == Descend(old(model.view), at, segs, m)
    {
      LevelFacts(cur, at);
      DescendVisit(model.view, at, segs, m);
      var found, hit := FindChild(cur.children, part);
      if found {
        assert part in model.view.kids[at];
        next := hit;
      } else {
        assert part !in model.view.kids[at];
        next := AddChild(cur, at, part, tag);
      }
    }

    /** Adding one method, as the body of the window's outer loop does: split the name
        on '/', skip the first piece, and for each further piece either follow the
        existing child with that header or append a new one, tagged with the method
        when it is the last piece. */
    method Insert(m: ApiMethod)
      requires Valid()
      modifies this, Repr
      ensures Valid() && fresh(Repr - old(Repr))
      ensures model.view == Inserted(old(model.view), m)
    {
      var path := Split(m.name, '/');
      var cur := root;
      ghost var at: Path := [];
      var i := 1;
      while i < |path|
        invariant 1 <= i <= |path|
        invariant Valid() && fresh(Repr - old(Repr))
        invariant At(cur, at) && at in model.view.kids
        invariant Descend(model.view, at, path[i..], m) == Inserted(old(model.view), m)
      {
        var part := path[i];
        ghost var segs := path[i..];
        assert segs[0] == part && segs[1..] == path[i + 1..];
        var tag := if i == |path| - 1 then Some(m) else None;
        ghost var before := Repr;
        cur := Step(cur, at, part, tag, segs, m);
        assert Repr - old(Repr) <= (before - old(Repr)) + {cur};
        at := at + [part];
        i := i + 1;
      }
      assert path[i..] == [];
    }

    /** The window's `RefreshTree`: when the method list could not be fetched (None) it
        reports failure and leaves the tree alone; otherwise it adds every method in
        list order. */
    method Refresh(methods: Option<seq<ApiMethod>>) returns (ok: bool)
      requires Valid()
      modifies this, Repr
      ensures Valid() && fresh(Repr - old(Repr))
      ensures ok == methods.Some?
      ensures model.view == if ok then Built(old(model.view), methods.value) else old(model.view)
    {
      if methods.None? {
        return false;
      }
      var ms := methods.value;
      for k := 0 to |ms|
        invariant Valid() && fresh(Repr - old(Repr))
        invariant Built(model.view, ms[k..]) == Built(old(model.view), ms)
      {
        assert ms[k..][1..] == ms[k + 1..];
        Insert(ms[k]);
      }
      return true;
    }
  }
}
