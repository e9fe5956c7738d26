/**
 * An already-parsed XML document and the ElementTree lookups the job-feed
 * pipeline performs on it: `.//tag` (every element strictly below a node,
 * in document order), relative child paths such as `corpInfo/corpNm`,
 * `find`, `findall` and `findtext`.
 */
module XmlTree {
  import opened Wrappers

  /** An element: its tag, its text (`None` when it has none) and its children in document order. */
  datatype Element = Element(tag: string, text: Option<string>, children: seq<Element>)

  /** The elements of `forest` and everything below them, in document (pre-)order. */
  function Preorder(forest: seq<Element>): seq<Element>
    decreases forest
  {
    if forest == [] then []
    else
      assert forest[0] in forest;
      [forest[0]] + Preorder(forest[0].children) + Preorder(forest[1..])
  }

  /** What `.//` ranges over: every element strictly below `e`, in document order. */
  function Descendants(e: Element): seq<Element>
  {
    Preorder(e.children)
  }

  /** Reference definition: `d` is a child of `e` or lies below one of its children. */
  ghost predicate Below(d: Element, e: Element)
    decreases e
  {
    exists i :: 0 <= i < |e.children| && (d == e.children[i] || Below(d, e.children[i]))
  }

  /** The elements of `s` whose tag is `tag`, in their order in `s`. */
  function WithTag(s: seq<Element>, tag: string): seq<Element>
  {
    if s == [] then []
    else if s[0].tag == tag then [s[0]] + WithTag(s[1..], tag)
    else WithTag(s[1..], tag)
  }

  /** `e.findall('.//tag')`. */
  function FindAll(e: Element, tag: string): seq<Element>
  {
    WithTag(Descendants(e), tag)
  }

  /** `e.find('.//tag')`: the first element of `FindAll`, if any. */
  function FindFirst(e: Element, tag: string): Option<Element>
  {
    var all := FindAll(e, tag);
    if all == [] then None else Some(all[0])
  }

  /** One child step of an ElementPath: for each context element in order, its children tagged `tag`. */
  function ChildStep(ctx: seq<Element>, tag: string): seq<Element>
  {
    if ctx == [] then []
    else WithTag(ctx[0].children, tag) + ChildStep(ctx[1..], tag)
  }

  /** Every element a relative child path (`a/b/...`) selects from `ctx`, in ElementPath's order. */
  function Select(ctx: seq<Element>, path: seq<string>): seq<Element>
    decreases |path|
  {
    if path == [] then ctx else Select(ChildStep(ctx, path[0]), path[1..])
  }

  /** `e.find(path)` for a relative child path: the first selected element, or `None`. */
  function Find(e: Element, path: seq<string>): Option<Element>
  {
    var all := Select([e], path);
    if all == [] then None else Some(all[0])
  }

  /** Reference definition: `x` is reached from `e` by following `path` one child step at a time. */
  ghost predicate Reaches(e: Element, path: seq<string>, x: Element)
    decreases |path|
  {
    if path == [] then x == e
    else exists c :: c in e.children && c.tag == path[0] && Reaches(c, path[1..], x)
  }

  /** `e.findtext(path, default)`: `default` when nothing matches, otherwise the match's text or "" when it has none. */
  function FindText(e: Element, path: seq<string>, default: string): string
  {
    match Find(e, path)
    case None => default
    case Some(x) => if x.text.Some? then x.text.value else ""
  }

  /** How an f-string renders an optional text: `None` prints as "None". */
  function Show(t: Option<string>): string
  {
    if t.Some? then t.value else "None"
  }

  // ---------------------------------------------------------------------------
  // Properties of the descendant search

  lemma {:induction false} PreorderMembers(forest: seq<Element>, d: Element)
    ensures d in Preorder(forest) <==>
      exists i :: 0 <= i < |forest| && (d == forest[i] || Below(d, forest[i]))
    decreases forest
  {
    if forest != [] {
      assert forest[0] in forest;
      PreorderMembers(forest[0].children, d);
      PreorderMembers(forest[1..], d);
      if exists i :: 0 <= i < |forest| && (d == forest[i] || Below(d, forest[i])) {
        var i :| 0 <= i < |forest| && (d == forest[i] || Below(d, forest[i]));
        if i > 0 {
          assert forest[1..][i - 1] == forest[i];
        }
      }
    }
  }

  /** `.//` finds exactly the elements strictly below the node. */
  lemma DescendantsAreBelow(e: Element, d: Element)
    ensures d in Descendants(e) <==> Below(d, e)
  {
    PreorderMembers(e.children, d);
  }

  /** Filtering by tag keeps exactly the elements carrying the tag. */
  lemma {:induction false} WithTagMembers(s: seq<Element>, tag: string, x: Element)
    ensures x in WithTag(s, tag) <==> x in s && x.tag == tag
  {
    if s != [] {
      WithTagMembers(s[1..], tag, x);
      if x in s && x != s[0] {
        assert x in s[1..];
      }
    }
  }

  /** Leaves are their own pre-order. */
  lemma {:induction false} PreorderOfLeaves(s: seq<Element>)
    requires forall i :: 0 <= i < |s| ==> s[i].children == []
    ensures Preorder(s) == s
  {
    if s != [] {
      PreorderOfLeaves(s[1..]);
    }
  }

  /** Filtering drops everything when no element carries the tag. */
  lemma {:induction false} WithTagNone(s: seq<Element>, tag: string)
    requires forall i :: 0 <= i < |s| ==> s[i].tag != tag
    ensures WithTag(s, tag) == []
  {
    if s != [] {
      WithTagNone(s[1..], tag);
    }
  }

  /** Filtering by tag distributes over concatenation. */
  lemma {:induction false} WithTagAppend(a: seq<Element>, b: seq<Element>, tag: string)
    ensures WithTag(a + b, tag) == WithTag(a, tag) + WithTag(b, tag)
  {
    if a == [] {
      assert a + b == b;
    } else {
      var ab := a + b;
      assert ab[0] == a[0] && ab[1..] == a[1..] + b;
      WithTagAppend(a[1..], b, tag);
      if a[0].tag == tag {
        calc {
          WithTag(ab, tag);
          [a[0]] + WithTag(a[1..] + b, tag);
          [a[0]] + (WithTag(a[1..], tag) + WithTag(b, tag));
          ([a[0]] + WithTag(a[1..], tag)) + WithTag(b, tag);
        }
      }
    }
  }

  /** `findall('.//tag')` finds exactly the elements below the node that carry the tag. */
  lemma FindAllExact(e: Element, tag: string, d: Element)
    ensures d in FindAll(e, tag) <==> Below(d, e) && d.tag == tag
  {
    DescendantsAreBelow(e, d);
    WithTagMembers(Descendants(e), tag, d);
  }

  lemma {:induction false} PreorderShrinks(forest: seq<Element>, i: nat)
    requires i < |forest|
    ensures |Preorder(forest[i].children)| < |Preorder(forest)|
    decreases forest
  {
    assert forest[0] in forest;
    if i > 0 {
      PreorderShrinks(forest[1..], i - 1);
      assert forest[1..][i - 1] == forest[i];
    }
  }

  lemma {:induction false} BelowShrinks(d: Element, e: Element)
    requires Below(d, e)
    ensures |Descendants(d)| < |Descendants(e)|
    decreases e
  {
    var i :| 0 <= i < |e.children| && (d == e.children[i] || Below(d, e.children[i]));
    PreorderShrinks(e.children, i);
    if d != e.children[i] {
      BelowShrinks(d, e.children[i]);
    }
  }

  /** `.//` is strict: a node is never among its own descendants. */
  lemma RootExcluded(e: Element)
    ensures e !in Descendants(e)
  {
    DescendantsAreBelow(e, e);
    if Below(e, e) {
      BelowShrinks(e, e);
    }
  }

  /** The first element of `WithTag(s, tag)` is the first element of `s` carrying the tag. */
  lemma {:induction false} WithTagFirst(s: seq<Element>, tag: string)
    requires WithTag(s, tag) != []
    ensures exists i :: 0 <= i < |s| && s[i] == WithTag(s, tag)[0] && s[i].tag == tag &&
                        (forall j :: 0 <= j < i ==> s[j].tag != tag)
  {
    if s[0].tag != tag {
      WithTagFirst(s[1..], tag);
      var i :| 0 <= i < |s[1..]| && s[1..][i] == WithTag(s[1..], tag)[0] && s[1..][i].tag == tag &&
        forall j :: 0 <= j < i ==> s[1..][j].tag != tag;
      assert forall j :: 1 <= j < i + 1 ==> s[j] == s[1..][j - 1];
    } else {
      assert s[0] == WithTag(s, tag)[0];
    }
  }

  /** `find('.//tag')` returns the first element below the node, in document order, carrying the tag. */
  lemma FindFirstIsFirst(e: Element, tag: string)
    ensures FindFirst(e, tag).None? <==> forall d :: Below(d, e) ==> d.tag != tag
    ensures FindFirst(e, tag).Some? ==>
      exists i :: 0 <= i < |Descendants(e)| && Descendants(e)[i] == FindFirst(e, tag).value &&
        Descendants(e)[i].tag == tag && forall j :: 0 <= j < i ==> Descendants(e)[j].tag != tag
  {
    if FindFirst(e, tag).None? {
      forall d | Below(d, e) ensures d.tag != tag {
        FindAllExact(e, tag, d);
      }
    } else {
      WithTagFirst(Descendants(e), tag);
      FindAllExact(e, tag, FindFirst(e, tag).value);
    }
  }

  // ---------------------------------------------------------------------------
  // Properties of relative child paths

  lemma {:induction false} ChildStepMembers(ctx: seq<Element>, tag: string, y: Element)
    ensures y in ChildStep(ctx, tag) <==> exists c :: c in ctx && y in c.children && y.tag == tag
  {
    if ctx != [] {
      ChildStepMembers(ctx[1..], tag, y);
      WithTagMembers(ctx[0].children, tag, y);
      if exists c :: c in ctx && y in c.children && y.tag == tag {
        var c :| c in ctx && y in c.children && y.tag == tag;
        if c != ctx[0] {
          assert c in ctx[1..];
        } else {
          WithTagMembers(c.children, tag, y);
        }
      }
    }
  }

  /** A path selects exactly the elements reached from some context element along it. */
  lemma {:induction false} SelectMembers(ctx: seq<Element>, path: seq<string>, x: Element)
    ensures x in Select(ctx, path) <==> exists c :: c in ctx && Reaches(c, path, x)
    decreases |path|
  {
    if path != [] {
      var next := ChildStep(ctx, path[0]);
      SelectMembers(next, path[1..], x);
      if x in Select(ctx, path) {
        var y :| y in next && Reaches(y, path[1..], x);
        ChildStepMembers(ctx, path[0], y);
        var c :| c in ctx && y in c.children && y.tag == path[0];
        assert Reaches(c, path, x);
      }
      if exists c :: c in ctx && Reaches(c, path, x) {
        var c :| c in ctx && Reaches(c, path, x);
        var y :| y in c.children && y.tag == path[0] && Reaches(y, path[1..], x);
        ChildStepMembers(ctx, path[0], y);
      }
    }
  }

  /** `find(path)` succeeds exactly when the path leads somewhere, and what it returns is reached by the path. */
  lemma FindPresent(e: Element, path: seq<string>)
    ensures Find(e, path).Some? <==> exists x :: Reaches(e, path, x)
    ensures Find(e, path).Some? ==> Reaches(e, path, Find(e, path).value)
  {
    if Find(e, path).Some? {
      SelectMembers([e], path, Find(e, path).value);
    }
    if exists x :: Reaches(e, path, x) {
      var x :| Reaches(e, path, x);
      SelectMembers([e], path, x);
      assert e in [e];
    }
  }

  /** A one-step path finds something when some child carries the tag. */
  lemma OneStepPresent(e: Element, k: nat)
    requires k < |e.children|
    ensures Find(e, [e.children[k].tag]).Some?
  {
    var t := e.children[k].tag;
    assert [e][1..] == [];
    assert Select([e], [t]) == ChildStep([e], t) == WithTag(e.children, t) + ChildStep([], t);
    WithTagMembers(e.children, t, e.children[k]);
  }

  /** A one-step path finds the first child carrying the tag. */
  lemma FindChildIsFirst(e: Element, tag: string)
    ensures Find(e, [tag]).Some? ==>
      exists i :: 0 <= i < |e.children| && e.children[i] == Find(e, [tag]).value &&
        e.children[i].tag == tag && forall j :: 0 <= j < i ==> e.children[j].tag != tag
  {
    assert Select([e], [tag]) == ChildStep([e], tag) == WithTag(e.children, tag) + [];
    if Find(e, [tag]).Some? {
      WithTagFirst(e.children, tag);
    }
  }
}
