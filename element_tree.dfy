/**
 * A parsed XML document as Python's xml.etree.ElementTree presents it, and the
 * two lookups the flattener uses: `findall(path)` and `findtext(path, default)`
 * for paths made of plain child tags (`"row/policy_evaluated/disposition"` is
 * the path ["row", "policy_evaluated", "disposition"]).
 */
module ElementTree {

  import opened Wrappers

  /** An element: its tag, its text (None when the element has no text) and its children in document order. */
  datatype Element = Element(tag: string, text: Option<string>, children: seq<Element>)

  type Path = seq<string>

  /** The elements of `cs` whose tag is `tag`, in order. */
  function Matching(cs: seq<Element>, tag: string): seq<Element> {
    if cs == [] then [] else (if cs[0].tag == tag then [cs[0]] else []) + Matching(cs[1..], tag)
  }

  /** `Matching` keeps exactly the elements with the tag. */
  lemma {:induction false} MatchingMembers(cs: seq<Element>, tag: string)
    ensures |Matching(cs, tag)| <= |cs|
    ensures forall x :: x in Matching(cs, tag) <==> x in cs && x.tag == tag
  {
    if cs != [] {
      MatchingMembers(cs[1..], tag);
      assert cs == [cs[0]] + cs[1..];
    }
  }

  /** One path step: for each context element in turn, its children tagged `tag`. */
  function SelectChildren(es: seq<Element>, tag: string): seq<Element> {
    if es == [] then [] else Matching(es[0].children, tag) + SelectChildren(es[1..], tag)
  }

  /** Applies the steps of `path` one after the other, starting from the context `es`. */
  function Iterate(es: seq<Element>, path: Path): seq<Element>
    decreases |path|
  {
    if path == [] then es else Iterate(SelectChildren(es, path[0]), path[1..])
  }

  /** `e.findall(path)` */
  function FindAll(e: Element, path: Path): seq<Element> {
    Iterate([e], path)
  }

  /** `e.text or ""` */
  function TextOf(e: Element): string {
    match e.text
    case None => ""
    case Some(t) => t
  }

  /** `e.findtext(path, default)`: the text of the first match, or `default` when nothing matches. */
  function FindText(e: Element, path: Path, default: string): string {
    var found := FindAll(e, path);
    if found == [] then default else TextOf(found[0])
  }

  /** `FindAll` over each element of `es`, concatenated in order. */
  function FindAllEach(es: seq<Element>, path: Path): seq<Element> {
    if es == [] then [] else FindAll(es[0], path) + FindAllEach(es[1..], path)
  }

  /** A one-tag path matches the direct children with that tag, and nothing deeper. */
  lemma FindAllChild(e: Element, tag: string)
    ensures FindAll(e, [tag]) == Matching(e.children, tag)
  {
    var step := SelectChildren([e], tag);
    assert [e][1..] == [];
    assert step == Matching(e.children, tag) + SelectChildren([], tag);
    assert step == Matching(e.children, tag);
    assert [tag][1..] == [];
    assert FindAll(e, [tag]) == Iterate(step, []);
  }

  lemma {:induction false} SelectChildrenAppend(a: seq<Element>, b: seq<Element>, tag: string)
    ensures SelectChildren(a + b, tag) == SelectChildren(a, tag) + SelectChildren(b, tag)
  {
    if a == [] {
      assert a + b == b;
    } else {
      assert (a + b)[1..] == a[1..] + b;
      SelectChildrenAppend(a[1..], b, tag);
    }
  }

  lemma {:induction false} IterateAppend(a: seq<Element>, b: seq<Element>, path: Path)
    ensures Iterate(a + b, path) == Iterate(a, path) + Iterate(b, path)
    decreases |path|
  {
    if path != [] {
      SelectChildrenAppend(a, b, path[0]);
      IterateAppend(SelectChildren(a, path[0]), SelectChildren(b, path[0]), path[1..]);
    }
  }

  lemma {:induction false} IterateSplitsPath(es: seq<Element>, p: Path, q: Path)
    ensures Iterate(es, p + q) == Iterate(Iterate(es, p), q)
    decreases |p|
  {
    if p != [] {
      assert (p + q)[0] == p[0];
      assert (p + q)[1..] == p[1..] + q;
      IterateSplitsPath(SelectChildren(es, p[0]), p[1..], q);
    } else {
      assert p + q == q;
    }
  }

  lemma {:induction false} IterateEach(es: seq<Element>, path: Path)
    ensures Iterate(es, path) == FindAllEach(es, path)
  {
    if es != [] {
      assert es == [es[0]] + es[1..];
      IterateAppend([es[0]], es[1..], path);
      IterateEach(es[1..], path);
    } else {
      if path != [] {
        IterateEmpty(path);
      }
    }
  }

  lemma {:induction false} IterateEmpty(path: Path)
    ensures Iterate([], path) == []
    decreases |path|
  {
    if path != [] {
      IterateEmpty(path[1..]);
    }
  }

  /**
   * A longer path is the shorter path followed by the rest, from each match in
   * document order: `e.findall("a/b")` lists the `b` children of the first `a`,
   * then those of the second `a`, and so on.
   */
  lemma FindAllSplitsPath(e: Element, p: Path, q: Path)
    ensures FindAll(e, p + q) == FindAllEach(FindAll(e, p), q)
  {
    IterateSplitsPath([e], p, q);
    IterateEach(FindAll(e, p), q);
  }

  /** Nothing matches in a concatenation exactly when nothing matches from any element. */
  lemma {:induction false} FindAllEachEmpty(es: seq<Element>, path: Path)
    ensures FindAllEach(es, path) == [] <==> forall k :: 0 <= k < |es| ==> FindAll(es[k], path) == []
  {
    if es != [] {
      FindAllEachEmpty(es[1..], path);
      assert forall k :: 1 <= k < |es| ==> es[k] == es[1..][k - 1];
    }
  }

  /** When no element before `es[k]` has a match, the matches start with those of `es[k]`. */
  lemma {:induction false} FindAllEachSkip(es: seq<Element>, path: Path, k: nat)
    requires k <= |es|
    requires forall j :: 0 <= j < k ==> FindAll(es[j], path) == []
    ensures FindAllEach(es, path) == FindAllEach(es[k..], path)
  {
    if k > 0 {
      assert FindAll(es[0], path) == [];
      assert forall j :: 0 <= j < k - 1 ==> es[1..][j] == es[j + 1];
      FindAllEachSkip(es[1..], path, k - 1);
      assert es[1..][k - 1..] == es[k..];
    }
  }

  /**
   * `findtext` on a longer path `p + q` takes the first `q`-match under the
   * first `p`-match `k` that has any, whichever `p`-match that is.
   */
  lemma FindTextSplitsPath(e: Element, p: Path, q: Path, default: string, k: nat)
    requires k < |FindAll(e, p)|
    requires FindAll(FindAll(e, p)[k], q) != []
    requires forall j :: 0 <= j < k ==> FindAll(FindAll(e, p)[j], q) == []
    ensures FindText(e, p + q, default) == FindText(FindAll(e, p)[k], q, default)
  {
    var ps := FindAll(e, p);
    FindAllSplitsPath(e, p, q);
    FindAllEachSkip(ps, q, k);
    assert ps[k..][1..] == ps[k + 1..];
    assert FindAllEach(ps[k..], q) == FindAll(ps[k], q) + FindAllEach(ps[k + 1..], q);
  }

  /**
   * `findtext` on `p + q` is the default when no `p`-match has a
   * `q`-match, in particular when `p` matches nothing.
   */
  lemma FindTextDefault(e: Element, p: Path, q: Path, default: string)
    ensures FindAll(e, p) == [] ==> FindText(e, p + q, default) == default
    ensures (forall k :: 0 <= k < |FindAll(e, p)| ==> FindAll(FindAll(e, p)[k], q) == []) ==>
      FindText(e, p + q, default) == default
  {
    FindAllSplitsPath(e, p, q);
    FindAllEachEmpty(FindAll(e, p), q);
  }
}
