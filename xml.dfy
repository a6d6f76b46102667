/** A parsed XML document and the part of `Element.findall` the mapper relies
    on: a slash-separated path of child tags, matched level by level in
    document order. */
module Xml {
  import opened Wrappers
  import opened Strings

  /** An element: its tag, its text (None when it has none) and its children. */
  datatype Element = Element(tag: string, text: Option<string>, children: seq<Element>)

  /** The children of `e` whose tag is `tag`, in order. */
  function Children(e: Element, tag: string): seq<Element>
  {
    Tagged(e.children, tag)
  }

  function Tagged(es: seq<Element>, tag: string): (r: seq<Element>)
    ensures forall x :: x in r ==> x in es && x.tag == tag
  {
    if es == [] then []
    else (if es[0].tag == tag then [es[0]] else []) + Tagged(es[1..], tag)
  }

  /** One path step applied to a list of elements: their matching children, element by element. */
  function Step(es: seq<Element>, tag: string): seq<Element>
  {
    if es == [] then [] else Children(es[0], tag) + Step(es[1..], tag)
  }

  /** A whole list of steps. */
  function Walk(es: seq<Element>, steps: seq<string>): seq<Element>
    decreases |steps|
  {
    if steps == [] then es else Walk(Step(es, steps[0]), steps[1..])
  }

  /** `e.findall(path)` for a path of plain tags. */
  function FindAll(e: Element, path: string): seq<Element>
  {
    Walk([e], Split(path, '/'))
  }

  /** `findall` run from every element of `es` in turn, results concatenated. */
  function FindEach(es: seq<Element>, path: string): seq<Element>
  {
    if es == [] then [] else FindEach(es[..|es| - 1], path) + FindAll(es[|es| - 1], path)
  }

  lemma {:induction false} StepConcat(a: seq<Element>, b: seq<Element>, tag: string)
    ensures Step(a + b, tag) == Step(a, tag) + Step(b, tag)
  {
    if a == [] {
      assert a + b == b;
    } else {
      assert (a + b)[1..] == a[1..] + b;
      StepConcat(a[1..], b, tag);
    }
  }

  lemma {:induction false} WalkConcat(a: seq<Element>, b: seq<Element>, steps: seq<string>)
    ensures Walk(a + b, steps) == Walk(a, steps) + Walk(b, steps)
    decreases |steps|
  {
    if steps != [] {
      StepConcat(a, b, steps[0]);
      WalkConcat(Step(a, steps[0]), Step(b, steps[0]), steps[1..]);
    }
  }

  lemma {:induction false} WalkAppend(es: seq<Element>, s1: seq<string>, s2: seq<string>)
    ensures Walk(es, s1 + s2) == Walk(Walk(es, s1), s2)
    decreases |s1|
  {
    if s1 == [] {
      assert s1 + s2 == s2;
    } else {
      assert (s1 + s2)[0] == s1[0];
      assert (s1 + s2)[1..] == s1[1..] + s2;
      WalkAppend(Step(es, s1[0]), s1[1..], s2);
    }
  }

  /** Walking a path from a list is walking it from each element in turn. */
  lemma {:induction false} WalkEach(es: seq<Element>, path: string)
    ensures Walk(es, Split(path, '/')) == FindEach(es, path)
  {
    if es != [] {
      var front := es[..|es| - 1];
      assert es == front + [es[|es| - 1]];
      WalkConcat(front, [es[|es| - 1]], Split(path, '/'));
      WalkEach(front, path);
    } else {
      WalkEmpty(Split(path, '/'));
    }
  }

  lemma {:induction false} WalkEmpty(steps: seq<string>)
    ensures Walk([], steps) == []
    decreases |steps|
  {
    if steps != [] {
      WalkEmpty(steps[1..]);
    }
  }

  /** The elements at `path + "/" + tag` below `root` are, in document order, the
      elements at `tag` below each element at `path`: parent-major, child-minor. */
  lemma FindAllExtend(root: Element, path: string, tag: string)
    ensures FindAll(root, path + "/" + tag) == FindEach(FindAll(root, path), tag)
  {
    SplitAppend(path, tag, '/');
    WalkAppend([root], Split(path, '/'), Split(tag, '/'));
    WalkEach(FindAll(root, path), tag);
  }
}
