/**
 * The parsed syntax tree, seen only through the lookups the grammar library
 * offers: a node has a tag, its text and an ordered list of children.
 */
module Ast {
  import opened Results

  datatype Node = Node(tag: string, contents: string, children: seq<Node>)

  /** mpc_ast_get_index_lb: the first child index at or after `lb` whose tag is `tag`, or -1. */
  function IndexFrom(n: Node, tag: string, lb: nat): (r: int)
    ensures -1 <= r < |n.children|
    ensures r == -1 <==> forall j :: lb <= j < |n.children| ==> n.children[j].tag != tag
    ensures r >= 0 ==> lb <= r && n.children[r].tag == tag
    ensures r >= 0 ==> forall j :: lb <= j < r ==> n.children[j].tag != tag
    decreases |n.children| - lb
  {
    if lb >= |n.children| then -1
    else if n.children[lb].tag == tag then lb
    else IndexFrom(n, tag, lb + 1)
  }

  /** mpc_ast_get_child_lb: the child found by IndexFrom, or NULL. */
  function ChildFrom(n: Node, tag: string, lb: nat): (r: Option<Node>)
    ensures r.None? <==> IndexFrom(n, tag, lb) == -1
    ensures r.Some? ==> r.value == n.children[IndexFrom(n, tag, lb)]
  {
    var k := IndexFrom(n, tag, lb);
    if k < 0 then None else Some(n.children[k])
  }

  /** Looking up from the index of a matching child finds that child. */
  lemma ChildFromMatch(n: Node, tag: string, k: nat)
    requires k < |n.children| && n.children[k].tag == tag
    ensures ChildFrom(n, tag, k) == Some(n.children[k])
  {
  }

  /** mpc_ast_get_child: the first child whose tag is `tag`, or NULL. */
  function Child(n: Node, tag: string): (r: Option<Node>)
    ensures r.Some? ==> r.value.tag == tag && r.value in n.children
    ensures r.None? <==> forall c :: c in n.children ==> c.tag != tag
    ensures r.Some? ==> IndexFrom(n, tag, 0) >= 0 && r.value == n.children[IndexFrom(n, tag, 0)]
  {
    ChildFrom(n, tag, 0)
  }

  /** The nodes of `cs` tagged `tag`, in order. */
  function Matching(cs: seq<Node>, tag: string): seq<Node>
  {
    if cs == [] then []
    else Matching(cs[..|cs| - 1], tag) + (if cs[|cs| - 1].tag == tag then [cs[|cs| - 1]] else [])
  }

  lemma {:induction false} MatchingExact(cs: seq<Node>, tag: string)
    ensures forall c :: c in Matching(cs, tag) ==> c in cs && c.tag == tag
    ensures forall c :: c in cs && c.tag == tag ==> c in Matching(cs, tag)
    ensures |Matching(cs, tag)| <= |cs|
  {
    if cs != [] {
      MatchingExact(cs[..|cs| - 1], tag);
      assert cs == cs[..|cs| - 1] + [cs[|cs| - 1]];
    }
  }

  lemma {:induction false} MatchingConcat(a: seq<Node>, b: seq<Node>, tag: string)
    ensures Matching(a + b, tag) == Matching(a, tag) + Matching(b, tag)
    decreases |b|
  {
    if b == [] {
      assert a + b == a;
    } else {
      assert (a + b)[..|a + b| - 1] == a + b[..|b| - 1];
      MatchingConcat(a, b[..|b| - 1], tag);
    }
  }

  /** Scanning from `lo` up to a match at `idx` adds exactly that child. */
  lemma {:induction false} MatchingUpTo(cs: seq<Node>, tag: string, lo: nat, idx: nat)
    requires lo <= idx < |cs| && cs[idx].tag == tag
    requires forall j :: lo <= j < idx ==> cs[j].tag != tag
    ensures Matching(cs[..idx + 1], tag) == Matching(cs[..lo], tag) + [cs[idx]]
  {
    assert cs[..idx + 1][..idx] == cs[..idx];
    MatchingSkip(cs, tag, lo, idx);
  }

  /** Children in [lo, hi) that do not match add nothing. */
  lemma {:induction false} MatchingSkip(cs: seq<Node>, tag: string, lo: nat, hi: nat)
    requires lo <= hi <= |cs|
    requires forall j :: lo <= j < hi ==> cs[j].tag != tag
    ensures Matching(cs[..hi], tag) == Matching(cs[..lo], tag)
    decreases hi - lo
  {
    if lo < hi {
      assert cs[..hi][..hi - 1] == cs[..hi - 1];
      MatchingSkip(cs, tag, lo, hi - 1);
    }
  }
}
