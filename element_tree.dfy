/** The part of `xml.etree.ElementTree` the retrieval layer relies on, over an
    already parsed tree: the `find`, `findall` and `get` queries and
    `find(".//tag")`. Parsing itself is not modelled; the network oracle hands
    out trees. */
module ElementTree {
  import opened Common

  /** An element: its tag, its attributes, the text before its first child
      (absent for an empty element) and its children in document order. */
  datatype Elem = Elem(tag: string, attrs: map<string, string>, text: Option<string>, children: seq<Elem>)

  /** `e.get(name)`. */
  function GetAttr(e: Elem, name: string): Option<string> {
    if name in e.attrs then Some(e.attrs[name]) else None
  }

  /** Position of the first child tagged `tag`. */
  function FindIndex(children: seq<Elem>, tag: string): (r: Option<nat>)
    ensures r.Some? ==> r.value < |children| && children[r.value].tag == tag
    ensures r.Some? ==> forall j :: 0 <= j < r.value ==> children[j].tag != tag
    ensures r.None? ==> forall j :: 0 <= j < |children| ==> children[j].tag != tag
  {
    if children == [] then None
    else if children[0].tag == tag then Some(0)
    else match FindIndex(children[1..], tag)
      case None => None
      case Some(i) => Some(i + 1)
  }

  /** `e.find(tag)` for a plain tag: the first direct child with that tag. */
  function Find(e: Elem, tag: string): Option<Elem> {
    match FindIndex(e.children, tag)
    case None => None
    case Some(i) => Some(e.children[i])
  }

  /** The children of `cs` tagged `tag`, in document order. */
  function Tagged(cs: seq<Elem>, tag: string): (r: seq<Elem>)
    ensures forall x :: x in r <==> x in cs && x.tag == tag
  {
    if cs == [] then []
    else Tagged(cs[..|cs| - 1], tag) + (if cs[|cs| - 1].tag == tag then [cs[|cs| - 1]] else [])
  }

  /** `findall` keeps document order and repetitions: filtering a concatenation
      is concatenating the filtered parts. */
  lemma {:induction false} TaggedAppend(a: seq<Elem>, b: seq<Elem>, tag: string)
    ensures Tagged(a + b, tag) == Tagged(a, tag) + Tagged(b, tag)
  {
    if b == [] {
      assert a + b == a;
      assert Tagged(a, tag) + [] == Tagged(a, tag);
    } else {
      var n := |b| - 1;
      var init, last := b[..n], b[n];
      var ab := a + b;
      var x := if last.tag == tag then [last] else [];
      SplitLast(a, b);
      assert Tagged(ab, tag) == Tagged(a + init, tag) + x;
      assert Tagged(b, tag) == Tagged(init, tag) + x;
      TaggedAppend(a, init, tag);
      assert Tagged(a, tag) + Tagged(init, tag) + x == Tagged(a, tag) + (Tagged(init, tag) + x);
    }
  }

  /** One child is kept exactly when it has the tag. */
  lemma TaggedOne(x: Elem, tag: string)
    ensures Tagged([x], tag) == if x.tag == tag then [x] else []
  {
    assert [x][..0] == [];
  }

  /** `e.findall(tag)`. */
  function FindAll(e: Elem, tag: string): seq<Elem> {
    Tagged(e.children, tag)
  }

  /** The first element tagged `tag` in a pre-order walk of the forest `es`. */
  function FirstInForest(es: seq<Elem>, tag: string): (r: Option<Elem>)
    ensures r.Some? ==> r.value.tag == tag
    decreases es
  {
    if es == [] then None
    else if es[0].tag == tag then Some(es[0])
    else match FirstInForest(es[0].children, tag)
      case Some(d) => Some(d)
      case None => FirstInForest(es[1..], tag)
  }

  /** `e.find(".//" + tag)`: the first proper descendant tagged `tag`, in
      document order. */
  function FindDescendant(e: Elem, tag: string): Option<Elem> {
    FirstInForest(e.children, tag)
  }

  /** Every element of the forest `es`, in document (pre-)order: each element
      comes before its descendants, which come before its later siblings. */
  function PreOrder(es: seq<Elem>): (r: seq<Elem>)
    ensures forall x :: x in es ==> x in r
    decreases es
  {
    if es == [] then []
    else [es[0]] + PreOrder(es[0].children) + PreOrder(es[1..])
  }

  /** The first element of `xs` tagged `tag`. */
  function FirstTagged(xs: seq<Elem>, tag: string): Option<Elem> {
    match FindIndex(xs, tag)
    case None => None
    case Some(i) => Some(xs[i])
  }

  /** The first tagged position is the only one with nothing tagged before it. */
  lemma FindIndexUnique(xs: seq<Elem>, tag: string, i: nat)
    requires i < |xs| && xs[i].tag == tag
    requires forall j :: 0 <= j < i ==> xs[j].tag != tag
    ensures FindIndex(xs, tag) == Some(i)
  {
  }

  lemma FirstTaggedAppend(a: seq<Elem>, b: seq<Elem>, tag: string)
    ensures FirstTagged(a + b, tag) == if FirstTagged(a, tag).Some? then FirstTagged(a, tag) else FirstTagged(b, tag)
  {
    var ab := a + b;
    assert forall j :: 0 <= j < |a| ==> ab[j] == a[j];
    assert forall j :: |a| <= j < |ab| ==> ab[j] == b[j - |a|];
    if FindIndex(a, tag).Some? {
      FindIndexUnique(ab, tag, FindIndex(a, tag).value);
    } else if FindIndex(b, tag).Some? {
      FindIndexUnique(ab, tag, |a| + FindIndex(b, tag).value);
    }
  }

  /** The recursive walk of `find(".//tag")` finds the first tagged element of
      the pre-order sequence. */
  lemma {:induction false} FirstInForestPreOrder(es: seq<Elem>, tag: string)
    ensures FirstInForest(es, tag) == FirstTagged(PreOrder(es), tag)
    decreases es
  {
    if es != [] {
      FirstInForestPreOrder(es[0].children, tag);
      FirstInForestPreOrder(es[1..], tag);
      FirstTaggedAppend([es[0]], PreOrder(es[0].children) + PreOrder(es[1..]), tag);
      FirstTaggedAppend(PreOrder(es[0].children), PreOrder(es[1..]), tag);
      assert [es[0]] + PreOrder(es[0].children) + PreOrder(es[1..])
          == [es[0]] + (PreOrder(es[0].children) + PreOrder(es[1..]));
    }
  }

  /** `find(".//tag")` finds nothing exactly when no element of the forest is
      tagged `tag`; otherwise it finds the first tagged element in document
      order. */
  lemma FirstInForestIsFirst(es: seq<Elem>, tag: string)
    ensures var r := FirstInForest(es, tag); var p := PreOrder(es);
      && (r.None? <==> forall x :: x in p ==> x.tag != tag)
      && (r.Some? ==> exists i :: 0 <= i < |p| && p[i] == r.value && r.value.tag == tag
                                 && forall j :: 0 <= j < i ==> p[j].tag != tag)
  {
    FirstInForestPreOrder(es, tag);
    var p := PreOrder(es);
    if FindIndex(p, tag).None? {
      forall x | x in p ensures x.tag != tag {
        var j :| 0 <= j < |p| && p[j] == x;
      }
    }
  }
}
