/**
 * The parsed XML document that `xml.etree.ElementTree` hands to the gamelist code, and the two
 * queries the code runs on it: `find(tag)` and `findall(".//tag")`. Attributes and tails are not
 * read by the code and are not represented.
 */
module ElementTree {
  import opened Wrappers

  /** An element: its tag, its text (`None` when the element has no character data) and its children in document order. */
  datatype Element = Element(tag: string, text: Option<string>, children: seq<Element>)

  /** `e.find(tag)`: the first direct child of `e` whose tag is `tag`. */
  function Find(e: Element, tag: string): (r: Option<Element>)
    ensures r.Some? ==> r.value in e.children && r.value.tag == tag
  {
    FirstWithTag(e.children, tag)
  }

  function FirstWithTag(cs: seq<Element>, tag: string): (r: Option<Element>)
    ensures r.Some? ==> r.value in cs && r.value.tag == tag
  {
    if cs == [] then None
    else if cs[0].tag == tag then Some(cs[0])
    else FirstWithTag(cs[1..], tag)
  }

  lemma {:induction false} FirstWithTagIsFirst(cs: seq<Element>, tag: string)
    ensures FirstWithTag(cs, tag).Some? <==> exists i :: 0 <= i < |cs| && cs[i].tag == tag
    ensures FirstWithTag(cs, tag).Some? ==>
              exists i :: 0 <= i < |cs| && cs[i] == FirstWithTag(cs, tag).value && forall j :: 0 <= j < i ==> cs[j].tag != tag
  {
    if cs != [] && cs[0].tag != tag {
      FirstWithTagIsFirst(cs[1..], tag);
      if exists i :: 0 <= i < |cs| && cs[i].tag == tag {
        var i :| 0 <= i < |cs| && cs[i].tag == tag;
        assert cs[1..][i - 1].tag == tag;
      }
      if FirstWithTag(cs, tag).Some? {
        var i :| 0 <= i < |cs[1..]| && cs[1..][i] == FirstWithTag(cs, tag).value && forall j :: 0 <= j < i ==> cs[1..][j].tag != tag;
        assert forall j :: 0 <= j < i + 1 ==> cs[j].tag != tag by {
          forall j | 0 <= j < i + 1 ensures cs[j].tag != tag {
            if j > 0 {
              assert cs[j] == cs[1..][j - 1];
            }
          }
        }
      }
    }
  }

  /** `find` finds something iff some direct child has the tag, and then it is the first such child. */
  lemma FindIsFirst(e: Element, tag: string)
    ensures Find(e, tag).Some? <==> exists i :: 0 <= i < |e.children| && e.children[i].tag == tag
    ensures Find(e, tag).Some? ==>
              exists i :: 0 <= i < |e.children| && e.children[i] == Find(e, tag).value && Find(e, tag).value.tag == tag
                          && forall j :: 0 <= j < i ==> e.children[j].tag != tag
  {
    FirstWithTagIsFirst(e.children, tag);
  }

  /** Every element strictly below the elements of `cs`, with each element of `cs` itself, in document (pre-)order. */
  function Preorder(cs: seq<Element>): seq<Element>
    decreases cs
  {
    if cs == [] then [] else [cs[0]] + Preorder(cs[0].children) + Preorder(cs[1..])
  }

  /** All descendants of `e` in document order, `e` itself excluded: what `e.iter()` yields after `e`. */
  function Descendants(e: Element): seq<Element> {
    Preorder(e.children)
  }

  /** `e.findall(".//" + tag)`: every descendant of `e` (not `e` itself) whose tag is `tag`, in document order. */
  function FindAll(e: Element, tag: string): (r: seq<Element>)
    ensures |r| <= |Descendants(e)|
  {
    WithTag(Descendants(e), tag)
  }

  /** The elements of `s` whose tag is `tag`, order kept. */
  function WithTag(s: seq<Element>, tag: string): (r: seq<Element>)
    ensures |r| <= |s|
  {
    if s == [] then []
    else (if s[0].tag == tag then [s[0]] else []) + WithTag(s[1..], tag)
  }

  /** Filtering by tag keeps the order of `s`: on a concatenation it is the filter of each part, in order. */
  lemma {:induction false} WithTagAppend(a: seq<Element>, b: seq<Element>, tag: string)
    ensures WithTag(a + b, tag) == WithTag(a, tag) + WithTag(b, tag)
  {
    if a == [] {
      assert a + b == b;
    } else {
      var ab := a + b;
      assert ab[0] == a[0];
      assert ab[1..] == a[1..] + b;
      WithTagAppend(a[1..], b, tag);
      var head := if a[0].tag == tag then [a[0]] else [];
      assert WithTag(ab, tag) == head + WithTag(a[1..] + b, tag);
      assert WithTag(a, tag) == head + WithTag(a[1..], tag);
    }
  }

  lemma {:induction false} WithTagMembers(s: seq<Element>, tag: string, x: Element)
    ensures x in WithTag(s, tag) <==> x in s && x.tag == tag
  {
    if s != [] {
      WithTagMembers(s[1..], tag, x);
      assert s == [s[0]] + s[1..];
    }
  }

  /** `findall(".//" + tag)` holds exactly the descendants with that tag. */
  lemma FindAllMembers(e: Element, tag: string, x: Element)
    ensures x in FindAll(e, tag) <==> x in Descendants(e) && x.tag == tag
  {
    WithTagMembers(Descendants(e), tag, x);
  }
}
