/** The citation list shown under a report: which citations are shown and how. */
module LinkList {
  import opened Wrappers
  import opened Types

  /** One rendered list item: the target of the anchor and its text. */
  datatype LinkItem = LinkItem(href: string, text: string)

  /** `link.web?.uri` is truthy: the citation has a web part with a non-empty address. */
  predicate IsValid(link: GroundingChunk) {
    link.web.Some? && Truthy(link.web.value.uri)
  }

  /** `links.filter(link => link.web?.uri)` */
  function ValidLinks(links: seq<GroundingChunk>): (valid: seq<GroundingChunk>)
    ensures |valid| <= |links|
    ensures forall k :: 0 <= k < |valid| ==> IsValid(valid[k])
    ensures forall x :: x in valid ==> x in links
    ensures forall k :: 0 <= k < |links| && IsValid(links[k]) ==> links[k] in valid
    decreases |links|
  {
    if links == [] then []
    else
      var rest := ValidLinks(links[1..]);
      assert forall x :: x in links[1..] ==> x in links;
      if IsValid(links[0]) then [links[0]] + rest else rest
  }

  /**
   * The filter distributes over concatenation, so it keeps the valid links in
   * the order in which they arrive.
   */
  lemma {:induction false} ValidLinksAppend(a: seq<GroundingChunk>, b: seq<GroundingChunk>)
    ensures ValidLinks(a + b) == ValidLinks(a) + ValidLinks(b)
    decreases |a|
  {
    if a == [] {
      assert a + b == b;
    } else {
      assert (a + b)[0] == a[0] && (a + b)[1..] == a[1..] + b;
      ValidLinksAppend(a[1..], b);
    }
  }

  /** On a single link the filter keeps it exactly when it is valid. */
  lemma ValidLinksSingleton(link: GroundingChunk)
    ensures ValidLinks([link]) == if IsValid(link) then [link] else []
  {
    assert [link][1..] == [];
  }

  /** No link survives the filter exactly when no link is valid. */
  lemma ValidLinksEmpty(links: seq<GroundingChunk>)
    ensures ValidLinks(links) == [] <==> forall k :: 0 <= k < |links| ==> !IsValid(links[k])
  {
    if ValidLinks(links) != [] {
      var x := ValidLinks(links)[0];
      assert x in links;
    }
  }

  /** `link.web?.title || link.web?.uri`: the title when it is non-empty, otherwise the address. */
  function Label(link: GroundingChunk): (caption: string)
    requires IsValid(link)
    ensures caption != ""
    ensures Truthy(link.web.value.title) ==> caption == link.web.value.title.value
    ensures !Truthy(link.web.value.title) ==> caption == link.web.value.uri.value
  {
    var web := link.web.value;
    if Truthy(web.title) then web.title.value else web.uri.value
  }

  /** The list item for one valid link: it points at the link's address. */
  function ItemFor(link: GroundingChunk): (item: LinkItem)
    requires IsValid(link)
    ensures item.href == link.web.value.uri.value && item.text == Label(link)
  {
    LinkItem(link.web.value.uri.value, Label(link))
  }

  /** `validLinks.map(...)`: one item per valid link, in the same order. */
  function Items(valid: seq<GroundingChunk>): (items: seq<LinkItem>)
    requires forall k :: 0 <= k < |valid| ==> IsValid(valid[k])
    ensures |items| == |valid|
    ensures forall k :: 0 <= k < |valid| ==> items[k] == ItemFor(valid[k])
  {
    seq(|valid|, k requires 0 <= k < |valid| => ItemFor(valid[k]))
  }

  /**
   * What the component renders: nothing (`None`) when there are no links or
   * no valid link, otherwise the items of the valid links.
   */
  function Render(links: seq<GroundingChunk>): Option<seq<LinkItem>> {
    if |links| == 0 then None
    else
      var valid := ValidLinks(links);
      if |valid| == 0 then None else Some(Items(valid))
  }

  /** The component renders nothing exactly when no link is valid (an empty list has none). */
  lemma RenderNothing(links: seq<GroundingChunk>)
    ensures Render(links).None? <==> forall k :: 0 <= k < |links| ==> !IsValid(links[k])
  {
    ValidLinksEmpty(links);
  }

  /**
   * When something is rendered, there is one item per valid link, in order,
   * pointing at that link's address and labelled with its title or address.
   */
  lemma RenderItems(links: seq<GroundingChunk>)
    requires Render(links).Some?
    ensures |Render(links).value| == |ValidLinks(links)| > 0
    ensures forall k :: 0 <= k < |ValidLinks(links)| ==>
      Render(links).value[k].href == ValidLinks(links)[k].web.value.uri.value &&
      Render(links).value[k].text == Label(ValidLinks(links)[k])
  {
  }
}
