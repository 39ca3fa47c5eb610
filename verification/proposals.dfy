/**
 * Proposal records and their presentation (main.go): the fixed category
 * table, `renderProposal`, and the listing query of `getProposals`
 * (approved records only, newest identifier first).
 */
module Proposals {
  import opened Text

  /** The largest category number the submission form accepts. */
  const MaxCategory := 4

  /**
   * A stored proposal. The store's ObjectId is modelled as a natural number
   * handed out in increasing order.
   */
  datatype Proposal = Proposal(
    id: nat,
    name: string,
    email: string,
    category: int,
    title: string,
    content: string,
    approved: bool)

  /** The display projection of a proposal (`ProposalItem`, without its date). */
  datatype ProposalItem = ProposalItem(
    id: nat,
    name: string,
    category: string,
    categoryLink: string,
    truncatedTitle: string,
    title: string,
    truncatedContent: string,
    content: string)

  /** A category's label and the page it links to. */
  datatype CategoryInfo = CategoryInfo(name: string, link: string)

  /** The fallback for every number outside the table. */
  const General := CategoryInfo("General", "#")

  predicate IsNamedCategory(c: int) { 1 <= c <= MaxCategory }

  /**
   * The fixed category table of `renderProposal`: categories 1 to 4 have
   * their own label and page; every other number, 0 and negatives included,
   * falls back to "General" and "#".
   */
  function CategoryOf(c: int): (info: CategoryInfo)
    ensures IsNamedCategory(c) <==> info != General
    ensures info.link == General.link <==> !IsNamedCategory(c)
    ensures info.name == General.name <==> !IsNamedCategory(c)
  {
    match c
    case 1 => CategoryInfo("Gobierno Digital", "/gobierno-digital")
    case 2 => CategoryInfo("Economía Digital", "/economia-digital")
    case 3 => CategoryInfo("Conectividad", "/conectividad")
    case 4 => CategoryInfo("Fortalecimiento Institucional", "/fortalecimiento-institucional")
    case _ => General
  }

  /** Distinct named categories lead to distinct pages. */
  lemma CategoryLinksDistinct(a: int, b: int)
    requires IsNamedCategory(a) && IsNamedCategory(b) && a != b
    ensures CategoryOf(a).link != CategoryOf(b).link
  {
  }

  /** Category 2 is shown as "Economía Digital" and links to "/economia-digital". */
  lemma DigitalEconomyCategory()
    ensures CategoryOf(2) == CategoryInfo("Economía Digital", "/economia-digital")
  {
  }

  /**
   * `renderProposal`: a pure projection of a stored record. Identifier,
   * name and title pass unchanged, a real link is shown exactly for the
   * named categories, the content loses every CR and LF, and the short
   * forms are of bounded length.
   */
  function RenderProposal(p: Proposal): (item: ProposalItem)
    ensures item.id == p.id && item.name == p.name && item.title == p.title
    ensures item.categoryLink != "#" <==> IsNamedCategory(p.category)
    ensures '\r' !in item.content && '\n' !in item.content
    ensures |item.truncatedTitle| <= TruncateLimit + |Ellipsis|
    ensures |item.truncatedContent| <= TruncateLimit + |Ellipsis|
    ensures CategoryInfo(item.category, item.categoryLink) == CategoryOf(p.category)
    ensures item.truncatedTitle == Truncate(p.title) && item.truncatedContent == Truncate(p.content)
    ensures item.content == FormatContent(p.content)
  {
    var info := CategoryOf(p.category);
    ProposalItem(
      p.id,
      p.name,
      info.name,
      info.link,
      Truncate(p.title),
      p.title,
      Truncate(p.content),
      FormatContent(p.content))
  }

  /**
   * The short content is cut from the raw content, not from the formatted
   * one: a short content keeps its newlines there while the full content
   * shows line-break tags instead.
   */
  lemma TruncatedContentIsRaw(p: Proposal)
    ensures var n := if |p.content| < TruncateLimit then |p.content| else TruncateLimit;
      n <= |RenderProposal(p).truncatedContent| && RenderProposal(p).truncatedContent[..n] == p.content[..n]
    ensures |p.content| <= TruncateLimit ==> RenderProposal(p).truncatedContent == p.content
    ensures '\n' in p.content && |p.content| <= TruncateLimit ==>
      '\n' in RenderProposal(p).truncatedContent && '\n' !in RenderProposal(p).content
  {
    var n := if |p.content| < TruncateLimit then |p.content| else TruncateLimit;
    TruncateKeepsPrefix(p.content, n);
  }

  /** The e-mail address and the approval flag are never shown. */
  lemma RenderIgnoresHiddenFields(p: Proposal, email: string, approved: bool)
    ensures RenderProposal(p.(email := email, approved := approved)) == RenderProposal(p)
  {
  }

  /** Presenting a list of records one by one, in order. */
  function RenderAll(ps: seq<Proposal>): (items: seq<ProposalItem>)
    ensures |items| == |ps|
    ensures forall k :: 0 <= k < |ps| ==> items[k] == RenderProposal(ps[k])
  {
    MapSeq(RenderProposal, ps)
  }

  /** Applying `f` to every element, in order. */
  function MapSeq<A, B>(f: A -> B, s: seq<A>): (r: seq<B>)
    ensures |r| == |s|
    ensures forall k :: 0 <= k < |s| ==> r[k] == f(s[k])
  {
    if s == [] then [] else MapSeq(f, s[..|s| - 1]) + [f(s[|s| - 1])]
  }

  /** Identifiers strictly increase in storage order. */
  ghost predicate IdsIncreasing(docs: seq<Proposal>) {
    forall i, j :: 0 <= i < j < |docs| ==> docs[i].id < docs[j].id
  }

  /** Identifiers strictly decrease along the sequence. */
  ghost predicate IdsDecreasing(docs: seq<Proposal>) {
    forall i, j :: 0 <= i < j < |docs| ==> docs[i].id > docs[j].id
  }

  /**
   * The query `Find({approved: true}).Sort("-_id")` over a collection whose
   * identifiers grow in storage order: the approved records, last stored first.
   */
  function NewestApproved(docs: seq<Proposal>): (r: seq<Proposal>)
    ensures forall x :: x in r <==> x in docs && x.approved
    ensures |r| <= |docs|
  {
    if docs == [] then []
    else
      var last := docs[|docs| - 1];
      (if last.approved then [last] else []) + NewestApproved(docs[..|docs| - 1])
  }

  /** The query's result is ordered by strictly descending identifier. */
  lemma {:induction false} NewestApprovedDescending(docs: seq<Proposal>)
    requires IdsIncreasing(docs)
    ensures IdsDecreasing(NewestApproved(docs))
  {
    if docs != [] {
      var init := docs[..|docs| - 1];
      var last := docs[|docs| - 1];
      NewestApprovedDescending(init);
      var rest := NewestApproved(init);
      forall x | x in rest ensures x.id < last.id {
        var i :| 0 <= i < |init| && init[i] == x;
        assert docs[i] == x;
      }
    }
  }

  /** An empty collection yields an empty listing, never an error. */
  lemma EmptyStoreEmptyListing()
    ensures NewestApproved([]) == [] && Listing([]) == []
  {
  }

  /** An approved record appended to the collection heads the listing; an unapproved one never shows. */
  lemma ListingAfterInsert(docs: seq<Proposal>, p: Proposal)
    ensures p.approved ==> Listing(docs + [p]) == [RenderProposal(p)] + Listing(docs)
    ensures !p.approved ==> Listing(docs + [p]) == Listing(docs)
  {
    assert (docs + [p])[..|docs|] == docs;
  }

  /** What `getProposals` shows for a collection. */
  function Listing(docs: seq<Proposal>): (items: seq<ProposalItem>)
    ensures |items| == |NewestApproved(docs)|
  {
    RenderAll(NewestApproved(docs))
  }
}
