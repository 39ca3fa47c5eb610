/**
 * The proposal collection and the operations of main.go that touch it:
 * `storeProposal`, `getProposals`, `getProposal`, and the `POST /propuestas`
 * handler as `Submit`. The document store is an in-memory sequence of
 * records; the backend's failures are parameters.
 */
module Store {
  import opened Wrappers
  import opened Proposals
  import Decimal

  const InvalidEmailMessage := "Dirección inválida"
  const InvalidCategoryMessage := "Categoría inválida"
  const GenericMessage := "Error"

  /** The error tags the submission handler can show. */
  datatype SubmitError = InvalidEmail | InvalidCategory | Generic

  /** The outcome the handler renders with the listing. */
  datatype Outcome = Succeeded | Failed(error: SubmitError)

  /** The fields of the submitted form, as posted. */
  datatype Form = Form(name: string, email: string, category: string, title: string, content: string)

  /**
   * Which backend calls fail during one submission: the listing read on
   * entry, the insert, and the listing read after a successful insert.
   */
  datatype Faults = Faults(listFails: bool, insertFails: bool, relistFails: bool)

  /** The message table of main.go: the text the page shows for each error tag `Submit` returns. */
  function Message(e: SubmitError): (m: string)
    ensures e == Generic <==> m == GenericMessage
    ensures e == InvalidEmail <==> m == InvalidEmailMessage
    ensures e == InvalidCategory <==> m == InvalidCategoryMessage
  {
    match e
    case InvalidEmail => InvalidEmailMessage
    case InvalidCategory => InvalidCategoryMessage
    case Generic => GenericMessage
  }

  /** The category check of the handler: `strconv.Atoi` succeeds and `0 <= cat <= 4`. */
  predicate AcceptedCategory(raw: string): (ok: bool)
    ensures ok ==> |raw| > 0 && Decimal.ParseInt(raw).Some?
  {
    var cat := Decimal.ParseInt(raw);
    cat.Some? && 0 <= cat.value <= MaxCategory
  }

  /** Every category number the form accepts is written by its own decimal form. */
  lemma AcceptedCategoriesRoundTrip(c: int)
    ensures AcceptedCategory(Decimal.FormatInt(c)) <==> 0 <= c <= MaxCategory
    ensures 0 <= c <= MaxCategory ==> Decimal.ParseInt(Decimal.FormatInt(c)) == Some(c)
  {
  }

  /** Non-canonical spellings of a category pass the check as their plain form does: "02" and "+2" as "2". */
  lemma AcceptedCategorySpellings(s: string)
    requires |s| > 0 && Decimal.AllDigits(s)
    ensures AcceptedCategory("0" + s) == AcceptedCategory(s)
    ensures AcceptedCategory("+" + s) == AcceptedCategory(s)
    ensures Decimal.ParseInt("0" + s) == Decimal.ParseInt(s) == Decimal.ParseInt("+" + s)
  {
    Decimal.ParseIntLeadingZero(s);
    Decimal.ParseIntPlusSign(s);
  }

  /** A minus sign before a digit run passes the check only for a zero run: "-0" and "-00" are category 0. */
  lemma AcceptedCategoryMinusSign(s: string)
    requires |s| > 0 && Decimal.AllDigits(s)
    ensures AcceptedCategory("-" + s) <==> Decimal.DigitsValue(s) == 0
    ensures Decimal.DigitsValue(s) == 0 ==> Decimal.ParseInt("-" + s) == Some(0)
  {
    Decimal.ParseIntMinusSign(s);
  }

  /** The collection of proposals, with the counter that stands for fresh ObjectIds. */
  class ProposalStore {
    var docs: seq<Proposal>
    var nextId: nat

    /** Identifiers grow in storage order and the counter is above all of them. */
    ghost predicate Valid()
      reads this
    {
      IdsIncreasing(docs) && forall k :: 0 <= k < |docs| ==> docs[k].id < nextId
    }

    /** A collection holding the given records, which may include unapproved ones written by other means. */
    constructor (existing: seq<Proposal>)
      requires IdsIncreasing(existing)
      ensures Valid() && docs == existing
    {
      docs := existing;
      nextId := if existing == [] then 0 else existing[|existing| - 1].id + 1;
    }

    /**
     * `storeProposal`: stamps a fresh identifier, forces approval and inserts.
     * The identifier is drawn before the insert, so the counter moves on
     * even when the insert fails.
     */
    method StoreProposal(p: Proposal, insertFails: bool) returns (stored: Proposal, ok: bool)
      requires Valid()
      modifies this
      ensures Valid()
      ensures stored == p.(id := old(nextId), approved := true)
      ensures forall k :: 0 <= k < |old(docs)| ==> old(docs)[k].id != stored.id
      ensures ok == !insertFails
      ensures docs == if ok then old(docs) + [stored] else old(docs)
      ensures nextId == old(nextId) + 1
    {
      stored := p.(id := nextId, approved := true);
      nextId := nextId + 1;
      ok := !insertFails;
      if ok {
        docs := docs + [stored];
      }
    }

    /**
     * `getProposals`: the approved records, newest first, each rendered.
     * A failing query yields no items.
     */
    method GetProposals(queryFails: bool) returns (results: seq<ProposalItem>, ok: bool)
      ensures ok == !queryFails
      ensures ok ==> results == Listing(docs)
      ensures !ok ==> results == []
    {
      results := [];
      if queryFails {
        return results, false;
      }
      var proposals := NewestApproved(docs);
      var i := 0;
      while i < |proposals|
        invariant 0 <= i <= |proposals|
        invariant results == RenderAll(proposals[..i])
      {
        assert proposals[..i + 1][..i] == proposals[..i];
        results := results + [RenderProposal(proposals[i])];
        i := i + 1;
      }
      assert proposals[..i] == proposals;
      ok := true;
    }

    /** `getProposal`: the record with that identifier, rendered, whether approved or not. */
    method GetProposal(id: nat) returns (item: Option<ProposalItem>)
      ensures item.Some? <==> exists k :: 0 <= k < |docs| && docs[k].id == id
      ensures item.Some? ==> exists k :: 0 <= k < |docs| && docs[k].id == id && item.value == RenderProposal(docs[k])
    {
      item := None;
      var i := 0;
      while i < |docs|
        invariant 0 <= i <= |docs|
        invariant forall k :: 0 <= k < i ==> docs[k].id != id
      {
        if docs[i].id == id {
          return Some(RenderProposal(docs[i]));
        }
        i := i + 1;
      }
    }

    /**
     * The `POST /propuestas` handler. The listing is read first; then the
     * e-mail address is checked, then the category; the first failure ends
     * the request with that listing and nothing written. A valid submission
     * is stored approved with a fresh identifier, and the listing is read
     * again. `validFormat` is `checkmail.ValidateFormat` and `stripTags` is
     * `strip.StripTags`, both taken as given.
     */
    method Submit(form: Form, validFormat: string -> bool, stripTags: string -> string, faults: Faults)
      returns (outcome: Outcome, listing: seq<ProposalItem>)
      requires Valid()
      modifies this
      ensures Valid()
      ensures !validFormat(stripTags(form.email)) ==> outcome == Failed(InvalidEmail)
      ensures validFormat(stripTags(form.email)) && !AcceptedCategory(form.category) ==>
        outcome == Failed(InvalidCategory)
      ensures validFormat(stripTags(form.email)) && AcceptedCategory(form.category) ==>
        outcome == if faults.insertFails then Failed(Generic) else Succeeded
      ensures outcome.Failed? ==> docs == old(docs)
      ensures outcome.Failed? ==> listing == if faults.listFails then [] else Listing(old(docs))
      ensures outcome == Succeeded ==>
        docs == old(docs) + [Proposal(old(nextId), stripTags(form.name), stripTags(form.email),
                                      Decimal.ParseInt(form.category).value,
                                      stripTags(form.title), stripTags(form.content), true)]
      ensures outcome == Succeeded && !faults.relistFails ==>
        listing == [RenderProposal(docs[|docs| - 1])] + Listing(old(docs))
      ensures outcome == Succeeded && faults.relistFails ==> listing == []
      ensures nextId == if validFormat(stripTags(form.email)) && AcceptedCategory(form.category)
                        then old(nextId) + 1 else old(nextId)
    {
      var ok;
      listing, ok := GetProposals(faults.listFails);

      var name := stripTags(form.name);
      var email := stripTags(form.email);
      if !validFormat(email) {
        return Failed(InvalidEmail), listing;
      }

      var cat := Decimal.ParseInt(form.category);
      if cat.None? {
        return Failed(InvalidCategory), listing;
      }
      if cat.value > MaxCategory || cat.value < 0 {
        return Failed(InvalidCategory), listing;
      }
      var title := stripTags(form.title);
      var content := stripTags(form.content);
      var p := Proposal(0, name, email, cat.value, title, content, false);
      var stored;
      stored, ok := StoreProposal(p, faults.insertFails);
      if !ok {
        return Failed(Generic), listing;
      }

      ListingAfterInsert(old(docs), stored);
      listing, ok := GetProposals(faults.relistFails);
      outcome := Succeeded;
    }
  }

  /** The end-to-end submissions: a bad address, an out-of-range category, then a valid one. */
  method SubmissionScenario() {
    var store := new ProposalStore([]);
    var validFormat := (e: string) => e == "ana@example.com";
    var stripTags := (s: string) => s;
    var noFaults := Faults(false, false, false);

    var outcome, listing := store.Submit(Form("Ana", "bad-email", "1", "T", "C"), validFormat, stripTags, noFaults);
    assert outcome == Failed(InvalidEmail) && store.docs == [];

    Decimal.ParseSingleDigit(9);
    assert Decimal.DigitChar(9) == '9';
    outcome, listing := store.Submit(Form("Ana", "ana@example.com", "9", "T", "C"), validFormat, stripTags, noFaults);
    assert outcome == Failed(InvalidCategory) && store.docs == [];

    Decimal.ParseSingleDigit(2);
    assert Decimal.DigitChar(2) == '2';
    outcome, listing := store.Submit(Form("Ana", "ana@example.com", "2", "T", "C"), validFormat, stripTags, noFaults);
    assert outcome == Succeeded && |store.docs| == 1;
    DigitalEconomyCategory();
    assert listing[0].category == "Economía Digital" && listing[0].categoryLink == "/economia-digital";
  }
}
