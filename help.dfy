/** The Help page's FAQ search: questions narrowed by a search term,
    categories that lose every question hidden. */
module Help {
  import opened Strings
  import opened Lists

  datatype Faq = Faq(q: string, a: string)

  /** A category of questions; the icon is named by its component name. */
  datatype FaqCategory = FaqCategory(category: string, icon: string, color: string, questions: seq<Faq>)

  /** The search box starts empty, and "Clear search" empties it again. */
  const INITIAL_SEARCH_TERM: string := ""
  const CLEARED_SEARCH_TERM: string := ""

  /** The lowercased question or the lowercased answer contains the
      lowercased term. */
  predicate FaqMatches(f: Faq, term: string) {
    Contains(Lower(f.q), Lower(term)) || Contains(Lower(f.a), Lower(term))
  }

  /** `{ ...category, questions: category.questions.filter(…) }`. */
  function Narrowed(c: FaqCategory, term: string): (r: FaqCategory)
    ensures r.category == c.category && r.icon == c.icon && r.color == c.color
    ensures forall f :: f in r.questions <==> f in c.questions && FaqMatches(f, term)
    ensures IsSubsequence(r.questions, c.questions)
  {
    var p := (f: Faq) => FaqMatches(f, term);
    forall f ensures f in Filter(c.questions, p) <==> f in c.questions && FaqMatches(f, term) {
      FilterMembership(c.questions, p, f);
    }
    FilterIsSubsequence(c.questions, p);
    c.(questions := Filter(c.questions, p))
  }

  /** `faqs.map(…)`: every category narrowed, in order. */
  function NarrowAll(faqs: seq<FaqCategory>, term: string): (r: seq<FaqCategory>)
    ensures |r| == |faqs|
    ensures forall i :: 0 <= i < |faqs| ==> r[i] == Narrowed(faqs[i], term)
  {
    if faqs == [] then [] else [Narrowed(faqs[0], term)] + NarrowAll(faqs[1..], term)
  }

  predicate HasQuestions(c: FaqCategory) {
    |c.questions| > 0
  }

  /** `filteredFaqs`: the narrowed categories that still hold a question,
      in their order. */
  function FilteredFaqs(faqs: seq<FaqCategory>, term: string): (r: seq<FaqCategory>)
    ensures forall i :: 0 <= i < |r| ==> HasQuestions(r[i])
    ensures forall c :: c in r <==> c in NarrowAll(faqs, term) && HasQuestions(c)
    ensures IsSubsequence(r, NarrowAll(faqs, term))
  {
    var r := Filter(NarrowAll(faqs, term), HasQuestions);
    forall c ensures c in r <==> c in NarrowAll(faqs, term) && HasQuestions(c) {
      FilterMembership(NarrowAll(faqs, term), HasQuestions, c);
    }
    FilterIsSubsequence(NarrowAll(faqs, term), HasQuestions);
    r
  }

  /** A category is shown exactly when one of its questions matches, and
      then with exactly its matching questions. */
  lemma CategoryShownIff(faqs: seq<FaqCategory>, term: string, k: nat)
    requires k < |faqs|
    ensures Narrowed(faqs[k], term) in FilteredFaqs(faqs, term)
        <==> exists f :: f in faqs[k].questions && FaqMatches(f, term)
  {
    var n := Narrowed(faqs[k], term);
    assert n == NarrowAll(faqs, term)[k];
    if exists f :: f in faqs[k].questions && FaqMatches(f, term) {
      var f :| f in faqs[k].questions && FaqMatches(f, term);
      assert f in n.questions;
    }
    if HasQuestions(n) {
      assert n.questions[0] in n.questions;
    }
  }

  /** The empty term matches every question. */
  lemma EverythingMatchesEmpty(f: Faq)
    ensures FaqMatches(f, "")
  {
    ContainsEmpty(Lower(f.q));
  }

  /** With the empty term every question is kept, and only categories that
      had no questions to begin with are hidden. */
  lemma {:induction false} EmptyTermKeepsQuestions(faqs: seq<FaqCategory>)
    ensures NarrowAll(faqs, "") == faqs
    ensures FilteredFaqs(faqs, "") == Filter(faqs, HasQuestions)
  {
    forall i | 0 <= i < |faqs| ensures Narrowed(faqs[i], "") == faqs[i] {
      var qs := faqs[i].questions;
      forall j | 0 <= j < |qs| ensures FaqMatches(qs[j], "") {
        EverythingMatchesEmpty(qs[j]);
      }
      FilterAll(qs, (f: Faq) => FaqMatches(f, ""));
    }
  }

  /** The page as first shown, and again after "Clear search": every
      category and every question, when each category has a question. */
  lemma ClearedSearchShowsAll(faqs: seq<FaqCategory>)
    requires forall i :: 0 <= i < |faqs| ==> HasQuestions(faqs[i])
    ensures FilteredFaqs(faqs, INITIAL_SEARCH_TERM) == faqs
    ensures FilteredFaqs(faqs, CLEARED_SEARCH_TERM) == faqs
  {
    EmptyTermKeepsQuestions(faqs);
    FilterAll(faqs, HasQuestions);
  }
}
