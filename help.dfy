/** The help page (src/components/Help.js): the search over the frequently asked
    questions, grouped by category, and the accordion that shows one answer at a time. */
module Help {
  import opened Options
  import opened Text
  import opened Lists

  datatype Question = Question(q: string, a: string)

  datatype FaqCategory = FaqCategory(category: string, questions: seq<Question>)

  /** A question is kept when its question or its answer contains the term, ignoring case.
      The term is lower-cased but not trimmed. */
  predicate QuestionMatches(x: Question, term: string) {
    IncludesFolded(x.q, term) || IncludesFolded(x.a, term)
  }

  function QuestionMatchesTerm(term: string): Question -> bool {
    (x: Question) => QuestionMatches(x, term)
  }

  /** One category with only its matching questions, in their order. */
  function Narrowed(c: FaqCategory, term: string): (r: FaqCategory)
    ensures r.category == c.category
    ensures forall x :: x in r.questions <==> x in c.questions && QuestionMatches(x, term)
    ensures forall x :: multiset(r.questions)[x] == if QuestionMatches(x, term) then multiset(c.questions)[x] else 0
    ensures IsSubsequence(r.questions, c.questions)
  {
    FilterIsSubsequence(c.questions, QuestionMatchesTerm(term));
    c.(questions := Filter(c.questions, QuestionMatchesTerm(term)))
  }

  function NarrowedAll(faqs: seq<FaqCategory>, term: string): (r: seq<FaqCategory>)
    ensures |r| == |faqs|
    ensures forall i :: 0 <= i < |faqs| ==> r[i] == Narrowed(faqs[i], term)
  {
    seq(|faqs|, i requires 0 <= i < |faqs| => Narrowed(faqs[i], term))
  }

  predicate NonEmpty(c: FaqCategory) {
    |c.questions| > 0
  }

  /** `filteredFaqs`: a blank search shows everything; otherwise each category keeps its
      matching questions and categories left empty are dropped. */
  function FilteredFaqs(faqs: seq<FaqCategory>, searchTerm: string): (r: seq<FaqCategory>)
    ensures Blank(searchTerm) ==> r == faqs
    ensures !Blank(searchTerm) ==> IsSubsequence(r, NarrowedAll(faqs, searchTerm))
    ensures !Blank(searchTerm) ==> forall c :: c in r ==> NonEmpty(c)
    ensures !Blank(searchTerm) ==> forall c :: c in r <==> c in NarrowedAll(faqs, searchTerm) && NonEmpty(c)
    ensures !Blank(searchTerm) ==>
      forall c :: multiset(r)[c] == if NonEmpty(c) then multiset(NarrowedAll(faqs, searchTerm))[c] else 0
  {
    if Blank(searchTerm) then faqs
    else
      FilterIsSubsequence(NarrowedAll(faqs, searchTerm), NonEmpty);
      Filter(NarrowedAll(faqs, searchTerm), NonEmpty)
  }

  /** The search never invents anything: every question it shows is a matching question of
      a category of the same name. */
  lemma FilteredFromSource(faqs: seq<FaqCategory>, searchTerm: string, c: FaqCategory, x: Question)
    requires c in FilteredFaqs(faqs, searchTerm) && x in c.questions
    ensures exists i :: 0 <= i < |faqs| && faqs[i].category == c.category && x in faqs[i].questions
    ensures !Blank(searchTerm) ==> QuestionMatches(x, searchTerm)
  {
    if !Blank(searchTerm) {
      var n := NarrowedAll(faqs, searchTerm);
      var i :| 0 <= i < |n| && n[i] == c;
      assert faqs[i].category == c.category && x in faqs[i].questions;
    }
  }

  /** And it loses nothing: a matching question appears under its category's name. */
  lemma FilteredKeepsMatches(faqs: seq<FaqCategory>, searchTerm: string, i: nat, x: Question)
    requires i < |faqs| && x in faqs[i].questions && QuestionMatches(x, searchTerm)
    ensures exists c :: c in FilteredFaqs(faqs, searchTerm) && c.category == faqs[i].category && x in c.questions
  {
    if Blank(searchTerm) {
      assert faqs[i] in FilteredFaqs(faqs, searchTerm);
    } else {
      var c := NarrowedAll(faqs, searchTerm)[i];
      assert x in c.questions;
      assert c in FilteredFaqs(faqs, searchTerm);
    }
  }

  /** `handleAccordionChange(panel)(event, isExpanded)`: the open panel, `false` being none. */
  function AccordionChange(expanded: Option<string>, panel: string, isExpanded: bool): (r: Option<string>)
    ensures isExpanded ==> r == Some(panel)
    ensures !isExpanded ==> r.None?
  {
    if isExpanded then Some(panel) else None
  }

  /** Collapsing any panel closes whatever was open, so at most one answer shows. */
  lemma CollapseAfterExpand(expanded: Option<string>, p: string, q: string)
    ensures AccordionChange(AccordionChange(expanded, p, true), q, false).None?
    ensures AccordionChange(AccordionChange(expanded, p, true), q, true) == Some(q)
  {
  }
}
