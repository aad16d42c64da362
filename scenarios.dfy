/** Worked examples: three cards, four filter passes, and the page state they leave. */
module Scenarios {
  import opened Wrappers
  import opened Text
  import opened Filtering
  import opened Presenter

  const Toyota20 := Card(Some("Toyota"), None, Some(20000))
  const Honda15 := Card(Some("Honda"), None, Some(15000))
  const Toyota30 := Card(Some("Toyota"), None, Some(30000))

  function Showroom(): seq<Card> {
    [Toyota20, Honda15, Toyota30]
  }

  /** A string lower-cases to `t` when each of its characters does. */
  lemma LowerWord(s: string, t: string)
    requires |s| == |t|
    requires forall i :: 0 <= i < |s| ==> LowerChar(s[i]) == t[i]
    ensures Lower(s) == t
  {
    LowerAt(s);
  }

  lemma LowerToyota()
    ensures Lower("Toyota") == "toyota" && Lower("toyota") == "toyota"
  {
    LowerWord("Toyota", "toyota");
    LowerWord("toyota", "toyota");
  }

  lemma LowerHonda()
    ensures Lower("Honda") == "honda" && Lower("honda") == "honda"
  {
    LowerWord("Honda", "honda");
    LowerWord("honda", "honda");
  }

  /** The criteria from a query field that normalises to "toyota", a minimum of 0 and a maximum of 25000. */
  lemma ToyotaUpTo25000Fields(queryText: string)
    requires NormalizeQuery(queryText) == "toyota"
    ensures CriteriaFromFields(queryText, Some(0), Some(25000)) == Criteria("toyota", 0, Finite(25000))
  {
  }

  /** The criteria from an empty query field, a minimum of 100000 and a maximum of 200000. */
  lemma From100kTo200kFields()
    ensures CriteriaFromFields("", Some(100000), Some(200000)) == Criteria("", 100000, Finite(200000))
  {
  }

  /** Neither brand name occurs in the other. */
  lemma BrandsDiffer()
    ensures !Contains("honda", "toyota") && !Contains("toyota", "honda")
  {
    ContainsAt("honda", "toyota");
    ContainsAt("toyota", "honda");
    forall i ensures !OccursAt("toyota", "honda", i) {
      if 0 <= i <= 1 {
        assert "toyota"[i..i + 5][0] != "honda"[0];
      }
    }
  }

  /** Filtering three cards, one at a time. */
  lemma FilterThree(a: Card, b: Card, d: Card, c: Criteria)
    ensures Filter([a, b, d], c) ==
      (if Keep(a, c) then [a] else []) + (if Keep(b, c) then [b] else []) + (if Keep(d, c) then [d] else [])
  {
    assert [a, b, d][1..] == [b, d];
    assert [b, d][1..] == [d];
    assert [d][1..] == [];
    assert Filter([d], c) == (if Keep(d, c) then [d] else []) + Filter([], c);
    assert Filter([b, d], c) == (if Keep(b, c) then [b] else []) + Filter([d], c);
    assert Filter([a, b, d], c) == (if Keep(a, c) then [a] else []) + Filter([b, d], c);
  }

  /** A card whose lower-cased brand is the query itself passes when its price is in range. */
  lemma BrandHit(card: Card, c: Criteria)
    requires BrandText(card) == c.query
    requires InRange(card, c.minPrice, c.maxPrice)
    ensures Keep(card, c)
  {
    assert StartsWith(c.query, c.query);
  }

  /** A card without a model whose brand does not contain a non-empty query fails. */
  lemma BrandMiss(card: Card, c: Criteria)
    requires c.query != [] && card.modelo.None?
    requires !Contains(BrandText(card), c.query)
    ensures !Keep(card, c)
  {
    ContainsEmpty([], c.query);
  }

  /** The callback on each card for "toyota" in [0, 25000]. */
  lemma ToyotaUpTo25000Keeps()
    ensures var c := Criteria("toyota", 0, Finite(25000));
      Keep(Toyota20, c) && !Keep(Honda15, c) && !Keep(Toyota30, c)
  {
    var c := Criteria("toyota", 0, Finite(25000));
    LowerToyota();
    LowerHonda();
    BrandsDiffer();
    BrandHit(Toyota20, c);
    BrandMiss(Honda15, c);
    assert !InRange(Toyota30, c.minPrice, c.maxPrice);
  }

  /** "toyota" in [0, 25000]: only the cheaper Toyota. */
  lemma ToyotaUpTo25000()
    ensures Filter(Showroom(), Criteria("toyota", 0, Finite(25000))) == [Toyota20]
  {
    ToyotaUpTo25000Keeps();
    FilterThree(Toyota20, Honda15, Toyota30, Criteria("toyota", 0, Finite(25000)));
  }

  /** The display flags for "toyota" in [0, 25000]: only the first card. */
  lemma ToyotaUpTo25000Mask()
    ensures KeepMask(Showroom(), Criteria("toyota", 0, Finite(25000))) == [true, false, false]
  {
    ToyotaUpTo25000Keeps();
    MaskThree(Toyota20, Honda15, Toyota30, Criteria("toyota", 0, Finite(25000)));
  }

  /** The display flags of three cards are their callback results. */
  lemma MaskThree(a: Card, b: Card, d: Card, c: Criteria)
    ensures KeepMask([a, b, d], c) == [Keep(a, c), Keep(b, c), Keep(d, c)]
  {
  }

  /** Empty query in [100000, 200000]: nothing. */
  lemma NothingFrom100kTo200k()
    ensures Filter(Showroom(), Criteria("", 100000, Finite(200000))) == []
  {
    var c := Criteria("", 100000, Finite(200000));
    assert !Keep(Toyota20, c) && !Keep(Honda15, c) && !Keep(Toyota30, c);
    FilterThree(Toyota20, Honda15, Toyota30, c);
  }

  /** "honda" with no upper bound: only the Honda. */
  lemma HondaUnbounded()
    ensures Filter(Showroom(), Criteria("honda", 0, Unbounded)) == [Honda15]
  {
    var c := Criteria("honda", 0, Unbounded);
    LowerToyota();
    LowerHonda();
    BrandsDiffer();
    BrandMiss(Toyota20, c);
    BrandHit(Honda15, c);
    BrandMiss(Toyota30, c);
    FilterThree(Toyota20, Honda15, Toyota30, c);
  }

  /** A minimum field that parses to NaN (an empty field) and a maximum of 25000 give the range [0, 25000]. */
  lemma EmptyMinUpTo25000(queryText: string)
    ensures CriteriaFromFields(queryText, None, Some(25000)) == Criteria(NormalizeQuery(queryText), 0, Finite(25000))
  {
  }

  /** " TOYOTA " selects what "toyota" selects. */
  lemma PaddedCapitalsQuery(cards: seq<Card>)
    ensures Filter(cards, CriteriaFromFields(" TOYOTA ", None, None)) == Filter(cards, CriteriaFromFields("toyota", None, None))
  {
    assert " TOYOTA " == " " + "TOYOTA" + " ";
    QueryNormalization(cards, "TOYOTA", "toyota", " ", " ", None, None);
  }

  /** One filter pass on a freshly rendered page, observed through the counter, the message and the displays. */
  method FreshPagePass(cards: seq<Card>, queryText: string, minParsed: Option<int>, maxParsed: Option<int>)
    returns (thrown: bool, counter: nat, noResults: bool, shown: seq<bool>)
    ensures thrown <==> !AllBranded(cards)
    ensures !thrown ==> var c := CriteriaFromFields(queryText, minParsed, maxParsed);
      shown == KeepMask(cards, c) && counter == |Filter(cards, c)| && (noResults <==> counter == 0)
  {
    var page := new CatalogPage(cards);
    thrown := page.ApplyFilters(queryText, minParsed, maxParsed);
    counter, noResults, shown := page.counter, page.noResultsShown, page.displayed[..];
  }

  /** The page after the pass "toyota" in [0, 25000], for a query field that normalises to "toyota". */
  method PageToyotaUpTo25000(query: string) returns (counter: nat, noResults: bool, shown: seq<bool>)
    requires NormalizeQuery(query) == "toyota"
    ensures counter == 1 && !noResults && shown == [true, false, false]
  {
    ToyotaUpTo25000Fields(query);
    ToyotaUpTo25000();
    ToyotaUpTo25000Mask();
    var thrown;
    thrown, counter, noResults, shown := FreshPagePass(Showroom(), query, Some(0), Some(25000));
  }

  /** The page after the pass in [100000, 200000]: nothing shown, counter 0, the message on. */
  method PageNothingFrom100kTo200k() returns (counter: nat, noResults: bool, shown: seq<bool>)
    ensures counter == 0 && noResults && shown == [false, false, false]
  {
    From100kTo200kFields();
    NothingFrom100kTo200k();
    MaskThree(Toyota20, Honda15, Toyota30, Criteria("", 100000, Finite(200000)));
    var thrown;
    thrown, counter, noResults, shown := FreshPagePass(Showroom(), "", Some(100000), Some(200000));
  }

  /** A card without `data-marca` stops the pass: the page keeps its initial state. */
  method PageMissingBrand(queryText: string) returns (thrown: bool, counter: nat, noResults: bool, shown: seq<bool>)
    ensures thrown && counter == 2 && !noResults && shown == [true, true]
  {
    var page := new CatalogPage([Toyota20, Card(None, Some("Civic"), Some(18000))]);
    thrown := page.ApplyFilters(queryText, None, None);
    counter, noResults, shown := page.counter, page.noResultsShown, page.displayed[..];
  }
}
