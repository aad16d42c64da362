/**
 * The page state the script writes: the display of every card, the result counter, the
 * "no results" message and the two echoes of the price fields; and the two routines that
 * write it, `actualizarResultados` and `aplicarFiltros`.
 */
module Presenter {
  import opened Wrappers
  import opened Sequences
  import opened Filtering
  import Grouping
  import Text

  /** Card `i` is shown iff it is a member of `list` (the `includes` test). */
  function Visibility(cards: seq<Card>, list: seq<Card>): (v: seq<bool>)
    ensures |v| == |cards|
    ensures forall i :: 0 <= i < |cards| ==> (v[i] <==> cards[i] in list)
  {
    if cards == [] then [] else [cards[0] in list] + Visibility(cards[1..], list)
  }

  /** Card `i` is shown iff it passes the filter callback. */
  function KeepMask(cards: seq<Card>, c: Criteria): (v: seq<bool>)
    ensures |v| == |cards|
    ensures forall i :: 0 <= i < |cards| ==> (v[i] <==> Keep(cards[i], c))
  {
    if cards == [] then [] else [Keep(cards[0], c)] + KeepMask(cards[1..], c)
  }

  /** Presenting the filter's own result shows exactly the cards that pass. */
  lemma VisibilityOfFilter(cards: seq<Card>, c: Criteria)
    ensures Visibility(cards, Filter(cards, c)) == KeepMask(cards, c)
  {
    forall i | 0 <= i < |cards| ensures Visibility(cards, Filter(cards, c))[i] == KeepMask(cards, c)[i] {
      FilterKeeps(cards, c, cards[i]);
    }
  }

  /** The number of cards that pass is the length of the filter's result. */
  lemma {:induction false} CountKeepMask(cards: seq<Card>, c: Criteria)
    ensures CountTrue(KeepMask(cards, c)) == |Filter(cards, c)|
  {
    if cards != [] {
      CountKeepMask(cards[1..], c);
      assert KeepMask(cards, c)[1..] == KeepMask(cards[1..], c);
    }
  }

  /**
   * For any subsequence of distinct cards, the number of cards shown equals the length
   * of the list, which is what the counter displays.
   */
  lemma {:induction false} CountVisibility(cards: seq<Card>, list: seq<Card>)
    requires Distinct(cards) && IsSubsequence(list, cards)
    ensures CountTrue(Visibility(cards, list)) == |list|
    decreases |cards|
  {
    if cards != [] {
      var x := cards[0];
      var rest := cards[1..];
      assert Distinct(rest);
      assert x !in rest;
      assert Visibility(cards, list)[1..] == Visibility(rest, list);
      if list != [] && list[0] == x && IsSubsequence(list[1..], rest) {
        CountVisibility(rest, list[1..]);
        SubsequenceElements(list[1..], rest);
        calc {
          Visibility(rest, list);
          { assert forall y :: y in rest ==> (y in list <==> y in list[1..]); }
          Visibility(rest, list[1..]);
        }
      } else {
        assert list == [] || IsSubsequence(list, rest);
        if list != [] {
          SubsequenceElements(list, rest);
        }
        CountVisibility(rest, list);
      }
    } else {
      SubsequenceElements(list, cards);
    }
  }

  class CatalogPage {
    /** `todasLasTarjetas`: captured once, never altered. */
    const cards: seq<Card>
    /** `style.display` of each card: `true` for 'flex', `false` for 'none'. */
    const displayed: array<bool>
    /** The number shown by the result counter. */
    var counter: nat
    /** Whether the "no results" message has display 'block' (rather than 'none'). */
    var noResultsShown: bool
    /** The formatted echoes of the minimum and maximum price fields. */
    var rangeMinText: string
    var rangeMaxText: string

    /** One display flag per card; both are fixed when the page is created. */
    ghost predicate Valid() {
      displayed.Length == |cards|
    }

    /** The page as rendered, before any script runs: every card is on display. */
    constructor (cards: seq<Card>)
      ensures Valid() && fresh(displayed)
      ensures this.cards == cards
      ensures forall i :: 0 <= i < |cards| ==> displayed[i]
      ensures counter == |cards| && !noResultsShown
      ensures rangeMinText == "" && rangeMaxText == ""
    {
      this.cards := cards;
      displayed := new bool[|cards|](_ => true);
      counter := |cards|;
      noResultsShown := false;
      rangeMinText, rangeMaxText := "", "";
    }

    /**
     * `actualizarResultados(list)`: the counter shows |list|, each card is shown iff
     * it is in `list`, and the message is shown iff `list` is empty.
     */
    method UpdateResults(list: seq<Card>)
      requires Valid()
      modifies this`counter, this`noResultsShown, displayed
      ensures Valid()
      ensures counter == |list|
      ensures displayed[..] == Visibility(cards, list)
      ensures noResultsShown <==> |list| == 0
    {
      var total := |list|;
      counter := total;
      var i := 0;
      while i < |cards|
        invariant 0 <= i <= |cards|
        invariant counter == total
        invariant forall k :: 0 <= k < i ==> (displayed[k] <==> cards[k] in list)
      {
        displayed[i] := cards[i] in list;
        i := i + 1;
      }
      noResultsShown := total == 0;
    }

    /**
     * `aplicarFiltros()`: builds the criteria from the fields, filters the cards and
     * presents the result. `minParsed` and `maxParsed` are what `parseFloat` returns for
     * the two price fields. When a card lacks `data-marca` the filter call throws
     * (`thrown`) before anything is presented, and the page is left as it was.
     */
    method ApplyFilters(queryText: string, minParsed: Option<int>, maxParsed: Option<int>) returns (thrown: bool)
      requires Valid()
      modifies this`counter, this`noResultsShown, displayed
      ensures Valid()
      ensures thrown <==> !AllBranded(cards)
      ensures thrown ==>
        counter == old(counter) && noResultsShown == old(noResultsShown) && displayed[..] == old(displayed[..])
      ensures !thrown ==> var c := CriteriaFromFields(queryText, minParsed, maxParsed);
        displayed[..] == KeepMask(cards, c) &&
        counter == |Filter(cards, c)| &&
        counter == CountTrue(displayed[..])
      ensures !thrown ==> (noResultsShown <==> counter == 0)
      ensures !thrown ==> (noResultsShown <==> Filter(cards, CriteriaFromFields(queryText, minParsed, maxParsed)) == [])
    {
      var c := CriteriaFromFields(queryText, minParsed, maxParsed);
      RunFilterSpec(cards, c);
      var outcome := RunFilter(cards, c);
      if outcome.None? {
        return true;
      }
      UpdateResults(outcome.value);
      VisibilityOfFilter(cards, c);
      CountKeepMask(cards, c);
      thrown := false;
    }

    /** The `input` handler of the minimum price field. */
    method EchoMin(raw: string)
      modifies this`rangeMinText
      ensures rangeMinText == Grouping.GroupThousands(raw)
    {
      rangeMinText := Grouping.GroupThousands(raw);
    }

    /** The `input` handler of the maximum price field. */
    method EchoMax(raw: string)
      modifies this`rangeMaxText
      ensures rangeMaxText == Grouping.GroupThousands(raw)
    {
      rangeMaxText := Grouping.GroupThousands(raw);
    }

    /**
     * The `DOMContentLoaded` handler: both echoes are set, then one filter pass runs; a
     * pass that throws leaves the echoes set and the rest of the page as it was.
     */
    method Load(queryText: string, minRaw: string, maxRaw: string, minParsed: Option<int>, maxParsed: Option<int>)
      returns (thrown: bool)
      requires Valid()
      modifies this`rangeMinText, this`rangeMaxText, this`counter, this`noResultsShown, displayed
      ensures Valid()
      ensures rangeMinText == Grouping.GroupThousands(minRaw)
      ensures rangeMaxText == Grouping.GroupThousands(maxRaw)
      ensures thrown <==> !AllBranded(cards)
      ensures thrown ==>
        counter == old(counter) && noResultsShown == old(noResultsShown) && displayed[..] == old(displayed[..])
      ensures !thrown ==> displayed[..] == KeepMask(cards, CriteriaFromFields(queryText, minParsed, maxParsed))
      ensures !thrown ==> counter == |Filter(cards, CriteriaFromFields(queryText, minParsed, maxParsed))|
      ensures !thrown ==> (noResultsShown <==> counter == 0)
    {
      EchoMin(minRaw);
      EchoMax(maxRaw);
      thrown := ApplyFilters(queryText, minParsed, maxParsed);
    }
  }

  /** The pass that a blank load runs keeps every card with a valid non-negative price. */
  lemma StartupShowsAll(cards: seq<Card>, queryText: string)
    requires Text.AllSpace(queryText)
    requires forall x :: x in cards ==> x.precio.Some? && x.precio.value >= 0
    ensures KeepMask(cards, CriteriaFromFields(queryText, None, None)) == seq(|cards|, _ => true)
    ensures |Filter(cards, CriteriaFromFields(queryText, None, None))| == |cards|
  {
    DefaultsKeepAll(cards, queryText, None, None);
    VisibilityOfFilter(cards, CriteriaFromFields(queryText, None, None));
  }

  /**
   * A load with a blank query field and empty price fields, on a page whose cards all carry
   * a brand and a valid non-negative price: the pass does not throw, every card is shown,
   * the counter shows their number, the message shows only for an empty page and both
   * echoes are empty.
   */
  method BlankLoad(cards: seq<Card>, queryText: string)
    returns (thrown: bool, counter: nat, noResults: bool, shown: seq<bool>, minEcho: string, maxEcho: string)
    requires AllBranded(cards)
    requires Text.AllSpace(queryText)
    requires forall x :: x in cards ==> x.precio.Some? && x.precio.value >= 0
    ensures !thrown
    ensures shown == seq(|cards|, _ => true) && counter == |cards|
    ensures noResults <==> cards == []
    ensures minEcho == "" && maxEcho == ""
  {
    var page := new CatalogPage(cards);
    StartupShowsAll(cards, queryText);
    thrown := page.Load(queryText, "", "", None, None);
    counter, noResults, shown := page.counter, page.noResultsShown, page.displayed[..];
    minEcho, maxEcho := page.rangeMinText, page.rangeMaxText;
  }
}
