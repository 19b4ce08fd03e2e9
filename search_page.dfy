/**
 * The search page's lifecycle (`searchShows`, `displayResults` and the show/hide
 * helpers). The page has four independently shown or hidden parts: the loading
 * indicator, the "no results" indicator, the error element (with its text) and
 * the results container (a sequence of cards). None of the operations forces
 * the indicators to exclude each other.
 *
 * A search is two events: submitting a query, which runs up to the request or
 * returns early, and the outcome of that request, which finishes the run.
 */
module SearchPage {

  import opened JsStrings
  import opened ShowCard

  /** One element of the response array. */
  datatype Item = Item(show: Show)

  /** How the request of one search ends: a 2xx response with its parsed array,
      a response whose status is not 2xx, or an exception (a network failure, a
      body that is not JSON) with its message. */
  datatype Outcome = Ok(items: seq<Item>) | HttpFail(status: nat) | Exn(message: string)

  /** What the page shows. */
  datatype View = View(
    loading: bool,
    noResults: bool,
    errorShown: bool,
    errorText: string,
    cards: seq<Card>)

  const EmptyQueryMessage: string := "Please enter a search term"
  const FetchErrorPrefix: string := "Error fetching data: "
  const HttpErrorPrefix: string := "HTTP error! status: "

  /** The message of the error thrown for a response that is not ok. */
  function HttpErrorMessage(status: nat): (msg: string)
    ensures HttpErrorPrefix <= msg && IsDigits(msg[|HttpErrorPrefix|..])
    ensures |msg| > |HttpErrorPrefix| && (|msg| > |HttpErrorPrefix| + 1 ==> msg[|HttpErrorPrefix|] != '0')
    ensures ParseDigits(msg[|HttpErrorPrefix|..]) == status
  {
    var msg := HttpErrorPrefix + NatToString(status);
    ParseNatToString(status);
    assert msg[|HttpErrorPrefix|..] == NatToString(status);
    msg
  }

  /** Different statuses give different messages. */
  lemma HttpErrorMessageInjective(a: nat, b: nat)
    ensures HttpErrorMessage(a) == HttpErrorMessage(b) ==> a == b
  {
    if HttpErrorMessage(a) == HttpErrorMessage(b) {
      assert NatToString(a) == HttpErrorMessage(a)[|HttpErrorPrefix|..];
      assert NatToString(b) == HttpErrorMessage(b)[|HttpErrorPrefix|..];
      ParseNatToString(a);
      ParseNatToString(b);
    }
  }

  /** The text shown for a failed request. */
  function FailureText(outcome: Outcome): (text: string)
    requires !outcome.Ok?
    ensures FetchErrorPrefix <= text
    ensures outcome.Exn? ==> text[|FetchErrorPrefix|..] == outcome.message
    ensures outcome.HttpFail? ==> text[|FetchErrorPrefix|..] == HttpErrorMessage(outcome.status)
  {
    match outcome
    case HttpFail(status) => FetchErrorPrefix + HttpErrorMessage(status)
    case Exn(message) => FetchErrorPrefix + message
  }

  /** One card per item, in the order of the items. */
  function RenderCards(items: seq<Item>): (cards: seq<Card>)
    ensures |cards| == |items|
    ensures forall i :: 0 <= i < |items| ==> cards[i] == CreateShowCard(items[i].show)
  {
    seq(|items|, i requires 0 <= i < |items| => CreateShowCard(items[i].show))
  }

  /** Rendering one more item appends its card. */
  lemma RenderCardsAppend(items: seq<Item>, i: nat)
    requires i < |items|
    ensures RenderCards(items[..i + 1]) == RenderCards(items[..i]) + [CreateShowCard(items[i].show)]
  {
    assert items[..i + 1][..i] == items[..i];
  }

  /** The view after `searchShows(query)` has run up to its request, or returned
      early on a blank query. */
  function OnSubmit(v: View, query: string): (w: View)
    ensures w.errorShown <==> IsBlank(query)
    ensures w.errorText == if IsBlank(query) then EmptyQueryMessage else v.errorText
    ensures w.loading == (v.loading || !IsBlank(query))
    ensures w.noResults == (v.noResults && IsBlank(query))
    ensures w.cards == if IsBlank(query) then v.cards else []
  {
    TrimEmptyIffBlank(query);
    if Trim(query) == [] then
      v.(errorShown := true, errorText := EmptyQueryMessage)
    else
      v.(loading := true, errorShown := false, cards := [], noResults := false)
  }

  /** The view after the request's outcome has been handled. */
  function OnOutcome(v: View, outcome: Outcome): (w: View)
    ensures !w.loading
    ensures w.errorShown <==> v.errorShown || !outcome.Ok?
    ensures w.errorText == if outcome.Ok? then v.errorText else FailureText(outcome)
    ensures w.noResults == if outcome.Ok? then |outcome.items| == 0 else v.noResults
    ensures w.cards == if outcome.Ok? && |outcome.items| > 0 then RenderCards(outcome.items) else v.cards
  {
    match outcome
    case Ok(items) =>
      if |items| == 0 then v.(loading := false, noResults := true)
      else v.(loading := false, cards := RenderCards(items), noResults := false)
    case _ =>
      v.(loading := false, errorShown := true, errorText := FailureText(outcome))
  }

  /** A blank query sends no request: it shows the prompt and leaves the loading
      indicator, the "no results" indicator and the cards as they were. */
  lemma BlankQuerySendsNoRequest(v: View, query: string)
    requires IsBlank(query)
    ensures OnSubmit(v, query) == v.(errorShown := true, errorText := EmptyQueryMessage)
  {
    TrimEmptyIffBlank(query);
  }

  /** A query with a non-white-space character starts a request: loading shown,
      error hidden (its text kept), no cards, "no results" hidden. */
  lemma ValidQueryStartsLoading(v: View, query: string)
    requires !IsBlank(query)
    ensures OnSubmit(v, query) == View(true, false, false, v.errorText, [])
  {
    TrimEmptyIffBlank(query);
  }

  /** A search that finds shows ends with one card per show in response order,
      and with nothing else visible. */
  lemma SearchWithResults(v: View, query: string, items: seq<Item>)
    requires !IsBlank(query) && |items| > 0
    ensures var w := OnOutcome(OnSubmit(v, query), Ok(items));
            w == View(false, false, false, v.errorText, RenderCards(items))
            && |w.cards| == |items|
            && forall i :: 0 <= i < |items| ==> w.cards[i] == CreateShowCard(items[i].show)
  {
    ValidQueryStartsLoading(v, query);
  }

  /** A search that finds nothing ends with "no results" shown and no cards. */
  lemma SearchWithNoResults(v: View, query: string)
    requires !IsBlank(query)
    ensures OnOutcome(OnSubmit(v, query), Ok([])) == View(false, true, false, v.errorText, [])
  {
    ValidQueryStartsLoading(v, query);
  }

  /** A failed search ends with the error shown and no cards; a status that is
      not ok is reported by number. */
  lemma SearchFailure(v: View, query: string, outcome: Outcome)
    requires !IsBlank(query) && !outcome.Ok?
    ensures var w := OnOutcome(OnSubmit(v, query), outcome);
            w == View(false, false, true, FailureText(outcome), [])
            && (outcome.HttpFail? ==>
                  w.errorText == FetchErrorPrefix + HttpErrorPrefix + NatToString(outcome.status))
            && (outcome.Exn? ==> w.errorText == FetchErrorPrefix + outcome.message)
  {
    ValidQueryStartsLoading(v, query);
  }

  /** The indicators are not exclusive: a blank query while a request is pending
      shows the loading indicator and the error together, and one after a
      successful search shows the error beside the old cards. */
  lemma IndicatorsOverlap(v: View, query: string, blank: string, items: seq<Item>)
    requires !IsBlank(query) && IsBlank(blank) && |items| > 0
    ensures OnSubmit(OnSubmit(v, query), blank).loading
    ensures OnSubmit(OnSubmit(v, query), blank).errorShown
    ensures OnSubmit(OnOutcome(OnSubmit(v, query), Ok(items)), blank).cards == RenderCards(items)
    ensures OnSubmit(OnOutcome(OnSubmit(v, query), Ok(items)), blank).errorShown
  {
    ValidQueryStartsLoading(v, query);
    BlankQuerySendsNoRequest(OnSubmit(v, query), blank);
    BlankQuerySendsNoRequest(OnOutcome(OnSubmit(v, query), Ok(items)), blank);
  }

  /** The page's display state, updated in place by the helpers. */
  class Page {
    var loading: bool
    var noResults: bool
    var errorShown: bool
    var errorText: string
    var cards: seq<Card>

    function Snapshot(): (v: View)
      reads this
    {
      View(loading, noResults, errorShown, errorText, cards)
    }

    /** The page as its markup first shows it. */
    constructor (initial: View)
      ensures Snapshot() == initial
    {
      loading := initial.loading;
      noResults := initial.noResults;
      errorShown := initial.errorShown;
      errorText := initial.errorText;
      cards := initial.cards;
    }

    /** `showLoading(show)`. */
    method ShowLoading(show: bool)
      modifies this
      ensures Snapshot() == old(Snapshot()).(loading := show)
    {
      loading := show;
    }

    /** `showNoResults(show)`. */
    method ShowNoResults(show: bool)
      modifies this
      ensures Snapshot() == old(Snapshot()).(noResults := show)
    {
      noResults := show;
    }

    /** `showError(message)`: set the text, then show the element. */
    method ShowError(message: string)
      modifies this
      ensures Snapshot() == old(Snapshot()).(errorShown := true, errorText := message)
    {
      errorText := message;
      errorShown := true;
    }

    /** `hideError()`: hide the element, keep its text. */
    method HideError()
      modifies this
      ensures Snapshot() == old(Snapshot()).(errorShown := false)
    {
      errorShown := false;
    }

    /** `clearResults()`. */
    method ClearResults()
      modifies this
      ensures Snapshot() == old(Snapshot()).(cards := [], noResults := false)
    {
      cards := [];
      ShowNoResults(false);
    }

    /** `displayResults(items)`: empty the container, hide "no results", then
        append the card of each item in turn. */
    method DisplayResults(items: seq<Item>)
      modifies this
      ensures Snapshot() == old(Snapshot()).(cards := RenderCards(items), noResults := false)
    {
      cards := [];
      ShowNoResults(false);
      var i := 0;
      while i < |items|
        invariant 0 <= i <= |items|
        invariant cards == RenderCards(items[..i])
        invariant loading == old(loading) && !noResults
        invariant errorShown == old(errorShown) && errorText == old(errorText)
      {
        RenderCardsAppend(items, i);
        cards := cards + [CreateShowCard(items[i].show)];
        i := i + 1;
      }
      assert items[..i] == items;
    }

    /** `searchShows(query)` up to its request: on a blank query show the prompt
        and stop; otherwise show loading, hide the error, clear the results.
        Returns whether a request is sent. */
    method Submit(query: string) returns (requested: bool)
      modifies this
      ensures requested <==> !IsBlank(query)
      ensures Snapshot() == OnSubmit(old(Snapshot()), query)
    {
      TrimEmptyIffBlank(query);
      if Trim(query) == [] {
        ShowError(EmptyQueryMessage);
        return false;
      }
      ShowLoading(true);
      HideError();
      ClearResults();
      return true;
    }

    /** The rest of `searchShows`, once the request has its outcome. */
    method Complete(outcome: Outcome)
      modifies this
      ensures Snapshot() == OnOutcome(old(Snapshot()), outcome)
    {
      match outcome {
        case Ok(items) =>
          ShowLoading(false);
          if |items| == 0 {
            ShowNoResults(true);
          } else {
            DisplayResults(items);
          }
        case HttpFail(status) =>
          ShowLoading(false);
          ShowError(FetchErrorPrefix + HttpErrorMessage(status));
        case Exn(message) =>
          ShowLoading(false);
          ShowError(FetchErrorPrefix + message);
      }
    }

    /** A whole search: submit `query`; if a request is sent, it ends with `outcome`. */
    method SearchShows(query: string, outcome: Outcome) returns (requested: bool)
      modifies this
      ensures requested <==> !IsBlank(query)
      ensures Snapshot() == if requested then OnOutcome(OnSubmit(old(Snapshot()), query), outcome)
                            else OnSubmit(old(Snapshot()), query)
    {
      requested := Submit(query);
      if requested {
        Complete(outcome);
      }
    }
  }
}
