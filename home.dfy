/** The page component's history state machine (app/page.tsx): generating a
    prompt and recording it at the head of a history capped at 50 items, deleting
    an item by id, and clearing the history. Browser storage, timers and toasts are
    not modelled; the clock and the network are inputs. */
module Home {
  import opened Text
  import opened Lists
  import opened Json
  import opened HistoryList
  import Route

  const HistoryCap: nat := 50

  /** The categories the page offers, in display case. */
  const Categories: seq<string> := ["Writing", "Coding", "Art", "Fun", "Business", "Education"]

  // ---------------------------------------------------------------- list transforms

  /** `[item, ...prev.slice(0, 49)]`: the new item first, then the newest 49 of the
      previous items, so that at most 50 are kept. */
  function Prepend(item: HistoryItem, history: seq<HistoryItem>): (r: seq<HistoryItem>)
    ensures |r| == if |history| < HistoryCap then |history| + 1 else HistoryCap
    ensures r[0] == item
    ensures r[1..] == history[..|r| - 1]
  {
    [item] + history[..if |history| < HistoryCap - 1 then |history| else HistoryCap - 1]
  }

  /** The history after one successful generation per item, earliest item first. */
  function AfterGenerations(history: seq<HistoryItem>, items: seq<HistoryItem>): seq<HistoryItem>
    decreases |items|
  {
    if items == [] then history
    else Prepend(items[|items| - 1], AfterGenerations(history, items[..|items| - 1]))
  }

  /** Starting from an empty history, a run of generations leaves the newest 50
      items (all of them when there are fewer), most recent first. */
  lemma {:induction false} GenerationsKeepNewest(items: seq<HistoryItem>)
    ensures |AfterGenerations([], items)| == if |items| < HistoryCap then |items| else HistoryCap
    ensures forall k :: 0 <= k < |AfterGenerations([], items)| ==>
      AfterGenerations([], items)[k] == items[|items| - 1 - k]
  {
    if items != [] {
      var n := |items|;
      var earlier := items[..n - 1];
      GenerationsKeepNewest(earlier);
      var before := AfterGenerations([], earlier);
      var after := AfterGenerations([], items);
      assert after == Prepend(items[n - 1], before);
      forall k | 0 <= k < |after| ensures after[k] == items[n - 1 - k] {
        if k > 0 {
          assert after[k] == after[1..][k - 1] == before[k - 1];
          assert before[k - 1] == earlier[n - 2 - (k - 1)];
        }
      }
    }
  }

  /** The history-bound scenario: after 51 generations exactly 50 items remain,
      and the most recent is first. */
  lemma FiftyOneGenerations(items: seq<HistoryItem>)
    requires |items| == 51
    ensures |AfterGenerations([], items)| == 50
    ensures AfterGenerations([], items)[0] == items[50]
  {
    GenerationsKeepNewest(items);
  }

  /** `item => item.id !== id`. */
  function KeptOnDelete(id: string): HistoryItem -> bool {
    (item: HistoryItem) => item.id != id
  }

  /** `prev.filter((item) => item.id !== id)`. */
  function DeleteById(history: seq<HistoryItem>, id: string): seq<HistoryItem> {
    Filter(KeptOnDelete(id), history)
  }

  /** Deleting removes every occurrence of every item with the given id and keeps
      every other item, in order; an absent id changes nothing, and deleting twice
      is deleting once. */
  lemma DeleteByIdSpec(history: seq<HistoryItem>, id: string, item: HistoryItem)
    ensures IsSubsequence(DeleteById(history, id), history)
    ensures multiset(DeleteById(history, id))[item] == if item.id == id then 0 else multiset(history)[item]
    ensures forall i :: 0 <= i < |DeleteById(history, id)| ==> DeleteById(history, id)[i].id != id
    ensures (forall i :: 0 <= i < |history| ==> history[i].id != id) ==> DeleteById(history, id) == history
    ensures DeleteById(DeleteById(history, id), id) == DeleteById(history, id)
  {
    FilterIsSubsequence(KeptOnDelete(id), history);
    FilterCount(KeptOnDelete(id), history, item);
    FilterIdempotent(KeptOnDelete(id), history);
    if forall i :: 0 <= i < |history| ==> history[i].id != id {
      FilterKeepsAll(KeptOnDelete(id), history);
    }
  }

  // ---------------------------------------------------------------- talking to the server

  /** The body the page posts: `{ topic: topic.trim(), category: selectedCategory }`. */
  function RequestBody(topic: string, category: string): (body: Json)
    ensures body.JObject?
    ensures Get(body, "topic") == Some(JString(topic))
    ensures Get(body, "category") == Some(JString(category))
  {
    assert "topic" != "category" by { assert |"topic"| != |"category"|; }
    JObject(map["topic" := JString(topic), "category" := JString(category)])
  }

  /** What `fetch` resolves to, as far as the page reads it: `response.ok`, and how
      `response.json()` ends. */
  datatype HttpReply = HttpReply(ok: bool, body: Outcome<Json>)

  /** Whether the try block reaches `setGeneratedPrompt(data.prompt)`, and with
      what: it does not when fetch rejects, the status is not ok, the body is not
      JSON, or the body is null (reading `.prompt` of null throws). */
  datatype Delivery = NotDelivered | Delivered(prompt: Option<Json>)

  function Receive(fetched: Outcome<HttpReply>): (d: Delivery)
    ensures d.Delivered? <==>
      fetched.Ok? && fetched.value.ok && fetched.value.body.Ok? && !fetched.value.body.value.JNull?
    ensures d.Delivered? ==> d.prompt == Get(fetched.value.body.value, "prompt")
  {
    match fetched
    case Threw(_) => NotDelivered
    case Ok(reply) =>
      if !reply.ok then NotDelivered
      else match reply.body
        case Threw(_) => NotDelivered
        case Ok(data) => if data.JNull? then NotDelivered else Delivered(Get(data, "prompt"))
  }

  /** The handler's response as the page's fetch sees it. */
  function Transport(response: Route.Response): HttpReply {
    HttpReply(200 <= response.status <= 299, Ok(response.body))
  }

  /** None of the page's categories is blank. */
  lemma CategoryNotBlank(category: string)
    requires category in Categories
    ensures Trim(category) != ""
  {
    assert category[0] == 'W' || category[0] == 'C' || category[0] == 'A' ||
           category[0] == 'F' || category[0] == 'B' || category[0] == 'E';
    assert !IsWhite(category[0]);
  }

  /** Every body the page posts passes the server's validation: the page sends a
      trimmed topic only when it is not blank, and always one of its own categories. */
  lemma PageRequestAccepted(topic: string, category: string, host: Route.Host)
    requires Trim(topic) != ""
    requires category in Categories
    ensures Route.Validate(RequestBody(Trim(topic), category), host) == Route.Accepted(Trim(topic), category)
  {
    var t := Trim(topic);
    TrimIdempotent(topic);
    CategoryNotBlank(category);
    Route.ValidateAccepts(RequestBody(t, category), host, t, category);
  }

  /** When the model's reply is not JSON, the page records the whole reply text as
      the prompt. */
  lemma ServerFallbackReachesPage(catalog: Route.Catalog, topic: string, category: string,
                                  host: Route.Host, content: Route.Content,
                                  parse: string -> Option<Json>)
    requires catalog.HasDefaults()
    requires Trim(topic) != ""
    requires category in Categories
    requires parse(Route.Flatten(content)).None?
    ensures var x := Route.Handle(catalog, host, Ok(RequestBody(Trim(topic), category)), Ok(content), parse);
      Receive(Ok(Transport(x.response))) == Delivered(Some(JString(Route.Flatten(content))))
  {
    var body := RequestBody(Trim(topic), category);
    PageRequestAccepted(topic, category, host);
    var g := Route.Flatten(content);
    var x := Route.Handle(catalog, host, Ok(body), Ok(content), parse);
    assert x.response == Route.Response(200, Route.Fallback(g, category));
    Route.FallbackFields(g, category);
  }

  /** When the handler answers anything but 200 (that is, 400 or 500), the page
      records nothing. */
  lemma ServerErrorsNotDelivered(catalog: Route.Catalog, host: Route.Host, body: Json,
                                 reply: Outcome<Route.Content>, parse: string -> Option<Json>)
    requires catalog.HasDefaults()
    ensures var x := Route.Handle(catalog, host, Ok(body), reply, parse);
      x.response.status != 200 ==> Receive(Ok(Transport(x.response))) == NotDelivered
  {
    Route.HandleFails(catalog, host, Ok(body), reply, parse);
  }

  // ---------------------------------------------------------------- the page state

  /** The state of the Home component that generation and the history buttons change. */
  class HomeState {
    var topic: string
    var selectedCategory: string
    var generatedPrompt: Option<Json>
    var isGenerating: bool
    var history: seq<HistoryItem>

    ghost predicate Valid()
      reads this
    {
      |history| <= HistoryCap
    }

    constructor ()
      ensures Valid()
      ensures topic == "" && selectedCategory == "Fun" && generatedPrompt == Some(JString(""))
      ensures !isGenerating && history == []
    {
      topic := "";
      selectedCategory := "Fun";
      generatedPrompt := Some(JString(""));
      isGenerating := false;
      history := [];
    }

    /** generatePrompt: `fetched` is how the request to the server ends, and
        idClock and stampClock are the two readings of Date.now() (for the id and for
        the timestamp). Returns the body posted, None when nothing is sent. */
    method GeneratePrompt(fetched: Outcome<HttpReply>, idClock: nat, stampClock: nat)
      returns (posted: Option<Json>)
      requires Valid()
      modifies this
      ensures Valid()
      ensures topic == old(topic) && selectedCategory == old(selectedCategory)
      ensures posted == if Trim(old(topic)) == "" then None
                        else Some(RequestBody(Trim(old(topic)), old(selectedCategory)))
      ensures Trim(old(topic)) == "" ==>
        generatedPrompt == old(generatedPrompt) && history == old(history) &&
        isGenerating == old(isGenerating)
      ensures Trim(old(topic)) != "" ==> !isGenerating
      ensures Trim(old(topic)) != "" && Receive(fetched).NotDelivered? ==>
        generatedPrompt == old(generatedPrompt) && history == old(history)
      ensures Trim(old(topic)) != "" && Receive(fetched).Delivered? ==>
        var item := HistoryItem(Decimal(idClock), Receive(fetched).prompt, Trim(old(topic)),
                                old(selectedCategory), stampClock);
        generatedPrompt == Receive(fetched).prompt && history == Prepend(item, old(history))
    {
      var trimmed := Trim(topic);
      if trimmed == "" {
        posted := None;
        return;
      }
      isGenerating := true;
      posted := Some(RequestBody(trimmed, selectedCategory));
      match fetched {
        case Ok(reply) =>
          if reply.ok {
            match reply.body {
              case Ok(data) =>
                if !data.JNull? {
                  var prompt := Get(data, "prompt");
                  generatedPrompt := prompt;
                  var item := HistoryItem(Decimal(idClock), prompt, trimmed, selectedCategory, stampClock);
                  history := Prepend(item, history);
                }
              case Threw(_) =>
            }
          }
        case Threw(_) =>
      }
      isGenerating := false;
    }

    /** handleDeleteHistory. */
    method DeleteHistory(id: string)
      requires Valid()
      modifies this
      ensures Valid()
      ensures history == DeleteById(old(history), id)
      ensures topic == old(topic) && selectedCategory == old(selectedCategory)
      ensures generatedPrompt == old(generatedPrompt) && isGenerating == old(isGenerating)
    {
      history := DeleteById(history, id);
    }

    /** handleClearHistory. */
    method ClearHistory()
      requires Valid()
      modifies this
      ensures Valid()
      ensures history == []
      ensures topic == old(topic) && selectedCategory == old(selectedCategory)
      ensures generatedPrompt == old(generatedPrompt) && isGenerating == old(isGenerating)
    {
      history := [];
    }
  }
}
