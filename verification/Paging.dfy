/** Walking a paginated list to its end (`mcp_stdio.py`). */
module Paging {
  import opened Wrappers

  // The server decides every answer, so a walk is over any sequence of answers.

  const MAX_LIST_PAGES := 100

  type Item = string

  datatype Cursor = Absent | Next(text: string) | Unusable

  /** One answer: its items, or `None` when they are not a list. */
  datatype Answer = Answer(items: Option<seq<Item>>, next: Cursor)

  datatype Outcome = Listed(items: seq<Item>) | InvalidResponse | InvalidCursor | RepeatedCursor | TooManyPages

  /** The answer is a page with a usable cursor that no earlier page gave. */
  predicate GoesOn(answers: seq<Answer>, k: nat)
    requires k < |answers|
  {
    && answers[k].items.Some?
    && answers[k].next.Next? && answers[k].next.text != ""
    && forall j | 0 <= j < k :: answers[j].next != answers[k].next
  }

  /** Pages `0` to `k` are the whole list. */
  ghost predicate EndsAt(answers: seq<Answer>, k: nat)
    requires k < |answers|
  {
    && (forall j | 0 <= j < k :: GoesOn(answers, j))
    && answers[k].items.Some? && answers[k].next == Absent
  }

  function Items(answers: seq<Answer>): seq<Item> {
    if answers == [] then []
    else
      var last := answers[|answers| - 1].items;
      Items(answers[..|answers| - 1]) + if last.Some? then last.value else []
  }

  /** A page that neither goes on nor ends the list ends the walk without one. */
  lemma StuckAt(answers: seq<Answer>, page: nat)
    requires page < |answers| && !GoesOn(answers, page) && !EndsAt(answers, page)
    requires forall k | 0 <= k < page :: GoesOn(answers, k)
    ensures forall k | 0 <= k < |answers| :: !EndsAt(answers, k)
  {
    forall k | 0 <= k < |answers| ensures !EndsAt(answers, k) {
      assert !GoesOn(answers, page) && (k < page ==> GoesOn(answers, k));
    }
  }

  /** The cursor sent for page `i`. */
  function Sent(answers: seq<Answer>, i: nat): Cursor
    requires i <= |answers|
  {
    if i == 0 then Absent else answers[i - 1].next
  }

  lemma SentOnce(answers: seq<Answer>, page: nat)
    requires page <= |answers| && forall k | 0 <= k < page :: GoesOn(answers, k)
    ensures forall i, j | 0 <= i < j <= page :: Sent(answers, i) != Sent(answers, j)
  {
    forall i, j | 0 <= i < j <= page ensures Sent(answers, i) != Sent(answers, j) {
      assert GoesOn(answers, j - 1);
    }
  }

  /** `_list_all`: the cursors sent are those received, each once and at most a hundred pages. */
  method ListAll(answers: seq<Answer>) returns (outcome: Outcome, sent: seq<Cursor>)
    requires |answers| >= 100
    ensures |sent| <= 100
    ensures forall i | 0 <= i < |sent| :: sent[i] == Sent(answers, i)
    ensures forall i, j | 0 <= i < j < |sent| :: sent[i] != sent[j]
    ensures outcome.Listed? <==> exists k :: 0 <= k < 100 && EndsAt(answers, k)
    ensures outcome.Listed? ==>
      |sent| > 0 && EndsAt(answers, |sent| - 1) && outcome.items == Items(answers[..|sent|])
    ensures outcome == TooManyPages <==> forall k | 0 <= k < 100 :: GoesOn(answers, k)
  {
    var items: seq<Item> := [];
    var cursor := Absent;
    var seen: set<string> := {};
    sent := [];
    for page := 0 to MAX_LIST_PAGES
      invariant |sent| == page && items == Items(answers[..page])
      invariant forall k | 0 <= k < page :: GoesOn(answers, k)
      invariant cursor == Sent(answers, page)
      invariant forall i | 0 <= i < page :: sent[i] == Sent(answers, i)
      invariant forall text :: text in seen <==> exists k :: 0 <= k < page && answers[k].next == Next(text)
    {
      SentOnce(answers, page);
      sent := sent + [cursor];
      assert answers[..page + 1][..page] == answers[..page];
      var answer := answers[page];
      if answer.items.None? {
        StuckAt(answers, page);
        return InvalidResponse, sent;
      }
      items := items + answer.items.value;
      if answer.next == Absent {
        assert EndsAt(answers, page) && !GoesOn(answers, page);
        return Listed(items), sent;
      }
      if answer.next == Unusable || answer.next.text == "" {
        StuckAt(answers, page);
        return InvalidCursor, sent;
      }
      if answer.next.text in seen {
        StuckAt(answers, page);
        return RepeatedCursor, sent;
      }
      seen := seen + {answer.next.text};
      cursor := answer.next;
    }
    SentOnce(answers, MAX_LIST_PAGES);
    assert forall k | 0 <= k < MAX_LIST_PAGES :: GoesOn(answers, k) && !EndsAt(answers, k);
    outcome := TooManyPages;
  }
}
