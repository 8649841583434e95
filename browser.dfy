/**
 * The article browser's state: the list of articles, whether the add form is
 * open, whether a submission is in flight, the error shown in the form, and
 * whether a failure was escalated to the error boundary.
 */
module Browser {
  import opened Wrappers
  import opened Article

  /**
   * What the item service's submit call produces: a business failure carrying
   * a message, the stored article, or an exception thrown instead of a result.
   */
  datatype SubmitResult = Error(message: string) | Success(item: Item) | Thrown

  /** The browser's state as one value. */
  datatype View = View(
    items: seq<Item>,
    formIsVisible: bool,
    formSubmitting: bool,
    error: Option<string>,
    escalated: bool)

  /** Nothing loaded, the form closed, nothing submitting, no error. */
  const INITIAL := View([], false, false, None, false)

  /** Closing the form hides it and forgets its error. */
  function Closed(v: View): View {
    v.(formIsVisible := false, error := None)
  }

  /** The state once the add handler has reached the submit call. */
  function Begun(v: View): View {
    v.(error := None, formSubmitting := true)
  }

  /** The state once the submit call has settled on one of its three channels. */
  function Settled(v: View, result: SubmitResult): View {
    var w := match result
      case Error(message) => v.(error := Some(message))
      case Success(item) => Closed(v.(items := [item] + v.items))
      case Thrown => v.(escalated := true);
    w.(formSubmitting := false)
  }

  /** A whole run of the add handler whose submit call produced `result`. */
  function Added(v: View, result: SubmitResult): View {
    Settled(Begun(v), result)
  }

  /** A form submission: ignored while one is in flight, otherwise the add handler runs. */
  function Submitted(v: View, result: SubmitResult): View {
    if v.formSubmitting then v else Added(v, result)
  }

  /** On success the stored article is prepended, the form closes and the error is cleared. */
  lemma AddedSuccess(v: View, item: Item)
    ensures var w := Added(v, Success(item));
            && w.items == [item] + v.items && !w.formIsVisible && w.error == None
            && !w.formSubmitting && w.escalated == v.escalated
  {
  }

  /** On a business failure the list and the form stay as they were and the message is shown. */
  lemma AddedError(v: View, message: string)
    ensures var w := Added(v, Error(message));
            && w.items == v.items && w.formIsVisible == v.formIsVisible
            && w.error == Some(message) && !w.formSubmitting && w.escalated == v.escalated
  {
  }

  /** On a thrown exception the list and the form stay as they were and the failure is escalated. */
  lemma AddedThrown(v: View)
    ensures var w := Added(v, Thrown);
            && w.items == v.items && w.formIsVisible == v.formIsVisible
            && w.error == None && !w.formSubmitting && w.escalated
  {
  }

  /** A submission while another is in flight changes nothing. */
  lemma SubmittedWhilePending(v: View, result: SubmitResult)
    requires v.formSubmitting
    ensures Submitted(v, result) == v
  {
  }

  /**
   * The things a user can do once the list is loaded. The set is larger than
   * the page allows: `Submit` and `Close` are accepted while the form is
   * hidden, although its buttons exist only while it is visible.
   */
  datatype Event = Show | Close | Submit(result: SubmitResult)

  /**
   * One event. Once a failure is escalated the error boundary has replaced the
   * browser with its fallback, so no further event reaches it.
   */
  function Step(v: View, e: Event): View {
    if v.escalated then v
    else match e
      case Show => v.(formIsVisible := true)
      case Close => Closed(v)
      case Submit(result) => Submitted(v, result)
  }

  /** The state after the events, in order. */
  function Run(v: View, events: seq<Event>): View
    decreases |events|
  {
    if events == [] then v else Run(Step(v, events[0]), events[1..])
  }

  /** After an escalation nothing changes any more. */
  lemma {:induction false} EscalatedRunIsFrozen(v: View, events: seq<Event>)
    requires v.escalated
    ensures Run(v, events) == v
    decreases |events|
  {
    if events != [] {
      EscalatedRunIsFrozen(Step(v, events[0]), events[1..]);
    }
  }

  /** The article a submission stores, if it succeeds. */
  function Stored(e: Event): seq<Item> {
    if e.Submit? && e.result.Success? then [e.result.item] else []
  }

  /**
   * The articles the successful submissions store, newest first, up to the
   * first submission whose call throws.
   */
  function NewestFirst(events: seq<Event>): seq<Item>
    decreases |events|
  {
    if events == [] || events[0] == Submit(Thrown) then []
    else NewestFirst(events[1..]) + Stored(events[0])
  }

  /** One event with nothing in flight: what it stores, and whether it escalates. */
  lemma StepStores(v: View, e: Event)
    requires !v.formSubmitting && !v.escalated
    ensures var u := Step(v, e);
            && u.items == Stored(e) + v.items
            && !u.formSubmitting
            && (u.escalated <==> e == Submit(Thrown))
  {
  }

  /**
   * With no submission in flight and nothing escalated, the list only ever
   * grows at the front, by the articles the successful submissions store up to
   * the first thrown call, newest first; no submission is left in flight; and
   * the run ends escalated exactly when some submission's call throws.
   */
  lemma {:induction false} RunPrependsStored(v: View, events: seq<Event>)
    requires !v.formSubmitting && !v.escalated
    ensures var w := Run(v, events);
            && w.items == NewestFirst(events) + v.items
            && !w.formSubmitting
            && (w.escalated <==> Submit(Thrown) in events)
    decreases |events|
  {
    if events != [] {
      var e, rest := events[0], events[1..];
      assert events == [e] + rest;
      var u := Step(v, e);
      StepStores(v, e);
      assert Run(v, events) == Run(u, rest);
      if e == Submit(Thrown) {
        EscalatedRunIsFrozen(u, rest);
        assert NewestFirst(events) == [];
      } else {
        RunPrependsStored(u, rest);
        assert NewestFirst(events) == NewestFirst(rest) + Stored(e);
        assert Submit(Thrown) in events <==> Submit(Thrown) in rest;
      }
    }
  }

  /** The browser component's state, updated in place by its handlers. */
  class ArticleBrowser {
    var items: seq<Item>
    var formIsVisible: bool
    var formSubmitting: bool
    var error: Option<string>
    var escalated: bool

    ghost function State(): View
      reads this
    {
      View(items, formIsVisible, formSubmitting, error, escalated)
    }

    constructor ()
      ensures State() == INITIAL
    {
      items := [];
      formIsVisible := false;
      formSubmitting := false;
      error := None;
      escalated := false;
    }

    /** The initial load stores the fetched articles as they came. */
    method Load(data: seq<Item>)
      modifies this
      ensures State() == old(State()).(items := data)
    {
      items := data;
    }

    method ShowForm()
      modifies this
      ensures State() == old(State()).(formIsVisible := true)
    {
      formIsVisible := true;
    }

    method HideForm()
      modifies this
      ensures State() == old(State()).(formIsVisible := false)
    {
      formIsVisible := false;
    }

    method CloseForm()
      modifies this
      ensures State() == Closed(old(State()))
    {
      HideForm();
      error := None;
    }

    /** The add handler up to the submit call. */
    method BeginAdd()
      modifies this
      ensures State() == Begun(old(State()))
    {
      error := None;
      formSubmitting := true;
    }

    /** The add handler once the submit call has settled. */
    method FinishAdd(result: SubmitResult)
      modifies this
      ensures State() == Settled(old(State()), result)
    {
      match result {
        case Error(message) =>
          error := Some(message);
        case Success(item) =>
          items := [item] + items;
          CloseForm();
        case Thrown =>
          escalated := true;
      }
      formSubmitting := false;
    }

    /** The add handler run through, with `submit` standing for the item service's submit call. */
    method HandleAdd(item: Item, submit: Item -> SubmitResult)
      modifies this
      ensures State() == Added(old(State()), submit(item))
    {
      BeginAdd();
      var result := submit(item);
      FinishAdd(result);
    }

    /**
     * The form's submit handler: ignored while a submission is in flight,
     * otherwise the article built from the fields is handed to the add handler.
     */
    method HandleSubmit(fields: FormFields, submit: Item -> SubmitResult) returns (sent: Option<Item>)
      modifies this
      ensures sent == if old(formSubmitting) then None else Some(FormItem(fields))
      ensures State() == Submitted(old(State()), submit(FormItem(fields)))
    {
      if formSubmitting {
        return None;
      }
      var item := FormItem(fields);
      HandleAdd(item, submit);
      sent := Some(item);
    }
  }

  /**
   * A second submission made while the first waits on the submit call is
   * ignored; once the first succeeds, its article alone is prepended.
   */
  method OverlappingSubmissions(data: seq<Item>, stored: Item, fields: FormFields, submit: Item -> SubmitResult)
    returns (second: Option<Item>, pendingItems: seq<Item>, finalItems: seq<Item>, submitting: bool)
    ensures second == None
    ensures pendingItems == data
    ensures finalItems == [stored] + data
    ensures !submitting
  {
    var browser := new ArticleBrowser();
    browser.Load(data);
    browser.ShowForm();
    browser.BeginAdd();
    second := browser.HandleSubmit(fields, submit);
    pendingItems := browser.items;
    browser.FinishAdd(Success(stored));
    finalItems := browser.items;
    submitting := browser.formSubmitting;
  }

  /**
   * Cancelling the form while a submission is in flight does not stop it: a
   * business failure that arrives afterwards is still shown when the form is
   * opened again, and a success is still prepended.
   */
  method CancelWhilePending(data: seq<Item>, message: string, stored: Item)
    returns (reopenedError: Option<string>, laterItems: seq<Item>)
    ensures reopenedError == Some(message)
    ensures laterItems == [stored] + data
  {
    var browser := new ArticleBrowser();
    browser.Load(data);
    browser.ShowForm();
    browser.BeginAdd();
    browser.CloseForm();
    browser.FinishAdd(Error(message));
    browser.ShowForm();
    reopenedError := browser.error;
    browser.BeginAdd();
    browser.CloseForm();
    browser.FinishAdd(Success(stored));
    laterItems := browser.items;
  }

  /**
   * An article added before the initial load has finished is lost: the
   * fetched list overwrites the list it was prepended to.
   */
  method AddBeforeLoad(stored: Item, data: seq<Item>)
    returns (beforeLoad: seq<Item>, afterLoad: seq<Item>)
    ensures beforeLoad == [stored]
    ensures afterLoad == data
  {
    var browser := new ArticleBrowser();
    browser.ShowForm();
    browser.BeginAdd();
    browser.FinishAdd(Success(stored));
    beforeLoad := browser.items;
    browser.Load(data);
    afterLoad := browser.items;
  }
}
