/** The add-ticket form: its fields, the accordion step and the submit chain. */
module AddTicket {
  import opened Wrappers
  import opened Json
  import opened JsText
  import opened Tickets

  /** The three input groups of the accordion, which are also the values of `step`. */
  datatype Field = Title | Number | Content

  /** Whether the field's current value stops a submit. */
  predicate Blocks(f: Field, title: string, number: Option<int>, content: string) {
    match f
    case Title => title == ""
    case Number => number.None? || number.value < 1
    case Content => content == ""
  }

  /** The order in which the submit handler checks the fields. */
  function Priority(f: Field): nat {
    match f
    case Title => 0
    case Number => 1
    case Content => 2
  }

  /**
   * The group a submit opens: the first blocking field in priority order, or
   * None when every field is valid and the ticket is added.
   */
  function FirstInvalid(title: string, number: Option<int>, content: string): (r: Option<Field>)
    ensures r.Some? ==> Blocks(r.value, title, number, content)
    ensures r.Some? ==> forall g :: Priority(g) < Priority(r.value) ==> !Blocks(g, title, number, content)
    ensures r.None? ==> forall g :: !Blocks(g, title, number, content)
  {
    if title == "" then Some(Title)
    else if number.None? || number.value < 1 then Some(Number)
    else if content == "" then Some(Content)
    else None
  }

  class AddTicketForm {
    var title: string
    var number: Option<int>
    var content: string
    var validated: bool
    var error: bool
    var step: Option<Field>

    constructor ()
      ensures title == "" && number == None && content == ""
      ensures !validated && !error && step == Some(Title)
    {
      title, number, content := "", None, "";
      validated, error := false, false;
      step := Some(Title);
    }

    /** Typing in the title input. */
    method EditTitle(value: string)
      modifies this
      ensures title == value
      ensures number == old(number) && content == old(content)
      ensures validated == old(validated) && error == old(error) && step == old(step)
    {
      title := value;
    }

    /** Typing in the number input: the `parseInt` of the text, null for NaN. */
    method EditNumber(value: string)
      modifies this
      ensures number == ParseInt(value)
      ensures title == old(title) && content == old(content)
      ensures validated == old(validated) && error == old(error) && step == old(step)
    {
      number := ParseInt(value);
    }

    /** Typing in the content textarea. */
    method EditContent(value: string)
      modifies this
      ensures content == value
      ensures title == old(title) && number == old(number)
      ensures validated == old(validated) && error == old(error) && step == old(step)
    {
      content := value;
    }

    /** The accordion's `onSelect`: open the chosen group, or none for a null key. */
    method Select(key: Option<Field>)
      modifies this
      ensures step == key
      ensures title == old(title) && number == old(number) && content == old(content)
      ensures validated == old(validated) && error == old(error)
    {
      step := key;
    }

    /**
     * The submit handler: open the first invalid group and mark the form
     * validated, or, with every field valid, call `add` with the draft
     * returned.
     */
    method Submit() returns (added: Option<Draft>)
      modifies this
      ensures title == old(title) && number == old(number) && content == old(content)
      ensures error == old(error)
      ensures FirstInvalid(title, number, content).Some? ==>
        step == FirstInvalid(title, number, content) && validated && added == None
      ensures FirstInvalid(title, number, content).None? ==>
        step == old(step) && validated == old(validated) &&
        added == Some(Draft(title, number.value, content)) && added.value.number >= 1
    {
      added := None;
      if title == "" {
        step := Some(Title);
        validated := true;
      } else if number.None? || number.value < 1 {
        step := Some(Number);
        validated := true;
      } else if content == "" {
        step := Some(Content);
        validated := true;
      } else {
        added := Some(Draft(title, number.value, content));
      }
    }

    /**
     * `add`: send the create request; when it is fulfilled with an id, call
     * `onAdd` with the draft and that id, otherwise show the error.
     */
    method Add(draft: Draft, stringify: Value -> string, reply: Settled<string>)
      returns (request: CreateRequest, onAdd: Option<Ticket>)
      modifies this
      ensures request == CreateRequestFor(draft.title, draft.number as real, draft.content, stringify)
      ensures reply.Fulfilled? ==> onAdd == Some(WithId(draft, reply.value)) && error == old(error)
      ensures reply.Rejected? ==> onAdd == None && error
      ensures title == old(title) && number == old(number) && content == old(content)
      ensures validated == old(validated) && step == old(step)
    {
      request := CreateRequestFor(draft.title, draft.number as real, draft.content, stringify);
      match reply
      case Fulfilled(id) =>
        onAdd := Some(WithId(draft, id));
      case Rejected =>
        onAdd := None;
        error := true;
    }
  }

  /** A form filled in as `Bug`, `3`, `desc` submits exactly that draft. */
  lemma ValidFormSubmits()
    ensures FirstInvalid("Bug", ParseInt("3"), "desc") == None
    ensures ParseInt("3") == Some(3)
  {
    ParseIntShowInt(3, "");
    assert ShowInt(3) + "" == "3";
  }
}
