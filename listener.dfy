/** The content script's message listener. It keeps one piece of state of
    its own, the form chosen by the last successful `getFieldDefinitions`
    request, and answers the popup's two kinds of request through
    `sendResponse`. */
module Listener {

  import opened Wrappers
  import opened Dom
  import opened Selection
  import opened Extraction
  import opened Population

  /** The requests the popup sends (scripts/types.ts). */
  datatype Message =
    | GetFieldDefinitionsRequest(formSelector: string)
    | PopulateFieldsRequest(fieldValues: FieldValues)
    | OtherAction

  /** What `sendResponse` is called with. */
  datatype Response =
    | DefinitionsResponse(fieldDefinitions: seq<FieldDefinition>)
    | PopulatedResponse
    | ErrorResponse(errorMessage: string)

  class ContentScript {
    const page: Page
    var lastSelectedForm: Option<Ref>

    ghost predicate Valid()
      reads this, page
    {
      && page.Valid()
      && (lastSelectedForm.Some? ==> page.doc.IsForm(lastSelectedForm.value))
    }

    /** A freshly injected script has no form selected. */
    constructor (page: Page)
      requires page.Valid()
      ensures Valid() && this.page == page && lastSelectedForm.None?
    {
      this.page := page;
      this.lastSelectedForm := None;
    }

    /** A `getFieldDefinitions` request: remember the selected form and
        describe its fields; a selector that finds nothing, or finds
        something that is not a form, is answered with the error message and
        leaves the remembered form as it was. */
    method OnGetFieldDefinitions(formSelector: string) returns (response: Response)
      requires Valid()
      modifies this
      ensures Valid()
      ensures var target := Resolve(page.doc, formSelector);
        if target.Some? && page.doc.IsForm(target.value) then
          && lastSelectedForm == target
          && response == DefinitionsResponse(GetFieldDefinitions(page.doc, target.value))
        else
          && lastSelectedForm == old(lastSelectedForm)
          && response == ErrorResponse(if target.None? then NoElementFound else NotAFormElement)
    {
      var form := GetForm(page.doc, formSelector);
      match form
      case Success(f) =>
        lastSelectedForm := Some(f);
        var fieldDefinitions := GetFieldDefinitions(page.doc, f);
        response := DefinitionsResponse(fieldDefinitions);
      case Failure(message) =>
        response := ErrorResponse(message);
    }

    /** A `populateFieldsIntoForm` request: with no form selected nothing
        happens and no response is sent. Otherwise the values are written
        into the remembered form and success is reported. Population is
        started without being awaited, so an error it throws part-way is
        never reported: the writes made before it stay, and the response is
        still a success. */
    method OnPopulateFieldsIntoForm(fieldValues: FieldValues) returns (response: Option<Response>)
      requires Valid()
      modifies page
      ensures Valid()
      ensures old(lastSelectedForm).None? ==> response.None? && page.State() == old(page.State())
      ensures old(lastSelectedForm).Some? ==>
        && response == Some(PopulatedResponse)
        && page.State() == ApplyWrites(old(page.State()), FormPopulation(page.doc, lastSelectedForm.value, fieldValues).writes)
    {
      if lastSelectedForm.None? {
        return None;
      }
      var _ := page.PopulateFieldsIntoForm(lastSelectedForm.value, fieldValues);
      response := Some(PopulatedResponse);
    }

    /** The listener: dispatch on the request's action; any other action is
        ignored without a response. */
    method OnMessage(message: Message) returns (response: Option<Response>)
      requires Valid()
      modifies this, page
      ensures Valid()
      ensures message.OtherAction? ==>
        response.None? && lastSelectedForm == old(lastSelectedForm) && page.State() == old(page.State())
      ensures message.GetFieldDefinitionsRequest? ==>
        && page.State() == old(page.State())
        && var target := Resolve(page.doc, message.formSelector);
           if target.Some? && page.doc.IsForm(target.value) then
             && lastSelectedForm == target
             && response == Some(DefinitionsResponse(GetFieldDefinitions(page.doc, target.value)))
           else
             && lastSelectedForm == old(lastSelectedForm)
             && response == Some(ErrorResponse(if target.None? then NoElementFound else NotAFormElement))
      ensures message.PopulateFieldsRequest? ==>
        && lastSelectedForm == old(lastSelectedForm)
        && (old(lastSelectedForm).None? ==> response.None? && page.State() == old(page.State()))
        && (old(lastSelectedForm).Some? ==>
              && response == Some(PopulatedResponse)
              && page.State() == ApplyWrites(old(page.State()), FormPopulation(page.doc, lastSelectedForm.value, message.fieldValues).writes))
    {
      match message
      case GetFieldDefinitionsRequest(formSelector) =>
        var r := OnGetFieldDefinitions(formSelector);
        response := Some(r);
      case PopulateFieldsRequest(fieldValues) =>
        response := OnPopulateFieldsIntoForm(fieldValues);
      case OtherAction =>
        response := None;
    }
  }
}
