/**
  The events administration page: the event list with its upcoming-only
  filter, the create form and its validation, deletion by id, the first
  three "featured" events of the phone preview and the preview's two tabs.
*/
module Events {
  import opened Optional
  import opened Remote

  datatype EventItem = EventItem(id: int, title: string, description: Option<string>,
                                 eventDate: string, imageUrl: Option<string>)

  /** The chosen image file, identified by an opaque handle. */
  datatype ImageFile = ImageFile(handle: nat)

  /** A multipart form value: a text field or the image file. */
  datatype FormValue = Text(text: string) | File(file: ImageFile)

  datatype PreviewTab = Home | EventsTab

  const LoadError := "Failed to load events."
  const RequiredError := "Title and date/time are required."
  const CreateError := "Failed to create event."
  const DeleteError := "Failed to delete event."

  /** The query parameters of `GET /events`. */
  function FetchParams(showUpcomingOnly: bool): (params: seq<(string, string)>)
    ensures showUpcomingOnly <==> params == [("upcoming", "true")]
    ensures !showUpcomingOnly <==> params == []
  {
    if showUpcomingOnly then [("upcoming", "true")] else []
  }

  /** The form fields posted for a new event: title and date always, the others only when given. */
  function CreateForm(title: string, eventDate: string, description: string, imageFile: Option<ImageFile>)
    : (form: seq<(string, FormValue)>)
    ensures |form| >= 2 && form[0] == ("title", Text(title)) && form[1] == ("eventDate", Text(eventDate))
    ensures (exists i :: 2 <= i < |form| && form[i] == ("description", Text(description))) <==> description != ""
    ensures (exists i :: 2 <= i < |form| && form[i].0 == "image") <==> imageFile.Some?
    ensures forall i :: 2 <= i < |form| && form[i].0 == "image" ==> form[i].1 == File(imageFile.value)
    ensures |form| == 2 + (if description != "" then 1 else 0) + (if imageFile.Some? then 1 else 0)
  {
    var base := [("title", Text(title)), ("eventDate", Text(eventDate))];
    var withDescription := if description != "" then base + [("description", Text(description))] else base;
    var form := if imageFile.Some? then withDescription + [("image", File(imageFile.value))] else withDescription;
    assert description != "" ==> form[2] == ("description", Text(description));
    assert imageFile.Some? ==> form[|form| - 1] == ("image", File(imageFile.value));
    form
  }

  /** `prev.filter(e => e.id !== id)`. */
  function WithoutId(events: seq<EventItem>, id: int): (r: seq<EventItem>)
    ensures |r| <= |events|
    ensures forall e :: e in r <==> e in events && e.id != id
  {
    if events == [] then []
    else if events[0].id != id then [events[0]] + WithoutId(events[1..], id)
    else WithoutId(events[1..], id)
  }

  /** Filtering distributes over concatenation, so the kept events stay in their order. */
  lemma {:induction false} WithoutIdAppend(a: seq<EventItem>, b: seq<EventItem>, id: int)
    ensures WithoutId(a + b, id) == WithoutId(a, id) + WithoutId(b, id)
  {
    if a == [] {
      assert a + b == b;
    } else {
      assert (a + b)[1..] == a[1..] + b;
      WithoutIdAppend(a[1..], b, id);
    }
  }

  /** A list with no event of that id is left as it is. */
  lemma {:induction false} WithoutAbsentId(events: seq<EventItem>, id: int)
    requires forall i :: 0 <= i < |events| ==> events[i].id != id
    ensures WithoutId(events, id) == events
  {
    if events != [] {
      WithoutAbsentId(events[1..], id);
    }
  }

  /** `events.slice(0, 3)`. */
  function Featured(events: seq<EventItem>): (r: seq<EventItem>)
    ensures |r| == if |events| < 3 then |events| else 3
    ensures r <= events
  {
    if |events| < 3 then events else events[..3]
  }

  /** `featuredEvents[0]`, undefined when there are none. */
  function PrimaryFeatured(events: seq<EventItem>): (r: Option<EventItem>)
    ensures r.None? <==> events == []
    ensures r.Some? ==> r.value == events[0] && r.value == Featured(events)[0]
  {
    if events == [] then None else Some(events[0])
  }

  function TogglePreview(t: PreviewTab): (r: PreviewTab)
    ensures r != t
  {
    match t
    case Home => EventsTab
    case EventsTab => Home
  }

  lemma TogglePreviewInvolution(t: PreviewTab)
    ensures TogglePreview(TogglePreview(t)) == t
  {
  }

  class EventsPage {
    var events: seq<EventItem>
    var loading: bool
    var error: Option<string>
    var showUpcomingOnly: bool
    var previewTab: PreviewTab
    var title: string
    var eventDate: string
    var description: string
    var imageFile: Option<ImageFile>

    constructor ()
      ensures events == [] && loading && error == None && showUpcomingOnly && previewTab == Home
      ensures title == "" && eventDate == "" && description == "" && imageFile == None
    {
      events := [];
      loading := true;
      error := None;
      showUpcomingOnly := true;
      previewTab := Home;
      title := "";
      eventDate := "";
      description := "";
      imageFile := None;
    }

    /**
      `fetchEvents`: the request carries the upcoming-only parameter; a null
      body is no events; a failed call keeps the list and sets the error.
    */
    method FetchEvents(outcome: Outcome<seq<EventItem>>) returns (params: seq<(string, string)>)
      modifies this
      ensures params == FetchParams(showUpcomingOnly)
      ensures outcome.Returned? ==> events == outcome.body.GetOr([]) && error == None
      ensures outcome.Failed? ==> events == old(events) && error == Some(LoadError)
      ensures !loading && showUpcomingOnly == old(showUpcomingOnly) && previewTab == old(previewTab)
      ensures title == old(title) && eventDate == old(eventDate)
      ensures description == old(description) && imageFile == old(imageFile)
    {
      loading := true;
      error := None;
      params := FetchParams(showUpcomingOnly);
      match outcome {
        case Returned(body) => events := body.GetOr([]);
        case Failed => error := Some(LoadError);
      }
      loading := false;
    }

    /**
      `handleCreateEvent`: an empty title or date is refused with an error and
      nothing is sent; otherwise the form is posted, and on success the form
      is cleared and the list is fetched again (`refetch`).
    */
    method HandleCreateEvent(succeeded: bool) returns (form: Option<seq<(string, FormValue)>>, refetch: bool)
      modifies this
      ensures old(title) == "" || old(eventDate) == "" ==>
                form == None && !refetch && error == Some(RequiredError) &&
                title == old(title) && eventDate == old(eventDate) &&
                description == old(description) && imageFile == old(imageFile)
      ensures old(title) != "" && old(eventDate) != "" ==>
                form == Some(CreateForm(old(title), old(eventDate), old(description), old(imageFile)))
      ensures form.Some? && succeeded ==>
                refetch && error == None && title == "" && eventDate == "" && description == "" && imageFile == None
      ensures form.Some? && !succeeded ==>
                !refetch && error == Some(CreateError) &&
                title == old(title) && eventDate == old(eventDate) &&
                description == old(description) && imageFile == old(imageFile)
      ensures events == old(events) && loading == old(loading)
      ensures showUpcomingOnly == old(showUpcomingOnly) && previewTab == old(previewTab)
    {
      error := None;
      if title == "" || eventDate == "" {
        error := Some(RequiredError);
        return None, false;
      }
      form := Some(CreateForm(title, eventDate, description, imageFile));
      if succeeded {
        title := "";
        eventDate := "";
        description := "";
        imageFile := None;
        refetch := true;
      } else {
        error := Some(CreateError);
        refetch := false;
      }
    }

    /**
      `handleDelete`: nothing happens unless the user confirms; a successful
      delete drops the events with that id, a failed one sets the error.
    */
    method HandleDelete(id: int, confirmed: bool, succeeded: bool) returns (sent: bool)
      modifies this
      ensures sent == confirmed
      ensures confirmed && succeeded ==> events == WithoutId(old(events), id) && error == old(error)
      ensures confirmed && !succeeded ==> events == old(events) && error == Some(DeleteError)
      ensures !confirmed ==> events == old(events) && error == old(error)
      ensures loading == old(loading) && showUpcomingOnly == old(showUpcomingOnly) && previewTab == old(previewTab)
      ensures title == old(title) && eventDate == old(eventDate)
      ensures description == old(description) && imageFile == old(imageFile)
    {
      if !confirmed {
        return false;
      }
      sent := true;
      if succeeded {
        events := WithoutId(events, id);
      } else {
        error := Some(DeleteError);
      }
    }

    method TogglePreviewTab()
      modifies this
      ensures previewTab == TogglePreview(old(previewTab))
      ensures events == old(events) && error == old(error) && loading == old(loading)
      ensures showUpcomingOnly == old(showUpcomingOnly)
      ensures title == old(title) && eventDate == old(eventDate)
      ensures description == old(description) && imageFile == old(imageFile)
    {
      previewTab := TogglePreview(previewTab);
    }
  }
}
