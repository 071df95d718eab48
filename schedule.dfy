/**
 * The schedule page: loading the user's events, the add-event form with its two checks and its reset, the
 * confirmed delete, the event-type lookups and the rule that styles a message as a success.
 */
module Schedule {
  import opened Common
  import opened Json
  import opened Records

  // ---------------------------------------------------------------- event-type lookups

  /** The four event types the page knows. */
  predicate KnownType(t: string) {
    t == "lecture" || t == "practice" || t == "exam" || t == "meeting"
  }

  /** `getEventTypeClass`: a known type is its own class, anything else gets no class. */
  function EventTypeClass(t: string): (r: string)
    ensures KnownType(t) ==> r == t
    ensures !KnownType(t) ==> r == ""
  {
    match t
    case "lecture" => "lecture"
    case "practice" => "practice"
    case "exam" => "exam"
    case "meeting" => "meeting"
    case _ => ""
  }

  /** `getEventTypeLabel`: the Russian name of a known type, the raw type otherwise. */
  function EventTypeLabel(t: string): (r: string)
    ensures t == "lecture" ==> r == "Лекция"
    ensures t == "practice" ==> r == "Практика"
    ensures t == "exam" ==> r == "Экзамен"
    ensures t == "meeting" ==> r == "Встреча"
    ensures !KnownType(t) ==> r == t
  {
    match t
    case "lecture" => "Лекция"
    case "practice" => "Практика"
    case "exam" => "Экзамен"
    case "meeting" => "Встреча"
    case _ => t
  }

  /**
   * The two lookups agree on what they recognise: a type has a class exactly when it has a translated label,
   * and different known types never share a label.
   */
  lemma LookupsAgree(t: string, u: string)
    ensures EventTypeClass(t) != "" <==> EventTypeLabel(t) != t
    ensures KnownType(t) && KnownType(u) && EventTypeLabel(t) == EventTypeLabel(u) ==> t == u
  {
  }

  // ---------------------------------------------------------------- messages

  const MsgTitleRequired := "Введите название события"
  const MsgDateRequired := "Выберите дату"
  const MsgCreated := "Событие успешно добавлено!"
  const MsgCreateFailed := "Ошибка создания события"
  const MsgDeleted := "Событие успешно удалено"
  const MsgDeleteFailed := "Ошибка удаления события"
  const MsgLoadFailed := "Ошибка загрузки событий"

  /** `message.includes('успешно')`: the message box is styled as a success, otherwise as an error. */
  predicate IsSuccessMessage(msg: string) {
    Contains(msg, "успешно")
  }

  /** A message without the letter 'п' cannot contain the word, so it is styled as an error. */
  lemma NoMarkerLetter(msg: string)
    requires 'п' !in msg
    ensures !IsSuccessMessage(msg)
  {
    if exists i :: OccursAt(msg, "успешно", i) {
      var i :| OccursAt(msg, "успешно", i);
      assert msg[i + 2] == msg[i..i + 7][2];
    }
  }

  /** Both success messages are styled as successes. */
  lemma SuccessMessagesStyled()
    ensures IsSuccessMessage(MsgCreated) && IsSuccessMessage(MsgDeleted)
  {
    assert OccursAt(MsgCreated, "успешно", 8);
    assert OccursAt(MsgDeleted, "успешно", 8);
  }

  /** The page's own failure and validation messages are styled as errors. */
  lemma FailureMessagesStyled(msg: string)
    requires msg in [MsgTitleRequired, MsgDateRequired, MsgCreateFailed, MsgDeleteFailed, MsgLoadFailed]
    ensures !IsSuccessMessage(msg)
  {
    NoMarkerLetter(msg);
  }

  /** A rejected call whose body is the server's `{"error": text}` shows that text; with no body, the fallback. */
  lemma ServerErrorShown(text: string, fallback: string)
    requires text != ""
    ensures ErrorText(Some(JObj([Member("error", JStr(text))])), fallback) == text
    ensures ErrorText(None, fallback) == fallback
    ensures ErrorText(Some(JObj([])), fallback) == fallback
  {
  }

  // ---------------------------------------------------------------- the page

  /** The add-event form; the duration is in tenths of an hour. */
  datatype EventForm = EventForm(
    title: string, description: string, eventType: string, subject: string, location: string,
    eventDate: string, startTime: string, durationTenths: int)

  /** The form as the page starts and as a successful create leaves it; `today` is the current date. */
  function DefaultForm(today: string): (f: EventForm)
    ensures f.eventType == "lecture" && f.startTime == "09:00" && f.durationTenths == 15 && f.eventDate == today
    ensures f.title == "" && f.description == "" && f.subject == "" && f.location == ""
  {
    EventForm("", "", "lecture", "", "", today, "09:00", 15)
  }

  class ScheduleView {
    var events: seq<Event>
    var showAddForm: bool
    var loading: bool
    var message: string
    var formData: EventForm

    constructor(today: string)
      ensures events == [] && !showAddForm && loading && message == "" && formData == DefaultForm(today)
    {
      events := [];
      showAddForm := false;
      loading := true;
      message := "";
      formData := DefaultForm(today);
    }

    /**
     * `fetchEvents`: the list becomes the body, a `null` body counting as empty; a failure empties the list
     * and sets the load error. Loading ends either way.
     */
    method FetchEvents(reply: Reply<Option<seq<Event>>>)
      modifies this
      ensures reply.Success? ==> events == reply.data.GetOr([]) && message == old(message)
      ensures reply.Failure? ==> events == [] && message == MsgLoadFailed
      ensures !loading && formData == old(formData) && showAddForm == old(showAddForm)
    {
      if reply.Success? {
        events := reply.data.GetOr([]);
      } else {
        message := MsgLoadFailed;
        events := [];
      }
      loading := false;
    }

    /**
     * `handleSubmit`: the title check, then the date check, each stopping before any call; otherwise the form
     * is sent (`request`). On success the form resets to the defaults for `today` and the list is to be
     * fetched again (`refetch`); on failure the server's error text, or the fallback, is shown.
     */
    method HandleSubmit(today: string, reply: Reply<()>) returns (request: Option<EventForm>, refetch: bool)
      modifies this
      ensures Trim(old(formData.title)) == [] ==>
        request == None && !refetch && message == MsgTitleRequired && formData == old(formData)
      ensures Trim(old(formData.title)) != [] && old(formData.eventDate) == "" ==>
        request == None && !refetch && message == MsgDateRequired && formData == old(formData)
      ensures Trim(old(formData.title)) != [] && old(formData.eventDate) != "" ==>
        request == Some(old(formData))
      ensures request.Some? && reply.Success? ==>
        refetch && message == MsgCreated && formData == DefaultForm(today)
      ensures request.Some? && reply.Failure? ==>
        !refetch && message == ErrorText(reply.body, MsgCreateFailed) && formData == old(formData)
      ensures events == old(events) && loading == old(loading) && showAddForm == old(showAddForm)
    {
      message := "";
      if Trim(formData.title) == [] {
        message := MsgTitleRequired;
        return None, false;
      }
      if formData.eventDate == "" {
        message := MsgDateRequired;
        return None, false;
      }
      request := Some(formData);
      if reply.Success? {
        message := MsgCreated;
        formData := DefaultForm(today);
        refetch := true;
      } else {
        message := ErrorText(reply.body, MsgCreateFailed);
        refetch := false;
      }
    }

    /**
     * `handleDeleteEvent`: nothing happens unless the user confirms; then the delete is sent (`requested`) and
     * the outcome decides the message and whether the list is fetched again.
     */
    method HandleDeleteEvent(eventId: int, confirmed: bool, reply: Reply<()>) returns (requested: bool, refetch: bool)
      modifies this
      ensures requested == confirmed
      ensures !confirmed ==> !refetch && message == old(message)
      ensures confirmed && reply.Success? ==> refetch && message == MsgDeleted
      ensures confirmed && reply.Failure? ==> !refetch && message == ErrorText(reply.body, MsgDeleteFailed)
      ensures events == old(events) && formData == old(formData) && loading == old(loading)
      ensures showAddForm == old(showAddForm)
    {
      if !confirmed {
        return false, false;
      }
      requested := true;
      if reply.Success? {
        message := MsgDeleted;
        refetch := true;
      } else {
        message := ErrorText(reply.body, MsgDeleteFailed);
        refetch := false;
      }
    }
  }
}
