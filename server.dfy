/**
 * The request handling of server2.js around the booking dialogue: the routing
 * decision of `POST /chat`, and the server's three pieces of shared state
 * (`userSessions`, `appointments` and `chatHistory`) as the fields of a class
 * whose methods are `saveAppointment`, `handleAppointmentFlow`, the `/chat`
 * handler and the `/appointments` listing. Each request runs as one step.
 * The clock (`today`, `now`), the fallback session id, whether saving raises
 * and the language model's reply are parameters.
 */
module Server {
  import opened Wrappers
  import opened Text
  import opened Validators
  import opened Calendar
  import opened Booking
  import opened Listing
  import opened History

  /** Where `POST /chat` sends a message. */
  datatype Route =
    | Reject              // 400: the message is missing or blank
    | Converse            // to the language model
    | Dialogue(reset: bool)  // into the booking dialogue; `reset` when the session is reset to `{ step: 'start' }`

  /**
   * `!message || message.trim().length === 0`; a missing message is `None`. A
   * message is blank exactly when it is missing or whitespace only.
   */
  predicate IsBlank(message: Option<string>)
    ensures IsBlank(message) <==> message.None? || forall i :: 0 <= i < |message.value| ==> IsSpace(message.value[i])
  {
    message.None? || (TrimEmptyIff(message.value); Trim(message.value) == [])
  }

  /**
   * The routing of `POST /chat`: a blank message is rejected; a message goes
   * into the dialogue when its session is open or it asks for a booking, and
   * only a booking request without an open session starts a fresh session.
   */
  function RouteMessage(message: Option<string>, hasSession: bool): (r: Route)
    ensures r.Reject? <==> IsBlank(message)
    ensures r.Dialogue? <==> !IsBlank(message) && (hasSession || IsAppointmentRequest(message.value))
    ensures r.Converse? <==> !IsBlank(message) && !hasSession && !IsAppointmentRequest(message.value)
    ensures r.Dialogue? ==> (r.reset <==> !hasSession)
  {
    if IsBlank(message) then Reject
    else
      var isCurrentlyBooking := hasSession;
      var wantsToBook := IsAppointmentRequest(message.value);
      if isCurrentlyBooking || wantsToBook then Dialogue(wantsToBook && !isCurrentlyBooking)
      else Converse
  }

  /**
   * `sessionId || fallbackId`, where the fallback is `req.ip + '_' + Date.now()`:
   * a session id that is sent and not empty is used as it is, and only a missing
   * or empty one is replaced.
   */
  function SessionKey(sessionId: Option<string>, fallbackId: string): (key: string)
    ensures sessionId.Some? && sessionId.value != "" ==> key == sessionId.value
    ensures sessionId.None? || sessionId.value == "" ==> key == fallbackId
  {
    if sessionId.Some? && sessionId.value != "" then sessionId.value else fallbackId
  }

  /**
   * The record the dialogue is entered with: `{ step: 'start' }` on a reset, the
   * open session otherwise. While every open session is valid, the record is
   * well formed, and it is at `start` exactly on a reset.
   */
  function EntryRecord(sessions: map<string, Session>, id: string, reset: bool): (data: Session)
    requires !reset ==> id in sessions
    ensures SessionsValid(sessions) ==> WellFormed(data) && (data.step == Start <==> reset)
  {
    if reset then NewBooking else sessions[id]
  }

  /** An entry of the chat history: a user message, a model reply, or a booking reply. */
  datatype Entry = UserTurn(text: string) | ModelTurn(text: string) | BookingTurn(reply: Reply)

  const Greeting: seq<Entry> := [
    UserTurn("Hello"),
    ModelTurn("Greetings! How can I help you? I can assist you with general questions or help you book an appointment if needed.")
  ]

  /**
   * A booking exchange enters the history only when it completes the booking:
   * the user's message, untrimmed, and the confirmation or apology.
   */
  function RecordBooking(h: seq<Entry>, message: string, result: FlowResult): (r: seq<Entry>)
    ensures result.isComplete ==> |r| == |h| + 2 && r[..|h|] == h && r[|h|] == UserTurn(message) && r[|h| + 1] == BookingTurn(result.reply)
    ensures !result.isComplete ==> r == h
  {
    if result.isComplete then h + [UserTurn(message), BookingTurn(result.reply)] else h
  }

  /** The body of a `/chat` response. */
  datatype ChatResponse =
    | EmptyMessage            // 400 `{ error: 'Message cannot be empty' }`
    | BookingReply(reply: Reply)
    | ModelReply(text: string)

  /**
   * A booking request from a user without an open session resets the session
   * to `start`, which consumes the message and asks for a name.
   */
  lemma BookingRequestOpensSession(st: Store, id: string, today: int, now: nat, saveFails: bool)
    requires id !in st.sessions
    ensures RouteMessage(Some("book an appointment"), false) == Dialogue(true)
    ensures var r := Flow(st, id, NewBooking, "book an appointment", today, now, saveFails);
      && r.1 == FlowResult(AskName, false)
      && r.0 == Store(st.sessions[id := Session(Name, None, None, None, None, None)], st.appointments)
  {
    var opening := "book an appointment";
    assert !IsSpace(opening[0]);
    AppointmentRequestExamples();
    OpeningAsksName(st, id, opening, today, now, saveFails);
  }

  /** The next message, the two-character name "Al", is stored as the name and the session moves to `email`. */
  lemma ShortNameAccepted(st: Store, id: string, today: int, now: nat, saveFails: bool)
    requires id in st.sessions && st.sessions[id] == Session(Name, None, None, None, None, None)
    ensures RouteMessage(Some("Al"), true) == Dialogue(false)
    ensures var r := Flow(st, id, st.sessions[id], "Al", today, now, saveFails);
      && r.1 == FlowResult(AskEmail("Al"), false)
      && r.0 == Store(st.sessions[id := Session(Email, Some("Al"), None, None, None, None)], st.appointments)
  {
    var name := "Al";
    assert !IsSpace(name[0]);
    assert IsTrimmed(name);
    assert Accepts(Name, name) by {
      Utf16LengthOfBmp(name);
    }
    NameMoves(st.sessions[id], name, NextBusinessDayOf(today));
  }

  /** The server's shared state. */
  class ChatServer {
    var sessions: map<string, Session>
    var appointments: seq<Appointment>
    var history: seq<Entry>

    /** Every open session is past `start` and well formed, and every saved appointment is valid. */
    ghost predicate Valid()
      reads this`sessions, this`appointments
    {
      SessionsValid(sessions) && AppointmentsValid(appointments)
    }

    constructor ()
      ensures Valid()
      ensures sessions == map[] && appointments == [] && history == Greeting
    {
      sessions := map[];
      appointments := [];
      history := Greeting;
    }

    /**
     * `saveAppointment`: appends one appointment dated on the next business day.
     * Saving a complete form keeps the invariant.
     */
    method SaveAppointment(data: Session, today: int, now: nat)
      modifies this
      ensures appointments == old(appointments) + [MakeAppointment(data, NextBusinessDayOf(today), now)]
      ensures sessions == old(sessions) && history == old(history)
      ensures old(Valid()) && Complete(data) ==> Valid()
    {
      var date := NextBusinessDay(today);
      var added := MakeAppointment(data, date, now);
      if Valid() && Complete(data) {
        CompleteMakesValidAppointment(data, today, now);
        AppendKeepsAppointmentsValid(appointments, added);
      }
      appointments := appointments + [added];
    }

    /**
     * `handleAppointmentFlow`: one message of the booking dialogue for session
     * `id`. A well-formed record keeps the invariant.
     */
    method HandleAppointmentFlow(id: string, message: string, data: Session, today: int, now: nat, saveFails: bool)
      returns (result: FlowResult)
      modifies this
      ensures (Store(sessions, appointments), result)
        == Flow(Store(old(sessions), old(appointments)), id, data, message, today, now, saveFails)
      ensures history == old(history)
      ensures old(Valid()) && WellFormed(data) ==> Valid()
    {
      if Valid() && WellFormed(data) {
        FlowKeepsInvariants(Store(sessions, appointments), id, data, message, today, now, saveFails);
      }
      var day := NextBusinessDay(today);
      match Advance(data, message, day)
      case Stay(reply) =>
        sessions := sessions[id := data];
        result := FlowResult(reply, false);
      case Move(next, reply) =>
        sessions := sessions[id := next];
        result := FlowResult(reply, false);
      case Finish(booked) =>
        if saveFails {
          result := FlowResult(SaveFailed, true);
        } else {
          SaveAppointment(booked, today, now);
          result := FlowResult(Confirmed(booked, day), true);
        }
        sessions := sessions - {id};
    }

    /**
     * `POST /chat` with body `{ message, sessionId }`. A booking exchange is
     * added to the history, untrimmed, only when it completes the booking; a
     * model exchange is added and the history trimmed to its last `Limit`
     * entries.
     */
    method Chat(message: Option<string>, sessionId: Option<string>, fallbackId: string,
                today: int, now: nat, saveFails: bool, generated: string)
      returns (response: ChatResponse)
      requires Valid()
      modifies this
      ensures Valid()
      ensures var id := SessionKey(sessionId, fallbackId);
        match RouteMessage(message, id in old(sessions))
        case Reject =>
          && response == EmptyMessage
          && sessions == old(sessions) && appointments == old(appointments) && history == old(history)
        case Converse =>
          && response == ModelReply(generated)
          && sessions == old(sessions) && appointments == old(appointments)
          && history == PushExchange(old(history), UserTurn(message.value), ModelTurn(generated))
        case Dialogue(reset) =>
          var r := Flow(Store(old(sessions), old(appointments)), id,
            EntryRecord(old(sessions), id, reset), message.value, today, now, saveFails);
          && response == BookingReply(r.1.reply)
          && sessions == r.0.sessions && appointments == r.0.appointments
          && history == RecordBooking(old(history), message.value, r.1)
    {
      var id := SessionKey(sessionId, fallbackId);
      match RouteMessage(message, id in sessions)
      case Reject =>
        response := EmptyMessage;
      case Converse =>
        RecordModelReply(message.value, generated);
        response := ModelReply(generated);
      case Dialogue(reset) =>
        var result := ContinueBooking(id, EntryRecord(sessions, id, reset), message.value, today, now, saveFails);
        response := BookingReply(result.reply);
    }

    /** The model branch of `POST /chat`: the exchange is pushed and the history trimmed. */
    method RecordModelReply(message: string, generated: string)
      modifies this
      ensures history == PushExchange(old(history), UserTurn(message), ModelTurn(generated))
      ensures sessions == old(sessions) && appointments == old(appointments)
      ensures old(Valid()) ==> Valid()
    {
      history := PushExchange(history, UserTurn(message), ModelTurn(generated));
    }

    /**
     * The booking branch of `POST /chat`: `handleAppointmentFlow` on a fresh
     * record when `reset`, on the open session otherwise; a completed booking
     * is added to the history.
     */
    method ContinueBooking(id: string, data: Session, message: string, today: int, now: nat, saveFails: bool)
      returns (result: FlowResult)
      modifies this
      ensures (Store(sessions, appointments), result)
        == Flow(Store(old(sessions), old(appointments)), id, data, message, today, now, saveFails)
      ensures history == RecordBooking(old(history), message, result)
      ensures old(Valid()) && WellFormed(data) ==> Valid()
    {
      result := HandleAppointmentFlow(id, message, data, today, now, saveFails);
      history := RecordBooking(history, message, result);
    }

    /** `GET /appointments`: sorts the stored list newest first, in place, and returns it. */
    method ListAppointments() returns (listing: seq<Appointment>)
      requires Valid()
      modifies this
      ensures Valid()
      ensures appointments == SortNewestFirst(old(appointments)) && listing == appointments
      ensures sessions == old(sessions) && history == old(history)
    {
      var stored := appointments;
      appointments := SortNewestFirst(appointments);
      listing := appointments;
      forall i | 0 <= i < |appointments|
        ensures ValidAppointment(appointments[i])
      {
        SortKeepsMembers(stored, appointments[i]);
      }
    }
  }
}
