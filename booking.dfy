/**
 * The appointment-booking dialogue of server2.js (`handleAppointmentFlow` and
 * `saveAppointment`), as values: a session record that a six-step form fills
 * in, the transition one message causes, and what one request does to the
 * session map and the appointment list. The imperative form, a class whose
 * methods update those two collections in place, is in the Server module and
 * is proved equal to `Flow`.
 */
module Booking {
  import opened Wrappers
  import opened Text
  import opened Validators
  import opened TimeSlots
  import opened Calendar

  /** The `step` of a session: `start`, `name`, `email`, `phone`, `purpose`, `time`. */
  datatype Step = Start | Name | Email | Phone | Purpose | Time

  /** The position of a step in the form. */
  function Rank(k: Step): nat
  {
    match k
    case Start => 0
    case Name => 1
    case Email => 2
    case Phone => 3
    case Purpose => 4
    case Time => 5
  }

  /**
   * The session record kept under a session id. A field is `None` while the
   * JavaScript object has no such property.
   */
  datatype Session = Session(
    step: Step,
    name: Option<string>,
    email: Option<string>,
    phone: Option<string>,
    purpose: Option<string>,
    appointmentTime: Option<string>)

  /** `{ step: 'start' }`, the record a new booking request starts from. */
  const NewBooking: Session := Session(Start, None, None, None, None, None)

  /** The field a step writes; `start` writes none. */
  function Field(s: Session, k: Step): Option<string>
  {
    match k
    case Start => None
    case Name => s.name
    case Email => s.email
    case Phone => s.phone
    case Purpose => s.purpose
    case Time => s.appointmentTime
  }

  /** The replies of the dialogue, one per message of the source. */
  datatype Reply =
    | AskName                     // the greeting that asks what to call the user
    | RetryName                   // a name of at least 2 characters is needed
    | AskEmail(name: string)      // greets the user by name and asks for the email address
    | RetryEmail                  // a valid email address is needed
    | AskPhone
    | RetryPhone                  // a phone number with at least 10 digits is needed
    | AskPurpose
    | OfferSlots(day: int)        // `suggestAppointmentTimes`: the suggested times on that day
    | RetrySlots(day: int)        // choose one of the suggested times on that day
    | Confirmed(booked: Session, day: int)  // the summary of the booked appointment
    | SaveFailed                  // the apology of the `catch` branch

  /**
   * Whether a step takes the trimmed message as its answer: `start` and
   * `purpose` take anything; a name needs a character, an address five, a
   * number ten, and a time must normalise to the `H:MM AM|PM` form.
   */
  predicate Accepts(k: Step, answer: string)
    ensures k == Start || k == Purpose ==> Accepts(k, answer)
    ensures Accepts(k, answer) && k == Name ==> |answer| >= 1
    ensures Accepts(k, answer) && k == Email ==> |answer| >= 5
    ensures Accepts(k, answer) && k == Phone ==> |answer| >= 10
    ensures Accepts(k, answer) && k == Time ==> IsCanonicalTime(NormalizeTime(answer))
  {
    Utf16LengthBounds(answer);
    match k
    case Start => true
    case Name => Utf16Length(answer) >= 2
    case Email => IsValidEmail(answer)
    case Phone => IsValidPhone(answer)
    case Purpose => true
    case Time => IsValidAppointmentTime(answer)
  }

  /** What one message does to a session: it stays, moves on, or completes the booking. */
  datatype Transition =
    | Stay(reply: Reply)
    | Move(next: Session, reply: Reply)
    | Finish(booked: Session)

  /**
   * The `switch (step)` of `handleAppointmentFlow` once the current step's
   * check has run: `answer` is the trimmed message and `accepted` whether the
   * step takes it. `day` is the next business day, which the `purpose` and
   * `time` steps show.
   */
  function Answer(s: Session, answer: string, accepted: bool, day: int): (t: Transition)
    ensures t.Stay? <==> !accepted && s.step !in {Start, Purpose}
    ensures t.Finish? <==> accepted && s.step == Time
    ensures t.Move? ==> Rank(t.next.step) == Rank(s.step) + 1
    ensures t.Move? ==> forall k :: k != s.step ==> Field(t.next, k) == Field(s, k)
    ensures t.Move? && s.step != Start ==> Field(t.next, s.step) == Some(answer)
    ensures t.Finish? ==> t.booked == s.(appointmentTime := Some(answer))
  {
    match s.step
    case Start =>
      Move(s.(step := Name), AskName)
    case Name =>
      if !accepted then Stay(RetryName)
      else Move(s.(name := Some(answer), step := Email), AskEmail(answer))
    case Email =>
      if !accepted then Stay(RetryEmail)
      else Move(s.(email := Some(answer), step := Phone), AskPhone)
    case Phone =>
      if !accepted then Stay(RetryPhone)
      else Move(s.(phone := Some(answer), step := Purpose), AskPurpose)
    case Purpose =>
      Move(s.(purpose := Some(answer), step := Time), OfferSlots(day))
    case Time =>
      if !accepted then Stay(RetrySlots(day))
      else Finish(s.(appointmentTime := Some(answer)))
  }

  /** One message at the session's current step: the trimmed message, checked by that step. */
  function Advance(s: Session, message: string, day: int): (t: Transition)
    ensures t.Stay? <==> !Accepts(s.step, Trim(message))
    ensures t.Finish? <==> s.step == Time && Accepts(Time, Trim(message))
    ensures t.Move? ==> Rank(t.next.step) == Rank(s.step) + 1
    ensures t.Move? ==> forall k :: k != s.step ==> Field(t.next, k) == Field(s, k)
    ensures t.Move? && s.step != Start ==> Field(t.next, s.step) == Some(Trim(message))
    ensures t.Finish? ==> t.booked == s.(appointmentTime := Some(Trim(message)))
  {
    var answer := Trim(message);
    Answer(s, answer, Accepts(s.step, answer), day)
  }

  /** An answer as the dialogue stores it: trimmed and accepted by its step. */
  predicate GoodAnswer(k: Step, v: string)
  {
    IsTrimmed(v) && Accepts(k, v)
  }

  /** Field `k` is filled exactly when its step is behind the session, and then with a good answer. */
  predicate FieldState(s: Session, k: Step)
  {
    && (Field(s, k).Some? <==> Rank(k) < Rank(s.step))
    && (Field(s, k).Some? ==> GoodAnswer(k, Field(s, k).value))
  }

  /** A session the dialogue can have produced: the steps behind it answered, none ahead. */
  predicate WellFormed(s: Session)
  {
    && FieldState(s, Name) && FieldState(s, Email) && FieldState(s, Phone) && FieldState(s, Purpose)
    && s.appointmentTime.None?
  }

  /** A record whose every step has been answered. */
  predicate Complete(s: Session)
  {
    && s.step == Time
    && s.name.Some? && GoodAnswer(Name, s.name.value)
    && s.email.Some? && GoodAnswer(Email, s.email.value)
    && s.phone.Some? && GoodAnswer(Phone, s.phone.value)
    && s.purpose.Some? && GoodAnswer(Purpose, s.purpose.value)
    && s.appointmentTime.Some? && GoodAnswer(Time, s.appointmentTime.value)
  }

  /** An appointment as `saveAppointment` records it. */
  datatype Appointment = Appointment(
    id: nat,
    date: int,
    name: Option<string>,
    email: Option<string>,
    phone: Option<string>,
    purpose: string,
    appointmentTime: Option<string>,
    status: string,
    createdAt: nat)

  const DefaultPurpose: string := "General consultation"
  const Scheduled: string := "Scheduled"

  /**
   * The record `saveAppointment` pushes: dated on the next business day, with
   * `now` (milliseconds) as both its id and its creation time, and the default
   * purpose when the purpose is missing or empty.
   */
  function MakeAppointment(b: Session, date: int, now: nat): (a: Appointment)
    ensures a.name == b.name && a.email == b.email && a.phone == b.phone
    ensures a.appointmentTime == b.appointmentTime
    ensures b.purpose.Some? && b.purpose.value != "" ==> a.purpose == b.purpose.value
    ensures b.purpose.None? || b.purpose.value == "" ==> a.purpose == DefaultPurpose
    ensures a.purpose != "" && a.status == Scheduled
    ensures a.date == date && a.id == now && a.createdAt == now
  {
    var purpose := if b.purpose.Some? && b.purpose.value != "" then b.purpose.value else DefaultPurpose;
    Appointment(now, date, b.name, b.email, b.phone, purpose, b.appointmentTime, Scheduled, now)
  }

  /** An appointment the dialogue can have saved. */
  predicate ValidAppointment(a: Appointment)
  {
    && a.status == Scheduled && a.purpose != "" && !IsWeekend(a.date)
    && a.name.Some? && GoodAnswer(Name, a.name.value)
    && a.email.Some? && GoodAnswer(Email, a.email.value)
    && a.phone.Some? && GoodAnswer(Phone, a.phone.value)
    && a.appointmentTime.Some? && GoodAnswer(Time, a.appointmentTime.value)
  }

  /** Every stored session is past `start` and well formed. */
  predicate SessionsValid(sessions: map<string, Session>)
  {
    forall id :: id in sessions ==> sessions[id].step != Start && WellFormed(sessions[id])
  }

  predicate AppointmentsValid(appointments: seq<Appointment>)
  {
    forall i :: 0 <= i < |appointments| ==> ValidAppointment(appointments[i])
  }

  /** The two collections `handleAppointmentFlow` changes. */
  datatype Store = Store(sessions: map<string, Session>, appointments: seq<Appointment>)

  /** The `{ response, isComplete }` that `handleAppointmentFlow` returns. */
  datatype FlowResult = FlowResult(reply: Reply, isComplete: bool)

  /**
   * One call of `handleAppointmentFlow(id, message, data)`. An unfinished
   * form is stored under `id`; a finished one removes the session and, unless
   * saving raises (`saveFails`), appends one appointment.
   */
  function Flow(st: Store, id: string, data: Session, message: string, today: int, now: nat, saveFails: bool)
    : (r: (Store, FlowResult))
    ensures r.1.isComplete <==> Advance(data, message, NextBusinessDayOf(today)).Finish?
    ensures r.1.isComplete ==> r.0.sessions == st.sessions - {id}
    ensures !r.1.isComplete ==> id in r.0.sessions && r.0.sessions == st.sessions[id := r.0.sessions[id]]
    ensures !r.1.isComplete ==> r.0.appointments == st.appointments
    ensures !r.1.isComplete ==>
      var t := Advance(data, message, NextBusinessDayOf(today));
      r.0.sessions[id] == if t.Move? then t.next else data
    ensures r.0.appointments == st.appointments + (if r.1.isComplete && !saveFails then
      [MakeAppointment(Advance(data, message, NextBusinessDayOf(today)).booked, NextBusinessDayOf(today), now)] else [])
  {
    var day := NextBusinessDayOf(today);
    match Advance(data, message, day)
    case Stay(reply) =>
      (Store(st.sessions[id := data], st.appointments), FlowResult(reply, false))
    case Move(next, reply) =>
      (Store(st.sessions[id := next], st.appointments), FlowResult(reply, false))
    case Finish(booked) =>
      if saveFails then
        (Store(st.sessions - {id}, st.appointments), FlowResult(SaveFailed, true))
      else
        (Store(st.sessions - {id}, st.appointments + [MakeAppointment(booked, day, now)]),
         FlowResult(Confirmed(booked, day), true))
  }

  /** A message touches only its own session: every other session is kept as it was. */
  lemma FlowLeavesOtherSessions(st: Store, id: string, data: Session, message: string, today: int, now: nat, saveFails: bool, other: string)
    requires other != id
    ensures var r := Flow(st, id, data, message, today, now, saveFails);
      && (other in r.0.sessions <==> other in st.sessions)
      && (other in st.sessions ==> r.0.sessions[other] == st.sessions[other])
  {
  }

  /** Whatever the first message of a fresh record says, it is consumed and the user is asked for a name. */
  lemma OpeningAsksName(st: Store, id: string, message: string, today: int, now: nat, saveFails: bool)
    ensures Flow(st, id, NewBooking, message, today, now, saveFails)
      == (Store(st.sessions[id := NewBooking.(step := Name)], st.appointments), FlowResult(AskName, false))
  {
  }

  /** A message a step rejects leaves the session where it is. */
  lemma RejectedAnswerStays(s: Session, message: string, day: int)
    requires !Accepts(s.step, Trim(message))
    ensures s.step != Start && s.step != Purpose
    ensures Advance(s, message, day).Stay?
  {
  }

  /** A field the step did not write keeps its state when the session moves one step on. */
  lemma FieldCarried(s: Session, n: Session, k: Step)
    requires FieldState(s, k) && Field(n, k) == Field(s, k)
    requires Rank(n.step) == Rank(s.step) + 1 && k != s.step
    ensures FieldState(n, k)
  {
  }

  /** The field the step wrote with a good answer is in the state the next step expects. */
  lemma FieldAnswered(s: Session, n: Session, answer: string)
    requires s.step != Start && Field(n, s.step) == Some(answer) && GoodAnswer(s.step, answer)
    requires Rank(n.step) == Rank(s.step) + 1
    ensures FieldState(n, s.step)
  {
  }

  /** Moving one step on keeps every field in the state its step's position calls for. */
  lemma FieldMoved(s: Session, n: Session, answer: string, k: Step)
    requires k != Start && FieldState(s, k) && Rank(n.step) == Rank(s.step) + 1
    requires forall j :: j != s.step ==> Field(n, j) == Field(s, j)
    requires s.step != Start ==> Field(n, s.step) == Some(answer) && GoodAnswer(s.step, answer)
    ensures FieldState(n, k)
  {
    if k == s.step {
      FieldAnswered(s, n, answer);
    } else {
      FieldCarried(s, n, k);
    }
  }

  lemma WellFormedOfFields(n: Session)
    requires FieldState(n, Name) && FieldState(n, Email) && FieldState(n, Phone) && FieldState(n, Purpose)
    requires n.appointmentTime.None?
    ensures WellFormed(n)
  {
  }

  lemma CompleteOfTimeAnswer(s: Session, answer: string)
    requires WellFormed(s) && s.step == Time && GoodAnswer(Time, answer)
    ensures Complete(s.(appointmentTime := Some(answer)))
  {
  }

  /** Each step keeps a well-formed session well formed, and the last one yields a complete record. */
  lemma AnswerKeepsWellFormed(s: Session, answer: string, accepted: bool, day: int)
    requires WellFormed(s) && IsTrimmed(answer)
    requires accepted ==> Accepts(s.step, answer)
    ensures var t := Answer(s, answer, accepted, day);
      && (t.Move? ==> WellFormed(t.next) && t.next.step != Start)
      && (t.Finish? ==> Complete(t.booked))
  {
    var t := Answer(s, answer, accepted, day);
    if t.Move? {
      assert s.step == Purpose ==> Accepts(s.step, answer);
      FieldMoved(s, t.next, answer, Name);
      FieldMoved(s, t.next, answer, Email);
      FieldMoved(s, t.next, answer, Phone);
      FieldMoved(s, t.next, answer, Purpose);
      assert Field(t.next, Time) == Field(s, Time);
      WellFormedOfFields(t.next);
    }
    if t.Finish? {
      assert accepted && s.step == Time;
      assert Accepts(Time, answer);
      CompleteOfTimeAnswer(s, answer);
    }
  }

  lemma AdvanceKeepsWellFormed(s: Session, message: string, day: int)
    requires WellFormed(s)
    ensures var t := Advance(s, message, day);
      && (t.Move? ==> WellFormed(t.next) && t.next.step != Start)
      && (t.Finish? ==> Complete(t.booked))
  {
    var answer := Trim(message);
    AnswerKeepsWellFormed(s, answer, Accepts(s.step, answer), day);
  }

  /** A complete record makes a valid appointment on a business day. */
  lemma CompleteMakesValidAppointment(b: Session, today: int, now: nat)
    requires Complete(b)
    ensures ValidAppointment(MakeAppointment(b, NextBusinessDayOf(today), now))
  {
  }

  /** Storing a well-formed record past `start` keeps every stored session valid. */
  lemma StoreKeepsSessionsValid(sessions: map<string, Session>, id: string, s: Session)
    requires SessionsValid(sessions) && s.step != Start && WellFormed(s)
    ensures SessionsValid(sessions[id := s])
  {
  }

  /** Deleting a session keeps every remaining session valid. */
  lemma RemoveKeepsSessionsValid(sessions: map<string, Session>, id: string)
    requires SessionsValid(sessions)
    ensures SessionsValid(sessions - {id})
  {
  }

  /** Appending a valid appointment keeps every saved appointment valid. */
  lemma AppendKeepsAppointmentsValid(appointments: seq<Appointment>, a: Appointment)
    requires AppointmentsValid(appointments) && ValidAppointment(a)
    ensures AppointmentsValid(appointments + [a])
  {
  }

  /**
   * Every request keeps the invariants: stored sessions are past `start` and
   * well formed, and every saved appointment is valid.
   */
  lemma FlowKeepsInvariants(st: Store, id: string, data: Session, message: string, today: int, now: nat, saveFails: bool)
    requires SessionsValid(st.sessions) && AppointmentsValid(st.appointments)
    requires WellFormed(data)
    ensures var r := Flow(st, id, data, message, today, now, saveFails);
      SessionsValid(r.0.sessions) && AppointmentsValid(r.0.appointments)
  {
    var day := NextBusinessDayOf(today);
    AdvanceKeepsWellFormed(data, message, day);
    match Advance(data, message, day)
    case Stay(_) =>
      StoreKeepsSessionsValid(st.sessions, id, data);
    case Move(next, _) =>
      StoreKeepsSessionsValid(st.sessions, id, next);
    case Finish(booked) =>
      RemoveKeepsSessionsValid(st.sessions, id);
      CompleteMakesValidAppointment(booked, today, now);
      AppendKeepsAppointmentsValid(st.appointments, MakeAppointment(booked, day, now));
  }

  /** A message the current step rejects changes neither the sessions nor the appointments. */
  lemma RejectedAnswerChangesNothing(st: Store, id: string, message: string, today: int, now: nat, saveFails: bool)
    requires id in st.sessions
    requires !Accepts(st.sessions[id].step, Trim(message))
    ensures var r := Flow(st, id, st.sessions[id], message, today, now, saveFails);
      r.0 == st && !r.1.isComplete
  {
    assert st.sessions[id := st.sessions[id]] == st.sessions;
  }

  /** A trimmed name the `name` step accepts is stored as it is. */
  lemma NameMoves(s: Session, name: string, day: int)
    requires s.step == Name && IsTrimmed(name) && Accepts(Name, name)
    ensures Advance(s, name, day) == Move(s.(name := Some(name), step := Email), AskEmail(name))
  {
    TrimOfTrimmed(name);
  }

  /** The opening message of a fresh record asks for a name, and an accepted name is stored trimmed. */
  lemma DialogueTakesName(opening: string, name: string, day: int)
    requires Accepts(Name, Trim(name))
    ensures Advance(NewBooking, opening, day) == Move(NewBooking.(step := Name), AskName)
    ensures var s1 := NewBooking.(step := Name);
      Advance(s1, name, day) == Move(s1.(name := Some(Trim(name)), step := Email), AskEmail(Trim(name)))
  {
  }

  /** After the name, an accepted email address and phone number are stored trimmed, one step each. */
  lemma DialogueTakesContact(name: string, email: string, phone: string, day: int)
    requires Accepts(Email, Trim(email)) && Accepts(Phone, Trim(phone))
    ensures var s2 := NewBooking.(step := Name).(name := Some(Trim(name)), step := Email);
      var s3 := s2.(email := Some(Trim(email)), step := Phone);
      && Advance(s2, email, day) == Move(s3, AskPhone)
      && Advance(s3, phone, day) == Move(s3.(phone := Some(Trim(phone)), step := Purpose), AskPurpose)
  {
  }

  /** After the phone number, any purpose is stored and a time the `time` step accepts completes the form. */
  lemma DialogueTakesTime(name: string, email: string, phone: string, purpose: string, time: string, day: int)
    requires Accepts(Time, Trim(time))
    ensures var s4 := Session(Purpose, Some(Trim(name)), Some(Trim(email)), Some(Trim(phone)), None, None);
      var s5 := s4.(purpose := Some(Trim(purpose)), step := Time);
      && Advance(s4, purpose, day) == Move(s5, OfferSlots(day))
      && Advance(s5, time, day) == Finish(s5.(appointmentTime := Some(Trim(time))))
  {
    var s4 := Session(Purpose, Some(Trim(name)), Some(Trim(email)), Some(Trim(phone)), None, None);
    assert Advance(s4, purpose, day) == Answer(s4, Trim(purpose), true, day);
    var s5 := Session(Time, Some(Trim(name)), Some(Trim(email)), Some(Trim(phone)), Some(Trim(purpose)), None);
    var t := Advance(s5, time, day);
    assert t.Finish? && t.booked == s5.(appointmentTime := Some(Trim(time)));
  }

  /**
   * The whole dialogue: from `{ step: 'start' }`, the opening message, then a
   * name, an email address, a phone number, a purpose and a time that their
   * steps accept, complete the booking with the trimmed answers.
   */
  lemma DialogueBooks(opening: string, name: string, email: string, phone: string, purpose: string, time: string, day: int)
    requires Accepts(Name, Trim(name)) && Accepts(Email, Trim(email)) && Accepts(Phone, Trim(phone))
    requires Accepts(Time, Trim(time))
    ensures Advance(NewBooking, opening, day) == Move(NewBooking.(step := Name), AskName)
    ensures var s1 := NewBooking.(step := Name);
      var s2 := s1.(name := Some(Trim(name)), step := Email);
      var s3 := s2.(email := Some(Trim(email)), step := Phone);
      var s4 := s3.(phone := Some(Trim(phone)), step := Purpose);
      var s5 := s4.(purpose := Some(Trim(purpose)), step := Time);
      && Advance(s1, name, day) == Move(s2, AskEmail(Trim(name)))
      && Advance(s2, email, day) == Move(s3, AskPhone)
      && Advance(s3, phone, day) == Move(s4, AskPurpose)
      && Advance(s4, purpose, day) == Move(s5, OfferSlots(day))
      && Advance(s5, time, day) == Finish(Session(Time, Some(Trim(name)), Some(Trim(email)), Some(Trim(phone)),
        Some(Trim(purpose)), Some(Trim(time))))
  {
    DialogueTakesName(opening, name, day);
    DialogueTakesContact(name, email, phone, day);
    DialogueTakesTime(name, email, phone, purpose, time, day);
  }

  /**
   * `length` counts UTF-16 code units, so a name of one character outside the
   * Basic Multilingual Plane passes the two-character check.
   */
  lemma OneAstralCharacterName(c: char)
    requires c as int >= 0x1_0000
    ensures Accepts(Name, [c])
  {
    assert Utf16Length([c]) == 2 by {
      assert [c][1..] == [];
    }
  }

  /** A name of one character from the Basic Multilingual Plane is rejected. */
  lemma OneBmpCharacterNameRejected(c: char)
    requires c as int < 0x1_0000
    ensures !Accepts(Name, [c])
  {
    assert Utf16Length([c]) == 1 by {
      assert [c][1..] == [];
    }
  }
}
