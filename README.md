# Appointment-booking chat server, modelled in Dafny

`server2.js` is an Express server behind a chat widget. `POST /chat` takes a
message and an optional session id. A message that asks for a booking
("call me", "book an appointment", …), or that arrives while the sender's
booking is still open, goes into a six-step form: `start`, `name`, `email`,
`phone`, `purpose`, `time`. Each step validates the trimmed message. If the
answer is good, the step stores it and asks the next question. If not, it
asks again. A valid time slot completes the form: the appointment is appended
to an in-memory list, dated on the next business day, and the session is
deleted. Every other message goes to a language model, and the exchange is
kept in a chat history bounded to its last twenty entries. `GET /appointments`
sorts the list newest first and returns it.

The model has one module per concern:

- `Text`: the JavaScript string primitives the code relies on. These are the
  `\s` class, `trim`, the `replace(/\s+/g, ' ')` collapse, case mapping,
  `includes`, and `length`, which counts UTF-16 code units.
- `Validators`: `isAppointmentRequest`, `isValidEmail` and `isValidPhone`, as
  predicates. Each is proved equal to an independent description of what it
  accepts.
- `TimeSlots`: `isValidAppointmentTime`, the normaliser of `H[:MM] AM|PM`
  times and the sixteen half-hour slots. It is proved to accept exactly the
  texts that are one time expression naming a slot.
- `Calendar`: `getNextBusinessDay`, as a loop over day numbers and as the
  function that specifies it.
- `Booking`: the session record, the transition one message causes
  (`Advance`), `saveAppointment`'s record (`MakeAppointment`), and what one
  call of `handleAppointmentFlow` does to the session map and the appointment
  list (`Flow`). Every open session is proved to stay well formed, and every
  saved appointment to be complete.
- `Listing`: the newest-first order of `GET /appointments`.
- `History`: the bounded chat history.
- `Server`: the routing of `POST /chat`, plus the class `ChatServer`. Its
  fields are the server's three pieces of shared state: `sessions`
  (`userSessions`), `appointments` and `history` (`chatHistory`). Its methods
  are `saveAppointment`, `handleAppointmentFlow`, the `/chat` handler and the
  `/appointments` listing. Each method is proved equal to the value-level
  functions above, and each keeps the class invariant `Valid`. The `/chat`
  handler and the listing require and ensure it. The other methods ensure it
  whenever it held before the call and the record they are given is well
  formed (complete, for `saveAppointment`).

The outside world enters the model as parameters:

- `today` is a day number, where 0 is 1970-01-01, a Thursday.
- `now` is the millisecond clock. It gives the appointment's `id` and
  `createdAt`.
- `fallbackId` is the session id generated when none is sent.
- `saveFails` says whether saving raises, which selects the `catch` branch.
- `generated` is the language model's reply.

Replies are a `Reply` datatype that records what each message says and the
data it shows, rather than its prose.

## Model

| member | source | states |
|---|---|---|
| Text.Trim | server2.js:158 | the trimmed text is no longer than the input and has no whitespace at either end |
| Text.TrimIsSlice | server2.js:158 | `trim` removes only whitespace: the result is a contiguous slice of the input, and everything cut off before and after it is whitespace |
| Text.TrimEmptyIff | server2.js:258 | the trimmed text is empty iff every character is whitespace |
| Text.TrimIdempotent | server2.js:200 | trimming an already trimmed answer again (as `isValidAppointmentTime` does) changes nothing |
| Text.TrimOfTrimmed | server2.js:109 | a text without whitespace at either end is its own trim |
| Text.CollapseSpaces | server2.js:110 | after `replace(/\s+/g, ' ')` every whitespace character is a plain space, no two are adjacent, and the text starts with whitespace exactly when the input did |
| Text.CollapseOfCollapsed | server2.js:110 | the collapse leaves a text with single plain spaces unchanged |
| Text.CollapseKeepsText | server2.js:110 | the collapse keeps every character that is not whitespace, in order: with whitespace removed, the collapsed text and the input are the same |
| Text.CollapseRun | server2.js:110 | a run of one or more whitespace characters, followed by the end of the text or a character that is not whitespace, becomes a single space followed by the collapse of the rest |
| Text.CollapseKeepsChar | server2.js:110 | a character that is not whitespace is kept as it is, in front of the collapse of the rest |
| Text.CollapseInteriorRun | server2.js:110 | a run of whitespace anywhere in the text, between a part that does not end with whitespace and a part that does not start with it, becomes exactly one space between the collapses of the two parts |
| Text.Utf16LengthBounds | server2.js:159 | `length` counts each character as one or two code units |
| Text.Utf16LengthOfBmp | server2.js:159 | for characters of the Basic Multilingual Plane, `length` is the number of characters |
| Text.ContainsTransitive | server2.js:55 | `includes` is transitive: a text containing a phrase contains every phrase that phrase contains |
| Validators.IsAppointmentRequest | server2.js:47-56 | every message whose lower-cased text contains "appointment" is a booking request, and a booking request is at least seven characters long, the length of the shortest phrase |
| Validators.AppointmentRequestByCoreKeywords | server2.js:47-56 | a message is a booking request iff its lower-cased text contains one of eight core phrases; the three other phrases each contain "appointment" and add nothing |
| Validators.CoreKeywordIndex | server2.js:48-53 | each core phrase is one of the eleven listed phrases |
| Validators.LongKeywordContainsAppointment | server2.js:49-50 | "book an appointment", "schedule appointment" and "book appointment" each contain "appointment" |
| Validators.AppointmentRequestExamples | server2.js:47-56 | "Please CALL ME tomorrow" and "book an appointment" are booking requests, and "Hello" is not |
| Validators.IsValidEmail | server2.js:59-62 | a valid address is at least five characters long and contains an `@` and a `.` |
| Validators.EmailValidIff | server2.js:59-62 | an address matches the pattern iff it has no whitespace, exactly one `@`, something before it, and after it a `.` that is neither first nor last |
| Validators.EmailValidHasShape | server2.js:60 | the matching direction of the equivalence above |
| Validators.ShapedEmailIsValid | server2.js:60 | the converse direction of the equivalence above |
| Validators.EmailAccepted | server2.js:60 | "a@b.co" is valid |
| Validators.EmailWithoutDotRejected | server2.js:60 | "a@b" is rejected |
| Validators.EmailWithSpaceRejected | server2.js:60 | "a b@c.com" is rejected |
| Validators.CleanPhone | server2.js:67 | the cleaned number is no longer than the input and has no whitespace, hyphens or parentheses left |
| Validators.CleanPhoneConcat | server2.js:67 | cleaning works piece by piece over concatenation |
| Validators.CleanPhoneIdempotent | server2.js:67 | cleaning a cleaned number changes nothing |
| Validators.IsValidPhone | server2.js:65-69 | a number is valid iff at least ten characters remain after cleaning and they are an optional `+` followed by digits; a valid number is at least ten characters long |
| Validators.PlusDigitsLength | server2.js:68 | an optional `+` and digits take one UTF-16 code unit per character, so the `length` test counts characters |
| Validators.SeparatorIgnored | server2.js:67-68 | inserting one separator anywhere never changes the verdict |
| Validators.DigitCountOfClean | server2.js:67 | cleaning keeps every digit |
| Validators.ValidPhoneDigits | server2.js:67-68 | a valid number has at least nine digits, and at least ten when it has no leading `+` (the `+` counts towards the ten) |
| Validators.DigitsArePhone | server2.js:68 | ten or more digits are a valid number |
| Validators.PlusDigitsArePhone | server2.js:68 | `+` followed by nine or more digits is a valid number |
| Validators.PlainPhoneAccepted | server2.js:184 | the example "1234567890" that the retry message gives is valid |
| Validators.HyphenGroups | server2.js:67 | hyphen-separated groups without separators clean to their concatenation |
| Validators.PlusGroupsArePhone | server2.js:67-68 | `+` and four hyphen-separated groups of digits, nine or more digits in all, is a valid number |
| Validators.PunctuatedPhoneAccepted | server2.js:184 | the example "+1-234-567-8900" that the retry message gives is valid |
| Validators.ShortPhoneRejected | server2.js:68 | "12345" is rejected |
| Validators.PlusDigitsCounted | server2.js:68 | `+` followed by nine or more digits is valid, and only the characters after the `+` count as digits |
| Validators.NineDigitPhoneAccepted | server2.js:68 | "+123456789", with only nine digits, is accepted |
| Calendar.Weekday | server2.js:78 | `getDay` is a weekday number from 0 (Sunday) to 6 (Saturday) |
| Calendar.NoThreeWeekendDays | server2.js:78-80 | no three consecutive days are all weekend days, so the skipping loop runs at most twice |
| Calendar.WeekdayNext | server2.js:79 | the weekday advances by one each day and wraps from Saturday to Sunday |
| Calendar.NextBusinessDayOf | server2.js:72-83 | the next business day is one to three days after today, not a Saturday or Sunday, and every day in between is a weekend day |
| Calendar.NextBusinessDayUnique | server2.js:72-83 | those three properties determine the day |
| Calendar.WeekendSkipped | server2.js:78-80 | from Friday, Saturday or Sunday the next business day is the following Monday (three, two or one days later) |
| Calendar.MidweekIsTomorrow | server2.js:75 | from Monday to Thursday the next business day is tomorrow |
| Calendar.NextBusinessDay | server2.js:72-83 | the loop returns the day `NextBusinessDayOf` names: one to three days ahead, not a weekend day, with only weekend days in between |
| TimeSlots.SkipSpaces | server2.js:112 | `\s*` stops at the first character that is not whitespace |
| TimeSlots.MatchAt | server2.js:112 | a match found at a position is a match of `(\d{1,2}):?(\d{2})?\s*(AM\|PM)` there: one or two hour digits, a colon when one follows them, optionally two minute digits, only whitespace, then AM or PM |
| TimeSlots.MatchAtComplete | server2.js:112 | conversely, every match of the pattern at a position is the one found there, so no match is missed |
| TimeSlots.FirstMatch | server2.js:112 | the pattern matches first at the leftmost position where it matches, and no match means no position matches |
| TimeSlots.Canonical | server2.js:113-115 | the rewritten time is a canonical time, six characters longer than the hour: it starts with the matched hour digits, its minute is the matched minute or "00" when none was matched, and it ends with the matched period |
| TimeSlots.RewriteFirstTime | server2.js:112-116 | without a time expression the text is unchanged; otherwise only the first one is replaced, by its `Canonical` rewrite (a canonical time built from its captures), and the text before and after it is kept |
| TimeSlots.Prepared | server2.js:109-111 | after trimming, collapsing and upper-casing, every whitespace character is a plain space, no two are adjacent, the text does not start with whitespace, and no lower-case ASCII letter is left |
| TimeSlots.NormalizeTime | server2.js:109-117 | a prepared text without a time expression is left as it is, and so is a prepared text that already is a slot |
| TimeSlots.IsValidAppointmentTime | server2.js:101-119 | an accepted time normalises to a canonical time, and every text that is a slot once prepared is accepted |
| TimeSlots.SlotIsCanonical | server2.js:102-106 | every slot has the canonical form |
| TimeSlots.SlotRewrittenToItself | server2.js:102-116 | the rewrite leaves every slot as it is |
| TimeSlots.CanonicalOfCanonical | server2.js:112-116 | the rewrite leaves a canonical time unchanged |
| TimeSlots.PreparedCanonical | server2.js:109-111 | trimming, collapsing and upper-casing leave a canonical time unchanged |
| TimeSlots.RewriteInSlotsIff | server2.js:112-118 | the rewritten text is a slot iff the prepared text is a single time expression that names a slot |
| TimeSlots.TimeAcceptedIff | server2.js:101-119 | a time is accepted iff, once trimmed, collapsed and upper-cased, it is exactly one time expression naming a slot, with nothing before or after it |
| TimeSlots.SlotAccepted | server2.js:102-106 | every slot is accepted as written |
| TimeSlots.SuggestedTimeAccepted | server2.js:88 | every suggested time is a slot and is accepted |
| TimeSlots.CanonicalOutsideSlotsRejected | server2.js:118 | a canonical time that is not a slot is rejected |
| TimeSlots.NoLeadingDigitRejected | server2.js:112 | a time that does not start with a digit is rejected |
| TimeSlots.NoPeriodRejected | server2.js:112 | a time without AM or PM is rejected |
| TimeSlots.HourPeriodRewritten | server2.js:112-116 | "H" directly followed by a period becomes "H:00 P" |
| TimeSlots.HourSpacePeriodRewritten | server2.js:112-116 | "H P" becomes "H:00 P" |
| TimeSlots.MinutePeriodRewritten | server2.js:112-116 | "H:MMP" becomes "H:MM P" |
| TimeSlots.HourPeriodAccepted | server2.js:109-118 | "H" followed by a period in either case is accepted when "H:00 P" is a slot |
| TimeSlots.HourSpacePeriodAccepted | server2.js:109-118 | "H P" in either case is accepted when "H:00 P" is a slot |
| TimeSlots.MinutePeriodAccepted | server2.js:109-118 | "H:MMP" in either case is accepted when "H:MM P" is a slot |
| TimeSlots.NineAmAccepted | server2.js:109-118 | "9am" normalises to "9:00 AM" and is accepted |
| TimeSlots.NineColonAmAccepted | server2.js:109-118 | "9:00am" normalises to "9:00 AM" and is accepted |
| TimeSlots.NineSpaceAmAccepted | server2.js:109-118 | "9 AM" normalises to "9:00 AM" and is accepted |
| TimeSlots.TrailingSpaceAccepted | server2.js:109 | "9:00 AM " is accepted |
| TimeSlots.LeadingZeroRejected | server2.js:113 | "09:00 AM" is rejected, because `padStart(1, '0')` never pads and never strips |
| TimeSlots.AfterHoursRejected | server2.js:102-106 | "5:00 PM" is rejected |
| TimeSlots.HourOutOfRangeRejected | server2.js:112 | "25:00 AM" is rejected |
| TimeSlots.UnknownPeriodRejected | server2.js:112 | "9:00 XM" is rejected |
| Booking.Accepts | server2.js:157-203 | `start` and `purpose` accept every answer; an accepted name is at least one character long, an accepted email at least five, an accepted phone number at least ten, and an accepted time normalises to a canonical time |
| Booking.Answer | server2.js:151-241 | a step stays when it rejects its answer (never `start` or `purpose`), finishes only at `time`, otherwise moves to the next step, stores the answer in its own field and keeps every other field |
| Booking.Advance | server2.js:145-241 | the same, stated for the trimmed message and the step's own validator |
| Booking.RejectedAnswerStays | server2.js:159-161 | a rejected answer leaves the session at its step |
| Booking.NameMoves | server2.js:157-167 | a valid name is stored, and the session moves to `email` with a greeting by name |
| Booking.AnswerKeepsWellFormed | server2.js:151-241 | each answered step keeps the session record well formed: exactly the fields of the passed steps are set, each trimmed and valid |
| Booking.AdvanceKeepsWellFormed | server2.js:145-241 | a well-formed session stays well formed, and a finished one is complete |
| Booking.MakeAppointment | server2.js:122-141 | the appointment copies name, email, phone and time; `purpose` falls back to "General consultation" when missing or empty; the status is "Scheduled"; the date is the given business day; and the id and `createdAt` are the clock |
| Booking.CompleteMakesValidAppointment | server2.js:122-141 | a complete form saves an appointment with every field valid, dated on a business day |
| Booking.Flow | server2.js:144-250 | a call completes iff the transition finishes; a completed call deletes the session and appends exactly one appointment unless saving raises; otherwise the session is stored under its id, moved on when the answer is accepted and as it was when it is rejected, and the list is unchanged |
| Booking.FlowLeavesOtherSessions | server2.js:230-245 | a call touches no other session |
| Booking.FlowKeepsInvariants | server2.js:144-250 | every stored session stays well formed and past `start`, and every saved appointment stays valid |
| Booking.OpeningAsksName | server2.js:152-155 | the `start` step ignores the message, asks for a name and moves to `name` |
| Booking.RejectedAnswerChangesNothing | server2.js:199-203 | a rejected answer to an open session leaves the session map and the list exactly as they were, and the call does not complete |
| Booking.DialogueTakesName | server2.js:152-167 | the opening message and a valid name lead to the `email` step, with the name stored |
| Booking.DialogueTakesContact | server2.js:169-191 | a valid email and phone lead to the `purpose` step, with both stored |
| Booking.DialogueTakesTime | server2.js:193-240 | any purpose leads to `time`, and a valid time finishes with every field filled |
| Booking.DialogueBooks | server2.js:144-250 | six messages with valid answers book the appointment with the trimmed answers |
| Booking.OneAstralCharacterName | server2.js:158-159 | a one-character name outside the Basic Multilingual Plane passes the two-character check, because it is two code units |
| Booking.OneBmpCharacterNameRejected | server2.js:159 | a one-character name inside the Basic Multilingual Plane is rejected |
| Listing.Insert | server2.js:399 | inserting into a newest-first list keeps it newest first and adds exactly that appointment |
| Listing.InsertCreatedAt | server2.js:399 | an inserted appointment goes first among those created at the same time |
| Listing.SortNewestFirst | server2.js:399 | the listing is newest first and a permutation of the stored list |
| Listing.SortStable | server2.js:399 | the appointments created at the same time keep their stored order |
| Listing.SortOfSorted | server2.js:399 | a list already newest first is left unchanged |
| Listing.SortIdempotent | server2.js:399 | listing twice gives the same order as listing once |
| Listing.SortKeepsMembers | server2.js:399 | an appointment is listed iff it is stored |
| History.KeepRecent | server2.js:315-317 | the trim keeps a suffix of the history of at most twenty entries, and the whole history when it is shorter |
| History.PushExchange | server2.js:309-317 | after a model exchange the history has twenty entries, or all of the old ones plus two when that is fewer; it ends with the message and the reply, and is the old history plus those two with only the oldest entries dropped |
| History.ExchangeBelowLimit | server2.js:315 | while there is room, nothing is dropped |
| History.ExchangeOverLimit | server2.js:309-317 | from a history of twenty or more entries (a completed booking pushes past twenty without trimming), a model exchange keeps only the last eighteen old entries before the new two |
| History.ExchangeAtLimit | server2.js:315-316 | a full history loses exactly its two oldest entries |
| Server.IsBlank | server2.js:258 | a message is blank iff it is missing or every character is whitespace |
| Server.SessionKey | server2.js:263 | a session id that is sent and not empty is used as it is; a missing or empty one is replaced by the fallback |
| Server.RouteMessage | server2.js:258-279 | a missing or blank message is rejected; a message enters the dialogue iff its session is open or it is a booking request, and goes to the model otherwise; a dialogue message resets the record iff its sender has no open session, which makes it a booking request |
| Server.EntryRecord | server2.js:272-277 | when the open sessions are valid, the record the dialogue starts from is well formed, and it is at `start` iff the session was reset |
| Server.RecordBooking | server2.js:281-287 | a booking exchange is appended (untrimmed) only when it completes the booking |
| Server.BookingRequestOpensSession | server2.js:271-279 | "book an appointment" from a user without a session opens one at `name` and asks for the name |
| Server.ShortNameAccepted | server2.js:157-167 | the two-character name "Al" is stored, and the session moves to `email` |
| Server.ChatServer.constructor | server2.js:29-44 | the server starts with no sessions, no appointments and the two greeting entries in its history |
| Server.ChatServer.SaveAppointment | server2.js:122-141 | exactly one appointment, dated on the next business day, is appended; nothing else changes; saving a complete record keeps the invariant |
| Server.ChatServer.HandleAppointmentFlow | server2.js:144-250 | the new sessions, appointments and result are those `Flow` specifies; the history is unchanged; a well-formed record keeps the invariant |
| Server.ChatServer.Chat | server2.js:253-328 | per route: a rejected message changes nothing; a model exchange is recorded and trimmed; a dialogue message has the effect `Flow` specifies, and its exchange is recorded only on completion; the invariant is kept |
| Server.ChatServer.RecordModelReply | server2.js:309-317 | the exchange is pushed and the history trimmed; sessions and appointments are unchanged, so the invariant is kept |
| Server.ChatServer.ContinueBooking | server2.js:271-289 | the dialogue step has the effect `Flow` specifies, the history records a completed booking, and a well-formed record keeps the invariant |
| Server.ChatServer.ListAppointments | server2.js:396-400 | the stored list is sorted in place newest first, returned, and still valid |

## Left out

- The language model (`model.startChat`, `sendMessage`, the generation settings and the prompt suffix) is not modelled. Its reply is the parameter `generated`, and a failing call (the 500 response) is not modelled.
- `POST /chat-with-file`, the upload handling, `formatFileSize` and `main.js` are not part of this model. They are file I/O and a second language-model call.
- The Express wiring is not modelled: the `express.json()` and `express.text()` body parsers, the `express.static('.')` file serving, the 500 handlers, `GET /` and the listener. A truthy `message` that is not a string (a number, `true`, an object or an array) is also out: it has no `trim` and lands in the 500 handler. A falsy one (`null`, `false`, `0`, `NaN`, `""`) is rejected with 400 like a missing one, which `None` models.
- The clock is the pair of parameters `today` (a day number) and `now` (milliseconds). The local-time versus UTC difference is not modelled. That difference affects `toISOString().split('T')[0]` and `getDay()`.
- `getNextBusinessDay` runs several times in one request. The model reads the clock once per request, so all of its calls agree.
- The dates shown to the user (`toLocaleDateString` in `en-US`) are the day number carried in the `Reply` datatype. The reply prose and emoji are likewise the `Reply` datatype.
- `Date.now().toString()` ids are the number `now`. Two appointments saved in the same millisecond share an id.
- The generated session id is the parameter `fallbackId`, since it is built from `req.ip` and the clock. Concurrent requests are not modelled: each request runs as one atomic step.
- Logging (`console.log`, `console.error`) is not modelled.
- Booking.MakeAppointment: whether saving raises is the parameter `saveFails`, and a raise means nothing is appended. The model does not capture an exception thrown after the push, by the date formatting on server2.js:212, which would keep the appointment and still apologise.
- Text.ToUpper and Text.ToLower map only ASCII letters, plus the Kelvin sign, which lower-cases to `k`. JavaScript's full Unicode mapping turns a few more characters into ASCII letters: `ſ` and `ı` upper-case to `S` and `I`, ligatures such as U+FB00 upper-case to letters such as `FF`, U+1E9A upper-cases to `A` followed by U+02BE, and U+0130 lower-cases to `i` followed by U+0307. None of these changes a verdict. No slot contains those upper-case letters. The mark after `A` keeps it from being followed by `M`. The mark after `i` splits any keyword running through it, and no keyword starts or ends with `i`. The normalised text of an input with such characters can differ.
- Listing.SortNewestFirst: the library sort is specified by a stable insertion sort and its defining properties, not by the engine's algorithm. `createdAt` is compared as a number rather than as a parsed ISO string.
- The phone regex on server2.js:66 is built but never used, so it is not modelled.
- The comment on server2.js:314 speaks of twenty exchanges. The code keeps twenty entries, which is ten exchanges, and the model follows the code.
