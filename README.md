# Barbershop WhatsApp booking bot: message handler

This project is a Dafny model of the message handler of a barbershop's WhatsApp bot
(`chatbot.js`, lines 63 and 71-148). The bot keeps one in-memory session map,
`userState`, from sender id to the only state it knows: "awaiting a date and time".
Each incoming message goes through four steps in order, and the first step that applies
produces the answer:

1. A message that is not from a direct chat (its sender id does not end in `@c.us`) is ignored.
2. If the sender is awaiting a date, the body is read as a `DD/MM/AAAA HH:MM` reply.
   - A reply that parses is acknowledged first.
   - Then a one-hour Google Calendar event is created.
   - Then the event link, or an apology, is sent, and the session ends.
   - A reply that does not parse gets the format help, and the session stays open.
3. A greeting word, in any case, gets the welcome menu addressed to the contact's first name.
4. Otherwise, the first non-blank character picks a menu entry:
   - `1` sends the booking prompt and opens a session.
   - `2` to `5` each send one fixed text.
   - Any other character gets no reply.

The model is split into these modules:

- `JsStrings` covers the JavaScript string built-ins the handler uses: `trim`, `charAt(0)`,
  `endsWith`, `split`, and `parseInt` without a radix (section 19.2.5 of ECMA-262).
- `JsDate` covers `new Date(year, monthIndex, day, hours, minutes)` and `new Date(ms)`:
  MakeDay, MakeTime, MakeDate and TimeClip of sections 21.4.1 and 21.4.2.1 of ECMA-262, over
  the proleptic Gregorian calendar. MakeDay's NaN result for arguments out of an engine's
  range is not modelled (see "Left out").
  - Time values are exact integers of milliseconds.
  - NaN is `None`.
- `DateTimeReply` is the pure parser of lines 80-92. `Parse` returns the one-hour `Slot`, or
  `None` wherever the source throws.
- `ReplyConsequences` proves what the parser does with two-digit years and with days past the
  end of the month.
- `Chatbot` holds the handler itself.
  - `Turn` is the specification function: what one message does to the session map and which
    effects it produces, in order.
  - `Router` is a class with the mutable session map and an outbox of effects. Its
    `OnMessage` method is proved to do exactly what `Turn` says.
  - An effect is a reply to the sender or a call of the calendar insert.
- `ChatbotProperties` proves, for all inputs, the properties of `Turn`:
  - which step answers;
  - the order of the booking effects;
  - when the booking is confirmed;
  - the greeting and menu behaviour;
  - how the session map may change.

The calendar service is not called. What its insert call answers is an input,
`inserted: Option<CalendarEvent>`, where `None` means the call failed. The contact's push
name is an input as well. The host's time zone is a fixed offset from UTC, `offset`, in
milliseconds.

Four behaviours of the code are easy to misread, and the model states each one:

- **Day overflow.** `new Date` carries extra days into the next month (`31/04` is 1 May), and
  only a NaN time value is rejected.
  - `ReplyConsequences.FebruaryThirtyFirst` proves that `31/02` of a common year books
    3 March.
  - `ReplyConsequences.OverflowingDayRollsOver` proves the general case.
- **Session after a failed parse.** The catch block returns before `delete userState[user]`,
  so the sender keeps awaiting a date (`ChatbotProperties.ParseFailureKeepsAwaiting`).
- **Acknowledgement timing.** The acknowledgement is sent after the parse, so a malformed
  reply gets the format help only (`ChatbotProperties.AwaitingOutcome`).
- **Greeting match.** The greeting pattern is tested on the body as received, so a greeting
  with a blank before or after it is not a greeting. It falls through to the menu and gets no
  reply (`Chatbot.GreetingIsUntrimmed`, `ChatbotProperties.UnknownMenuKeyIgnored`).

## Model

| member | source | states |
|---|---|---|
| JsStrings.TrimStart | chatbot.js:127 | the result is a suffix of the input that does not start with white space |
| JsStrings.TrimStartDropsWhiteSpace | chatbot.js:127 | every character `trim` drops from the front is white space |
| JsStrings.TrimEnd | chatbot.js:127 | the result is a prefix of the input that does not end with white space |
| JsStrings.TrimEndDropsWhiteSpace | chatbot.js:127 | every character `trim` drops from the back is white space |
| JsStrings.TrimmedFirstChar | chatbot.js:127 | `trim().charAt(0)` is the first non-white-space character of the body, if any |
| JsStrings.TrimmedFirstCharAt | chatbot.js:127 | if position `k` holds the first non-blank character, `trim().charAt(0)` is that character |
| JsStrings.TrimmedBlank | chatbot.js:127 | an empty or all-blank body has no first trimmed character |
| JsStrings.Trim | chatbot.js:127 | `trim()`: `TrimStart` then `TrimEnd`; what it drops is stated by `TrimStartDropsWhiteSpace` and `TrimEndDropsWhiteSpace` |
| JsStrings.FirstChar | chatbot.js:127 | `charAt(0)`, with the empty string as `None`; the menu key, stated by `TrimmedFirstChar` |
| JsStrings.EndsWith | chatbot.js:72 | `endsWith`: the last characters equal the suffix; the direct-chat filter, stated by `ChatbotProperties.IgnoresOtherChats` |
| JsStrings.Split | chatbot.js:80-84 | `split` always yields at least one piece |
| JsStrings.SplitPieces | chatbot.js:80-84 | no piece contains the separator, and joining the pieces with it restores the string |
| JsStrings.SplitJoin | chatbot.js:80-84 | splitting a join of separator-free pieces gives back the pieces (round trip) |
| JsStrings.SplitStep | chatbot.js:80-84 | a string holding the separator splits into the text before its first occurrence followed by the split of the rest |
| JsStrings.JoinStep | chatbot.js:80-84 | joining a piece in front of other pieces puts one separator between it and their join |
| JsStrings.IndexOfAfter | chatbot.js:80-84 | the first separator after a separator-free piece sits right after that piece |
| JsStrings.SplitAt | chatbot.js:80-84 | the first piece ends at the first separator, and the rest is split again |
| JsStrings.JoinAvoids | chatbot.js:80-84 | joining pieces without a character, with another separator, gives a string without that character |
| JsStrings.DigitValue | chatbot.js:88 | a character is a decimal digit exactly when its digit value is below 10 |
| JsStrings.DigitPrefix | chatbot.js:88 | the prefix `parseInt` reads is made of digits of the radix and stops at the first non-digit, so it is the longest such prefix |
| JsStrings.DigitPrefixOfDigits | chatbot.js:88 | a string of digits is read whole |
| JsStrings.ParseUnsigned | chatbot.js:88 | the number read after the sign is never negative |
| JsStrings.ParseSigned | chatbot.js:88 | the sign step of `parseInt`: `-` negates, `+` is dropped; its effect is stated by `ParseIntMeaning` |
| JsStrings.ParseInt | chatbot.js:88 | `parseInt` with the radix left undefined: white space, one sign, then the number; stated by `ParseIntMeaning` |
| JsStrings.ParseIntMeaning | chatbot.js:88 | `parseInt` is NaN exactly when no digit follows the white space, the sign and the `0x` prefix; otherwise it is the value of the longest digit run, in radix 16 after `0x` and 10 otherwise, negated after `-` |
| JsStrings.ParseIntNaN | chatbot.js:88-90 | `parseInt` is NaN exactly when the character after white space, sign and `0x` is missing or no digit of the radix, so such a field rejects the reply |
| JsStrings.HexadecimalAfterZeroX | chatbot.js:88 | after `0x` or `0X` the digits are hexadecimal; `0x` with no hexadecimal digit is NaN |
| JsStrings.HexadecimalValue | chatbot.js:88 | hexadecimal digits in either case: `1F` is 31 |
| JsStrings.ParseIntSkipsWhiteSpace | chatbot.js:88 | white space before the number does not change what `parseInt` returns |
| JsStrings.TrimStartSkips | chatbot.js:88 | leading white space is dropped before the sign and digits are read |
| JsStrings.DigitsAreDecimal | chatbot.js:88 | a zero-padded numeral consists of decimal digits only |
| JsStrings.DigitsValueOfDigits | chatbot.js:88 | the value of a zero-padded numeral is the number it was written from (round trip) |
| JsStrings.ParseIntDigits | chatbot.js:88 | `parseInt` of a zero-padded numeral is its number, leading zeros included |
| JsStrings.ParseUnsignedDigits | chatbot.js:88 | reading a zero-padded numeral after the sign gives its number |
| JsStrings.ParseIntNegative | chatbot.js:88 | a leading `-` negates the number read |
| JsStrings.ParseIntMinus | chatbot.js:88 | `parseInt` of `-` followed by text the unsigned step reads as `v` is `-v` |
| JsStrings.ParseUnsignedMeaning | chatbot.js:88 | the unsigned step of `parseInt` reads the longest digit run after the `0x` prefix, in the radix that prefix selects |
| JsStrings.ParseIntStopsAtNonDigit | chatbot.js:88 | `parseInt` ignores everything after the digits (such as `12abc` giving 12), except for the `0x` prefix |
| JsStrings.ParseUnsignedStopsAtNonDigit | chatbot.js:88 | the unsigned reader ignores everything after its digits, except for the `0x` prefix |
| JsStrings.ParseIntOfDigitStart | chatbot.js:88 | a string starting with a digit has no sign to read |
| JsStrings.ParseUnsignedDecimal | chatbot.js:88 | without a `0x` prefix, the number is the decimal value of the digit prefix |
| JsStrings.DigitPrefixStops | chatbot.js:88 | the digit prefix of digits followed by a non-digit is exactly those digits |
| JsDate.DaysInMonth | chatbot.js:88 | months have 28 to 31 days, and 29 only for February of a leap year |
| JsDate.DaysFromCivil | chatbot.js:88 | the day number of a calendar date, with days beyond the month counted on; tied to the calendar by `MonthLength`, `DayOfMonth` and `Epoch` |
| JsDate.PrevMonth | chatbot.js:88 | the previous month is a valid month, and the month after it is the given one |
| JsDate.YearLength | chatbot.js:88 | consecutive years starting in March differ by 365 days, or 366 when they run into a leap day |
| JsDate.MonthLength | chatbot.js:88 | the first of the next month is `DaysInMonth` days after the first of this month |
| JsDate.DayOfMonth | chatbot.js:88 | day `d` of a month is `d - 1` days after its first |
| JsDate.Epoch | chatbot.js:88 | day number 0 is 1 January 1970 |
| JsDate.Normalize | chatbot.js:88 | carrying extra or missing days into neighbouring months gives a valid date with the same day number |
| JsDate.FebruaryThirtyFirstIsMarchThird | chatbot.js:88 | 31 February of a common year is 3 March |
| JsDate.MakeDay | chatbot.js:88 | MakeDay: whole years are carried out of the month index, then the date is counted from the first of that month; its roll-over is stated by `CalendarDate`, `DayOverflowRollsIntoNextMonth` and `MonthOverflowRollsIntoNextYear` |
| JsDate.MakeTime | chatbot.js:88 | MakeTime: hours and minutes as milliseconds, unbounded; see `LocalTimeNormalises` |
| JsDate.MakeDate | chatbot.js:88 | MakeDate: a day number and a time of day as a time value; see `LocalTimeNormalises` |
| JsDate.LocalTime | chatbot.js:88 | the local time value of the five fields before the offset and TimeClip; stated by `LocalTimeNormalises` |
| JsDate.CalendarDate | chatbot.js:88 | the date MakeDay lands on is a valid date with MakeDay's day number |
| JsDate.ConstructDate | chatbot.js:88-90 | `new Date(..)` is never outside the time value range |
| JsDate.MakeDayOfMonth | chatbot.js:88 | a zero-based month index and a one-based day give the expected day number |
| JsDate.LocalTimeNormalises | chatbot.js:88 | any fields, overflowing or not, name the same moment as a valid date with an in-range hour and minute |
| JsDate.DayOverflowRollsIntoNextMonth | chatbot.js:88 | a day past the month's end is the corresponding day of the next month |
| JsDate.MonthOverflowRollsIntoNextYear | chatbot.js:88 | a month index past December is that month of the following year |
| DateTimeReply.SplitReply | chatbot.js:80-86 | when it yields fields, all five are non-empty |
| DateTimeReply.SplitReplyOfJoin | chatbot.js:80-86 | a reply is accepted exactly when the first three `/` pieces of its first word and the first two `:` pieces of its second word exist and are non-empty, and then these are the fields; further pieces and words are ignored, and an empty piece rejects the reply |
| DateTimeReply.SplitReplyOfParts | chatbot.js:80-86 | once the words and the `/` and `:` pieces of a reply are known, it is accepted exactly when the five positional pieces exist and are non-empty, and they are then its fields |
| DateTimeReply.MonthIndex | chatbot.js:88 | `parseInt(month) - 1`, NaN staying NaN; see `FormattedReplyAccepted` |
| DateTimeReply.ReadNumbers | chatbot.js:88 | `parseInt` of each of the five fields; see `ReadNumbersOf` and `FormattedNumbers` |
| DateTimeReply.SlotFrom | chatbot.js:90-92 | NaN rejected, otherwise the slot to `new Date(start + 3600000)`; stated by `SlotFromNaN` and `SlotFromOf` |
| DateTimeReply.Parse | chatbot.js:80-92 | an accepted reply has its five fields; its start is a valid time value; its end is NaN exactly when start plus one hour is out of range; otherwise the end is exactly one hour after the start |
| DateTimeReply.StartTime | chatbot.js:88-90 | the start time, when not NaN, is within the time value range |
| DateTimeReply.NoTimeWordRejected | chatbot.js:80-81 | a reply without a space is rejected |
| DateTimeReply.LeadingSpaceRejected | chatbot.js:80-81 | a reply that starts with a space is rejected (empty date word) |
| DateTimeReply.DoubleSpaceRejected | chatbot.js:80-81 | two spaces after the date word are rejected (empty time word) |
| DateTimeReply.MissingYearRejected | chatbot.js:83-86 | a date word with a single slash is rejected |
| DateTimeReply.MissingMinuteRejected | chatbot.js:84-86 | a time word without a colon is rejected |
| DateTimeReply.PresentFieldsRejectedOnlyIfNaN | chatbot.js:86-90 | once all five fields are present, a reply is rejected exactly when `new Date(..)` is NaN |
| DateTimeReply.SlotFromNaN | chatbot.js:90-92 | a slot is built exactly when the start time is not NaN |
| DateTimeReply.StartTimeNaN | chatbot.js:88-90 | `new Date(..)` is NaN exactly when a field parsed to NaN or the moment is out of range |
| DateTimeReply.SplitDateWord | chatbot.js:83 | `DD/MM/YYYY` splits into its three fields |
| DateTimeReply.SplitTwo | chatbot.js:80-84 | two separator-free pieces around one separator split into those two pieces |
| DateTimeReply.SplitReplyOf | chatbot.js:80-86 | words and fields that split cleanly are the reply's fields |
| DateTimeReply.FormatSplits | chatbot.js:80-86 | a reply in the documented format splits into exactly its five numerals |
| DateTimeReply.FormattedLocalTimeBounds | chatbot.js:88-90 | four-digit years with two-digit fields lie far inside the time value range |
| DateTimeReply.FormattedNumbers | chatbot.js:88 | the five numerals of a formatted reply parse to their numbers |
| DateTimeReply.FormattedInRange | chatbot.js:88-92 | a formatted reply's start and end are both representable |
| DateTimeReply.FormattedReplyAccepted | chatbot.js:80-92 | every formatted reply is accepted; its slot starts at the local moment its fields name, minus the UTC offset, and ends one hour later |
| DateTimeReply.ParseOf | chatbot.js:80-92 | once the fields are known, the slot is computed from them alone |
| DateTimeReply.ReadNumbersOf | chatbot.js:88 | the numbers of the fields are what `parseInt` gives for each field |
| DateTimeReply.StartTimeOf | chatbot.js:88-90 | an in-range moment is the start time of its numbers |
| DateTimeReply.SlotFromOf | chatbot.js:90-92 | a start at least one hour before the range's end gives a full one-hour slot |
| ReplyConsequences.ShortYearSplits | chatbot.js:80-86 | a `DD/MM/YY HH:MM` reply splits into exactly its five numerals |
| ReplyConsequences.ShortYearNumbers | chatbot.js:88 | the five numerals of a `DD/MM/YY HH:MM` reply parse to their numbers |
| ReplyConsequences.ShortYearIsTwentiethCentury | chatbot.js:80-92 | a reply with a two-digit year `YY` is accepted and books the hour starting at that local moment of the year 1900 + YY, minus the UTC offset |
| ReplyConsequences.TwoDigitYearIsTwentiethCentury | chatbot.js:88 | years written `0000` to `0099` in the documented format are accepted as 1900 to 1999 |
| ReplyConsequences.OverflowingDayRollsOver | chatbot.js:88-92 | a day past the end of its month is accepted and books the corresponding day of the next month |
| ReplyConsequences.FebruaryThirtyFirst | chatbot.js:88-92 | `31/02/YYYY HH:MM` of a common year books 3 March at that time |
| Chatbot.Canonicalize | chatbot.js:119 | the case folding of the `i` flag, for the letters the greeting words use; see `SameLetterIgnoringCase` |
| Chatbot.IsGreeting | chatbot.js:119 | the greeting pattern; characterised by `GreetingIffLowerCaseWord` and `GreetingIsUntrimmed` |
| Chatbot.SameLetterIgnoringCase | chatbot.js:119 | matching a greeting letter ignoring case is matching its lower-case form |
| Chatbot.MatchIffLowerCase | chatbot.js:119 | `^word$` with the `i` flag matches exactly when the lower-cased body equals the word |
| Chatbot.GreetingIffLowerCaseWord | chatbot.js:119 | a body is a greeting exactly when, lower-cased, it is one of the nine words |
| Chatbot.GreetingIsUntrimmed | chatbot.js:119 | a body with a blank at either end is not a greeting |
| Chatbot.DisplayName | chatbot.js:121 | the push name when set and non-empty, else `parceiro`; see `FirstNameIsFirstWord` |
| Chatbot.FirstName | chatbot.js:122 | `name.split(" ")[0]`; stated by `FirstNameIsFirstWord` |
| Chatbot.CalendarResult | chatbot.js:30-51 | what `createCalendarEvent` returns: null for a NaN end, else the insert's answer; see `Router.CreateCalendarEvent` |
| Chatbot.EventLink | chatbot.js:103 | `event && event.htmlLink`; stated by `ChatbotProperties.BookingConfirmedIffLink` |
| Chatbot.Booking | chatbot.js:94-116 | the outcome of a parsed reply; stated by `ChatbotProperties.BookingEffects` |
| Chatbot.AwaitingTurn | chatbot.js:77-117 | the outcome of the date/time branch; stated by `ChatbotProperties.AwaitingOutcome` |
| Chatbot.MenuTurn | chatbot.js:127-147 | the outcome of the menu switch; stated by `ChatbotProperties.MenuOutcome` |
| Chatbot.Turn | chatbot.js:71-148 | what one message does to the session map and which effects it produces; `Router.OnMessage` is proved to follow it and `ChatbotProperties` states its properties |
| Chatbot.FirstNameIsFirstWord | chatbot.js:121-122 | the welcome names the display name up to its first space |
| Chatbot.Router.constructor | chatbot.js:63 | the bot starts with no sessions and nothing sent |
| Chatbot.Router.Send | chatbot.js:65-69 | one reply is appended to what was sent |
| Chatbot.Router.CreateCalendarEvent | chatbot.js:30-51 | with a NaN end, nothing is inserted and the result is null; otherwise one insert with the slot's bounds, returning the insert's answer |
| Chatbot.Router.OnMessage | chatbot.js:71-148 | the session map and the outbox change exactly as `Turn` says, and every session key stays a direct chat |
| Chatbot.Router.ReadDateTime | chatbot.js:77-116 | for an awaiting sender, the state changes as the date/time branch says, and every session key stays a direct chat |
| Chatbot.Router.Book | chatbot.js:94-116 | for a parsed reply: acknowledgement, insert, then link or apology; then the session is deleted, and every session key stays a direct chat |
| Chatbot.Router.Menu | chatbot.js:127-147 | the switch on the first trimmed character changes state as `MenuTurn` says; called only for direct chats, it keeps every session key a direct chat |
| ChatbotProperties.IgnoresOtherChats | chatbot.js:72 | a message that is not from a direct chat changes nothing and gets no reply |
| ChatbotProperties.TurnOfAwaiting | chatbot.js:77 | an awaiting sender's message always takes the date/time branch |
| ChatbotProperties.TurnOfBooking | chatbot.js:77-116 | an awaiting sender's reply that parses takes the booking path |
| ChatbotProperties.TurnOfGreeting | chatbot.js:119-124 | a greeting from a sender not awaiting a date gets the welcome and nothing else |
| ChatbotProperties.TurnOfMenu | chatbot.js:119-127 | a non-greeting from a sender not awaiting a date goes to the menu switch on the first trimmed character |
| ChatbotProperties.AwaitingOutcome | chatbot.js:79-116 | the date/time branch either sends only the format help or books the slot the reply parsed to |
| ChatbotProperties.MenuOutcome | chatbot.js:127-147 | entry `1` opens a session after the prompt; any other key leaves the map as it is and sends at most one text |
| ChatbotProperties.BookingEffects | chatbot.js:94-115 | a booking ends the session; it sends the acknowledgement first, then the insert (unless the end is NaN), then the link or the apology; the link is sent exactly when the insert returned an event with a non-empty link |
| ChatbotProperties.AwaitingReplyIsDateTime | chatbot.js:77-117 | an awaiting sender always gets the format help or the acknowledgement first, and only booking-flow effects, even for a greeting or menu digit; the session is kept or ended |
| ChatbotProperties.ParseFailureKeepsAwaiting | chatbot.js:109-112 | a rejected reply gets only the format help, and the sender keeps awaiting |
| ChatbotProperties.ReplyWithoutTimeKeepsAwaiting | chatbot.js:80-81 | a one-word reply gets the format help, and the session is kept |
| ChatbotProperties.BookingOrder | chatbot.js:94-115 | for a parsed reply, the turn sends the acknowledgement, inserts an event from start to start plus one hour, then sends the link or the apology; the session ends |
| ChatbotProperties.BookingConfirmedIffLink | chatbot.js:103-107 | the link `l` is sent if and only if the insert ran and returned an event whose link is the non-empty `l` |
| ChatbotProperties.GreetingReply | chatbot.js:119-124 | a greeting word in any case gets one welcome by first name, and the session map is unchanged |
| ChatbotProperties.MenuOneStartsBooking | chatbot.js:127-131 | first non-blank character `1`: the booking prompt is sent, then the sender awaits a date |
| ChatbotProperties.MenuInformation | chatbot.js:132-146 | first non-blank characters `2` to `5` get prices, services, contact and FAQ, and change nothing |
| ChatbotProperties.UnknownMenuKeyIgnored | chatbot.js:127-147 | any other first non-blank character gets no reply and changes nothing |
| ChatbotProperties.BlankMessageIgnored | chatbot.js:119-147 | an empty or blank message from a sender not awaiting a date gets no reply and changes nothing |
| ChatbotProperties.SessionChanges | chatbot.js:115-130 | one message leaves the map unchanged, deletes the sender after an acknowledged parsed reply, or adds the sender after menu entry `1` |
| ChatbotProperties.OnlySenderEntryChanges | chatbot.js:115-130 | no other sender's session is touched |
| ChatbotProperties.SessionOpensOnlyOnMenuOne | chatbot.js:127-130 | a session is opened only by a direct-chat, non-greeting message whose first trimmed character is `1` |
| ChatbotProperties.SessionClosesOnlyOnBooking | chatbot.js:109-115 | a session is closed only by a reply that parsed, after its acknowledgement |
| ChatbotProperties.KeepsDirectChatsOnly | chatbot.js:72-130 | sessions are only ever held for direct chats |
| ChatbotProperties.AtMostOneReplyOutsideBooking | chatbot.js:119-147 | a sender not awaiting a date gets at most one reply and no insert |
| ChatbotProperties.BookingConversation | chatbot.js:77-131 | menu `1` followed by a reply that parses sends the prompt, then the acknowledgement and the one-hour insert, and leaves the session map as it was before |
| ChatbotProperties.OpenThenClose | chatbot.js:115-130 | opening a session and then deleting it restores the map |

## Left out

- Client set-up, authentication, the `ready` and `authenticated` handlers and `client.initialize()` (lines 1-28, 53-61) are left out. They are transport set-up, not message handling.
- The Google Calendar API call is left out. `calendar.events.insert` is replaced by the `inserted` input: the event it would return, or `None` when it throws. Each call is recorded as an `InsertEvent` effect.
- The `timeZone` field of the event is left out, and `toISOString` formatting is reduced to the time value it formats. The only behaviour of `toISOString` kept is that it throws on NaN, which turns into a `null` event and the apology.
- The 1.5-second typing delay and `sendStateTyping` are left out. They do not change what is sent or in what order.
- `getChat` and `getContact` are not modelled. The chat is implicit (replies go to the sender), and `pushname` is an input `Option<string>`.
- Console logging is left out.
- An exception from creating the calendar client (chatbot.js:30, before the insert's own `try`) is left out. It would reach the handler's `catch` (chatbot.js:109), which sends the format help after the acknowledgement and keeps the sender awaiting a date; the model only lets the insert fail by returning `None`, which leads to the apology and closes the session.
- Exceptions thrown by sending a message are left out. Every send is assumed to succeed.
- Concurrency is left out. Two handlers running at once for the same sender can interleave at every `await`. The model treats each message as running to completion before the next one.
- JsDate.MakeDay: never NaN. Section 21.4.1.28 of ECMA-262 lets MakeDay return NaN when the first of the month cannot be found because an argument is out of range, and engines cut years off long before the integers run out. A reply with a huge year and a day that pulls the moment back into the time value range (such as `-400000000/01/1200000 00:00`) is booked by the model, while an engine may answer it with the format help.
- The host's local time zone is a fixed `offset` from UTC. Daylight-saving changes within the year are not modelled.
- JavaScript numbers are doubles, and the model uses exact integers. `parseInt` of a numeral longer than about 15 digits, and arithmetic past 2^53, would round in the source but not in the model. The time value range keeps every accepted slot within 2^53.
- JavaScript strings are UTF-16 code units, and the model's strings are sequences of code points. This matters only for characters outside the Basic Multilingual Plane.
- Exact reply texts are not modelled. Each reply is a `Reply` constructor carrying the values the source interpolates: the echoed body, the link and the first name.
- Chatbot.Canonicalize: written out only for ASCII letters and `á`. For every other character it returns the character itself. This decides a match against the nine greeting words exactly as the full table would, but it is not the full case mapping.
- ChatbotProperties.BookingConversation: for a reply in the documented format, the end-to-end statement is `DateTimeReply.FormattedReplyAccepted` (the slot) combined with `ChatbotProperties.BookingOrder` (the effects). It is not one lemma about `Turn` of a formatted reply.
- ReplyConsequences.FebruaryThirtyFirst: the worked example of the reply `31/02/2025 10:00` is stated for every common year with four digits and every two-digit time, not for the one literal date.
