/**
 * The `message` handler of the barbershop's WhatsApp bot (chatbot.js:63, 71-148).
 *
 * The bot keeps one session map, `userState`, from a sender id to the only state it knows,
 * "awaiting a date and time". Each incoming message goes through four steps in order, and the
 * first that applies decides the answer:
 *   1. messages from anything but a direct chat (`…@c.us`) are ignored;
 *   2. a sender awaiting a date gets the message read as a date/time reply;
 *   3. a greeting word gets the welcome menu;
 *   4. otherwise the first non-blank character picks a menu entry.
 *
 * `Turn` states what one message does to the session map and which effects it produces;
 * `Router.OnMessage` does the same step by step on a mutable session map and outbox.
 */
module Chatbot {
  import opened Wrappers
  import opened JsStrings
  import opened JsDate
  import opened DateTimeReply

  /** The only value `userState[user]` is ever set to. */
  datatype State = AwaitingDatetime

  /** The messages the bot sends, by kind, with the values they interpolate. */
  datatype Reply =
    | FormatHelp                  // the catch block: "send DD/MM/AAAA HH:MM"
    | Acknowledge(text: string)   // "confirming booking for <text>"
    | Confirmed(htmlLink: string) // "booked, details at <htmlLink>"
    | BookingFailed               // the apology when no event link came back
    | Welcome(firstName: string)  // the greeting with the five-entry menu
    | BookingPrompt               // menu entry 1
    | PriceList                   // menu entry 2
    | Services                    // menu entry 3
    | ContactBorel                // menu entry 4
    | Faq                         // menu entry 5

  /** The part of a created Google Calendar event the bot reads. */
  datatype CalendarEvent = CalendarEvent(htmlLink: Option<string>)

  /** What the handler does to the outside world, in order: a message to the sender, or a call
      of `calendar.events.insert`. */
  datatype Effect =
    | Say(reply: Reply)
    | InsertEvent(summary: string, description: string, start: int, end: int)

  /** The session map after one message and the effects the message produced. */
  datatype Outcome = Outcome(sessions: map<string, State>, effects: seq<Effect>)

  /** Sender ids of one-to-one chats end with this; groups and broadcasts do not. */
  const DirectChatSuffix := "@c.us"

  /** The title of every booked event. */
  const EventSummary := "Corte de Cabelo - Barbearia TwoWell"

  /** The description of the event booked for `user`. */
  function EventDescription(user: string): string {
    "Agendamento para o cliente com WhatsApp: " + user
  }

  // ---------------------------------------------------------------------------------------
  // Greeting match (line 119)
  // ---------------------------------------------------------------------------------------

  /** The nine alternatives of the greeting pattern. */
  const Greetings: seq<string> :=
    ["menu", "oi", "ol\U{E1}", "ola", "bom dia", "boa tarde", "boa noite", "borel", "opa"]

  /** The characters the greeting words are made of. */
  predicate GreetingLetter(c: char) {
    'a' <= c <= 'z' || c == ' ' || c == '\U{E1}'
  }

  /** Canonicalize of section 22.2.2.7.3 of ECMA-262 for a pattern without the `u` flag: the
      upper-case form of `c`, except that a non-ASCII character never maps to an ASCII one.
      Only ASCII letters and `á` are written out, because those are the only characters whose
      canonical form can equal that of a greeting letter; every other character maps to
      itself here, which decides a match against a greeting letter just as the full table does. */
  function Canonicalize(c: char): char {
    if 'a' <= c <= 'z' then (c as int - 32) as char
    else if c == '\U{E1}' then '\U{C1}'
    else c
  }

  /** `^word$` with the `i` flag: the whole body equals `word` up to case. */
  predicate MatchesIgnoringCase(body: string, word: string) {
    |body| == |word| && forall i :: 0 <= i < |body| ==> Canonicalize(body[i]) == Canonicalize(word[i])
  }

  /** The greeting test of line 119, on the body as received (not trimmed). */
  predicate IsGreeting(body: string) {
    exists k :: 0 <= k < |Greetings| && MatchesIgnoringCase(body, Greetings[k])
  }

  /** Lower case for the letters that appear in greetings; every other character unchanged. */
  function ToLower(c: char): char {
    if 'A' <= c <= 'Z' then (c as int + 32) as char
    else if c == '\U{C1}' then '\U{E1}'
    else c
  }

  /** The body with the greeting letters lowered: the reference the greeting test is
      compared with. */
  function LowerCase(s: string): string {
    seq(|s|, i requires 0 <= i < |s| => ToLower(s[i]))
  }

  lemma SameLetterIgnoringCase(x: char, c: char)
    requires GreetingLetter(c)
    ensures Canonicalize(x) == Canonicalize(c) <==> ToLower(x) == c
  {
  }

  lemma {:induction false} MatchIffLowerCase(body: string, word: string)
    requires forall j :: 0 <= j < |word| ==> GreetingLetter(word[j])
    ensures MatchesIgnoringCase(body, word) <==> LowerCase(body) == word
  {
    if |body| == |word| {
      forall j | 0 <= j < |word|
        ensures Canonicalize(body[j]) == Canonicalize(word[j]) <==> LowerCase(body)[j] == word[j]
      {
        SameLetterIgnoringCase(body[j], word[j]);
      }
    }
  }

  /** The greeting test is "the body, lower-cased, is one of the nine words": case is
      ignored, nothing else is. */
  lemma GreetingIffLowerCaseWord(body: string)
    ensures IsGreeting(body) <==> LowerCase(body) in Greetings
  {
    forall k | 0 <= k < |Greetings|
      ensures MatchesIgnoringCase(body, Greetings[k]) <==> LowerCase(body) == Greetings[k]
    {
      var w := Greetings[k];
      assert forall j :: 0 <= j < |w| ==> GreetingLetter(w[j]);
      MatchIffLowerCase(body, w);
    }
  }

  /** The body is not trimmed before the greeting test: a greeting with a blank before or
      after it is not a greeting. */
  lemma GreetingIsUntrimmed(body: string)
    requires body != [] && (IsWhiteSpace(body[0]) || IsWhiteSpace(body[|body| - 1]))
    ensures !IsGreeting(body)
  {
    GreetingIffLowerCaseWord(body);
    var l := LowerCase(body);
    if IsWhiteSpace(body[0]) {
      assert l[0] == body[0];
    } else {
      assert l[|l| - 1] == body[|body| - 1];
    }
    forall k | 0 <= k < |Greetings|
      ensures l != Greetings[k]
    {
      var w := Greetings[k];
      assert w != [] && !IsWhiteSpace(w[0]) && !IsWhiteSpace(w[|w| - 1]);
    }
  }

  /** `contact.pushname || 'parceiro'`: the contact's name, or "parceiro" when it is unset or
      empty. */
  function DisplayName(pushname: Option<string>): string {
    if pushname.Some? && pushname.value != "" then pushname.value else "parceiro"
  }

  /** `name.split(" ")[0]`, the name the welcome addresses. */
  function FirstName(pushname: Option<string>): string {
    Split(DisplayName(pushname), ' ')[0]
  }

  /** The welcome uses the display name up to its first space. */
  lemma FirstNameIsFirstWord(pushname: Option<string>)
    ensures var name, first := DisplayName(pushname), FirstName(pushname);
            ' ' !in first && first <= name && (|first| < |name| ==> name[|first|] == ' ')
  {
    var name := DisplayName(pushname);
    var parts := Split(name, ' ');
    SplitPieces(name, ' ');
    if |parts| > 1 {
      assert name == parts[0] + [' '] + Join(parts[1..], ' ');
    }
  }

  // ---------------------------------------------------------------------------------------
  // Booking a date/time reply (lines 77-117)
  // ---------------------------------------------------------------------------------------

  /** What `createCalendarEvent` returns for `slot`, given what the insert call answered
      (`None` when it failed): `toISOString` on a NaN end throws before the call, and the
      helper's catch turns that into `null`. */
  function CalendarResult(slot: Slot, inserted: Option<CalendarEvent>): Option<CalendarEvent> {
    if slot.end.None? then None else inserted
  }

  /** The insert calls `createCalendarEvent` makes for `slot`: none when the end is NaN. */
  function InsertCalls(user: string, slot: Slot): seq<Effect> {
    if slot.end.None? then []
    else [InsertEvent(EventSummary, EventDescription(user), slot.start, slot.end.value)]
  }

  /** `event && event.htmlLink`: the link when there is an event with a non-empty link. */
  function EventLink(event: Option<CalendarEvent>): Option<string> {
    if event.Some? && event.value.htmlLink.Some? && event.value.htmlLink.value != "" then
      event.value.htmlLink
    else None
  }

  /** A date/time reply that parsed to `slot`: acknowledge it, create the event, report the
      result and end the session. */
  function Booking(sessions: map<string, State>, user: string, body: string, slot: Slot,
                   inserted: Option<CalendarEvent>): Outcome
  {
    var link := EventLink(CalendarResult(slot, inserted));
    Outcome(sessions - {user},
            [Say(Acknowledge(body))] + InsertCalls(user, slot)
            + [Say(if link.Some? then Confirmed(link.value) else BookingFailed)])
  }

  /** The reply to a sender awaiting a date. */
  function AwaitingTurn(sessions: map<string, State>, user: string, body: string,
                        inserted: Option<CalendarEvent>, offset: int): Outcome
  {
    match Parse(body, offset)
    case None => Outcome(sessions, [Say(FormatHelp)])
    case Some(slot) => Booking(sessions, user, body, slot, inserted)
  }

  // ---------------------------------------------------------------------------------------
  // The menu (lines 127-147)
  // ---------------------------------------------------------------------------------------

  /** The fixed texts of menu entries 2 to 5. */
  function InfoReply(key: Option<char>): Option<Reply> {
    if key == Some('2') then Some(PriceList)
    else if key == Some('3') then Some(Services)
    else if key == Some('4') then Some(ContactBorel)
    else if key == Some('5') then Some(Faq)
    else None
  }

  /** The menu switch on `key`, the first character of the trimmed body. */
  function MenuTurn(sessions: map<string, State>, user: string, key: Option<char>): Outcome {
    if key == Some('1') then Outcome(sessions[user := AwaitingDatetime], [Say(BookingPrompt)])
    else if InfoReply(key).Some? then Outcome(sessions, [Say(InfoReply(key).value)])
    else Outcome(sessions, [])
  }

  // ---------------------------------------------------------------------------------------
  // One message
  // ---------------------------------------------------------------------------------------

  /** What the message `body` from `user` does, given the session map before it, the sender's
      contact name, what the calendar insert would answer and the host's offset from UTC. */
  function Turn(sessions: map<string, State>, user: string, body: string,
                pushname: Option<string>, inserted: Option<CalendarEvent>, offset: int): Outcome
  {
    if !EndsWith(user, DirectChatSuffix) then Outcome(sessions, [])
    else if user in sessions then AwaitingTurn(sessions, user, body, inserted, offset)
    else if IsGreeting(body) then Outcome(sessions, [Say(Welcome(FirstName(pushname)))])
    else MenuTurn(sessions, user, FirstChar(Trim(body)))
  }

  /** Every session key is a direct chat. */
  predicate DirectChatsOnly(sessions: map<string, State>) {
    forall user :: user in sessions ==> EndsWith(user, DirectChatSuffix)
  }

  /** An instance of the bot: its session map, everything it has sent or called so far, and the
      host's offset from UTC that `new Date(..)` applies. */
  class Router {
    var sessions: map<string, State>
    var outbox: seq<Effect>
    const offset: int

    ghost predicate Valid()
      reads this
    {
      DirectChatsOnly(sessions)
    }

    /** Line 63: no one is awaiting a date yet. */
    constructor (offset: int)
      ensures Valid() && sessions == map[] && outbox == [] && this.offset == offset
    {
      sessions := map[];
      outbox := [];
      this.offset := offset;
    }

    /** `sendMessageWithTyping`: one more message to the sender. */
    method Send(reply: Reply)
      modifies this`outbox
      ensures outbox == old(outbox) + [Say(reply)]
    {
      outbox := outbox + [Say(reply)];
    }

    /** `createCalendarEvent`: inserts the event unless its end is NaN, and returns the
        created event or `None` (`null`). */
    method CreateCalendarEvent(summary: string, description: string, slot: Slot,
                               inserted: Option<CalendarEvent>) returns (event: Option<CalendarEvent>)
      modifies this`outbox
      ensures event == CalendarResult(slot, inserted)
      ensures slot.end.None? ==> outbox == old(outbox)
      ensures slot.end.Some? ==>
                outbox == old(outbox) + [InsertEvent(summary, description, slot.start, slot.end.value)]
    {
      if slot.end.None? {
        return None;
      }
      outbox := outbox + [InsertEvent(summary, description, slot.start, slot.end.value)];
      event := inserted;
    }

    /** The `message` handler. */
    method OnMessage(user: string, body: string, pushname: Option<string>,
                     inserted: Option<CalendarEvent>)
      requires Valid()
      modifies this
      ensures Valid()
      ensures var o := Turn(old(sessions), user, body, pushname, inserted, offset);
              sessions == o.sessions && outbox == old(outbox) + o.effects
    {
      ghost var o := Turn(sessions, user, body, pushname, inserted, offset);
      if !EndsWith(user, DirectChatSuffix) {
        return;
      }
      if user in sessions {
        assert o == AwaitingTurn(sessions, user, body, inserted, offset);
        ReadDateTime(user, body, inserted);
        return;
      }
      if IsGreeting(body) {
        assert o == Outcome(sessions, [Say(Welcome(FirstName(pushname)))]);
        Send(Welcome(FirstName(pushname)));
        return;
      }
      assert o == MenuTurn(sessions, user, FirstChar(Trim(body)));
      Menu(user, FirstChar(Trim(body)));
    }

    /** Lines 78-116: the reply of a sender awaiting a date. */
    method ReadDateTime(user: string, body: string, inserted: Option<CalendarEvent>)
      modifies this`sessions, this`outbox
      requires Valid()
      ensures Valid()
      ensures var o := AwaitingTurn(old(sessions), user, body, inserted, offset);
              sessions == o.sessions && outbox == old(outbox) + o.effects
    {
      var slot := Parse(body, offset);
      if slot.None? {
        Send(FormatHelp);
        return;
      }
      Book(user, body, slot.value, inserted);
    }

    /** Lines 94-115: a reply that parsed to `slot`. */
    method Book(user: string, body: string, slot: Slot, inserted: Option<CalendarEvent>)
      modifies this`sessions, this`outbox
      requires Valid()
      ensures Valid()
      ensures var o := Booking(old(sessions), user, body, slot, inserted);
              sessions == o.sessions && outbox == old(outbox) + o.effects
    {
      Send(Acknowledge(body));
      var event := CreateCalendarEvent(EventSummary, EventDescription(user), slot, inserted);
      if event.Some? && event.value.htmlLink.Some? && event.value.htmlLink.value != "" {
        Send(Confirmed(event.value.htmlLink.value));
      } else {
        Send(BookingFailed);
      }
      sessions := sessions - {user};
    }

    /** Lines 127-147: the switch on the first character of the trimmed body. */
    method Menu(user: string, key: Option<char>)
      modifies this`sessions, this`outbox
      requires Valid() && EndsWith(user, DirectChatSuffix)
      ensures Valid()
      ensures var o := MenuTurn(old(sessions), user, key);
              sessions == o.sessions && outbox == old(outbox) + o.effects
    {
      if key == Some('1') {
        Send(BookingPrompt);
        sessions := sessions[user := AwaitingDatetime];
      } else if key == Some('2') {
        Send(PriceList);
      } else if key == Some('3') {
        Send(Services);
      } else if key == Some('4') {
        Send(ContactBorel);
      } else if key == Some('5') {
        Send(Faq);
      }
    }
  }
}
