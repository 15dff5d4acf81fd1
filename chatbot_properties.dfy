/**
 * What one message does, stated about `Turn` for every session map, sender and body: the
 * order in which the handler's four steps take precedence, what a date/time reply produces
 * when it fails and when it succeeds, what the greeting and the menu answer, and how the
 * session map may change.
 */
module ChatbotProperties {
  import opened Wrappers
  import opened JsStrings
  import opened JsDate
  import opened DateTimeReply
  import opened Chatbot

  /** The effects of the date/time branch: help, acknowledgement, insert, confirmation or
      apology; never the welcome or a menu text. */
  predicate BookingFlowEffect(e: Effect) {
    e.InsertEvent? || e.reply.FormatHelp? || e.reply.Acknowledge? || e.reply.Confirmed?
    || e.reply.BookingFailed?
  }

  // ---------------------------------------------------------------------------------------
  // Which step answers
  // ---------------------------------------------------------------------------------------

  /** Line 72: a message that is not from a direct chat changes nothing and gets no reply. */
  lemma IgnoresOtherChats(sessions: map<string, State>, user: string, body: string,
                          pushname: Option<string>, inserted: Option<CalendarEvent>, offset: int)
    requires !EndsWith(user, DirectChatSuffix)
    ensures Turn(sessions, user, body, pushname, inserted, offset) == Outcome(sessions, [])
  {
  }

  lemma TurnOfAwaiting(sessions: map<string, State>, user: string, body: string,
                       pushname: Option<string>, inserted: Option<CalendarEvent>, offset: int)
    requires EndsWith(user, DirectChatSuffix) && user in sessions
    ensures Turn(sessions, user, body, pushname, inserted, offset)
              == AwaitingTurn(sessions, user, body, inserted, offset)
  {
  }

  lemma TurnOfBooking(sessions: map<string, State>, user: string, body: string, slot: Slot,
                      pushname: Option<string>, inserted: Option<CalendarEvent>, offset: int)
    requires EndsWith(user, DirectChatSuffix) && user in sessions && Parse(body, offset) == Some(slot)
    ensures Turn(sessions, user, body, pushname, inserted, offset)
              == Booking(sessions, user, body, slot, inserted)
  {
  }

  lemma TurnOfMenu(sessions: map<string, State>, user: string, body: string,
                   pushname: Option<string>, inserted: Option<CalendarEvent>, offset: int)
    requires EndsWith(user, DirectChatSuffix) && user !in sessions && !IsGreeting(body)
    ensures Turn(sessions, user, body, pushname, inserted, offset)
              == MenuTurn(sessions, user, FirstChar(Trim(body)))
  {
  }

  lemma TurnOfGreeting(sessions: map<string, State>, user: string, body: string,
                       pushname: Option<string>, inserted: Option<CalendarEvent>, offset: int)
    requires EndsWith(user, DirectChatSuffix) && user !in sessions && IsGreeting(body)
    ensures Turn(sessions, user, body, pushname, inserted, offset)
              == Outcome(sessions, [Say(Welcome(FirstName(pushname)))])
  {
  }

  /** The date/time branch either rejects the reply or books the slot it parsed to. */
  lemma AwaitingOutcome(sessions: map<string, State>, user: string, body: string,
                        inserted: Option<CalendarEvent>, offset: int)
    ensures var o := AwaitingTurn(sessions, user, body, inserted, offset);
            || (Parse(body, offset).None? && o == Outcome(sessions, [Say(FormatHelp)]))
            || (Parse(body, offset).Some? && o == Booking(sessions, user, body, Parse(body, offset).value, inserted))
  {
  }

  /** The menu opens a session for `1` and otherwise sends at most one text. */
  lemma MenuOutcome(sessions: map<string, State>, user: string, key: Option<char>)
    ensures var o := MenuTurn(sessions, user, key);
            || (key == Some('1') && o == Outcome(sessions[user := AwaitingDatetime], [Say(BookingPrompt)]))
            || (key != Some('1') && o.sessions == sessions && |o.effects| <= 1
                && forall i :: 0 <= i < |o.effects| ==> o.effects[i].Say?)
  {
  }

  /** What a parsed reply produces, whatever the session map and the calendar's answer. */
  lemma BookingEffects(sessions: map<string, State>, user: string, body: string, slot: Slot,
                       inserted: Option<CalendarEvent>)
    ensures var o := Booking(sessions, user, body, slot, inserted);
            && o.sessions == sessions - {user}
            && |o.effects| == (if slot.end.Some? then 3 else 2)
            && o.effects[0] == Say(Acknowledge(body))
            && (slot.end.Some? ==>
                  o.effects[1] == InsertEvent(EventSummary, EventDescription(user), slot.start, slot.end.value))
            && (forall i :: 0 <= i < |o.effects| ==> BookingFlowEffect(o.effects[i]))
            && o.effects[|o.effects| - 1].Say?
            && (o.effects[|o.effects| - 1].reply.Confirmed? || o.effects[|o.effects| - 1].reply == BookingFailed)
            && (forall l :: o.effects[|o.effects| - 1] == Say(Confirmed(l)) <==>
                              slot.end.Some? && inserted == Some(CalendarEvent(Some(l))) && l != "")
  {
    var link := EventLink(CalendarResult(slot, inserted));
    var o := Booking(sessions, user, body, slot, inserted);
    assert o.effects == [Say(Acknowledge(body))] + InsertCalls(user, slot)
                        + [Say(if link.Some? then Confirmed(link.value) else BookingFailed)];
  }

  /** Lines 77-117: a sender awaiting a date always gets the date/time branch, even for a
      greeting or a menu digit, and that branch either keeps or ends the session. */
  lemma AwaitingReplyIsDateTime(sessions: map<string, State>, user: string, body: string,
                                pushname: Option<string>, inserted: Option<CalendarEvent>, offset: int)
    requires EndsWith(user, DirectChatSuffix) && user in sessions
    ensures var o := Turn(sessions, user, body, pushname, inserted, offset);
            && o.effects != []
            && (o.effects[0] == Say(FormatHelp) || o.effects[0] == Say(Acknowledge(body)))
            && (forall i :: 0 <= i < |o.effects| ==> BookingFlowEffect(o.effects[i]))
            && (o.sessions == sessions || o.sessions == sessions - {user})
  {
    match Parse(body, offset)
    case None =>
      TurnOfAwaiting(sessions, user, body, pushname, inserted, offset);
    case Some(slot) =>
      TurnOfBooking(sessions, user, body, slot, pushname, inserted, offset);
      BookingEffects(sessions, user, body, slot, inserted);
  }

  // ---------------------------------------------------------------------------------------
  // The date/time reply
  // ---------------------------------------------------------------------------------------

  /** Lines 109-112: a rejected reply gets the format help only (no acknowledgement, no
      insert) and the sender keeps awaiting a date, because the catch block returns before
      the session is deleted. */
  lemma ParseFailureKeepsAwaiting(sessions: map<string, State>, user: string, body: string,
                                  pushname: Option<string>, inserted: Option<CalendarEvent>, offset: int)
    requires EndsWith(user, DirectChatSuffix) && user in sessions && Parse(body, offset).None?
    ensures Turn(sessions, user, body, pushname, inserted, offset) == Outcome(sessions, [Say(FormatHelp)])
    ensures user in Turn(sessions, user, body, pushname, inserted, offset).sessions
  {
    TurnOfAwaiting(sessions, user, body, pushname, inserted, offset);
  }

  /** A one-word reply such as `25/12/2025` (no time) is answered with the format help and
      the sender keeps awaiting. */
  lemma ReplyWithoutTimeKeepsAwaiting(sessions: map<string, State>, user: string, body: string,
                                      pushname: Option<string>, inserted: Option<CalendarEvent>, offset: int)
    requires EndsWith(user, DirectChatSuffix) && user in sessions && ' ' !in body
    ensures Turn(sessions, user, body, pushname, inserted, offset) == Outcome(sessions, [Say(FormatHelp)])
  {
    NoTimeWordRejected(body, offset);
    ParseFailureKeepsAwaiting(sessions, user, body, pushname, inserted, offset);
  }

  /** Lines 94-115: a reply that parses is acknowledged first (echoing the body), then the
      one-hour event is inserted (unless its end is NaN), then the link or the apology is sent;
      in both outcomes the session ends. */
  lemma BookingOrder(sessions: map<string, State>, user: string, body: string, slot: Slot,
                     pushname: Option<string>, inserted: Option<CalendarEvent>, offset: int)
    requires EndsWith(user, DirectChatSuffix) && user in sessions && Parse(body, offset) == Some(slot)
    ensures var o := Turn(sessions, user, body, pushname, inserted, offset);
            && o.sessions == sessions - {user}
            && |o.effects| == (if slot.end.Some? then 3 else 2)
            && o.effects[0] == Say(Acknowledge(body))
            && (slot.end.Some? ==>
                  o.effects[1] == InsertEvent(EventSummary, EventDescription(user), slot.start,
                                              slot.start + BookingLength))
            && o.effects[|o.effects| - 1].Say?
            && (o.effects[|o.effects| - 1].reply.Confirmed? || o.effects[|o.effects| - 1].reply == BookingFailed)
  {
    TurnOfBooking(sessions, user, body, slot, pushname, inserted, offset);
    BookingEffects(sessions, user, body, slot, inserted);
  }

  /** Lines 103-107: the booking is confirmed with link `l` exactly when the insert ran and
      returned an event whose `htmlLink` is the non-empty `l`; otherwise the apology is sent. */
  lemma BookingConfirmedIffLink(sessions: map<string, State>, user: string, body: string, slot: Slot,
                                pushname: Option<string>, inserted: Option<CalendarEvent>, offset: int,
                                l: string)
    requires EndsWith(user, DirectChatSuffix) && user in sessions && Parse(body, offset) == Some(slot)
    ensures var o := Turn(sessions, user, body, pushname, inserted, offset);
            o.effects[|o.effects| - 1] == Say(Confirmed(l)) <==>
              slot.end.Some? && inserted == Some(CalendarEvent(Some(l))) && l != ""
  {
    TurnOfBooking(sessions, user, body, slot, pushname, inserted, offset);
    BookingEffects(sessions, user, body, slot, inserted);
  }

  // ---------------------------------------------------------------------------------------
  // Greeting and menu
  // ---------------------------------------------------------------------------------------

  /** Lines 119-124: a greeting word, in any case, from a sender not awaiting a date gets one
      welcome addressed by first name, and the session map stays as it is. */
  lemma GreetingReply(sessions: map<string, State>, user: string, body: string,
                      pushname: Option<string>, inserted: Option<CalendarEvent>, offset: int)
    requires EndsWith(user, DirectChatSuffix) && user !in sessions && LowerCase(body) in Greetings
    ensures Turn(sessions, user, body, pushname, inserted, offset)
              == Outcome(sessions, [Say(Welcome(FirstName(pushname)))])
  {
    GreetingIffLowerCaseWord(body);
    TurnOfGreeting(sessions, user, body, pushname, inserted, offset);
  }

  /** Lines 127-130: when the first non-blank character of a non-greeting is `1`, the booking
      prompt is sent and the sender starts awaiting a date. */
  lemma MenuOneStartsBooking(sessions: map<string, State>, user: string, body: string, k: nat,
                             pushname: Option<string>, inserted: Option<CalendarEvent>, offset: int)
    requires EndsWith(user, DirectChatSuffix) && user !in sessions && !IsGreeting(body)
    requires k < |body| && body[k] == '1' && forall i :: 0 <= i < k ==> IsWhiteSpace(body[i])
    ensures Turn(sessions, user, body, pushname, inserted, offset)
              == Outcome(sessions[user := AwaitingDatetime], [Say(BookingPrompt)])
  {
    TurnOfMenu(sessions, user, body, pushname, inserted, offset);
    TrimmedFirstCharAt(body, k);
  }

  /** Lines 131-145: first non-blank characters `2` to `5` each get one fixed text and leave the
      session map as it is. */
  lemma MenuInformation(sessions: map<string, State>, user: string, body: string, k: nat,
                        pushname: Option<string>, inserted: Option<CalendarEvent>, offset: int)
    requires EndsWith(user, DirectChatSuffix) && user !in sessions && !IsGreeting(body)
    requires k < |body| && !IsWhiteSpace(body[k]) && forall i :: 0 <= i < k ==> IsWhiteSpace(body[i])
    ensures var o := Turn(sessions, user, body, pushname, inserted, offset);
            && (body[k] == '2' ==> o == Outcome(sessions, [Say(PriceList)]))
            && (body[k] == '3' ==> o == Outcome(sessions, [Say(Services)]))
            && (body[k] == '4' ==> o == Outcome(sessions, [Say(ContactBorel)]))
            && (body[k] == '5' ==> o == Outcome(sessions, [Say(Faq)]))
  {
    TurnOfMenu(sessions, user, body, pushname, inserted, offset);
    TrimmedFirstCharAt(body, k);
  }

  /** Any other first non-blank character gets no reply and changes nothing. */
  lemma UnknownMenuKeyIgnored(sessions: map<string, State>, user: string, body: string, k: nat,
                              pushname: Option<string>, inserted: Option<CalendarEvent>, offset: int)
    requires EndsWith(user, DirectChatSuffix) && user !in sessions && !IsGreeting(body)
    requires k < |body| && !IsWhiteSpace(body[k]) && forall i :: 0 <= i < k ==> IsWhiteSpace(body[i])
    requires !('1' <= body[k] <= '5')
    ensures Turn(sessions, user, body, pushname, inserted, offset) == Outcome(sessions, [])
  {
    TurnOfMenu(sessions, user, body, pushname, inserted, offset);
    TrimmedFirstCharAt(body, k);
  }

  /** An empty or blank message from a sender not awaiting a date gets no reply. */
  lemma BlankMessageIgnored(sessions: map<string, State>, user: string, body: string,
                            pushname: Option<string>, inserted: Option<CalendarEvent>, offset: int)
    requires user !in sessions && forall i :: 0 <= i < |body| ==> IsWhiteSpace(body[i])
    ensures Turn(sessions, user, body, pushname, inserted, offset) == Outcome(sessions, [])
  {
    if !EndsWith(user, DirectChatSuffix) {
      IgnoresOtherChats(sessions, user, body, pushname, inserted, offset);
    } else {
      if body != [] {
        GreetingIsUntrimmed(body);
      } else {
        GreetingIffLowerCaseWord(body);
      }
      TurnOfMenu(sessions, user, body, pushname, inserted, offset);
      TrimmedBlank(body);
    }
  }

  // ---------------------------------------------------------------------------------------
  // The session map
  // ---------------------------------------------------------------------------------------

  /** The three ways one message can leave the session map: unchanged; with the sender's
      session closed after a reply that parsed and was acknowledged; or with a session opened
      for a direct-chat sender whose non-greeting message starts with `1`. */
  lemma SessionChanges(sessions: map<string, State>, user: string, body: string,
                       pushname: Option<string>, inserted: Option<CalendarEvent>, offset: int)
    ensures var o := Turn(sessions, user, body, pushname, inserted, offset);
            || o.sessions == sessions
            || (&& user in sessions && o.sessions == sessions - {user}
                && Parse(body, offset).Some? && o.effects[0] == Say(Acknowledge(body)))
            || (&& user !in sessions && o.sessions == sessions[user := AwaitingDatetime]
                && EndsWith(user, DirectChatSuffix) && !IsGreeting(body)
                && FirstChar(Trim(body)) == Some('1'))
  {
    if !EndsWith(user, DirectChatSuffix) {
      IgnoresOtherChats(sessions, user, body, pushname, inserted, offset);
    } else if user in sessions {
      TurnOfAwaiting(sessions, user, body, pushname, inserted, offset);
      AwaitingOutcome(sessions, user, body, inserted, offset);
      if Parse(body, offset).Some? {
        BookingEffects(sessions, user, body, Parse(body, offset).value, inserted);
      }
    } else if IsGreeting(body) {
      TurnOfGreeting(sessions, user, body, pushname, inserted, offset);
    } else {
      TurnOfMenu(sessions, user, body, pushname, inserted, offset);
      MenuOutcome(sessions, user, FirstChar(Trim(body)));
    }
  }

  /** Only the sender's own entry can change. */
  lemma OnlySenderEntryChanges(sessions: map<string, State>, user: string, body: string,
                               pushname: Option<string>, inserted: Option<CalendarEvent>, offset: int)
    ensures Turn(sessions, user, body, pushname, inserted, offset).sessions - {user} == sessions - {user}
  {
    SessionChanges(sessions, user, body, pushname, inserted, offset);
  }

  /** A session is opened only by menu entry `1` (line 130). */
  lemma SessionOpensOnlyOnMenuOne(sessions: map<string, State>, user: string, body: string,
                                  pushname: Option<string>, inserted: Option<CalendarEvent>, offset: int)
    requires user !in sessions && user in Turn(sessions, user, body, pushname, inserted, offset).sessions
    ensures EndsWith(user, DirectChatSuffix) && !IsGreeting(body) && FirstChar(Trim(body)) == Some('1')
  {
    SessionChanges(sessions, user, body, pushname, inserted, offset);
  }

  /** A session is closed only by a reply that parsed, after its acknowledgement (line 115). */
  lemma SessionClosesOnlyOnBooking(sessions: map<string, State>, user: string, body: string,
                                   pushname: Option<string>, inserted: Option<CalendarEvent>, offset: int)
    requires user in sessions && user !in Turn(sessions, user, body, pushname, inserted, offset).sessions
    ensures Parse(body, offset).Some?
    ensures Turn(sessions, user, body, pushname, inserted, offset).effects[0] == Say(Acknowledge(body))
  {
    SessionChanges(sessions, user, body, pushname, inserted, offset);
  }

  /** Every sender with a session is a direct chat, before and after any message. */
  lemma KeepsDirectChatsOnly(sessions: map<string, State>, user: string, body: string,
                             pushname: Option<string>, inserted: Option<CalendarEvent>, offset: int)
    requires DirectChatsOnly(sessions)
    ensures DirectChatsOnly(Turn(sessions, user, body, pushname, inserted, offset).sessions)
  {
    SessionChanges(sessions, user, body, pushname, inserted, offset);
  }

  /** Outside the date/time branch a message gets at most one reply and never an insert. */
  lemma AtMostOneReplyOutsideBooking(sessions: map<string, State>, user: string, body: string,
                                     pushname: Option<string>, inserted: Option<CalendarEvent>, offset: int)
    requires user !in sessions
    ensures var o := Turn(sessions, user, body, pushname, inserted, offset);
            |o.effects| <= 1 && forall i :: 0 <= i < |o.effects| ==> o.effects[i].Say?
  {
    if !EndsWith(user, DirectChatSuffix) {
      IgnoresOtherChats(sessions, user, body, pushname, inserted, offset);
    } else if IsGreeting(body) {
      TurnOfGreeting(sessions, user, body, pushname, inserted, offset);
    } else {
      TurnOfMenu(sessions, user, body, pushname, inserted, offset);
      MenuOutcome(sessions, user, FirstChar(Trim(body)));
    }
  }

  /** Choosing `1` and then sending a date/time reply that parses acknowledges the reply,
      inserts the event for that slot and leaves the session map as it was before the
      conversation. */
  lemma BookingConversation(sessions: map<string, State>, user: string, menu: string, k: nat,
                            reply: string, slot: Slot, pushname: Option<string>,
                            inserted: Option<CalendarEvent>, offset: int)
    requires EndsWith(user, DirectChatSuffix) && user !in sessions && !IsGreeting(menu)
    requires k < |menu| && menu[k] == '1' && forall i :: 0 <= i < k ==> IsWhiteSpace(menu[i])
    requires Parse(reply, offset) == Some(slot)
    ensures var first := Turn(sessions, user, menu, pushname, inserted, offset);
            var second := Turn(first.sessions, user, reply, pushname, inserted, offset);
            && first.effects == [Say(BookingPrompt)]
            && user in first.sessions
            && second.sessions == sessions
            && |second.effects| >= 2
            && second.effects[0] == Say(Acknowledge(reply))
            && (slot.end.Some? ==>
                  second.effects[1] == InsertEvent(EventSummary, EventDescription(user), slot.start,
                                                   slot.start + BookingLength))
  {
    MenuOneStartsBooking(sessions, user, menu, k, pushname, inserted, offset);
    var awaiting := sessions[user := AwaitingDatetime];
    BookingOrder(awaiting, user, reply, slot, pushname, inserted, offset);
    OpenThenClose(sessions, user);
  }

  lemma OpenThenClose(sessions: map<string, State>, user: string)
    requires user !in sessions
    ensures sessions[user := AwaitingDatetime] - {user} == sessions
  {
  }
}
