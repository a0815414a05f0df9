/**
  The chat client that answers whitelisted numbers with the conversational
  brain: a phone whitelist, a per-chat history of the last six exchanged
  messages, a two-second reply cooldown per chat, and the `messages.upsert`
  handler that ties them together.

  The socket is reduced to the effects the handler asks of it; the clock is an
  explicit `now`; the only socket failure modelled is the final send, a flag.

  As written, the handler runs the brain on the history-prefixed context rather
  than on the user's text. Greetings are then never recognised once a chat has
  history, and once any stored message mentions "help" (the help card does)
  every later message is answered with the help card. `Variant` selects the
  handler as written or the one that classifies the user's own text, with the
  corrected media test, and gives the context to the AI service only.
 */
module WhatsApp {
  import opened Wrappers
  import opened JsString
  import opened Core

  const ALLOWED_NUMBERS: seq<string> := ["2349135634324", "2349134598141", "2349067390162"]

  const MAX_HISTORY := 6

  /** Milliseconds that must pass after a reply before the same chat is answered again. */
  const REPLY_COOLDOWN := 2000

  /** The name the bot's own replies are stored under. */
  const BOT_NAME := "Delvin"

  const VOICE_REPLY := "Sorry I don't understand voice messages yet."

  const CONTEXT_HEADER := "Recent conversation:\n"

  /** `isAllowedUser(sender)`: the part before the first '@' is a whitelisted number. */
  predicate IsAllowedUser(sender: string) {
    sender != [] && HeadBefore(sender, '@') in ALLOWED_NUMBERS
  }

  /** A jid is allowed exactly when its number is whitelisted, whatever its domain. */
  lemma AllowedIff(number: string, domain: string)
    requires '@' !in number
    ensures IsAllowedUser(number + "@" + domain) <==> number in ALLOWED_NUMBERS
  {
    HeadBeforeSeparator(number, '@', domain);
  }

  /** An empty sender is never allowed, and neither is a longer number that merely starts with a whitelisted one. */
  lemma NoPrefixMatch(number: string, extra: string, domain: string)
    requires number in ALLOWED_NUMBERS && extra != [] && '@' !in extra
    ensures !IsAllowedUser("")
    ensures !IsAllowedUser(number + extra + "@" + domain)
  {
    assert '@' !in number + extra;
    HeadBeforeSeparator(number + extra, '@', domain);
    assert forall n :: n in ALLOWED_NUMBERS ==> |n| == 13;
  }

  // ---------------------------------------------------------------- history

  datatype Entry = Entry(text: string, userName: string, timestamp: int)

  /** `messageStore`: chat id to that chat's recent messages, oldest first. */
  type Store = map<string, seq<Entry>>

  predicate Bounded(store: Store) {
    forall c :: c in store ==> |store[c]| <= MAX_HISTORY
  }

  /** The chat's history, empty for a chat never stored. */
  function History(store: Store, chatId: string): seq<Entry> {
    if chatId in store then store[chatId] else []
  }

  /** Append an entry, then drop the oldest one if the history grew past the limit. */
  function Push(h: seq<Entry>, e: Entry): (r: seq<Entry>)
    ensures r != [] && r[|r| - 1] == e
    ensures |r| == if |h| < MAX_HISTORY then |h| + 1 else |h|
    ensures r == (h + [e])[|h| + 1 - |r|..]
  {
    var g := h + [e];
    if |g| > MAX_HISTORY then g[1..] else g
  }

  /** `storeMessage(chatId, message, userName)` at time `now`. */
  function StoreMessage(store: Store, chatId: string, text: string, userName: string, now: int): Store {
    store[chatId := Push(History(store, chatId), Entry(text, userName, now))]
  }

  /** Storing keeps every chat's history within the limit. */
  lemma StoreKeepsBound(store: Store, chatId: string, text: string, userName: string, now: int)
    requires Bounded(store)
    ensures Bounded(StoreMessage(store, chatId, text, userName, now))
  {
    var r := StoreMessage(store, chatId, text, userName, now);
    forall c | c in r
      ensures |r[c]| <= MAX_HISTORY
    {
      if c != chatId {
        assert r[c] == store[c];
      }
    }
  }

  /** Storing touches only the chat it stores for. */
  lemma StoreKeepsOtherChats(store: Store, chatId: string, text: string, userName: string, now: int, other: string)
    requires other != chatId
    ensures History(StoreMessage(store, chatId, text, userName, now), other) == History(store, other)
  {
  }

  /** The line `getHistory` writes for one entry. */
  function Line(e: Entry): (l: string)
    ensures EndsWith(l, e.text) && StartsWith(l, e.userName) && |l| >= 2
  {
    e.userName + ": " + e.text
  }

  function Lines(h: seq<Entry>): (ls: seq<string>)
    ensures |ls| == |h|
    ensures forall i :: 0 <= i < |h| ==> ls[i] == Line(h[i])
  {
    seq(|h|, i requires 0 <= i < |h| => Line(h[i]))
  }

  /** `getHistory(chatId)`: the chat's lines, oldest first, one per line; empty for an unknown chat. */
  function GetHistory(store: Store, chatId: string): (r: string)
    ensures r == [] <==> History(store, chatId) == []
    ensures History(store, chatId) != [] ==> StartsWith(r, Line(History(store, chatId)[0]))
  {
    var ls := Lines(History(store, chatId));
    if ls == [] then ""
    else
      JoinStartsWithFirst(ls, "\n");
      Join(ls, "\n")
  }

  /** Every stored message's text appears in the history. */
  lemma HistoryHasEveryMessage(store: Store, chatId: string, i: nat)
    requires i < |History(store, chatId)|
    ensures Includes(GetHistory(store, chatId), History(store, chatId)[i].text)
  {
    var e := History(store, chatId)[i];
    var ls := Lines(History(store, chatId));
    JoinIncludes(ls, "\n", i);
    IncludesAt(e.text, e.text, 0);
    IncludesInfix(e.userName + ": ", e.text, "", e.text);
    assert e.userName + ": " + e.text + "" == ls[i];
    IncludesTrans(GetHistory(store, chatId), ls[i], e.text);
  }

  /** A line breaks only where its name or text does. */
  lemma LineWithoutBreak(e: Entry)
    requires '\n' !in e.userName && '\n' !in e.text
    ensures '\n' !in Line(e)
  {
    var l := Line(e);
    forall i | 0 <= i < |l| ensures l[i] != '\n' {
      if i < |e.userName| {
        assert l[i] == e.userName[i];
      } else if i >= |e.userName| + 2 {
        assert l[i] == e.text[i - |e.userName| - 2];
      }
    }
  }

  /**
    The history keeps the stored order: when no name or text holds a line
    break, splitting it at line breaks gives back exactly the stored
    messages' lines, oldest first.
   */
  lemma HistoryLinesInOrder(store: Store, chatId: string)
    requires forall k :: 0 <= k < |History(store, chatId)| ==>
      '\n' !in History(store, chatId)[k].userName && '\n' !in History(store, chatId)[k].text
    ensures History(store, chatId) != [] ==>
      SplitOn(GetHistory(store, chatId), '\n') == Lines(History(store, chatId))
  {
    var h := History(store, chatId);
    var ls := Lines(h);
    if h != [] {
      forall k | 0 <= k < |ls| ensures '\n' !in ls[k] {
        LineWithoutBreak(h[k]);
      }
      SplitOnJoin(ls, '\n');
      assert GetHistory(store, chatId) == Join(ls, ['\n']);
    }
  }

  // ---------------------------------------------------------------- the handler

  /** The fields of the first message of a `messages.upsert` event that the handler reads; "" for absent text. */
  datatype Upsert = Upsert(
    hasMessage: bool,
    fromMe: bool,
    remoteJid: string,
    pushName: string,
    voiceNote: bool,
    conversation: string,
    extendedText: string)

  /** What the handler asks of the socket, in order. */
  datatype Effect = MarkRead | Composing | Paused | Send(to: string, text: string)

  datatype State = State(store: Store, lastResponse: map<string, int>)

  datatype Step = Step(state: State, effects: seq<Effect>)

  /** Every message the effects send goes to `to`. */
  predicate SendsOnlyTo(effects: seq<Effect>, to: string) {
    forall i :: 0 <= i < |effects| && effects[i].Send? ==> effects[i].to == to
  }

  /** `msg.pushName || sender.split('@')[0] || 'Unknown'` */
  function DisplayName(pushName: string, sender: string): (r: string)
    ensures r != []
    ensures pushName != [] ==> r == pushName
    ensures pushName == [] && HeadBefore(sender, '@') != [] ==> r == HeadBefore(sender, '@')
  {
    if pushName != [] then pushName
    else if HeadBefore(sender, '@') != [] then HeadBefore(sender, '@')
    else "Unknown"
  }

  /** `conversation || extendedTextMessage?.text || ''` */
  function MessageText(m: Upsert): (t: string)
    ensures m.conversation != [] ==> t == m.conversation
    ensures m.conversation == [] ==> t == m.extendedText
  {
    if m.conversation != [] then m.conversation else m.extendedText
  }

  /** The input built for the brain: the history and the new line, or just the text for a fresh chat. */
  function Context(history: string, userName: string, text: string): (c: string)
    ensures history == [] ==> c == text
    ensures history != [] ==> StartsWith(c, CONTEXT_HEADER + history) && EndsWith(c, text)
  {
    if history != [] then (CONTEXT_HEADER + history) + ("\n\n" + userName + ": " + text) else text
  }

  /** Which brain call the handler makes. */
  datatype Variant =
    | AsWritten   // `processMessage(context)`: the whole context is classified, media links by substring
    | Corrected   // the user's text is classified, media links from a word start; only the AI service sees the context

  /**
    The corrected call: the branch is chosen on the user's text, and the AI
    service is asked with the conversation around it.
   */
  function ReplyTo(text: string, context: string, pick: nat, ai: string -> Option<string>): (r: Option<string>)
    requires pick < |GREETINGS|
    ensures Classify(text, WordStart) != Ai ==> r == ProcessMessage(text, WordStart, pick, ai)
    ensures Classify(text, WordStart) == Ai ==> r == Some(GetAIResponse(Trim(context), ai))
  {
    if Classify(text, WordStart) == Ai then Some(GetAIResponse(Trim(context), ai))
    else ProcessMessage(text, WordStart, pick, ai)
  }

  function Respond(v: Variant, text: string, context: string, pick: nat, ai: string -> Option<string>): Option<string>
    requires pick < |GREETINGS|
  {
    match v
    case AsWritten => ProcessMessage(context, AnyMatch, pick, ai)
    case Corrected => ReplyTo(text, context, pick, ai)
  }

  /**
    On a fresh chat both variants give the same reply to every text the two
    media tests classify alike.
   */
  lemma FreshChatAgrees(text: string, pick: nat, ai: string -> Option<string>)
    requires pick < |GREETINGS|
    ensures Classify(text, AnyMatch) == Classify(text, WordStart) ==>
      Respond(AsWritten, text, Context("", "", text), pick, ai) == Respond(Corrected, text, Context("", "", text), pick, ai)
  {
    assert Context("", "", text) == text;
  }

  /** The time of the chat's last reply, 0 when there is none (`lastResponse.get(chatId) || 0`). */
  function LastReply(st: State, chatId: string): int {
    if chatId in st.lastResponse then st.lastResponse[chatId] else 0
  }

  /** The handler's path once a non-blank text from an allowed sender is outside the cooldown. */
  predicate Answerable(st: State, m: Upsert, now: int) {
    && m.hasMessage && !m.fromMe && IsAllowedUser(m.remoteJid) && !m.voiceNote
    && Trim(MessageText(m)) != []
    && now - LastReply(st, m.remoteJid) >= REPLY_COOLDOWN
  }

  /** Storing the user's text and then the bot's reply leaves the pair as the chat's two newest entries. */
  function StoreExchange(store: Store, chatId: string, text: string, userName: string, response: string,
                         now: int): (r: Store)
    ensures var h := History(r, chatId);
      |h| >= 2 && h[|h| - 2] == Entry(text, userName, now) && h[|h| - 1] == Entry(response, BOT_NAME, now)
  {
    var once := StoreMessage(store, chatId, text, userName, now);
    var h1 := History(once, chatId);
    var h := Push(h1, Entry(response, BOT_NAME, now));
    assert h[|h| - 2] == (h1 + [Entry(response, BOT_NAME, now)])[|h1| - 1];
    StoreMessage(once, chatId, response, BOT_NAME, now)
  }

  lemma ExchangeKeepsBound(store: Store, chatId: string, text: string, userName: string, response: string, now: int)
    ensures Bounded(store) ==> Bounded(StoreExchange(store, chatId, text, userName, response, now))
  {
    if Bounded(store) {
      StoreKeepsBound(store, chatId, text, userName, now);
      StoreKeepsBound(StoreMessage(store, chatId, text, userName, now), chatId, response, BOT_NAME, now);
    }
  }

  /**
    The end of the handler once the brain has answered: the user's text and the
    reply are stored, the reply is sent, and only a send that does not throw
    records the reply time; a throwing send is followed by the error template.
   */
  function Deliver(st: State, sender: string, text: string, userName: string, response: string,
                   now: int, sendFails: bool): (r: Step)
    ensures r.state.store == StoreExchange(st.store, sender, text, userName, response, now)
    ensures Bounded(st.store) ==> Bounded(r.state.store)
    ensures r.state.lastResponse == if sendFails then st.lastResponse else st.lastResponse[sender := now]
    ensures |r.effects| == (if sendFails then 5 else 4) && r.effects[0] == MarkRead
    ensures r.effects[3] == Send(sender, response) && SendsOnlyTo(r.effects, sender)
  {
    ExchangeKeepsBound(st.store, sender, text, userName, response, now);
    var stored := StoreExchange(st.store, sender, text, userName, response, now);
    var last := if sendFails then st.lastResponse else st.lastResponse[sender := now];
    Step(State(stored, last), ReplyEffects(sender, response, sendFails))
  }

  /** Read receipt, typing indicator on and off, the reply, and the error template after a throwing send. */
  function ReplyEffects(sender: string, response: string, sendFails: bool): (es: seq<Effect>)
    ensures |es| == (if sendFails then 5 else 4) && es[0] == MarkRead && es[3] == Send(sender, response)
    ensures SendsOnlyTo(es, sender)
  {
    var sent := [MarkRead, Composing, Paused, Send(sender, response)];
    if sendFails then sent + [Send(sender, ERROR_TEMPLATE)] else sent
  }

  /**
    The `messages.upsert` handler. `pick` is the random greeting index and
    `sendFails` whether the socket throws on the reply, in which case the error
    template is sent from the catch block. A missing sender id (`""`) makes
    `sender.split` throw before anything is sent, and the catch block has no
    id to send the error template to.
   */
  function OnUpsert(v: Variant, st: State, m: Upsert, now: int, pick: nat, ai: string -> Option<string>, sendFails: bool): (r: Step)
    requires pick < |GREETINGS|
    ensures !m.hasMessage || m.fromMe || m.remoteJid == "" ==> r == Step(st, [])
    ensures m.hasMessage && !m.fromMe && m.remoteJid != "" && !Answerable(st, m, now) ==>
      r.state == st && |r.effects| >= 1 && r.effects[0] == MarkRead
    ensures m.hasMessage && !m.fromMe && m.remoteJid != "" && !IsAllowedUser(m.remoteJid) ==> r.effects == [MarkRead]
    ensures SendsOnlyTo(r.effects, m.remoteJid)
    ensures r.state.lastResponse != st.lastResponse ==>
      Answerable(st, m, now) && !sendFails && r.state.lastResponse == st.lastResponse[m.remoteJid := now]
    ensures Bounded(st.store) ==> Bounded(r.state.store)
  {
    if !m.hasMessage || m.fromMe || m.remoteJid == "" then Step(st, [])
    else if !Answerable(st, m, now) then
      if !IsAllowedUser(m.remoteJid) then Step(st, [MarkRead])
      else if m.voiceNote then Step(st, [MarkRead, Send(m.remoteJid, VOICE_REPLY)])
      else Step(st, [MarkRead])
    else Answer(v, st, m, now, pick, ai, sendFails)
  }

  /**
    The answering path of the handler: the brain is asked with the chat's
    context, a missing reply only toggles the typing indicator, and a reply is
    delivered.
   */
  function Answer(v: Variant, st: State, m: Upsert, now: int, pick: nat, ai: string -> Option<string>, sendFails: bool): (r: Step)
    requires pick < |GREETINGS|
    ensures |r.effects| >= 3 && r.effects[0] == MarkRead
    ensures SendsOnlyTo(r.effects, m.remoteJid)
    ensures r.state.lastResponse != st.lastResponse ==>
      !sendFails && r.state.lastResponse == st.lastResponse[m.remoteJid := now]
    ensures Bounded(st.store) ==> Bounded(r.state.store)
  {
    var sender := m.remoteJid;
    var userName := DisplayName(m.pushName, sender);
    var text := MessageText(m);
    var context := Context(GetHistory(st.store, sender), userName, text);
    Settle(st, sender, text, userName, Respond(v, text, context, pick, ai), now, sendFails)
  }

  /** What follows the brain's answer: nothing is sent for a missing reply, a reply is delivered. */
  function Settle(st: State, sender: string, text: string, userName: string, reply: Option<string>,
                  now: int, sendFails: bool): (r: Step)
    ensures |r.effects| >= 3 && r.effects[0] == MarkRead
    ensures SendsOnlyTo(r.effects, sender)
    ensures reply.None? ==> r.state == st
    ensures r.state.lastResponse != st.lastResponse ==>
      !sendFails && r.state.lastResponse == st.lastResponse[sender := now]
    ensures Bounded(st.store) ==> Bounded(r.state.store)
  {
    match reply
    case None => Step(st, [MarkRead, Composing, Paused])
    case Some(response) => Deliver(st, sender, text, userName, response, now, sendFails)
  }

  /** A chat just answered is not answered again until two seconds have passed. */
  lemma ReplyCooldown(v: Variant, st: State, m: Upsert, t: int, m2: Upsert, t2: int,
                      pick: nat, ai: string -> Option<string>)
    requires pick < |GREETINGS|
    requires Answerable(st, m, t) && OnUpsert(v, st, m, t, pick, ai, false).state.lastResponse != st.lastResponse
    requires m2.hasMessage && !m2.fromMe && m2.remoteJid == m.remoteJid && !m2.voiceNote
    requires t <= t2 < t + REPLY_COOLDOWN
    ensures var st2 := OnUpsert(v, st, m, t, pick, ai, false).state;
      OnUpsert(v, st2, m2, t2, pick, ai, false) == Step(st2, [MarkRead])
  {
  }

  // ---------------------------------------------------------------- the help-sticky defect

  /** Some message stored for the chat mentions help in any letter case. */
  predicate HelpInHistory(store: Store, chatId: string) {
    exists i :: 0 <= i < |History(store, chatId)| && Includes(ToLower(History(store, chatId)[i].text), "help")
  }

  /** A context built on a non-empty history starts with "R", which no greeting word does. */
  lemma ContextIsNeverGreeting(history: string, userName: string, text: string)
    requires history != []
    ensures !IsGreeting(Trim(Context(history, userName, text)))
  {
    var c := Context(history, userName, text);
    assert c[0] == 'R';
    TrimKeepsFirst(c);
    NoGreetingInitial(Trim(c));
  }

  /** A context built on a history that mentions help is classified as a help request. */
  lemma ContextIsHelp(store: Store, chatId: string, userName: string, text: string, test: MediaTest)
    requires HelpInHistory(store, chatId)
    ensures var c := Context(GetHistory(store, chatId), userName, text);
      Classify(c, test) == Help
  {
    var c := Context(GetHistory(store, chatId), userName, text);
    ContextMentionsHelp(store, chatId, userName, text);
    HelpInside(c);
    ContextIsNeverGreeting(GetHistory(store, chatId), userName, text);
  }

  lemma ContextMentionsHelp(store: Store, chatId: string, userName: string, text: string)
    requires HelpInHistory(store, chatId)
    ensures Includes(ToLower(Context(GetHistory(store, chatId), userName, text)), "help")
  {
    var i :| 0 <= i < |History(store, chatId)| && Includes(ToLower(History(store, chatId)[i].text), "help");
    var e := History(store, chatId)[i];
    ContextHasStored(store, chatId, i, userName, text);
    var c := Context(GetHistory(store, chatId), userName, text);
    IncludesLower(c, e.text);
    IncludesTrans(ToLower(c), ToLower(e.text), "help");
  }

  /** The context holds every stored message of the chat. */
  lemma ContextHasStored(store: Store, chatId: string, i: nat, userName: string, text: string)
    requires i < |History(store, chatId)|
    ensures Includes(Context(GetHistory(store, chatId), userName, text), History(store, chatId)[i].text)
  {
    HistoryHasEveryMessage(store, chatId, i);
    ContextHoldsHistory(GetHistory(store, chatId), userName, text, History(store, chatId)[i].text);
  }

  lemma ContextHoldsHistory(history: string, userName: string, text: string, x: string)
    requires history != [] && Includes(history, x)
    ensures Includes(Context(history, userName, text), x)
  {
    IncludesInfix(CONTEXT_HEADER, history, "", x);
    assert CONTEXT_HEADER + history + "" == CONTEXT_HEADER + history;
    IncludesPrefix(Context(history, userName, text), CONTEXT_HEADER + history, x);
  }

  /**
    As written, once a message that mentions help is stored for a chat, every
    later message in that chat, whatever it says, is answered with the help
    card, and the help card stored with it keeps the chat in that state.
   */
  lemma HelpIsStickyAsWritten(st: State, m: Upsert, now: int, pick: nat, ai: string -> Option<string>)
    requires pick < |GREETINGS|
    requires Answerable(st, m, now) && HelpInHistory(st.store, m.remoteJid)
    ensures var r := OnUpsert(AsWritten, st, m, now, pick, ai, false);
      && r.effects == [MarkRead, Composing, Paused, Send(m.remoteJid, HELP_TEMPLATE)]
      && HelpInHistory(r.state.store, m.remoteJid)
  {
    var userName := DisplayName(m.pushName, m.remoteJid);
    ContextIsHelp(st.store, m.remoteJid, userName, MessageText(m), AnyMatch);
    HelpCardStays(st.store, m.remoteJid, MessageText(m), userName, now);
  }

  /** Storing an exchange answered with the help card leaves help in the chat's history. */
  lemma HelpCardStays(store: Store, chatId: string, text: string, userName: string, now: int)
    ensures HelpInHistory(StoreExchange(store, chatId, text, userName, HELP_TEMPLATE, now), chatId)
  {
    HelpTemplateMentionsHelp();
    var h := History(StoreExchange(store, chatId, text, userName, HELP_TEMPLATE, now), chatId);
    assert Includes(ToLower(h[|h| - 1].text), "help");
  }

  /** As written, a greeting in a chat that has any history is never answered as one. */
  lemma GreetingLostAsWritten(st: State, m: Upsert, now: int, pick: nat, ai: string -> Option<string>)
    requires pick < |GREETINGS|
    requires Answerable(st, m, now) && GetHistory(st.store, m.remoteJid) != []
    ensures var c := Context(GetHistory(st.store, m.remoteJid), DisplayName(m.pushName, m.remoteJid), MessageText(m));
      Classify(c, AnyMatch) != Greeting
  {
    ContextIsNeverGreeting(GetHistory(st.store, m.remoteJid), DisplayName(m.pushName, m.remoteJid), MessageText(m));
  }

  /**
    The corrected handler answers a greeting, a help request or a media link
    from the user's own text, whatever the chat's history holds.
   */
  lemma CorrectedIgnoresHistory(st: State, m: Upsert, now: int, pick: nat, ai: string -> Option<string>)
    requires pick < |GREETINGS|
    requires Answerable(st, m, now) && Classify(MessageText(m), WordStart) in {Greeting, Help, Media}
    ensures var r := OnUpsert(Corrected, st, m, now, pick, ai, false);
      r.effects == [MarkRead, Composing, Paused, Send(m.remoteJid, ProcessMessage(MessageText(m), WordStart, pick, ai).value)]
  {
    var text := MessageText(m);
    var userName := DisplayName(m.pushName, m.remoteJid);
    var context := Context(GetHistory(st.store, m.remoteJid), userName, text);
    var reply := Respond(Corrected, text, context, pick, ai);
    assert reply == ProcessMessage(text, WordStart, pick, ai);
    assert reply.Some?;
    calc {
      OnUpsert(Corrected, st, m, now, pick, ai, false);
      Answer(Corrected, st, m, now, pick, ai, false);
      Settle(st, m.remoteJid, text, userName, reply, now, false);
      Deliver(st, m.remoteJid, text, userName, reply.value, now, false);
    }
    assert ReplyEffects(m.remoteJid, reply.value, false) == [MarkRead, Composing, Paused, Send(m.remoteJid, reply.value)];
  }
}
