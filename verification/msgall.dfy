/**
  The `$msgall` command: send one text to every personal chat the bot knows.

  Gathering the chats (the groups the bot is in, the chat store, the
  blocklist) is socket work and enters as the list `chats`. The network is an
  oracle: for a contact id it says whether the contact is absent from
  WhatsApp, the message was delivered, or the lookup or the send raised an
  error with some message.
 */
module MsgAll {
  import opened Wrappers
  import opened JsString
  import opened Command
  import Msg

  const USAGE := "\U{274C} Please provide a message to send.\nExample: $msgall Happy New Year! \U{1F389}"
  const NO_CONTACTS :=
    "\U{274C} No personal contacts found via standard methods.\n\n" +
    "\U{1F4F1} **Alternative:**\n" +
    "1. You can use `$msg [number] [message]` to message individuals\n" +
    "2. Or forward messages manually for now\n" +
    "3. Try using the bot in a group first to build chat history"

  /** At most this many personal chats are messaged. */
  const CAP := 100
  /** At most this many result lines are shown in the report. */
  const SHOWN := 15
  /** The start notice quotes at most this many UTF-16 code units of the text. */
  const PREVIEW := 50
  /** A user id whose local part is shorter than this looks like a service number. */
  const SERVICE_LOCAL_MIN := 8

  /** A known chat; an empty name or notify name stands for a missing one. */
  datatype Chat = Chat(id: string, name: string, notify: string)

  /** A chat with a person: not a group, broadcast, status, linked-device or newsletter id. */
  predicate IsPersonal(id: string) {
    && id != ""
    && !EndsWith(id, "@g.us")
    && !EndsWith(id, "@broadcast")
    && !Includes(id, "status")
    && !Includes(id, "@lid")
    && !Includes(id, "@newsletter")
  }

  /** `allChats.filter(...)`: the personal chats, in the order they were gathered. */
  function PersonalChats(chats: seq<Chat>): (ps: seq<Chat>)
    ensures forall c :: c in ps <==> c in chats && IsPersonal(c.id)
    ensures |ps| <= |chats|
  {
    if chats == [] then []
    else (if IsPersonal(chats[0].id) then [chats[0]] else []) + PersonalChats(chats[1..])
  }

  /** `personalChats.slice(0, 100)` */
  function Considered(chats: seq<Chat>): (cs: seq<Chat>)
    ensures |cs| <= CAP
    ensures forall c :: c in cs ==> c in chats && IsPersonal(c.id)
    ensures |PersonalChats(chats)| <= CAP ==> cs == PersonalChats(chats)
  {
    var ps := PersonalChats(chats);
    if |ps| <= CAP then ps
    else
      assert forall c :: c in ps[..CAP] ==> c in ps;
      ps[..CAP]
  }

  /** The two skip rules: the bot itself, and a short user id that looks like a service number. */
  predicate Skipped(c: Chat, botId: string) {
    || c.id == botId
    || (Includes(c.id, Msg.USER_SUFFIX) && Utf16Length(HeadBefore(c.id, '@')) < SERVICE_LOCAL_MIN)
  }

  /** `contact.name || contact.notify || contact.id.split('@')[0]` */
  function ContactName(c: Chat): string {
    if c.name != "" then c.name else if c.notify != "" then c.notify else HeadBefore(c.id, '@')
  }

  datatype Probe = Absent | Delivered | Error(message: string)

  /** What the socket does for a contact id. */
  type Network = string -> Probe

  /** The result line of a failed contact, with the privacy note for privacy errors. */
  function ErrorLine(name: string, message: string): string {
    var note := if Includes(message, "not-authorized") || Includes(message, "privacy") then " (Privacy settings)" else "";
    "\U{274C} " + name + ": " + message + note
  }

  /** The counters, the result lines and the ids a message was delivered to. */
  datatype Tally = Tally(success: nat, failed: nat, results: seq<string>, sentTo: seq<string>)

  const NoTally := Tally(0, 0, [], [])

  /** One iteration of the sending loop. */
  function Step(t: Tally, c: Chat, botId: string, net: Network): Tally {
    if Skipped(c, botId) then t
    else
      match net(c.id)
      case Absent => t
      case Delivered =>
        Tally(t.success + 1, t.failed, t.results + ["\U{2705} " + ContactName(c) + ": Sent"], t.sentTo + [c.id])
      case Error(m) =>
        Tally(t.success, t.failed + 1, t.results + [ErrorLine(ContactName(c), m)], t.sentTo)
  }

  /** The loop over `cs`, as a fold from the front. */
  function TallyOf(cs: seq<Chat>, botId: string, net: Network): (t: Tally)
    ensures |t.results| == t.success + t.failed
    ensures t.success == |t.sentTo|
    ensures t.success + t.failed <= |cs|
  {
    if cs == [] then NoTally else Step(TallyOf(cs[..|cs| - 1], botId, net), cs[|cs| - 1], botId, net)
  }

  /**
    The message goes to exactly the considered contacts that no skip rule
    catches and that the network reports delivered.
   */
  lemma {:induction false} SentToExactly(cs: seq<Chat>, botId: string, net: Network)
    ensures forall id :: id in TallyOf(cs, botId, net).sentTo <==>
      exists c :: c in cs && c.id == id && !Skipped(c, botId) && net(id) == Delivered
    decreases |cs|
  {
    if cs != [] {
      var front := cs[..|cs| - 1];
      var last := cs[|cs| - 1];
      SentToExactly(front, botId, net);
      assert cs == front + [last];
      forall id | exists c :: c in cs && c.id == id && !Skipped(c, botId) && net(id) == Delivered
        ensures id in TallyOf(cs, botId, net).sentTo
      {
        var c :| c in cs && c.id == id && !Skipped(c, botId) && net(id) == Delivered;
        if c != last {
          assert c in front;
        }
      }
    }
  }

  /**
    Nobody outside the gathered personal chats is messaged, nor the bot itself,
    nor a short service id.
   */
  lemma RecipientsAreGenuine(chats: seq<Chat>, botId: string, net: Network, id: string)
    requires id in TallyOf(Considered(chats), botId, net).sentTo
    ensures IsPersonal(id) && id != botId
    ensures exists c :: c in chats && c.id == id
    ensures !(Includes(id, Msg.USER_SUFFIX) && Utf16Length(HeadBefore(id, '@')) < SERVICE_LOCAL_MIN)
  {
    SentToExactly(Considered(chats), botId, net);
  }

  datatype MsgAllReply =
    | Usage
    | NoContacts
    | Report(success: nat, failed: nat, message: string, results: seq<string>, tip: bool, sentTo: seq<string>)

  /** The opening of the text quoted by the start notice: at most 50 code units, "..." marking a cut. */
  function Preview(text: string): (p: string)
    ensures Utf16Length(text) <= PREVIEW ==> p == text
    ensures Utf16Length(text) > PREVIEW ==>
      && |p| >= 3 && EndsWith(p, "...")
      && StartsWith(text, p[..|p| - 3]) && |p| - 3 < |text|
      && Utf16Length(p[..|p| - 3]) <= PREVIEW < Utf16Length(text[..|p| - 2])
  {
    if Utf16Length(text) > PREVIEW then
      var head := Utf16Take(text, PREVIEW);
      var p := head + "...";
      assert p[..|p| - 3] == head;
      assert p[|p| - 3..] == "...";
      p
    else text
  }

  /** The reply sent before any chat is gathered. */
  function StartNotice(text: string): string {
    "\U{1F4E4} Starting broadcast to all contacts...\nMessage: \"" + Preview(text) + "\""
  }

  /**
    The start notice quotes the text itself when it fits in 50 code units, and
    otherwise the longest opening of it that fits.
   */
  lemma StartNoticeQuotes(text: string)
    ensures Utf16Length(text) <= PREVIEW ==> Includes(StartNotice(text), text)
    ensures Includes(StartNotice(text), Utf16Take(text, PREVIEW))
  {
    var head := Utf16Take(text, PREVIEW);
    var p := Preview(text);
    IncludesAt(head, head, 0);
    if Utf16Length(text) > PREVIEW {
      assert p == head + "...";
      assert p[..|head|] == head;
      IncludesPrefix(p, head, head);
    }
    IncludesInfix("\U{1F4E4} Starting broadcast to all contacts...\nMessage: \"", p, "\"", head);
  }

  /**
    `$msgall <text...>` sent over the gathered `chats`: the replies sent on the
    way, then the returned reply.
   */
  method Broadcast(args: seq<string>, chats: seq<Chat>, botId: string, net: Network)
    returns (notices: seq<string>, rep: MsgAllReply)
    ensures Trim(Join(args, " ")) == "" <==> rep.Usage?
    ensures rep.Usage? <==> notices == []
    ensures !rep.Usage? ==> notices == [StartNotice(Trim(Join(args, " ")))]
    ensures rep.NoContacts? <==> Trim(Join(args, " ")) != "" && PersonalChats(chats) == []
    ensures rep.Report? ==>
      var t := TallyOf(Considered(chats), botId, net);
      && rep.message == Trim(Join(args, " "))
      && rep.success == t.success && rep.failed == t.failed
      && rep.results == t.results && rep.sentTo == t.sentTo
      && rep.tip == (t.success == 0)
    ensures rep.Report? ==> rep.success + rep.failed <= CAP && |rep.sentTo| == rep.success
  {
    var text := Trim(Join(args, " "));
    if text == "" {
      return [], Usage;
    }
    notices := [StartNotice(text)];
    var personal := PersonalChats(chats);
    if personal == [] {
      return notices, NoContacts;
    }
    var t := SendAll(Considered(chats), botId, net);
    rep := Report(t.success, t.failed, text, t.results, t.success == 0, t.sentTo);
  }

  /** The sending loop over the considered chats, front to back. */
  method SendAll(cs: seq<Chat>, botId: string, net: Network) returns (t: Tally)
    ensures t == TallyOf(cs, botId, net)
  {
    t := NoTally;
    var i := 0;
    while i < |cs|
      invariant 0 <= i <= |cs|
      invariant t == TallyOf(cs[..i], botId, net)
    {
      assert cs[..i + 1][..i] == cs[..i];
      t := Step(t, cs[i], botId, net);
      i := i + 1;
    }
    assert cs[..|cs|] == cs;
  }

  /**
    The result block of the report: the first 15 result lines, then a line
    "... and k more" for the `k` lines held back.
   */
  function ResultsBlock(results: seq<string>): (b: string)
    ensures |results| <= SHOWN ==> b == Join(results, "\n") + "\n"
    ensures |results| > SHOWN ==>
      StartsWith(b, Join(results[..SHOWN], "\n")) && EndsWith(b, NatToString(|results| - SHOWN) + " more")
  {
    if |results| <= SHOWN then
      assert results[..|results|] == results;
      Join(results, "\n") + "\n"
    else
      var tail := NatToString(|results| - SHOWN) + " more";
      var b := Join(results[..SHOWN], "\n") + "\n" + "\n... and " + tail;
      assert b[|b| - |tail|..] == tail;
      b
  }

  /** Every one of the first 15 result lines is shown. */
  lemma ResultsBlockShows(results: seq<string>, k: nat)
    requires k < |results| && k < SHOWN
    ensures Includes(ResultsBlock(results), results[k])
  {
    if |results| <= SHOWN {
      JoinIncludes(results, "\n", k);
      IncludesPrefix(ResultsBlock(results), Join(results, "\n"), results[k]);
    } else {
      JoinIncludes(results[..SHOWN], "\n", k);
      IncludesPrefix(ResultsBlock(results), Join(results[..SHOWN], "\n"), results[k]);
    }
  }

  /** The `$msgall` descriptor: super-users only, private chats only, aliases broadcast and bc, 300 s cooldown. */
  const MSGALL: Command := CreateCommand("msgall", Options(
    Some(["broadcast", "bc"]),
    Some(300),
    Some("Send message to all personal contacts"),
    Some([SUPER_USER]),
    Some("administration"),
    Some("private"),
    Some("$msgall Happy New Year! \U{1F389}")))

  /** Only a super-user in a private chat gets past the execute wrapper. */
  lemma MsgAllGate(chatId: string, sender: string, tier: string, now: int)
    ensures Check(MSGALL, chatId, sender, tier, now).Admitted? <==> tier == SUPER_USER && !IsGroupChat(chatId)
  {
  }
}
