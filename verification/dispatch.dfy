/**
  The message event handler: the filters an incoming message must pass, the
  fields the command text and the sender are read from, the normalisation and
  parsing of the command line, the start-up of the command system on the first
  command, and the mapping of the registry's result to a reply.

  The socket is reduced to what the handler reads from it (the bot's own id)
  and what it does with it (a reply, always sent to the chat the message came
  from). Unicode NFKC normalisation is the parameter `nfkc`.
 */
module Dispatch {
  import opened Wrappers
  import opened JsString
  import opened Command
  import opened Registry
  import opened Loading
  import Permissions

  const COMMAND_PREFIX := "$"
  const LISTEN_TO_SELF := true

  /** `notify` messages older than this many milliseconds are dropped. */
  const MAX_AGE := 60000

  const BROADCAST_SUFFIX := "@broadcast"

  const EMPTY_COMMAND := "Please enter a command after the prefix."
  const NOT_FOUND := "\U{2753} Command not found. Use $help for available commands."

  /** The message key; "" stands for a missing string field. */
  datatype Key = Key(remoteJid: string, fromMe: bool, id: string, participant: string)

  /**
    The message content: the four kinds that are dropped, the five fields a
    text can come from ("" when missing) and the mentioned ids.
   */
  datatype Content = Content(
    protocol: bool,
    senderKeyDistribution: bool,
    sticker: bool,
    ephemeral: bool,
    conversation: string,
    extendedText: string,
    imageCaption: string,
    videoCaption: string,
    documentCaption: string,
    mentions: seq<string>)

  /** An upsert entry; `timestamp` is in seconds, `notify` is `type === "notify"`. */
  datatype Incoming = Incoming(key: Key, message: Option<Content>, timestamp: int, notify: bool)

  // ---------------------------------------------------------------- filters

  function ChatId(m: Incoming): string {
    m.key.remoteJid
  }

  predicate Stale(m: Incoming, now: int) {
    now - m.timestamp * 1000 > MAX_AGE && m.notify
  }

  predicate Unsupported(c: Content) {
    c.protocol || c.senderKeyDistribution || c.sticker || c.ephemeral
  }

  /** The tests that end the handler before the text is read, in the source's order. */
  predicate Screened(m: Incoming, now: int) {
    || m.message.None?
    || Stale(m, now)
    || Unsupported(m.message.value)
    || EndsWith(ChatId(m), BROADCAST_SUFFIX) || EndsWith(ChatId(m), "status@broadcast")
    || (m.key.fromMe && !LISTEN_TO_SELF)
  }

  /** The status-broadcast test adds nothing: every such chat id already ends with "@broadcast". */
  lemma StatusTestRedundant(chatId: string)
    requires EndsWith(chatId, "status@broadcast")
    ensures EndsWith(chatId, BROADCAST_SUFFIX)
  {
    var n := |chatId|;
    assert chatId[n - 10..] == chatId[n - 16..][6..];
  }

  // ---------------------------------------------------------------- extraction

  /** The text fields in the order `getMessageBody` tries them. */
  function BodyFields(c: Content): seq<string> {
    [c.conversation, c.extendedText, c.imageCaption, c.videoCaption, c.documentCaption]
  }

  /** The first non-empty string of a list, or "". */
  function FirstNonEmpty(xs: seq<string>): (r: string)
    ensures r != "" <==> exists k :: 0 <= k < |xs| && xs[k] != ""
    ensures r != "" ==> exists k :: 0 <= k < |xs| && xs[k] == r && forall j :: 0 <= j < k ==> xs[j] == ""
  {
    if xs == [] then ""
    else if xs[0] != "" then xs[0]
    else
      var r := FirstNonEmpty(xs[1..]);
      assert forall k :: 1 <= k < |xs| ==> xs[k] == xs[1..][k - 1];
      r
  }

  /** `getMessageBody(msg)`: the caption or text of the first field that has one. */
  function MessageBody(c: Content): (b: string)
  {
    if c.conversation != "" then c.conversation
    else if c.extendedText != "" then c.extendedText
    else if c.imageCaption != "" then c.imageCaption
    else if c.videoCaption != "" then c.videoCaption
    else if c.documentCaption != "" then c.documentCaption
    else ""
  }

  /** The chain of tests takes the first non-empty field of the priority list. */
  lemma MessageBodyIsFirstField(c: Content)
    ensures MessageBody(c) == FirstNonEmpty(BodyFields(c))
    ensures MessageBody(c) == "" <==> forall k :: 0 <= k < 5 ==> BodyFields(c)[k] == ""
  {
    var fs := BodyFields(c);
    var f1, f2, f3, f4 := fs[1..], fs[2..], fs[3..], fs[4..];
    assert f4[1..] == [];
    assert FirstNonEmpty(f4) == c.documentCaption;
    assert f3[1..] == f4;
    assert FirstNonEmpty(f3) == if c.videoCaption != "" then c.videoCaption else c.documentCaption;
    assert f2[1..] == f3 && f2[0] == c.imageCaption;
    assert FirstNonEmpty(f2) == if c.imageCaption != "" then c.imageCaption else FirstNonEmpty(f3);
    assert f1[1..] == f2 && f1[0] == c.extendedText;
    assert FirstNonEmpty(f1) == if c.extendedText != "" then c.extendedText else FirstNonEmpty(f2);
    assert fs[1..] == f1;
    assert FirstNonEmpty(fs) == if c.conversation != "" then c.conversation else FirstNonEmpty(f1);
  }

  /**
    `getSenderId(msg, sock, isFromSelf)`: the bot's own id for its own
    messages, then the part of the key id before '_' for own messages without
    it, then the participant (group chats), then the chat id.
   */
  function SenderId(k: Key, botId: string): (s: string)
  {
    if k.fromMe && botId != "" then botId
    else if k.fromMe && k.id != "" then HeadBefore(k.id, '_')
    else if k.participant != "" then k.participant
    else k.remoteJid
  }

  /**
    What the sender id depends on: another user's message is attributed to the
    participant, or else to the chat, whatever the key id and the bot id are;
    the key id only matters for own messages while the bot id is unknown.
   */
  lemma SenderIdSources(k: Key, botId: string, id2: string, botId2: string)
    ensures !k.fromMe ==> SenderId(k, botId) == SenderId(k.(id := id2), botId2)
    ensures !k.fromMe && k.participant == "" ==> SenderId(k, botId) == k.remoteJid
    ensures k.fromMe && botId != "" ==> SenderId(k, botId) == SenderId(k.(id := id2), botId)
    ensures k.fromMe && botId == "" && k.id != "" ==>
      '_' !in SenderId(k, botId) && StartsWith(k.id, SenderId(k, botId))
  {
  }

  /** `getMentionedIds(msg)`: the mentioned ids with the empty ones removed, in order. */
  function MentionedIds(mentions: seq<string>): (ids: seq<string>)
    ensures forall x :: x in ids <==> x in mentions && x != ""
    ensures |ids| <= |mentions|
  {
    if mentions == [] then []
    else (if mentions[0] != "" then [mentions[0]] else []) + MentionedIds(mentions[1..])
  }

  /** A mention list without empty entries comes back unchanged. */
  lemma {:induction false} MentionedIdsKeepsOrder(mentions: seq<string>)
    requires forall k :: 0 <= k < |mentions| ==> mentions[k] != ""
    ensures MentionedIds(mentions) == mentions
    decreases |mentions|
  {
    if mentions != [] {
      MentionedIdsKeepsOrder(mentions[1..]);
    }
  }

  // ---------------------------------------------------------------- normalisation and parsing

  /** Combining diacritics and the spacing accents U+00B4, '`', '^' and '~'. */
  predicate IsAccent(c: char) {
    ('\U{0300}' <= c <= '\U{036F}') || c == '\U{00B4}' || c == '`' || c == '^' || c == '~'
  }

  /** Zero-width spaces, joiners and the byte-order mark. */
  predicate IsInvisible(c: char) {
    ('\U{200B}' <= c <= '\U{200D}') || c == '\U{FEFF}' || c == '\U{2060}'
  }

  /** `s.replace(/[...]/g, "")` for the class `drop`. */
  function Strip(s: string, drop: char -> bool): (r: string)
    ensures forall i :: 0 <= i < |r| ==> !drop(r[i])
    ensures forall c :: c in r <==> c in s && !drop(c)
    ensures |r| <= |s|
  {
    if s == [] then []
    else (if drop(s[0]) then [] else [s[0]]) + Strip(s[1..], drop)
  }

  /** Text with nothing to drop passes through unchanged. */
  lemma {:induction false} StripNothing(s: string, drop: char -> bool)
    requires forall i :: 0 <= i < |s| ==> !drop(s[i])
    ensures Strip(s, drop) == s
    decreases |s|
  {
    if s != [] {
      StripNothing(s[1..], drop);
    }
  }

  /** The normalisation of the body: NFKC, accents and invisible characters removed, then trimmed. */
  function Normalize(body: string, nfkc: string -> string): (r: string)
    ensures Trimmed(r)
    ensures forall i :: 0 <= i < |r| ==> !IsAccent(r[i]) && !IsInvisible(r[i])
  {
    var s := Strip(Strip(nfkc(body), IsAccent), IsInvisible);
    var r := Trim(s);
    TrimmedFrom(s, r);
    r
  }

  /** Every character of a trim comes from the trimmed text. */
  lemma TrimmedFrom(s: string, r: string)
    requires r == Trim(s)
    ensures forall i :: 0 <= i < |r| ==> r[i] in s
  {
    var a := |s| - |TrimStart(s)|;
    TrimSurrounded(s);
    forall i | 0 <= i < |r|
      ensures r[i] in s
    {
      assert r[i] == s[a..a + |r|][i] == s[a + i];
    }
  }

  /** The command name, lower-cased, and the arguments as typed. */
  datatype Parsed = Parsed(name: string, args: seq<string>)

  /** Everything after the prefix character, trimmed: the `body` the command sees. */
  function CommandBody(normalized: string): (b: string)
    ensures Trimmed(b)
  {
    Trim(if normalized == [] then [] else normalized[1..])
  }

  /** `split(/\s+/)`, then the first piece lower-cased as the name and the rest as the arguments. */
  function Parse(normalized: string): (p: Parsed)
    ensures p.name == [] <==> CommandBody(normalized) == []
    ensures forall k :: 0 <= k < |p.args| ==> p.args[k] != [] && NoSpace(p.args[k])
  {
    var body := CommandBody(normalized);
    var pieces := SplitWs(body);
    FirstPieceOfTrimmed(body);
    PiecesOfTrimmed(body);
    Parsed(ToLower(pieces[0]), pieces[1..])
  }

  /** Splitting trimmed text leaves no empty piece after the first. */
  lemma PiecesOfTrimmed(s: string)
    requires Trimmed(s)
    ensures forall k :: 1 <= k < |SplitWs(s)| ==> SplitWs(s)[k] != []
  {
    if s != [] {
      assert !IsSpace(s[0]) && !IsSpace(s[|s| - 1]);
      SplitWsTail(s);
    }
  }

  /** After a first piece, the pieces of text that does not end in whitespace are never empty. */
  lemma {:induction false} SplitWsTail(s: string)
    requires s == [] || !IsSpace(s[|s| - 1])
    ensures forall k :: 1 <= k < |SplitWs(s)| ==> SplitWs(s)[k] != []
    decreases |s|
  {
    var i := SpaceFrom(s, 0);
    if i < |s| {
      var j := SpaceRunEnd(s, i);
      var rest := s[j..];
      assert SplitWs(s) == [s[..i]] + SplitWs(rest);
      if rest != [] {
        assert rest[|rest| - 1] == s[|s| - 1];
        assert !IsSpace(rest[0]);
        assert SpaceFrom(rest, 0) > 0;
        SplitWsTail(rest);
      }
    }
  }

  /**
    The parse of a command line typed as "$" and single-space separated words
    recovers the words: the first lower-cased as the name, the others as typed.
   */
  lemma ParseRecoversWords(ws: seq<string>)
    requires |ws| >= 1 && Words(ws)
    ensures Parse(COMMAND_PREFIX + Join(ws, " ")) == Parsed(ToLower(ws[0]), ws[1..])
  {
    var line := Join(ws, " ");
    assert (COMMAND_PREFIX + line)[1..] == line;
    JoinStartsWithFirst(ws, " ");
    JoinEndsWithLast(ws, " ");
    assert line[0] == ws[0][0];
    var last := ws[|ws| - 1];
    assert line[|line| - |last|..][|last| - 1] == line[|line| - 1];
    TrimNoop(line);
    SplitJoin(ws);
  }

  // ---------------------------------------------------------------- the command system

  /** The command system: absent until the first command arrives. */
  datatype System = Uninitialised | Ready(registry: Registry, checker: Permissions.Checker)

  /** Everything outside the handler that one call consults. */
  datatype World = World(
    botId: string,                      // `sock.user.id`, "" when absent
    now: int,                           // milliseconds
    nfkc: string -> string,
    saved: Option<seq<string>>,         // the admin list saved on disk, if readable
    dir: seq<string>,                   // the commands directory listing
    load: Loader,
    meta: Permissions.Metadata,         // the group-metadata lookup
    run: HandlerRun)                    // what the command's own handler does

  /**
    `initCommandSystem(sock)`: a checker with the saved admins and, when the
    bot's id is known, the host account; a registry holding every command file
    whose module exports a named command.
   */
  function Start(w: World): (sys: System)
    ensures sys.Ready? && Valid(sys.registry)
    ensures sys.checker.admins == (if w.saved.Some? then w.saved.value else [])
    ensures w.botId != "" ==> sys.checker.host == Permissions.CleanJid(w.botId)
    ensures w.botId == "" ==> sys.checker.host == ""
  {
    var p := Permissions.NewChecker(w.saved);
    var checker := if w.botId != "" then Permissions.SetHostAccount(p, w.botId) else p;
    EmptyIsValid();
    Ready(LoadAll(Empty, CommandFiles(w.dir), w.load).0, checker)
  }

  /** What the user is told about a registry result; `None` is no reply. */
  function ReplyFor(o: Outcome): (t: Option<string>)
    ensures t.Some? ==> t.value != ""
    ensures o.NotFound? ==> t == Some(NOT_FOUND)
    ensures o.Reply? ==> (t.Some? <==> o.text != "") && (t.Some? ==> t.value == o.text)
  {
    match o
    case NotFound => Some(NOT_FOUND)
    case Reply(text) => if text != "" then Some(text) else None
  }

  /**
    `commandHandler.execute(message, name, args)`: the caller's tier is looked
    up only once the name resolves, and only that lookup touches the checker.
   */
  function RunCommand(reg: Registry, checker: Permissions.Checker, caller: Permissions.Caller,
                      name: string, w: World): (res: (System, Outcome))
    ensures res.0.Ready?
    ensures Get(reg, name).None? ==> res == (Ready(reg, checker), NotFound)
    ensures Get(reg, name).Some? ==> res.1.Reply?
    ensures res.0.checker.host == checker.host && res.0.checker.admins == checker.admins
    ensures Valid(reg) ==> Valid(res.0.registry)
  {
    if Get(reg, name).None? then (Ready(reg, checker), NotFound)
    else
      var (tier, checker') := Permissions.GetUserType(checker, caller, w.now, w.meta);
      var (reg', out) := Execute(reg, caller.chatId, caller.senderId, name, tier, w.now, w.run);
      (Ready(reg', checker'), out)
  }

  /** What the handler did with one message. */
  datatype Reaction =
    | Ignored                          // returned before the command system was reached
    | Silent                           // dispatched, nothing to say
    | Replied(chatId: string, text: string)

  /** The text is a command line: non-empty and starting with the prefix. */
  predicate IsCommandText(body: string) {
    body != "" && StartsWith(body, COMMAND_PREFIX)
  }

  /** `handleMessage(msg, sock)` */
  function HandleMessage(sys: System, m: Incoming, w: World): (res: (System, Reaction))
    ensures res.1.Ignored? <==> Screened(m, w.now) || !IsCommandText(MessageBody(m.message.value))
    ensures res.1.Ignored? ==> res.0 == sys
    ensures !res.1.Ignored? ==> res.0.Ready?
    ensures sys.Ready? && !res.1.Ignored? ==>
      res.0.checker.host == sys.checker.host && res.0.checker.admins == sys.checker.admins
    ensures res.1.Replied? ==> res.1.chatId == ChatId(m) && res.1.text != ""
    ensures (sys.Uninitialised? || Valid(sys.registry)) && res.0.Ready? ==> Valid(res.0.registry)
  {
    if Screened(m, w.now) then (sys, Ignored)
    else
      var body := MessageBody(m.message.value);
      if !IsCommandText(body) then (sys, Ignored)
      else
        var ready := if sys.Ready? then sys else Start(w);
        var p := Parse(Normalize(body, w.nfkc));
        if p.name == "" then (ready, Replied(ChatId(m), EMPTY_COMMAND))
        else
          var caller := Permissions.Caller(SenderId(m.key, w.botId), m.key.fromMe, ChatId(m));
          var (sys', out) := RunCommand(ready.registry, ready.checker, caller, p.name, w);
          match ReplyFor(out)
          case None => (sys', Silent)
          case Some(text) => (sys', Replied(ChatId(m), text))
  }

  /**
    A command line with nothing after the prefix is answered with the prompt,
    and no command runs: the registry is the one the system already had.
   */
  lemma EmptyNameAsks(sys: System, m: Incoming, w: World)
    requires sys.Ready? && !Screened(m, w.now)
    requires MessageBody(m.message.value) == COMMAND_PREFIX && w.nfkc(COMMAND_PREFIX) == COMMAND_PREFIX
    ensures HandleMessage(sys, m, w) == (sys, Replied(ChatId(m), EMPTY_COMMAND))
  {
    assert IsCommandText(COMMAND_PREFIX);
    PrefixAloneHasNoName(w.nfkc);
  }

  /** The prefix on its own normalises to itself and parses to an empty name. */
  lemma PrefixAloneHasNoName(nfkc: string -> string)
    requires nfkc(COMMAND_PREFIX) == COMMAND_PREFIX
    ensures Parse(Normalize(COMMAND_PREFIX, nfkc)).name == ""
  {
    PrefixNormal(nfkc);
    PrefixBodyEmpty();
  }

  lemma PrefixNormal(nfkc: string -> string)
    requires nfkc(COMMAND_PREFIX) == COMMAND_PREFIX
    ensures Normalize(COMMAND_PREFIX, nfkc) == COMMAND_PREFIX
  {
    var s := COMMAND_PREFIX;
    calc {
      Normalize(s, nfkc);
      Trim(Strip(Strip(s, IsAccent), IsInvisible));
      { assert !IsAccent('$'); StripKeepsPrefix(IsAccent); }
      Trim(Strip(s, IsInvisible));
      { assert !IsInvisible('$'); StripKeepsPrefix(IsInvisible); }
      Trim(s);
      { PrefixTrimmed(); }
      s;
    }
  }

  lemma StripKeepsPrefix(drop: char -> bool)
    requires !drop('$')
    ensures Strip(COMMAND_PREFIX, drop) == COMMAND_PREFIX
  {
    assert COMMAND_PREFIX[1..] == [];
  }

  lemma PrefixTrimmed()
    ensures Trim(COMMAND_PREFIX) == COMMAND_PREFIX
  {
    assert !IsSpace('$');
    TrimNoop(COMMAND_PREFIX);
  }

  lemma PrefixBodyEmpty()
    ensures CommandBody(COMMAND_PREFIX) == []
  {
    assert COMMAND_PREFIX[1..] == [];
    assert AllSpace([]);
  }

  /**
    A name the registry cannot resolve is answered with the not-found text
    without looking up the caller's tier, so the checker's cache is untouched.
   */
  lemma UnknownNameNotFound(sys: System, m: Incoming, w: World)
    requires sys.Ready? && !Screened(m, w.now) && IsCommandText(MessageBody(m.message.value))
    requires var p := Parse(Normalize(MessageBody(m.message.value), w.nfkc));
      p.name != "" && Get(sys.registry, p.name).None?
    ensures HandleMessage(sys, m, w) == (sys, Replied(ChatId(m), NOT_FOUND))
  {
  }

  /** A handler that returns an empty text, once admitted, produces no reply. */
  lemma EmptyResultIsSilent(sys: System, m: Incoming, w: World)
    requires sys.Ready? && !Screened(m, w.now) && IsCommandText(MessageBody(m.message.value))
    requires var p := Parse(Normalize(MessageBody(m.message.value), w.nfkc));
      p.name != "" && Get(sys.registry, p.name).Some?
    requires w.run == Returns("")
    requires var p := Parse(Normalize(MessageBody(m.message.value), w.nfkc));
      var caller := Permissions.Caller(SenderId(m.key, w.botId), m.key.fromMe, ChatId(m));
      var tier := Permissions.GetUserType(sys.checker, caller, w.now, w.meta).0;
      Check(Get(sys.registry, p.name).value, ChatId(m), caller.senderId, tier, w.now).Admitted?
    ensures HandleMessage(sys, m, w).1 == Silent
  {
  }

  /** The first command starts the system; later messages find it started and never reload the files. */
  lemma StartsOnFirstCommand(m: Incoming, w: World)
    requires !Screened(m, w.now) && IsCommandText(MessageBody(m.message.value))
    ensures HandleMessage(Uninitialised, m, w).0.Ready?
    ensures var p := Parse(Normalize(MessageBody(m.message.value), w.nfkc));
      p.name == "" ==> HandleMessage(Uninitialised, m, w).0 == Start(w)
  {
  }
}
