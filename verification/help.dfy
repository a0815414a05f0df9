/**
  The `$help` command: with a query, the description of the command it names
  (through aliases) or, failing that, the caller's listing; without one, the
  caller's whole listing with its total.

  Replies are modelled by their content. The texts of the two refusals and of
  the not-found notice are given in full; the layout of the command card and of
  the overview is not.
 */
module Help {
  import opened Wrappers
  import opened JsString
  import opened Command
  import opened Registry
  import Grouping
  import List

  /** The refusal for a caller whose tier the command does not list. */
  function NeedPermissionText(permissions: seq<string>): string {
    "\U{1F6AB} You need " + Join(permissions, " or ") + " permissions"
  }

  /** The refusal for a command asked about in a chat it does not serve. */
  function WrongChatText(chatType: string): string {
    "\U{26A0}\U{FE0F} This command works in " + chatType + " only"
  }

  datatype HelpReply =
    | NeedPermission(permissions: seq<string>)
    | WrongChat(chatType: string)
    | Details(info: Info, category: string)                                 // the command card
    | Unknown(query: string, available: seq<(string, seq<Info>)>)         // followed by the available list
    | NothingAvailable
    | Overview(groups: seq<(string, seq<Info>)>, total: nat)

  /**
    The chat check of `$help`: the command's chat type must be "both" or the
    type of this chat, "group" or "private".
   */
  predicate HelpChatAllows(chatType: string, chatId: string) {
    chatType == "both" || chatType == List.ChatTypeOf(chatId)
  }

  /**
    For the three chat types the descriptors use, `$help` and the execute
    wrapper agree; any other chat type is allowed everywhere by the wrapper but
    reported by `$help` as working only in that (nonexistent) kind of chat.
   */
  lemma HelpChatCheck(chatType: string, chatId: string)
    ensures HelpChatAllows(chatType, chatId) ==> ChatTypeAllows(chatType, chatId)
    ensures chatType in {"both", "group", "private"} ==>
      (HelpChatAllows(chatType, chatId) <==> ChatTypeAllows(chatType, chatId))
    ensures chatType !in {"both", "group", "private"} ==>
      !HelpChatAllows(chatType, chatId) && ChatTypeAllows(chatType, chatId)
  {
  }

  /** The text after "Available commands:": one line per category naming its commands. */
  function AvailableText(gs: seq<(string, seq<Info>)>): string {
    if gs == [] then ""
    else "*" + gs[0].0 + ":* " + Join(CommandTags(gs[0].1), ", ") + "\n" + AvailableText(gs[1..])
  }

  /** `` `$name` `` for each entry. */
  function CommandTags(es: seq<Info>): (ts: seq<string>)
    ensures |ts| == |es|
    ensures forall j :: 0 <= j < |es| ==> ts[j] == "`$" + es[j].name + "`"
  {
    if es == [] then [] else ["`$" + es[0].name + "`"] + CommandTags(es[1..])
  }

  /** The available list mentions every command of the listing. */
  lemma {:induction false} AvailableMentionsAll(gs: seq<(string, seq<Info>)>, i: nat, j: nat)
    requires i < |gs| && j < |gs[i].1|
    ensures Includes(AvailableText(gs), "`$" + gs[i].1[j].name + "`")
    decreases |gs|
  {
    var tag := "`$" + gs[i].1[j].name + "`";
    var head := "*" + gs[0].0 + ":* ";
    var line := Join(CommandTags(gs[0].1), ", ");
    var rest := AvailableText(gs[1..]);
    assert AvailableText(gs) == head + line + ("\n" + rest);
    if i == 0 {
      JoinIncludes(CommandTags(gs[0].1), ", ", j);
      IncludesInfix(head, line, "\n" + rest, tag);
    } else {
      AvailableMentionsAll(gs[1..], i - 1, j);
      IncludesInfix(head + line + "\n", rest, "", tag);
      assert head + line + "\n" + rest + "" == AvailableText(gs);
    }
  }

  /** The whole not-found reply. */
  function NotFoundText(query: string, gs: seq<(string, seq<Info>)>): string {
    "Command \"" + query + "\" not found.\n\nAvailable commands:\n" + AvailableText(gs)
  }

  /**
    `totalCommands += commands.length` over the categories, front to back, as the
    overview loop counts.
   */
  method CountCommands(gs: seq<(string, seq<Info>)>) returns (total: nat)
    ensures total == Grouping.Total(gs)
  {
    total := 0;
    var i := 0;
    while i < |gs|
      invariant 0 <= i <= |gs|
      invariant total == Grouping.Total(gs[..i])
    {
      assert gs[..i + 1][..i] == gs[..i];
      total := total + |gs[i].1|;
      i := i + 1;
    }
    assert gs[..|gs|] == gs;
  }

  /** `$help [query]` for a caller of tier `tier` in chat `chatId`. */
  function Run(r: Registry, chatId: string, tier: string, args: seq<string>): (rep: HelpReply)
    ensures (|args| == 0 || args[0] == "") ==>
      (rep.NothingAvailable? <==> ListForUser(r, tier, List.ChatTypeOf(chatId)) == [])
    ensures (|args| == 0 || args[0] == "") && !rep.NothingAvailable? ==>
      rep == Overview(ListForUser(r, tier, List.ChatTypeOf(chatId)),
                      Grouping.Total(ListForUser(r, tier, List.ChatTypeOf(chatId))))
    ensures |args| > 0 && args[0] != "" && Get(r, args[0]).None? ==>
      rep == Unknown(args[0], ListForUser(r, tier, List.ChatTypeOf(chatId)))
    ensures |args| > 0 && args[0] != "" && Get(r, args[0]).Some? ==>
      var c := Get(r, args[0]).value;
      && (tier !in c.permissions ==> rep == NeedPermission(c.permissions))
      && (tier in c.permissions && !HelpChatAllows(c.chatType, chatId) ==> rep == WrongChat(c.chatType))
      && (rep.Details? <==> tier in c.permissions && HelpChatAllows(c.chatType, chatId))
      && (rep.Details? ==> rep.info == InfoOf(c) && rep.category == c.category)
  {
    var chatType := List.ChatTypeOf(chatId);
    if |args| > 0 && args[0] != "" then
      match Get(r, args[0])
      case Some(c) =>
        if tier !in c.permissions then NeedPermission(c.permissions)
        else if c.chatType != "both" && c.chatType != chatType then WrongChat(c.chatType)
        else Details(InfoOf(c), c.category)
      case None => Unknown(args[0], ListForUser(r, tier, chatType))
    else
      var gs := ListForUser(r, tier, chatType);
      if gs == [] then NothingAvailable else Overview(gs, Grouping.Total(gs))
  }

  /** The text of the replies that are single lines of text. */
  function ReplyText(rep: HelpReply): (t: Option<string>)
    ensures t.Some? <==> !rep.Details? && !rep.Overview?
  {
    match rep
    case NeedPermission(ps) => Some(NeedPermissionText(ps))
    case WrongChat(ct) => Some(WrongChatText(ct))
    case Unknown(q, gs) => Some(NotFoundText(q, gs))
    case NothingAvailable => Some(List.NOTHING_AVAILABLE)
    case _ => None
  }

  /**
    `$help` describes exactly the commands the caller's listing would show: a
    query that resolves gives the card when the command is eligible for the
    caller's tier and chat type, and a refusal otherwise.
   */
  lemma DetailsIffListed(r: Registry, chatId: string, tier: string, q: string)
    requires q != "" && Get(r, q).Some?
    ensures var c := Get(r, q).value;
      Run(r, chatId, tier, [q]).Details? <==> Eligible(c, tier, List.ChatTypeOf(chatId))
  {
  }

  /** A query by alias describes the command the alias was registered for. */
  lemma AliasDescribesCommand(r: Registry, c: Command, a: string, chatId: string, tier: string)
    requires c.name != "" && a != "" && a in c.aliases
    requires tier in c.permissions && HelpChatAllows(c.chatType, chatId)
    ensures Run(Register(r, c), chatId, tier, [a]) == Details(InfoOf(c), c.category)
  {
    RegisterThenGet(r, c);
  }

  /** The permission refusal comes first, even when the chat type would refuse too. */
  lemma PermissionBeforeChat(r: Registry, chatId: string, tier: string, q: string)
    requires q != "" && Get(r, q).Some?
    requires tier !in Get(r, q).value.permissions && !HelpChatAllows(Get(r, q).value.chatType, chatId)
    ensures ReplyText(Run(r, chatId, tier, [q])) == Some(NeedPermissionText(Get(r, q).value.permissions))
  {
  }

  /** The overview's crown: permissions with super-user and without user. */
  predicate Crown(permissions: seq<string>) {
    SUPER_USER in permissions && USER !in permissions
  }

  /**
    The two listings crown differently: every command `$list` crowns is crowned
    here, but a command for admins and super-users is crowned here only.
   */
  lemma CrownsDiffer(permissions: seq<string>)
    ensures List.ListCrown(permissions) ==> Crown(permissions)
    ensures Crown([ADMIN, SUPER_USER]) && !List.ListCrown([ADMIN, SUPER_USER])
  {
  }

  /** The `$help` descriptor: open to every tier in every chat, aliases h and commands. */
  const HELP: Command := CreateCommand("help", Options(
    Some(["h", "commands"]),
    None,
    Some("Show help for commands"),
    Some([USER, ADMIN, SUPER_USER]),
    Some("general"),
    Some("both"),
    Some("$help | $help ping")))

  /**
    `$help` and `$list` both claim the alias "commands". Registered in that
    order, as a listing in name order loads them, the alias leads to `$list`,
    while "help" itself still finds `$help`.
   */
  lemma CommandsAliasGoesToList(r: Registry)
    requires "help" !in r.aliases
    ensures Get(Register(Register(r, HELP), List.LIST), "commands") == Some(List.LIST)
    ensures Get(Register(Register(r, HELP), List.LIST), "help") == Some(HELP)
  {
    AliasLastWriterWins(r, HELP, List.LIST, "commands");
  }
}
