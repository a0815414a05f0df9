/**
  A command descriptor as `createCommand` builds it: the options merged over the
  defaults, and the execute wrapper that admits a call only after three checks in
  a fixed order (permission, chat type, per-sender cooldown) and stamps the
  sender's cooldown before the handler runs.

  Time is an explicit `now` in milliseconds. The source deletes a cooldown entry
  with a timer after `cooldown` seconds; here the entry stays and is compared
  against `now` when it is read, which gives the same verdict as the strict
  comparison in the source.
 */
module Command {
  import opened Wrappers
  import opened JsString

  const USER := "user"
  const ADMIN := "admin"
  const SUPER_USER := "super-user"

  /** The suffix of a group chat id. */
  const GROUP_SUFFIX := "@g.us"

  const DEFAULT_PERMISSIONS: seq<string> := [USER]
  const DEFAULT_CATEGORY := "general"
  const DEFAULT_CHAT_TYPE := "both"

  /** The options given to `createCommand`; `None` is a field the caller left out. */
  datatype Options = Options(
    aliases: Option<seq<string>>,
    cooldown: Option<int>,
    description: Option<string>,
    permissions: Option<seq<string>>,
    category: Option<string>,
    chatType: Option<string>,
    example: Option<string>)

  const NoOptions := Options(None, None, None, None, None, None, None)

  /**
    A frozen descriptor. `cooldown` is in seconds; `stamps` is the descriptor's
    private cooldown table, sender id to the time (ms) of that sender's last
    admitted call.
   */
  datatype Command = Command(
    name: string,
    aliases: seq<string>,
    description: string,
    cooldown: int,
    permissions: seq<string>,
    category: string,
    chatType: string,
    example: string,
    stamps: map<string, int>)

  /** `createCommand(name, fn, options)`: every option given overrides its default, field by field. */
  function CreateCommand(name: string, opts: Options): (c: Command)
    ensures c.name == name && c.stamps == map[]
    ensures c.aliases == (if opts.aliases.Some? then opts.aliases.value else [])
    ensures c.cooldown == (if opts.cooldown.Some? then opts.cooldown.value else 0)
    ensures c.description == (if opts.description.Some? then opts.description.value else "")
    ensures c.permissions == (if opts.permissions.Some? then opts.permissions.value else DEFAULT_PERMISSIONS)
    ensures c.category == (if opts.category.Some? then opts.category.value else DEFAULT_CATEGORY)
    ensures c.chatType == (if opts.chatType.Some? then opts.chatType.value else DEFAULT_CHAT_TYPE)
    ensures c.example == (if opts.example.Some? then opts.example.value else "")
  {
    Command(name,
            opts.aliases.GetOr([]),
            opts.description.GetOr(""),
            opts.cooldown.GetOr(0),
            opts.permissions.GetOr(DEFAULT_PERMISSIONS),
            opts.category.GetOr(DEFAULT_CATEGORY),
            opts.chatType.GetOr(DEFAULT_CHAT_TYPE),
            opts.example.GetOr(""),
            map[])
  }

  /** A command created without options is a user-level command for every chat, with no cooldown. */
  lemma DefaultDescriptor(name: string)
    ensures var c := CreateCommand(name, NoOptions);
      && c.aliases == [] && c.cooldown == 0 && c.permissions == ["user"]
      && c.category == "general" && c.chatType == "both" && c.stamps == map[]
  {
  }

  predicate IsGroupChat(chatId: string) {
    EndsWith(chatId, GROUP_SUFFIX)
  }

  /** `checkChatType`: only the values "group" and "private" restrict anything. */
  predicate ChatTypeAllows(chatType: string, chatId: string) {
    if chatType == "both" then true
    else if chatType == "group" then IsGroupChat(chatId)
    else if chatType == "private" then !IsGroupChat(chatId)
    else true
  }

  /** `checkCooldown`: a stamp of 0 is falsy in the source and counts as no stamp. */
  predicate CooldownPasses(c: Command, sender: string, now: int) {
    if c.cooldown <= 0 then true
    else if sender !in c.stamps || c.stamps[sender] == 0 then true
    else now - c.stamps[sender] > c.cooldown * 1000
  }

  /** `setCooldown`: only a positive cooldown records anything. */
  function Stamp(c: Command, sender: string, now: int): Command {
    if c.cooldown > 0 then c.(stamps := c.stamps[sender := now]) else c
  }

  /** Seconds left, `Math.ceil((stamp + cooldown*1000 - now) / 1000)`, for a blocked sender. */
  function Remaining(c: Command, sender: string, now: int): (r: nat)
    requires !CooldownPasses(c, sender, now)
    ensures var left := c.stamps[sender] + c.cooldown * 1000 - now;
      (r - 1) * 1000 < left <= r * 1000
    ensures now >= c.stamps[sender] ==> r <= c.cooldown
  {
    var left := c.stamps[sender] + c.cooldown * 1000 - now;
    (left + 999) / 1000
  }

  function RequiresMessage(permissions: seq<string>, tier: string): string {
    "\U{1F6AB} Requires: " + Join(permissions, " or ") + " (you are: " + tier + ")"
  }

  function WrongChatMessage(chatType: string): string {
    var allowedIn :=
      if chatType == "both" then "groups and private chats"
      else if chatType == "group" then "groups only"
      else "private chats only";
    "\U{26A0}\U{FE0F} This command works in " + allowedIn
  }

  function WaitMessage(seconds: nat): string {
    "\U{23F3} Wait " + NatToString(seconds) + "s before using again"
  }

  /** The outcome of the execute wrapper's checks. */
  datatype Gate =
    | Rejected(message: string)   // the error the wrapper throws; the handler does not run
    | Admitted(stamped: Command)   // the handler runs; `stamped` carries the recorded cooldown

  /** The checks of `execute`, in the source's order: permission, chat type, cooldown. */
  function Check(c: Command, chatId: string, sender: string, tier: string, now: int): (g: Gate)
    ensures tier !in c.permissions ==> g == Rejected(RequiresMessage(c.permissions, tier))
    ensures tier in c.permissions && !ChatTypeAllows(c.chatType, chatId) ==>
      g == Rejected(WrongChatMessage(c.chatType))
    ensures g.Admitted? <==>
      tier in c.permissions && ChatTypeAllows(c.chatType, chatId) && CooldownPasses(c, sender, now)
    ensures g.Admitted? ==> g.stamped == Stamp(c, sender, now)
  {
    if tier !in c.permissions then Rejected(RequiresMessage(c.permissions, tier))
    else if !ChatTypeAllows(c.chatType, chatId) then Rejected(WrongChatMessage(c.chatType))
    else if !CooldownPasses(c, sender, now) then Rejected(WaitMessage(Remaining(c, sender, now)))
    else Admitted(Stamp(c, sender, now))
  }

  /**
    An admitted call changes only the caller's own cooldown entry: the metadata and
    every other sender's stamp stay as they were, and with no positive cooldown
    nothing is recorded at all.
   */
  lemma AdmitStampsOnlyCaller(c: Command, chatId: string, sender: string, tier: string, now: int)
    requires Check(c, chatId, sender, tier, now).Admitted?
    ensures var d := Check(c, chatId, sender, tier, now).stamped;
      && d.(stamps := c.stamps) == c
      && (c.cooldown > 0 ==> sender in d.stamps && d.stamps[sender] == now)
      && (c.cooldown <= 0 ==> d.stamps == c.stamps)
      && (forall u :: u != sender ==> (u in d.stamps <==> u in c.stamps))
      && (forall u :: u != sender && u in c.stamps ==> d.stamps[u] == c.stamps[u])
  {
  }

  /** With no positive cooldown the cooldown check never blocks anybody. */
  lemma NoCooldownNeverBlocks(c: Command, sender: string, now: int)
    requires c.cooldown <= 0
    ensures CooldownPasses(c, sender, now)
  {
  }

  /**
    A cooldown of N > 0 seconds admitted at time t blocks the same sender, for the
    same command, at every time up to and including t + N*1000 with a countdown
    of at most N seconds, and admits them again once that moment has passed.
   */
  lemma CooldownCycle(c: Command, chatId: string, sender: string, tier: string, t: int, t2: int)
    requires c.cooldown > 0 && t > 0
    requires Check(c, chatId, sender, tier, t).Admitted?
    ensures var d := Check(c, chatId, sender, tier, t).stamped;
      && (t <= t2 <= t + c.cooldown * 1000 ==>
            !CooldownPasses(d, sender, t2)
            && Remaining(d, sender, t2) <= c.cooldown
            && Check(d, chatId, sender, tier, t2) == Rejected(WaitMessage(Remaining(d, sender, t2))))
      && (t2 > t + c.cooldown * 1000 ==> Check(d, chatId, sender, tier, t2).Admitted?)
  {
    var d := Check(c, chatId, sender, tier, t).stamped;
    assert d.stamps[sender] == t;
    assert d.permissions == c.permissions && d.chatType == c.chatType && d.cooldown == c.cooldown;
  }
}
