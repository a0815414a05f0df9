/**
  The `$admin` command: `$admin list` tells callers their tier and what it lets
  them do, and `$admin promote <user>` acknowledges a promotion for a
  super-user (the acknowledgement changes no state: the admin list of the
  permission resolver is not touched).
 */
module Admin {
  import opened Wrappers
  import opened JsString
  import opened Command

  const USAGE := "Usage: $admin list | (super-user: $admin promote @user)"
  const NEED_TARGET := "Please mention someone to promote"
  const MANAGE := "Manage everything"
  const MODERATE := "Moderate groups"

  datatype AdminReply =
    | Status(tier: string)       // `$admin list`
    | NeedTarget                 // `promote` without a target
    | Promoted(target: string)
    | Usage

  /**
    `const [action, ...params] = args` followed by the three branches. A missing
    argument is the empty string, which the source's truthiness tests treat as
    absent.
   */
  function Run(tier: string, args: seq<string>): (rep: AdminReply)
    ensures |args| > 0 && args[0] == "list" <==> rep.Status?
    ensures rep.Status? ==> rep.tier == tier
    ensures rep.Promoted? || rep.NeedTarget? <==> |args| > 0 && args[0] == "promote" && tier == SUPER_USER
    ensures rep.Promoted? ==> |args| > 1 && rep.target == args[1] && args[1] != ""
    ensures rep.NeedTarget? ==> |args| < 2 || args[1] == ""
  {
    var action := if |args| > 0 then args[0] else "";
    var target := if |args| > 1 then args[1] else "";
    if action == "list" then Status(tier)
    else if action == "promote" && tier == SUPER_USER then
      if target == "" then NeedTarget else Promoted(target)
    else Usage
  }

  /** What `$admin list` says a tier may do. */
  function Capability(tier: string): string {
    if tier == SUPER_USER then MANAGE else MODERATE
  }

  function ReplyText(rep: AdminReply): string {
    match rep
    case Status(tier) => "\U{1F451} You are: " + tier + "\nAvailable to: " + Capability(tier)
    case NeedTarget => NEED_TARGET
    case Promoted(target) => "\U{2705} Promoted " + target + " to admin"
    case Usage => USAGE
  }

  /**
    The status reply names the caller's tier, and its capability line is
    "Manage everything" exactly for a super-user: every other tier, admin or
    user alike, is told "Moderate groups".
   */
  lemma StatusNamesTier(tier: string)
    ensures StartsWith(ReplyText(Run(tier, ["list"])), "\U{1F451} You are: " + tier + "\n")
    ensures EndsWith(ReplyText(Run(tier, ["list"])), MANAGE) <==> tier == SUPER_USER
    ensures EndsWith(ReplyText(Run(tier, ["list"])), MODERATE) <==> tier != SUPER_USER
  {
    var t := ReplyText(Run(tier, ["list"]));
    var head := "\U{1F451} You are: " + tier + "\nAvailable to: ";
    assert t == head + Capability(tier);
    assert t[..|"\U{1F451} You are: " + tier + "\n"|] == "\U{1F451} You are: " + tier + "\n";
    assert t[|t| - 1] == Capability(tier)[|Capability(tier)| - 1];
    if tier == SUPER_USER {
      assert t[|t| - |MANAGE|..] == MANAGE;
      assert MANAGE[|MANAGE| - 1] != MODERATE[|MODERATE| - 1];
    } else {
      assert t[|t| - |MODERATE|..] == MODERATE;
      assert MANAGE[|MANAGE| - 1] != MODERATE[|MODERATE| - 1];
    }
  }

  /** A promotion is only ever acknowledged to a super-user; anyone else asking gets the usage text. */
  lemma PromoteNeedsSuperUser(tier: string, target: string)
    ensures tier == SUPER_USER && target != "" ==> Run(tier, ["promote", target]) == Promoted(target)
    ensures tier == SUPER_USER ==> Run(tier, ["promote"]) == NeedTarget
    ensures tier != SUPER_USER ==> ReplyText(Run(tier, ["promote", target])) == USAGE
  {
  }

  /**
    Only the action and the first parameter are read: words after them change
    nothing, and a missing word acts like an empty one.
   */
  lemma OnlyTwoWordsRead(tier: string, args: seq<string>, more: seq<string>)
    ensures |args| >= 2 ==> Run(tier, args + more) == Run(tier, args)
    ensures Run(tier, []) == Run(tier, [""]) && Run(tier, ["promote"]) == Run(tier, ["promote", ""])
  {
    if |args| >= 2 {
      assert (args + more)[0] == args[0] && (args + more)[1] == args[1];
    }
  }

  /** The `$admin` descriptor: admins and super-users, in any chat, with a 5 s cooldown and no aliases. */
  const ADMIN_COMMAND: Command := CreateCommand("admin", Options(
    None,
    Some(5),
    Some("Admin management commands"),
    Some([ADMIN, SUPER_USER]),
    Some("administration"),
    Some("both"),
    Some("$admin list")))

  /**
    The execute wrapper turns a plain user away before the handler runs, so a
    user never sees the status reply; admins and super-users pass the
    permission and chat checks in every chat.
   */
  lemma AdminGate(chatId: string, sender: string, now: int)
    ensures ADMIN_COMMAND.aliases == [] && ADMIN_COMMAND.cooldown == 5
    ensures Check(ADMIN_COMMAND, chatId, sender, USER, now) == Rejected(RequiresMessage([ADMIN, SUPER_USER], USER))
    ensures Check(ADMIN_COMMAND, chatId, sender, ADMIN, now).Admitted?
    ensures Check(ADMIN_COMMAND, chatId, sender, SUPER_USER, now).Admitted?
  {
  }
}
