/**
  The `$list` command: the caller's listing from `listForUser`, optionally
  narrowed by a filter given as `$list <type> [value]`, or the categories with
  their sizes for `$list category`.

  The reply is modelled by its content (which groups and entries it shows, and
  the total it reports); the decoration of the text is not. The filtered
  entries are regrouped by category in the source; as the categories of the
  listing are distinct and in first-seen order, that regrouping gives the
  surviving part of each group, in order, which is how it is written here.
 */
module List {
  import opened Wrappers
  import opened JsString
  import opened Command
  import opened Registry
  import Grouping

  const NOTHING_AVAILABLE := "No commands available for you."
  const UNKNOWN_FILTER := "\U{274C} Unknown filter type. Available: category, permission, cooldown, chat, name\n\n"

  datatype Filter = ByCategory | ByPermission | ByCooldown | ByChat | ByName | UnknownFilter

  /** The `switch (filterType.toLowerCase())` of the source. */
  function FilterOf(filterType: string): (f: Filter)
  {
    var t := ToLower(filterType);
    if t == "category" || t == "cat" then ByCategory
    else if t == "permission" || t == "perm" then ByPermission
    else if t == "cooldown" then ByCooldown
    else if t == "chat" || t == "chattype" then ByChat
    else if t == "name" then ByName
    else UnknownFilter
  }

  /** Lower-casing twice is lower-casing once. */
  lemma LowerIdempotent(s: string)
    ensures ToLower(ToLower(s)) == ToLower(s)
  {
  }

  /** The filter type is read without regard to case. */
  lemma FilterTypeIgnoresCase(filterType: string)
    ensures FilterOf(ToLower(filterType)) == FilterOf(filterType)
  {
    LowerIdempotent(filterType);
  }

  /** Lower-case text is its own lower case. */
  lemma LowerOfLower(s: string)
    requires forall i :: 0 <= i < |s| ==> !('A' <= s[i] <= 'Z')
    ensures ToLower(s) == s
  {
  }

  /** The words of the switch select their filters; "foo" is not one of them. */
  lemma FilterWords()
    ensures FilterOf("category") == ByCategory && FilterOf("cat") == ByCategory
    ensures FilterOf("foo") == UnknownFilter
  {
    LowerOfLower("category");
    LowerOfLower("cat");
    LowerOfLower("foo");
  }

  /** `field.toLowerCase().includes(value.toLowerCase())` */
  predicate TextMatches(field: string, value: string) {
    Includes(ToLower(field), ToLower(value))
  }

  predicate AnyMatches(fields: seq<string>, value: string) {
    exists k :: 0 <= k < |fields| && TextMatches(fields[k], value)
  }

  /** The cooldown filter: a number is a lower bound; otherwise only "none" and "any" mean anything. */
  predicate CooldownKeeps(cooldown: int, value: string) {
    match ParseInt(value)
    case Some(v) => cooldown >= v
    case None => (value == "none" && cooldown == 0) || (value == "any" && cooldown > 0)
  }

  /** Whether the filter keeps a command listed under `category`; "" is a missing value. */
  predicate Keep(f: Filter, value: string, category: string, e: Info) {
    if f.UnknownFilter? then false
    else if value == "" then true
    else match f
      case ByCategory => TextMatches(category, value)
      case ByPermission => AnyMatches(e.permissions, value)
      case ByCooldown => CooldownKeeps(e.cooldown, value)
      case ByChat => TextMatches(e.chatType, value)
      case ByName => TextMatches(e.name, value) || AnyMatches(e.aliases, value)
      case UnknownFilter => false
  }

  /**
    The text filters ignore the case of the value; the cooldown filter does
    not, so "NONE" is not "none".
   */
  lemma TextFiltersIgnoreCase(f: Filter, value: string, category: string, e: Info)
    requires f != ByCooldown
    ensures Keep(f, ToLower(value), category, e) == Keep(f, value, category, e)
  {
    LowerIdempotent(value);
  }

  /** The three kinds of cooldown value, for a listed command with cooldown `cd`. */
  lemma CooldownValues(cd: int, n: nat)
    ensures CooldownKeeps(cd, NatToString(n)) <==> cd >= n
    ensures CooldownKeeps(cd, "none") <==> cd == 0
    ensures CooldownKeeps(cd, "any") <==> cd > 0
  {
    ParseIntOfNatToString(n);
    NoNumber("none");
    NoNumber("any");
  }

  /** A value that starts with a letter has no number in it for `parseInt`. */
  lemma NoNumber(s: string)
    requires s != [] && 'a' <= s[0] <= 'z'
    ensures ParseInt(s).None?
  {
    assert !IsSpace(s[0]);
    assert TrimStart(s) == s;
    assert LeadingDigits(s) == [];
  }

  /** The entries of one group that the filter keeps, in order. */
  function KeepIn(category: string, es: seq<Info>, f: Filter, value: string): (ks: seq<Info>)
    ensures forall j :: 0 <= j < |ks| ==> Keep(f, value, category, ks[j])
    ensures forall e :: e in ks <==> e in es && Keep(f, value, category, e)
    ensures |ks| <= |es|
  {
    if es == [] then []
    else (if Keep(f, value, category, es[0]) then [es[0]] else []) + KeepIn(category, es[1..], f, value)
  }

  /**
    Keeping works piecewise: what is kept from two runs of entries is what is
    kept from the first followed by what is kept from the second, so the kept
    entries stay in their listed order.
   */
  lemma {:induction false} KeepInAppend(category: string, es1: seq<Info>, es2: seq<Info>, f: Filter, value: string)
    ensures KeepIn(category, es1 + es2, f, value) == KeepIn(category, es1, f, value) + KeepIn(category, es2, f, value)
    decreases |es1|
  {
    if es1 == [] {
      assert es1 + es2 == es2;
    } else {
      assert (es1 + es2)[0] == es1[0];
      assert (es1 + es2)[1..] == es1[1..] + es2;
      KeepInAppend(category, es1[1..], es2, f, value);
    }
  }

  /** The number of commands the filter keeps (`filteredCommands.length`). */
  function KeptCount(gs: seq<(string, seq<Info>)>, f: Filter, value: string): nat {
    if gs == [] then 0
    else KeptCount(gs[..|gs| - 1], f, value) + |KeepIn(gs[|gs| - 1].0, gs[|gs| - 1].1, f, value)|
  }

  /** The filtered listing: each group cut down to what the filter keeps, empty groups dropped. */
  function FilterGroups(gs: seq<(string, seq<Info>)>, f: Filter, value: string): (r: seq<(string, seq<Info>)>)
    ensures Grouping.NonEmptyGroups(r)
    ensures forall i, j :: 0 <= i < |r| && 0 <= j < |r[i].1| ==> Keep(f, value, r[i].0, r[i].1[j])
    ensures Grouping.Total(r) == KeptCount(gs, f, value)
    ensures |r| <= |gs|
  {
    if gs == [] then []
    else
      var init := FilterGroups(gs[..|gs| - 1], f, value);
      var last := gs[|gs| - 1];
      var ks := KeepIn(last.0, last.1, f, value);
      if ks == [] then init
      else
        var r := init + [(last.0, ks)];
        assert r[..|r| - 1] == init;
        r
  }

  /** An entry kept from one group entirely: without a value a known filter keeps everything. */
  lemma {:induction false} KeepInAll(category: string, es: seq<Info>, f: Filter)
    requires f != UnknownFilter
    ensures KeepIn(category, es, f, "") == es
    decreases |es|
  {
    if es != [] {
      KeepInAll(category, es[1..], f);
    }
  }

  /** A known filter without a value gives back the whole listing. */
  lemma {:induction false} EmptyValueKeepsAll(gs: seq<(string, seq<Info>)>, f: Filter)
    requires f != UnknownFilter && Grouping.NonEmptyGroups(gs)
    ensures FilterGroups(gs, f, "") == gs
    decreases |gs|
  {
    if gs != [] {
      var n := |gs| - 1;
      assert Grouping.NonEmptyGroups(gs[..n]);
      EmptyValueKeepsAll(gs[..n], f);
      KeepInAll(gs[n].0, gs[n].1, f);
      assert gs[..n] + [(gs[n].0, gs[n].1)] == gs;
    }
  }

  lemma {:induction false} UnknownKeepsNoneIn(category: string, es: seq<Info>, value: string)
    ensures KeepIn(category, es, UnknownFilter, value) == []
    decreases |es|
  {
    if es != [] {
      UnknownKeepsNoneIn(category, es[1..], value);
    }
  }

  /** An unknown filter type keeps nothing. */
  lemma {:induction false} UnknownKeepsNothing(gs: seq<(string, seq<Info>)>, value: string)
    ensures FilterGroups(gs, UnknownFilter, value) == []
    decreases |gs|
  {
    if gs != [] {
      UnknownKeepsNothing(gs[..|gs| - 1], value);
      UnknownKeepsNoneIn(gs[|gs| - 1].0, gs[|gs| - 1].1, value);
    }
  }

  /**
    The notices an unknown filter type adds as written: the line is appended
    inside the loop over the listed commands, so once per command.
   */
  function UnknownNoticesAsWritten(gs: seq<(string, seq<Info>)>, f: Filter): (n: nat)
    ensures f.UnknownFilter? ==> n == Grouping.Total(gs)
    ensures !f.UnknownFilter? ==> n == 0
  {
    if f.UnknownFilter? then Grouping.Total(gs) else 0
  }

  /** The notices an unknown filter type evidently should add: one. */
  function UnknownNotices(f: Filter): (n: nat)
    ensures n <= 1 && (n == 1 <==> f.UnknownFilter?)
  {
    if f.UnknownFilter? then 1 else 0
  }

  /** With three commands listed, `$list foo` repeats the notice three times as written, once as intended. */
  lemma NoticeRepeats(a: Info, b: Info, c: Info)
    ensures UnknownNoticesAsWritten([("general", [a, b]), ("tools", [c])], FilterOf("foo")) == 3
    ensures UnknownNotices(FilterOf("foo")) == 1
  {
    var gs := [("general", [a, b]), ("tools", [c])];
    assert gs[..1] == [("general", [a, b])];
    assert gs[..1][..0] == [];
    assert Grouping.Total(gs[..1]) == 2;
    FilterWords();
  }

  /** What `$list` answers, by content. */
  datatype ListReply =
    | NothingAvailable
    | NoMatch(notices: nat)                                              // no command passed the filter
    | CategoryCounts(counts: seq<(string, nat)>, total: nat)             // `$list category`
    | Listing(filtered: bool, groups: seq<(string, seq<Info>)>, total: nat)

  /** The chat type the listing is made for. */
  function ChatTypeOf(chatId: string): string {
    if IsGroupChat(chatId) then "group" else "private"
  }

  /** Each category with the number of commands it lists. */
  function CategorySizes(gs: seq<(string, seq<Info>)>): (cs: seq<(string, nat)>)
    ensures |cs| == |gs|
    ensures forall i :: 0 <= i < |gs| ==> cs[i] == (gs[i].0, |gs[i].1|)
  {
    if gs == [] then [] else [(gs[0].0, |gs[0].1|)] + CategorySizes(gs[1..])
  }

  /** The filter value, "" when it is missing. */
  function FilterValue(args: seq<string>): string {
    if |args| >= 2 then args[1] else ""
  }

  /** Whether the arguments ask for the category overview (the raw type, not lower-cased, is compared). */
  predicate WantsCategories(args: seq<string>) {
    |args| >= 1 && args[0] == "category" && FilterValue(args) == ""
  }

  /** `$list [filterType [filterValue]]` for a caller of tier `tier` in chat `chatId`, as written. */
  function Run(r: Registry, chatId: string, tier: string, args: seq<string>): (rep: ListReply)
    ensures ListForUser(r, tier, ChatTypeOf(chatId)) == [] <==> rep.NothingAvailable?
    ensures rep.Listing? ==> rep.total == Grouping.Total(rep.groups) && rep.groups != []
    ensures rep.CategoryCounts? ==>
      rep.total == Grouping.Total(ListForUser(r, tier, ChatTypeOf(chatId)))
    ensures rep.Listing? && !rep.filtered ==> rep.groups == ListForUser(r, tier, ChatTypeOf(chatId))
    ensures rep.Listing? && rep.filtered ==>
      |args| >= 1 && rep.groups == FilterGroups(ListForUser(r, tier, ChatTypeOf(chatId)), FilterOf(args[0]), FilterValue(args))
    ensures rep.NoMatch? <==>
      && ListForUser(r, tier, ChatTypeOf(chatId)) != []
      && |args| >= 1 && args[0] != "" && !WantsCategories(args)
      && FilterGroups(ListForUser(r, tier, ChatTypeOf(chatId)), FilterOf(args[0]), FilterValue(args)) == []
    ensures rep.NoMatch? ==>
      rep.notices == UnknownNoticesAsWritten(ListForUser(r, tier, ChatTypeOf(chatId)), FilterOf(args[0]))
  {
    var gs := ListForUser(r, tier, ChatTypeOf(chatId));
    if gs == [] then NothingAvailable
    else if |args| == 0 || args[0] == "" then Listing(false, gs, Grouping.Total(gs))
    else
      var f := FilterOf(args[0]);
      var value := FilterValue(args);
      if WantsCategories(args) then CategoryCounts(CategorySizes(gs), Grouping.Total(gs))
      else
        var fs := FilterGroups(gs, f, value);
        if fs != [] then Listing(true, fs, Grouping.Total(fs)) else NoMatch(UnknownNoticesAsWritten(gs, f))
  }

  /** `$list` with the unknown-filter notice given once per reply, as it is evidently meant. */
  function RunCorrected(r: Registry, chatId: string, tier: string, args: seq<string>): (rep: ListReply)
    ensures !Run(r, chatId, tier, args).NoMatch? ==> rep == Run(r, chatId, tier, args)
    ensures Run(r, chatId, tier, args).NoMatch? ==> |args| >= 1 && rep == NoMatch(UnknownNotices(FilterOf(args[0])))
  {
    var rep := Run(r, chatId, tier, args);
    if rep.NoMatch? then NoMatch(UnknownNotices(FilterOf(args[0]))) else rep
  }

  /** Only the exact word "category" without a value lists the categories. */
  lemma CategoryWordCounts(r: Registry, chatId: string, tier: string)
    requires ListForUser(r, tier, ChatTypeOf(chatId)) != []
    ensures Run(r, chatId, tier, ["category"]) ==
      CategoryCounts(CategorySizes(ListForUser(r, tier, ChatTypeOf(chatId))),
                     Grouping.Total(ListForUser(r, tier, ChatTypeOf(chatId))))
  {
  }

  /** Its short form "cat" selects the same filter but, without a value, lists every command. */
  lemma CatListsEverything(r: Registry, chatId: string, tier: string)
    requires ListForUser(r, tier, ChatTypeOf(chatId)) != []
    ensures Run(r, chatId, tier, ["cat"]) ==
      Listing(true, ListForUser(r, tier, ChatTypeOf(chatId)), Grouping.Total(ListForUser(r, tier, ChatTypeOf(chatId))))
  {
    var gs := ListForUser(r, tier, ChatTypeOf(chatId));
    FilterWords();
    EmptyValueKeepsAll(gs, ByCategory);
    assert "cat" != "category" by {
      assert |"cat"| != |"category"|;
    }
    calc {
      Run(r, chatId, tier, ["cat"]);
      { assert ["cat"][0] == "cat" && |["cat"]| == 1; }
      if FilterGroups(gs, FilterOf("cat"), "") != [] then
        Listing(true, FilterGroups(gs, FilterOf("cat"), ""), Grouping.Total(FilterGroups(gs, FilterOf("cat"), "")))
      else NoMatch(UnknownNoticesAsWritten(gs, FilterOf("cat")));
      Listing(true, gs, Grouping.Total(gs));
    }
  }

  /**
    An unknown filter type, for a caller who has commands, gets the no-match
    reply: as written with one notice per listed command, corrected with one.
   */
  lemma UnknownFilterAnswer(r: Registry, chatId: string, tier: string, args: seq<string>)
    requires ListForUser(r, tier, ChatTypeOf(chatId)) != []
    requires |args| >= 1 && args[0] != "" && FilterOf(args[0]).UnknownFilter?
    ensures Run(r, chatId, tier, args) == NoMatch(Grouping.Total(ListForUser(r, tier, ChatTypeOf(chatId))))
    ensures RunCorrected(r, chatId, tier, args) == NoMatch(1)
  {
    var gs := ListForUser(r, tier, ChatTypeOf(chatId));
    UnknownKeepsNothing(gs, FilterValue(args));
    FilterWords();
    assert args[0] != "category";
  }

  /** The `$list` descriptor: open to every tier in every chat, aliases ls, commands, cmds and show. */
  const LIST: Command := CreateCommand("list", Options(
    Some(["ls", "commands", "cmds", "show"]),
    None,
    Some("List all available commands with filters"),
    Some([USER, ADMIN, SUPER_USER]),
    Some("general"),
    Some("both"),
    Some("$list | $list category utility | $list permission super-user")))

  /** The listing crown: exactly the permission list ["super-user"]. */
  predicate ListCrown(permissions: seq<string>) {
    |permissions| == 1 && permissions[0] == SUPER_USER
  }
}
